/**
 Bytes, big-endian integers and the cursor that every codec in the repository is
 written against.

 The cursor (`uio.Lexer`) belongs to another repository, so `Lexer` states the
 contract the codecs rely on: it is big-endian, its first error is sticky, a
 short read consumes nothing and yields nil or zero, a zero-length read always
 succeeds, and `FinError` also fails on unread bytes.
 */
module Wire {

  type byte = b: int | 0 <= b < 256
  type u16 = v: int | 0 <= v < 0x1_0000
  type u32 = v: int | 0 <= v < 0x1_0000_0000

  type Bytes = seq<byte>

  datatype Option<+T> = None | Some(value: T)

  datatype Result<+T, +E> = Ok(value: T) | Err(error: E)

  // What parsing loops have so far, and what the recursive readings give for the rest.

  function Prefixed<T>(xs: seq<T>, rest: Option<seq<T>>): Option<seq<T>> {
    if rest.None? then None else Some(xs + rest.value)
  }

  lemma {:induction false} PrefixedByNothing<T>(r: Option<seq<T>>)
    ensures Prefixed([], r) == r
  {
    if r.Some? {
      assert [] + r.value == r.value;
    }
  }

  lemma {:induction false} PrefixedByOne<T>(xs: seq<T>, x: T, rest: Option<seq<T>>)
    ensures Prefixed(xs, Prefixed([x], rest)) == Prefixed(xs + [x], rest)
  {
    if rest.Some? {
      assert xs + ([x] + rest.value) == xs + [x] + rest.value;
    }
  }

  lemma {:induction false} Assoc(a: Bytes, b: Bytes, c: Bytes)
    ensures a + (b + c) == a + b + c
  {
  }

  /** The two bytes of `uint16(v)`, most significant first; higher bits are dropped. */
  function Put16(v: int): (b: Bytes)
    ensures |b| == 2
  {
    [v / 256 % 256, v % 256]
  }

  function Get16(b: Bytes): (v: u16)
    requires |b| == 2
  {
    var hi: int, lo: int := b[0], b[1];
    hi * 256 + lo
  }

  /** The four bytes of a 32-bit value, most significant first. */
  function Put32(v: u32): (b: Bytes)
    ensures |b| == 4
  {
    Put16(v / 0x1_0000) + Put16(v)
  }

  function Get32(b: Bytes): (v: u32)
    requires |b| == 4
  {
    var hi: int, lo: int := Get16(b[..2]), Get16(b[2..]);
    hi * 0x1_0000 + lo
  }

  lemma {:induction false} Get16Put16(v: int)
    ensures Get16(Put16(v)) == v % 0x1_0000
  {
  }

  lemma {:induction false} Put16Get16(b: Bytes)
    requires |b| == 2
    ensures Put16(Get16(b)) == b
  {
  }

  lemma {:induction false} Get32Put32(v: u32)
    ensures Get32(Put32(v)) == v
  {
    assert Put32(v)[..2] == Put16(v / 0x1_0000);
    assert Put32(v)[2..] == Put16(v);
    Get16Put16(v / 0x1_0000);
    Get16Put16(v);
  }

  lemma {:induction false} Put16Low(hi: int, lo: u16)
    ensures Put16(hi * 0x1_0000 + lo) == Put16(lo)
  {
    var v := hi * 0x1_0000 + lo;
    assert v == 256 * (hi * 256 + lo / 256) + lo % 256;
    assert v / 256 == hi * 256 + lo / 256;
  }

  lemma {:induction false} Put32Get32(b: Bytes)
    requires |b| == 4
    ensures Put32(Get32(b)) == b
  {
    var hi: int, lo: int := Get16(b[..2]), Get16(b[2..]);
    assert (hi * 0x1_0000 + lo) / 0x1_0000 == hi;
    Put16Low(hi, lo);
    Put16Get16(b[..2]);
    Put16Get16(b[2..]);
  }

  class Lexer {
    var data: Bytes
    var failed: bool

    constructor (data: Bytes)
      ensures this.data == data && !failed
    {
      this.data, failed := data, false;
    }

    predicate Has(n: nat)
      reads this
    {
      n <= |data|
    }

    /** Succeeds when no read failed and nothing is left. */
    predicate FinOk()
      reads this
    {
      !failed && data == []
    }

    /** The next `n` bytes, or nil and a sticky error when there are fewer. */
    method Consume(n: nat) returns (v: Option<Bytes>)
      modifies this
      ensures old(Has(n)) ==> v == Some(old(data)[..n]) && data == old(data)[n..] && failed == old(failed)
      ensures !old(Has(n)) ==> v == None && data == old(data) && failed
    {
      if n <= |data| {
        v := Some(data[..n]);
        data := data[n..];
      } else {
        v := None;
        failed := true;
      }
    }

    /** `CopyN`, and `ReadBytes` up to the zero fill that its callers keep: nil is the empty sequence. */
    method Read(n: nat) returns (v: Bytes)
      modifies this
      ensures old(Has(n)) ==> v == old(data)[..n] && data == old(data)[n..] && failed == old(failed)
      ensures !old(Has(n)) ==> v == [] && data == old(data) && failed
    {
      var r := Consume(n);
      v := if r.Some? then r.value else [];
    }

    method ReadAll() returns (v: Bytes)
      modifies this
      ensures v == old(data) && data == [] && failed == old(failed)
    {
      v := Read(|data|);
    }

    method Read8() returns (v: byte)
      modifies this
      ensures old(Has(1)) ==> v == old(data)[0] && data == old(data)[1..] && failed == old(failed)
      ensures !old(Has(1)) ==> v == 0 && data == old(data) && failed
    {
      var r := Consume(1);
      v := if r.Some? then r.value[0] else 0;
    }

    method Read16() returns (v: u16)
      modifies this
      ensures old(Has(2)) ==> v == Get16(old(data)[..2]) && data == old(data)[2..] && failed == old(failed)
      ensures !old(Has(2)) ==> v == 0 && data == old(data) && failed
    {
      var r := Consume(2);
      v := if r.Some? then Get16(r.value) else 0;
    }

    method Read32() returns (v: u32)
      modifies this
      ensures old(Has(4)) ==> v == Get32(old(data)[..4]) && data == old(data)[4..] && failed == old(failed)
      ensures !old(Has(4)) ==> v == 0 && data == old(data) && failed
    {
      var r := Consume(4);
      v := if r.Some? then Get32(r.value) else 0;
    }

    method Write(b: Bytes)
      modifies this
      ensures data == old(data) + b && failed == old(failed)
    {
      data := data + b;
    }
  }
}
