/** The DHCPv4 option map as it is updated in place. */
module V4OptionMap {
  import opened Wire
  import opened V4Options
  import opened V4Marshal

  // Sorting the keys. The library's sort is modelled by insertion.

  function Insert(keys: seq<byte>, k: byte): (r: seq<byte>)
    requires Ascending(keys) && k !in keys
    ensures Ascending(r)
    ensures forall x :: x in r <==> x == k || x in keys
  {
    if keys == [] || k < keys[0] then [k] + keys
    else
      var rest := Insert(keys[1..], k);
      assert forall x | x in rest :: keys[0] < x;
      assert forall i | 0 <= i < |rest| :: rest[i] in rest;
      [keys[0]] + rest
  }

  lemma {:induction false} AscendingUnique(a: seq<byte>, b: seq<byte>)
    requires Ascending(a) && Ascending(b)
    requires forall x :: x in a <==> x in b
    ensures a == b
  {
    assert a != [] ==> a[0] in a;
    assert b != [] ==> b[0] in b;
    if a != [] && b != [] {
      assert a[0] in b && b[0] in a;
      assert a[0] == b[0];
      assert forall x :: x in a[1..] <==> x in a && x != a[0];
      assert forall x :: x in b[1..] <==> x in b && x != b[0];
      AscendingUnique(a[1..], b[1..]);
    }
  }

  /** One turn of the loop over options, in terms of what is read. */
  lemma {:induction false} ParseStep(m: OptMap, data: Bytes, checkEnd: bool)
    requires data != []
    ensures data[0] == PAD ==> ParseFrom(m, data, checkEnd) == ParseFrom(m, data[1..], checkEnd)
    ensures data[0] != PAD && data[0] != END && |data| == 1 ==>
              ParseFrom(m, data, checkEnd) == ParseFrom(Append(m, data[0], data[1..]), data[1..], checkEnd)
    ensures data[0] != PAD && data[0] != END && |data| > 1 ==>
              var n, rest := data[1], data[1..][1..];
              ParseFrom(m, data, checkEnd) ==
              if n > |rest| then Parsed(m, Some(ShortOption))
              else ParseFrom(Append(m, data[0], rest[..n]), rest[n..], checkEnd)
  {
    assert data[1..] == [] || data[1..][1..] == data[2..];
    if |data| > 1 && data[1] <= |data[2..]| {
      var n: nat := data[1];
      assert data[2..][..n] == data[2..2 + n] && data[2..][n..] == data[2 + n..];
    }
  }

  method OnlyPads(buf: Lexer) returns (ok: bool)
    modifies buf
    ensures ok == AllPads(old(buf.data))
  {
    while |buf.data| >= 1
      invariant AllPads(buf.data) <==> AllPads(old(buf.data))
      decreases |buf.data|
    {
      ghost var before := buf.data;
      var b := buf.Read8();
      assert before == [b] + buf.data;
      if b != PAD {
        return false;
      }
    }
    ok := true;
  }

  method WriteChunks(b: Lexer, code: byte, value: Bytes)
    modifies b
    ensures b.data == old(b.data) + Chunks(code, value) && b.failed == old(b.failed)
  {
    var data: Bytes := value;
    while |data| > 0
      invariant b.failed == old(b.failed)
      invariant b.data + Chunks(code, data) == old(b.data) + Chunks(code, value)
    {
      ghost var before := b.data;
      b.Write([code]);
      var n := if |data| > 255 then 255 else |data|;
      b.Write([n]);
      b.Write(data[..n]);
      ChunkStep(before, code, data, n);
      data := data[n..];
    }
  }

  lemma {:induction false} ChunkStep(before: Bytes, code: byte, data: Bytes, n: byte)
    requires data != [] && n == ChunkLength(data)
    ensures before + Chunks(code, data) == before + [code] + [n] + data[..n] + Chunks(code, data[n..])
  {
  }

  lemma {:induction false} MarshalStep(m: OptMap, keys: seq<byte>, i: nat, before: Bytes)
    requires i < |keys|
    requires forall k | k in keys :: k in m
    ensures keys[i] == END ==> before + MarshalKeys(m, keys[i..]) == before + MarshalKeys(m, keys[i + 1..])
    ensures keys[i] != END ==>
              before + MarshalKeys(m, keys[i..]) == before + Chunks(keys[i], m[keys[i]]) + MarshalKeys(m, keys[i + 1..])
  {
    MarshalFirst(m, keys[i..], keys[i + 1..]);
    if keys[i] != END {
      Assoc(before, Chunks(keys[i], m[keys[i]]), MarshalKeys(m, keys[i + 1..]));
    }
  }

  lemma {:induction false} MarshalFirst(m: OptMap, keys: seq<byte>, rest: seq<byte>)
    requires keys != [] && rest == keys[1..]
    requires forall k | k in keys :: k in m
    ensures keys[0] == END ==> MarshalKeys(m, keys) == MarshalKeys(m, rest)
    ensures keys[0] != END ==> MarshalKeys(m, keys) == Chunks(keys[0], m[keys[0]]) + MarshalKeys(m, rest)
  {
  }

  class Options {
    var m: OptMap

    constructor ()
      ensures m == map[]
    {
      m := map[];
    }

    method Update(code: byte, value: Bytes)
      modifies this
      ensures m == old(m)[code := value]
    {
      m := m[code := value];
    }

    /** What an error leaves behind is part of the result. */
    method FromBytesCheckEnd(data: Bytes, checkEnd: bool) returns (error: Option<OptError>)
      modifies this
      ensures Parsed(m, error) == Parse(old(m), data, checkEnd)
    {
      if data == [] {
        return None;
      }
      var buf := new Lexer(data);
      var end := false;
      while |buf.data| >= 1
        invariant fresh(buf) && !end
        invariant ParseFrom(m, buf.data, checkEnd) == ParseFrom(old(m), data, checkEnd)
        decreases |buf.data|
      {
        ParseStep(m, buf.data, checkEnd);
        var code := buf.Read8();
        if code == PAD {
          continue;
        } else if code == END {
          end := true;
          break;
        }
        var n := buf.Read8();
        var v := buf.Consume(n);
        if v.None? {
          return Some(ShortOption);
        }
        m := Append(m, code, v.value);
      }
      if !end && checkEnd {
        return Some(UnexpectedEOF);
      }
      var ok := OnlyPads(buf);
      error := if ok then None else Some(InvalidOptions);
    }

    method FromBytes(data: Bytes) returns (error: Option<OptError>)
      modifies this
      ensures Parsed(m, error) == Parse(old(m), data, false)
    {
      error := FromBytesCheckEnd(data, false);
    }

    /** The map's keys come in any order. */
    method SortedKeys() returns (keys: seq<byte>)
      ensures keys == KeysFrom(m, 0)
    {
      keys := [];
      var rest := m.Keys;
      while rest != {}
        invariant rest <= m.Keys && Ascending(keys)
        invariant forall k :: k in keys <==> k in m && k !in rest
        decreases |rest|
      {
        var k :| k in rest;
        keys := Insert(keys, k);
        rest := rest - {k};
      }
      KeysAreThere(m, 0);
      AscendingUnique(keys, KeysFrom(m, 0));
    }

    method Marshal(b: Lexer)
      modifies b
      ensures b.data == old(b.data) + V4Marshal.Marshal(m) && b.failed == old(b.failed)
    {
      var keys := SortedKeys();
      KeysAreThere(m, 0);
      ghost var all := old(b.data) + V4Marshal.Marshal(m);
      for i := 0 to |keys|
        invariant b.failed == old(b.failed)
        invariant b.data + MarshalKeys(m, keys[i..]) == all
      {
        MarshalStep(m, keys, i, b.data);
        if keys[i] != END {
          WriteChunks(b, keys[i], m[keys[i]]);
        }
      }
    }

    method ToBytes() returns (b: Bytes)
      ensures b == V4Marshal.Marshal(m)
    {
      var buf := new Lexer([]);
      Marshal(buf);
      b := buf.data;
    }
  }

  /** The options of a list, one after the other; a later one replaces an earlier one with its code. */
  function Listed(list: seq<(byte, Bytes)>): OptMap {
    if list == [] then map[]
    else Listed(list[..|list| - 1])[list[|list| - 1].0 := list[|list| - 1].1]
  }

  lemma {:induction false} LastOneCounts(list: seq<(byte, Bytes)>, i: nat)
    requires i < |list| && forall j | i < j < |list| :: list[j].0 != list[i].0
    ensures list[i].0 in Listed(list) && Listed(list)[list[i].0] == list[i].1
  {
    if i < |list| - 1 {
      LastOneCounts(list[..|list| - 1], i);
    }
  }

  method OptionsFromList(list: seq<(byte, Bytes)>) returns (o: Options)
    ensures fresh(o) && o.m == Listed(list)
  {
    o := new Options();
    for i := 0 to |list|
      invariant fresh(o) && o.m == Listed(list[..i])
    {
      o.Update(list[i].0, list[i].1);
      assert list[..i + 1][..i] == list[..i];
    }
    assert list[..|list|] == list;
  }
}
