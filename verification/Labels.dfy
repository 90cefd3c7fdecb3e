/**
 Domain names as RFC 1035 labels, with compression pointers (sections 3.1 and 4.1.4).

 A name is its bytes, parts separated by dots. `Decode` is a recursive reading of
 the RFC with the source's restrictions (at most one pointer per name, and a name
 cut off by the end of the data, or by a pointer past it, ends the decoding
 without an error); `LabelsFromBytes` is the source's single loop over a position,
 a saved position and a flag, proved to compute it.
 */
module Labels {
  import opened Wire

  type Name = Bytes

  datatype LabelError = NestedPointer | PointerTooShort | BufferTooShort

  const DOT: byte := 46

  // Names and their parts.

  function Join(parts: seq<Bytes>): Name {
    if parts == [] then []
    else if |parts| == 1 then parts[0]
    else parts[0] + [DOT] + Join(parts[1..])
  }

  /** `strings.Split(name, ".")`: never empty, and the empty name has one empty part. */
  function Split(name: Name): (parts: seq<Bytes>)
    ensures |parts| > 0
  {
    if name == [] then [[]]
    else
      var rest := Split(name[1..]);
      if name[0] == DOT then [[]] + rest else [[name[0]] + rest[0]] + rest[1..]
  }

  lemma {:induction false} JoinSplit(name: Name)
    ensures Join(Split(name)) == name
  {
    if name != [] {
      var rest := Split(name[1..]);
      JoinSplit(name[1..]);
      if name[0] == DOT {
        assert Split(name)[1..] == rest;
        assert Join(Split(name)) == [] + [DOT] + Join(rest);
      } else {
        assert Split(name)[1..] == rest[1..];
      }
    }
  }

  lemma {:induction false} SplitDotFree(part: Bytes)
    requires DOT !in part
    ensures Split(part) == [part]
  {
    if part != [] {
      SplitDotFree(part[1..]);
      assert [part[0]] + part[1..] == part;
    }
  }

  /** Cutting at one dot cuts the parts in two. */
  lemma {:induction false} SplitAtDot(a: Bytes, b: Bytes)
    ensures Split(a + [DOT] + b) == Split(a) + Split(b)
  {
    var s := a + [DOT] + b;
    if a == [] {
      assert s[1..] == b;
    } else {
      assert s[1..] == a[1..] + [DOT] + b;
      SplitAtDot(a[1..], b);
      SplitFirst(s, Split(a[1..]), Split(b));
      SplitFirst(a, Split(a[1..]), []);
      assert Split(a[1..]) + [] == Split(a[1..]);
    }
  }

  lemma {:induction false} SplitFirst(s: Bytes, p: seq<Bytes>, q: seq<Bytes>)
    requires s != [] && p != [] && Split(s[1..]) == p + q
    ensures Split(s) == (if s[0] == DOT then [[]] + p else [[s[0]] + p[0]] + p[1..]) + q
  {
  }

  /** `Split` undoes `Join` on parts without dots. */
  lemma {:induction false} SplitJoin(parts: seq<Bytes>)
    requires |parts| > 0 && forall p :: p in parts ==> DOT !in p
    ensures Split(Join(parts)) == parts
  {
    SplitDotFree(parts[0]);
    if |parts| > 1 {
      SplitAtDot(parts[0], Join(parts[1..]));
      SplitJoin(parts[1..]);
      assert [parts[0]] + parts[1..] == parts;
    } else {
      assert [parts[0]] == parts;
    }
  }

  lemma {:induction false} SplitWithin(s: Bytes, n: nat)
    requires |s| <= n
    ensures forall q :: q in Split(s) ==> |q| <= n
  {
    if s != [] {
      SplitWithin(s[1..], n - 1);
    }
  }

  lemma {:induction false} JoinConcat(a: seq<Bytes>, b: seq<Bytes>)
    requires a != [] && b != []
    ensures Join(a + b) == Join(a) + [DOT] + Join(b)
  {
    if |a| == 1 {
      assert (a + b)[1..] == b;
    } else {
      assert (a + b)[1..] == a[1..] + b;
      JoinConcat(a[1..], b);
    }
  }

  // Decoding.

  /** What stands at a position: a complete name and where the next one starts, no more data, or an error. */
  datatype Reading = Complete(parts: seq<Bytes>, next: nat) | End | Malformed(error: LabelError)

  /** `length&0xc0 == 0xc0`. */
  predicate IsPointer(b: byte) {
    b >= 192
  }

  function Target(hi: byte, lo: byte): nat
    requires IsPointer(hi)
  {
    (hi - 192) * 256 + lo
  }

  function ReadName(buf: Bytes, pos: nat, viaPointer: bool): (r: Reading)
    ensures r.Complete? ==> pos < r.next <= |buf| && (r.parts != [] ==> r.parts[0] != [])
    decreases !viaPointer, |buf| - pos
  {
    if pos >= |buf| then End
    else if buf[pos] == 0 then Complete([], pos + 1)
    else if IsPointer(buf[pos]) then
      if viaPointer then Malformed(NestedPointer)
      else if pos + 1 >= |buf| then Malformed(PointerTooShort)
      else
        var r := ReadName(buf, Target(buf[pos], buf[pos + 1]), true);
        if r.Complete? then Complete(r.parts, pos + 2) else r
    else
      var after := pos + 1 + buf[pos];
      if after > |buf| then Malformed(BufferTooShort)
      else
        var r := ReadName(buf, after, viaPointer);
        if r.Complete? then Complete([buf[pos + 1..after]] + r.parts, r.next) else r
  }

  function Prepend(names: seq<Name>, r: Result<seq<Name>, LabelError>): Result<seq<Name>, LabelError> {
    if r.Ok? then Ok(names + r.value) else r
  }

  function DecodeFrom(buf: Bytes, pos: nat): Result<seq<Name>, LabelError>
    decreases |buf| - pos
  {
    match ReadName(buf, pos, false)
    case End => Ok([])
    case Malformed(error) => Err(error)
    case Complete(parts, next) => Prepend([Join(parts)], DecodeFrom(buf, next))
  }

  function Decode(buf: Bytes): Result<seq<Name>, LabelError> {
    DecodeFrom(buf, 0)
  }

  /** How the loop grows a name. */
  function Extend(name: Name, chunk: Bytes): Name {
    if name == [] then chunk else name + [DOT] + chunk
  }

  ghost function JoinOnto(name: Name, parts: seq<Bytes>): Name
    decreases parts
  {
    if parts == [] then name else JoinOnto(Extend(name, parts[0]), parts[1..])
  }

  lemma {:induction false} JoinOntoIsJoin(name: Name, parts: seq<Bytes>)
    requires name != []
    ensures JoinOnto(name, parts) == Join([name] + parts)
    decreases parts
  {
    if parts == [] {
      assert [name] + parts == [name];
    } else {
      JoinOntoIsJoin(Extend(name, parts[0]), parts[1..]);
      assert ([name] + parts)[1..] == parts;
      if |parts| == 1 {
        assert [Extend(name, parts[0])] + parts[1..] == [Extend(name, parts[0])];
      } else {
        assert ([Extend(name, parts[0])] + parts[1..])[1..] == parts[1..];
      }
    }
  }

  /** What the loop still has to produce: the rest of a name begun with `name`, then the names from `resume` on. */
  ghost function Outcome(buf: Bytes, pos: nat, viaPointer: bool, resume: nat, name: Name): Result<seq<Name>, LabelError> {
    match ReadName(buf, pos, viaPointer)
    case End => Ok([])
    case Malformed(error) => Err(error)
    case Complete(more, next) =>
      Prepend([JoinOnto(name, more)], DecodeFrom(buf, if viaPointer then resume else next))
  }

  lemma {:induction false} OutcomeAtStart(buf: Bytes, pos: nat, resume: nat)
    ensures Outcome(buf, pos, false, resume, []) == DecodeFrom(buf, pos)
  {
    var r := ReadName(buf, pos, false);
    if r.Complete? && r.parts != [] {
      JoinOntoIsJoin(r.parts[0], r.parts[1..]);
      assert [r.parts[0]] + r.parts[1..] == r.parts;
    }
  }

  lemma {:induction false} OutcomeAtZero(buf: Bytes, pos: nat, viaPointer: bool, resume: nat, name: Name,
                                         names: seq<Name>)
    requires pos < |buf| && buf[pos] == 0
    ensures var next := if viaPointer then resume else pos + 1;
      Prepend(names, Outcome(buf, pos, viaPointer, resume, name))
      == Prepend(names + [name], Outcome(buf, next, false, resume, []))
  {
    var next := if viaPointer then resume else pos + 1;
    OutcomeAtStart(buf, next, resume);
    var rest := DecodeFrom(buf, next);
    if rest.Ok? {
      assert names + ([name] + rest.value) == names + [name] + rest.value;
    }
  }

  lemma {:induction false} OutcomeAtPointer(buf: Bytes, pos: nat, resume: nat, name: Name)
    requires pos + 1 < |buf| && IsPointer(buf[pos])
    ensures Outcome(buf, pos, false, resume, name)
      == Outcome(buf, Target(buf[pos], buf[pos + 1]), true, pos + 2, name)
  {
  }

  lemma {:induction false} OutcomeAtPart(buf: Bytes, pos: nat, after: nat, viaPointer: bool, resume: nat,
                                         name: Name, chunk: Bytes)
    requires pos < |buf| && buf[pos] != 0 && !IsPointer(buf[pos])
    requires after == pos + 1 + buf[pos] && after <= |buf| && chunk == buf[pos + 1..after]
    ensures Outcome(buf, pos, viaPointer, resume, name)
      == Outcome(buf, after, viaPointer, resume, Extend(name, chunk))
  {
    var r := ReadName(buf, after, viaPointer);
    if r.Complete? {
      assert ([chunk] + r.parts)[1..] == r.parts;
    }
  }

  lemma {:induction false} OutcomeFromZero(buf: Bytes)
    ensures Prepend([], Outcome(buf, 0, false, 0, [])) == Decode(buf)
  {
    OutcomeAtStart(buf, 0, 0);
    assert Decode(buf).Ok? ==> [] + Decode(buf).value == Decode(buf).value;
  }

  /** Iterations that `bytes` bytes of the outer position pay for: each one, and a detour through a pointer. */
  ghost function Budget(bytes: nat, n: nat): nat {
    if bytes == 0 then 0 else Budget(bytes - 1, n) + n + 1
  }

  lemma {:induction false} BudgetGrows(a: nat, b: nat, n: nat)
    requires a < b
    ensures Budget(a, n) + n + 1 <= Budget(b, n)
  {
    if a < b - 1 {
      BudgetGrows(a, b - 1, n);
    }
  }

  lemma {:induction false} BudgetIsProduct(bytes: nat, n: nat)
    ensures Budget(bytes, n) == bytes * (n + 1)
  {
    if bytes > 0 {
      BudgetIsProduct(bytes - 1, n);
    }
  }

  /** The most iterations the decoding loop makes on `n` bytes. */
  ghost function MaxIterations(n: nat): nat {
    Budget(n, n) + n
  }

  lemma {:induction false} MaxIterationsIsQuadratic(n: nat)
    ensures MaxIterations(n) == n * (n + 2)
  {
    BudgetIsProduct(n, n);
  }

  /** The variables of the loop: `resume` is the saved position, in use while `viaPointer`. */
  datatype Cursor = Cursor(labels: seq<Name>, pos: nat, viaPointer: bool, resume: nat, name: Name) {
    /** The bytes of the outer position that are behind the loop, not counting the last byte of a pointer in use. */
    ghost function Behind(): int {
      if viaPointer then resume - 1 else pos
    }

    /** The bytes of the outer position that are still to come. */
    ghost function Ahead(n: nat): int {
      n - if viaPointer then resume else pos
    }

    /** The iterations of a detour cannot be more than the bytes it has passed. */
    ghost function Detour(n: nat): nat {
      if !viaPointer then 0 else if pos < n then pos else n
    }

    /** The loop's variables agree with the recursive reading. */
    ghost predicate Agrees(buf: Bytes) {
      Decode(buf) == Prepend(labels, Outcome(buf, pos, viaPointer, resume, name))
    }

    /** The iterations so far are paid for by the bytes behind the loop, and so are the names. */
    ghost predicate Paid(n: nat, iterations: nat) {
      && (if viaPointer then 2 <= resume <= n else pos <= n)
      && |labels| <= Behind()
      && iterations <= Budget(Behind(), n) + Detour(n)
    }

    ghost predicate Tracks(buf: Bytes, iterations: nat) {
      Agrees(buf) && Paid(|buf|, iterations)
    }
  }

  /** Why the loop gives up at the cursor, if it does. */
  ghost function Refusal(buf: Bytes, c: Cursor): Option<LabelError>
    requires c.pos < |buf|
  {
    if buf[c.pos] == 0 then None
    else if IsPointer(buf[c.pos]) then
      if c.viaPointer then Some(NestedPointer) else if c.pos + 1 >= |buf| then Some(PointerTooShort) else None
    else if c.pos + 1 + buf[c.pos] > |buf| then Some(BufferTooShort) else None
  }

  /** One turn of the loop. */
  ghost function Turn(buf: Bytes, c: Cursor): Cursor
    requires c.pos < |buf| && Refusal(buf, c).None?
  {
    if buf[c.pos] == 0 then Cursor(c.labels + [c.name], if c.viaPointer then c.resume else c.pos + 1, false, c.resume, [])
    else if IsPointer(buf[c.pos]) then Cursor(c.labels, Target(buf[c.pos], buf[c.pos + 1]), true, c.pos + 2, c.name)
    else
      var after := c.pos + 1 + buf[c.pos];
      c.(pos := after, name := Extend(c.name, buf[c.pos + 1..after]))
  }

  lemma {:induction false} TracksFromStart(buf: Bytes)
    ensures Cursor([], 0, false, 0, []).Tracks(buf, 0)
  {
    OutcomeFromZero(buf);
  }

  lemma {:induction false} TracksPastZero(buf: Bytes, c: Cursor, iterations: nat)
    requires c.Tracks(buf, iterations) && c.pos < |buf| && buf[c.pos] == 0
    ensures Turn(buf, c).Tracks(buf, iterations + 1)
  {
    OutcomeAtZero(buf, c.pos, c.viaPointer, c.resume, c.name, c.labels);
    BudgetGrows(c.Behind(), if c.viaPointer then c.resume else c.pos + 1, |buf|);
  }

  lemma {:induction false} TracksPastPointer(buf: Bytes, c: Cursor, iterations: nat)
    requires c.Tracks(buf, iterations) && !c.viaPointer && c.pos + 1 < |buf| && IsPointer(buf[c.pos])
    ensures Turn(buf, c).Tracks(buf, iterations + 1)
  {
    OutcomeAtPointer(buf, c.pos, c.resume, c.name);
    BudgetGrows(c.Behind(), c.pos + 1, |buf|);
  }

  lemma {:induction false} TracksPastPart(buf: Bytes, c: Cursor, iterations: nat, after: nat)
    requires c.Tracks(buf, iterations) && c.pos < |buf| && buf[c.pos] != 0 && !IsPointer(buf[c.pos])
    requires after == c.pos + 1 + buf[c.pos] <= |buf|
    ensures Turn(buf, c).Tracks(buf, iterations + 1)
  {
    TurnAtPart(buf, c, after, buf[c.pos + 1..after]);
    AgreesPastPart(buf, c, after, buf[c.pos + 1..after]);
    PaidPastPart(c, |buf|, iterations, after, Extend(c.name, buf[c.pos + 1..after]));
  }

  lemma {:induction false} TurnAtPart(buf: Bytes, c: Cursor, after: nat, part: Bytes)
    requires c.pos < |buf| && buf[c.pos] != 0 && !IsPointer(buf[c.pos])
    requires after == c.pos + 1 + buf[c.pos] <= |buf| && part == buf[c.pos + 1..after]
    ensures Turn(buf, c) == c.(pos := after, name := Extend(c.name, part))
  {
  }

  lemma {:induction false} AgreesPastPart(buf: Bytes, c: Cursor, after: nat, part: Bytes)
    requires c.Agrees(buf) && c.pos < |buf| && buf[c.pos] != 0 && !IsPointer(buf[c.pos])
    requires after == c.pos + 1 + buf[c.pos] <= |buf| && part == buf[c.pos + 1..after]
    ensures c.(pos := after, name := Extend(c.name, part)).Agrees(buf)
  {
    OutcomeAtPart(buf, c.pos, after, c.viaPointer, c.resume, c.name, part);
  }

  lemma {:induction false} PaidPastPart(c: Cursor, n: nat, iterations: nat, after: nat, name: Name)
    requires c.Paid(n, iterations) && c.pos < after <= n
    ensures c.(pos := after, name := name).Paid(n, iterations + 1)
  {
    if !c.viaPointer {
      BudgetGrows(c.Behind(), after, n);
    }
  }

  /** Where the loop stops, it stops with the answer and within its bound. */
  lemma {:induction false} TracksToAnswer(buf: Bytes, c: Cursor, iterations: nat)
    requires c.Tracks(buf, iterations)
    ensures c.pos >= |buf| ==> Decode(buf) == Ok(c.labels) && |c.labels| <= |buf| && iterations <= MaxIterations(|buf|)
    ensures c.pos < |buf| ==> iterations < MaxIterations(|buf|)
    ensures c.pos < |buf| && ReadName(buf, c.pos, c.viaPointer).Malformed? ==>
      Decode(buf) == Err(ReadName(buf, c.pos, c.viaPointer).error)
  {
    assert c.labels + [] == c.labels;
    if c.Behind() < |buf| {
      BudgetGrows(c.Behind(), |buf|, |buf|);
    }
  }

  lemma {:induction false} TurnTracks(buf: Bytes, c: Cursor, iterations: nat)
    requires c.Tracks(buf, iterations) && c.pos < |buf| && Refusal(buf, c).None?
    ensures Turn(buf, c).Tracks(buf, iterations + 1)
  {
    if buf[c.pos] == 0 {
      TracksPastZero(buf, c, iterations);
    } else if IsPointer(buf[c.pos]) {
      TracksPastPointer(buf, c, iterations);
    } else {
      TracksPastPart(buf, c, iterations, c.pos + 1 + buf[c.pos]);
    }
  }

  /** The three-part measure of the loop: what is left outside, being on a detour, what is left of the detour. */
  lemma {:induction false} TurnDecreases(buf: Bytes, c: Cursor, iterations: nat)
    requires c.Tracks(buf, iterations) && c.pos < |buf| && Refusal(buf, c).None?
    ensures var d, n := Turn(buf, c), |buf|;
      && 0 <= c.Ahead(n)
      && (|| d.Ahead(n) < c.Ahead(n)
          || (d.Ahead(n) == c.Ahead(n) && c.viaPointer && !d.viaPointer)
          || (d.Ahead(n) == c.Ahead(n) && c.viaPointer == d.viaPointer && d.pos > c.pos))
  {
  }

  lemma {:induction false} RefusedIsMalformed(buf: Bytes, c: Cursor, iterations: nat)
    requires c.Tracks(buf, iterations) && c.pos < |buf| && Refusal(buf, c).Some?
    ensures Decode(buf) == Err(Refusal(buf, c).value) && iterations < MaxIterations(|buf|)
  {
    TracksToAnswer(buf, c, iterations);
  }

  /** The body of the loop. */
  method DecodeTurn(buf: Bytes, c: Cursor) returns (error: Option<LabelError>, d: Cursor)
    requires c.pos < |buf|
    ensures error == Refusal(buf, c)
    ensures error.None? ==> d == Turn(buf, c)
  {
    var labels, pos, handlingPointer, oldPos, name := c.labels, c.pos, c.viaPointer, c.resume, c.name;
    var length := buf[pos];
    pos := pos + 1;
    if length == 0 {
      labels := labels + [name];
      name := [];
      if handlingPointer {
        pos := oldPos;
        handlingPointer := false;
      }
    } else if IsPointer(length) {
      if handlingPointer {
        return Some(NestedPointer), c;
      }
      handlingPointer := true;
      if pos + 1 > |buf| {
        return Some(PointerTooShort), c;
      }
      var high: int := buf[pos - 1];
      var off := high % 64 * 256 + buf[pos];
      oldPos := pos + 1;
      pos := off;
    } else {
      if pos + length > |buf| {
        return Some(BufferTooShort), c;
      }
      name := Extend(name, buf[pos..pos + length]);
      pos := pos + length;
    }
    return None, Cursor(labels, pos, handlingPointer, oldPos, name);
  }

  method LabelsFromBytes(buf: Bytes) returns (r: Result<seq<Name>, LabelError>, ghost iterations: nat)
    ensures r == Decode(buf)
    ensures r.Ok? ==> |r.value| <= |buf|
    ensures iterations <= MaxIterations(|buf|)
  {
    var c := Cursor([], 0, false, 0, []);
    iterations := 0;
    TracksFromStart(buf);
    while c.pos < |buf|
      invariant c.Tracks(buf, iterations)
      decreases c.Ahead(|buf|), c.viaPointer, |buf| - c.pos
    {
      if Refusal(buf, c).Some? {
        RefusedIsMalformed(buf, c, iterations);
      } else {
        TurnTracks(buf, c, iterations);
        TurnDecreases(buf, c, iterations);
      }
      var error, d := DecodeTurn(buf, c);
      iterations := iterations + 1;
      if error.Some? {
        return Err(error.value), iterations;
      }
      c := d;
    }
    TracksToAnswer(buf, c, iterations);
    r := Ok(c.labels);
  }
}
