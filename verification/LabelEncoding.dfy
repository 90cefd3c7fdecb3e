/**
 The label encoders, exactly which lists of names survive a round trip, decoding
 of compressed names, and the `Labels` object with its cached original encoding.
 */
module LabelEncoding {
  import opened Wire
  import opened Labels

  const MAX_DECODABLE_PART := 191

  function EncodeParts(parts: seq<Bytes>): Bytes {
    if parts == [] then [] else [|parts[0]| % 256] + parts[0] + EncodeParts(parts[1..])
  }

  function EncodeName(name: Name): Bytes {
    if name == [] then [0] else EncodeParts(Split(name)) + [0]
  }

  function EncodeNames(names: seq<Name>): Bytes {
    if names == [] then [] else EncodeName(names[0]) + EncodeNames(names[1..])
  }

  lemma {:induction false} EncodePartsAppend(parts: seq<Bytes>, part: Bytes)
    ensures EncodeParts(parts + [part]) == EncodeParts(parts) + [|part| % 256] + part
  {
    if parts == [] {
      assert parts + [part] == [part];
      assert [part][1..] == [];
    } else {
      assert (parts + [part])[1..] == parts[1..] + [part];
      EncodePartsAppend(parts[1..], part);
    }
  }

  lemma {:induction false} EncodeNamesAppend(names: seq<Name>, name: Name)
    ensures EncodeNames(names + [name]) == EncodeNames(names) + EncodeName(name)
  {
    if names == [] {
      assert names + [name] == [name];
      assert [name][1..] == [];
    } else {
      assert (names + [name])[1..] == names[1..] + [name];
      EncodeNamesAppend(names[1..], name);
    }
  }

  method LabelToBytes(name: Name) returns (encoded: Bytes)
    ensures encoded == EncodeName(name)
  {
    if |name| == 0 {
      return [0];
    }
    encoded := [];
    var parts := Split(name);
    for i := 0 to |parts|
      invariant encoded == EncodeParts(parts[..i])
    {
      assert parts[..i + 1] == parts[..i] + [parts[i]];
      EncodePartsAppend(parts[..i], parts[i]);
      encoded := encoded + [|parts[i]| % 256];
      encoded := encoded + parts[i];
    }
    assert parts[..|parts|] == parts;
    encoded := encoded + [0];
  }

  lemma {:induction false} EncodeNamesUpTo(names: seq<Name>, i: nat)
    requires i < |names|
    ensures EncodeNames(names[..i + 1]) == EncodeNames(names[..i]) + EncodeName(names[i])
  {
    assert names[..i + 1] == names[..i] + [names[i]];
    EncodeNamesAppend(names[..i], names[i]);
  }

  method LabelsToBytes(names: seq<Name>) returns (encoded: Bytes)
    ensures encoded == EncodeNames(names)
  {
    encoded := [];
    for i := 0 to |names|
      invariant encoded == EncodeNames(names[..i])
    {
      EncodeNamesUpTo(names, i);
      var e := LabelToBytes(names[i]);
      encoded := encoded + e;
    }
    assert names[..|names|] == names;
  }

  // Reading back what was written.

  predicate Fits(part: Bytes) {
    |part| <= MAX_DECODABLE_PART
  }

  ghost predicate AllFit(parts: seq<Bytes>) {
    forall p :: p in parts ==> Fits(p)
  }

  /** `encoded` stands in `buf` at `pos`. */
  ghost predicate At(buf: Bytes, pos: nat, encoded: Bytes) {
    pos + |encoded| <= |buf| && buf[pos..pos + |encoded|] == encoded
  }

  lemma {:induction false} AtSplit(buf: Bytes, pos: nat, a: Bytes, b: Bytes)
    requires At(buf, pos, a + b)
    ensures At(buf, pos, a) && At(buf, pos + |a|, b)
  {
    var both := buf[pos..pos + |a + b|];
    assert both[..|a|] == a && both[|a|..] == b;
    assert buf[pos..pos + |a|] == both[..|a|];
    assert buf[pos + |a|..pos + |a| + |b|] == both[|a|..];
  }

  function Onto(parts: seq<Bytes>, r: Reading): Reading {
    if r.Complete? then Complete(parts + r.parts, r.next) else r
  }

  /** The first of the encoded parts at `pos`, and where the others stand. */
  lemma {:induction false} FirstPart(buf: Bytes, pos: nat, parts: seq<Bytes>, after: nat)
    requires parts != [] && Fits(parts[0]) && At(buf, pos, EncodeParts(parts)) && after == pos + 1 + |parts[0]|
    ensures pos < |buf| && after <= |buf| && buf[pos] == |parts[0]| && buf[pos + 1..after] == parts[0]
    ensures At(buf, after, EncodeParts(parts[1..]))
    ensures after + |EncodeParts(parts[1..])| == pos + |EncodeParts(parts)|
  {
    var head: Bytes := [|parts[0]|];
    assert EncodeParts(parts) == (head + parts[0]) + EncodeParts(parts[1..]);
    AtSplit(buf, pos, head + parts[0], EncodeParts(parts[1..]));
    AtSplit(buf, pos, head, parts[0]);
    assert buf[pos] == buf[pos..pos + 1][0];
  }

  lemma {:induction false} AtTerminated(buf: Bytes, pos: nat, e: Bytes, rest: Bytes, zero: nat)
    requires At(buf, pos, e + [0] + rest) && zero == pos + |e|
    ensures At(buf, pos, e) && zero < |buf| && buf[zero] == 0 && At(buf, zero + 1, rest)
  {
    AtSplit(buf, pos, e + [0], rest);
    AtSplit(buf, pos, e, [0]);
    assert buf[zero] == buf[zero..zero + 1][0];
  }

  lemma {:induction false} ReadOnePart(buf: Bytes, pos: nat, viaPointer: bool, part: Bytes, after: nat)
    requires part != [] && Fits(part) && after == pos + 1 + |part| <= |buf|
    requires buf[pos] == |part| && buf[pos + 1..after] == part
    ensures ReadName(buf, pos, viaPointer) == Onto([part], ReadName(buf, after, viaPointer))
  {
  }

  lemma {:induction false} OntoParts(parts: seq<Bytes>, r: Reading)
    ensures parts == [] ==> Onto(parts, r) == r
    ensures parts != [] ==> Onto(parts, r) == Onto([parts[0]], Onto(parts[1..], r))
  {
    if r.Complete? {
      assert parts == [] ==> parts + r.parts == r.parts;
      assert parts != [] ==> [parts[0]] + (parts[1..] + r.parts) == parts + r.parts;
    }
  }

  /** Encoded parts read back, whatever follows them at `stop`. */
  lemma {:induction false} ReadParts(buf: Bytes, pos: nat, viaPointer: bool, parts: seq<Bytes>, stop: nat)
    requires At(buf, pos, EncodeParts(parts)) && AllFit(parts) && [] !in parts && stop == pos + |EncodeParts(parts)|
    ensures ReadName(buf, pos, viaPointer) == Onto(parts, ReadName(buf, stop, viaPointer))
    decreases parts
  {
    var r := ReadName(buf, stop, viaPointer);
    OntoParts(parts, r);
    if parts != [] {
      var after := pos + 1 + |parts[0]|;
      assert parts[0] in parts;
      FirstPart(buf, pos, parts, after);
      ReadOnePart(buf, pos, viaPointer, parts[0], after);
      ReadParts(buf, after, viaPointer, parts[1..], stop);
    }
  }

  /** Encoded parts and a zero are a complete name. */
  lemma {:induction false} ReadTerminated(buf: Bytes, pos: nat, viaPointer: bool, parts: seq<Bytes>, zero: nat)
    requires At(buf, pos, EncodeParts(parts)) && AllFit(parts) && [] !in parts && zero == pos + |EncodeParts(parts)|
    requires zero < |buf| && buf[zero] == 0
    ensures ReadName(buf, pos, viaPointer) == Complete(parts, zero + 1)
  {
    ReadParts(buf, pos, viaPointer, parts, zero);
    assert parts + [] == parts;
  }

  /** What `EncodeName` writes before the final zero. */
  function PartsOf(name: Name): seq<Bytes> {
    if name == [] then [] else Split(name)
  }

  predicate Encodable(name: Name) {
    forall p :: p in PartsOf(name) ==> 1 <= |p| <= MAX_DECODABLE_PART
  }

  lemma {:induction false} EncodeNameParts(name: Name)
    ensures EncodeName(name) == EncodeParts(PartsOf(name)) + [0]
    ensures Join(PartsOf(name)) == name
  {
    JoinSplit(name);
  }

  /** The first of the encoded names at `pos`, and where the others stand. */
  lemma {:induction false} FirstName(buf: Bytes, pos: nat, names: seq<Name>, e: Bytes, zero: nat)
    requires names != [] && At(buf, pos, EncodeNames(names))
    requires e == EncodeParts(PartsOf(names[0])) && zero == pos + |e|
    ensures At(buf, pos, e) && zero < |buf| && buf[zero] == 0
    ensures At(buf, zero + 1, EncodeNames(names[1..]))
    ensures zero + 1 + |EncodeNames(names[1..])| == pos + |EncodeNames(names)|
  {
    EncodeNameParts(names[0]);
    AtTerminated(buf, pos, e, EncodeNames(names[1..]), zero);
  }

  lemma {:induction false} DecodeComplete(buf: Bytes, pos: nat, parts: seq<Bytes>, next: nat)
    requires ReadName(buf, pos, false) == Complete(parts, next)
    ensures DecodeFrom(buf, pos) == Prepend([Join(parts)], DecodeFrom(buf, next))
  {
  }

  /** One encodable name at `pos`, and decoding goes on behind it. */
  lemma {:induction false} DecodeOneName(buf: Bytes, pos: nat, name: Name, zero: nat)
    requires Encodable(name) && At(buf, pos, EncodeParts(PartsOf(name)))
    requires zero == pos + |EncodeParts(PartsOf(name))| < |buf| && buf[zero] == 0
    ensures DecodeFrom(buf, pos) == Prepend([name], DecodeFrom(buf, zero + 1))
  {
    EncodeNameParts(name);
    ReadTerminated(buf, pos, false, PartsOf(name), zero);
    DecodeComplete(buf, pos, PartsOf(name), zero + 1);
  }

  lemma {:induction false} DecodeEncodable(buf: Bytes, pos: nat, names: seq<Name>)
    requires At(buf, pos, EncodeNames(names)) && pos + |EncodeNames(names)| == |buf|
    requires forall n :: n in names ==> Encodable(n)
    ensures DecodeFrom(buf, pos) == Ok(names)
    decreases names
  {
    if names != [] {
      assert names[0] in names;
      var e := EncodeParts(PartsOf(names[0]));
      var zero := pos + |e|;
      FirstName(buf, pos, names, e, zero);
      DecodeOneName(buf, pos, names[0], zero);
      DecodeEncodable(buf, zero + 1, names[1..]);
      assert [names[0]] + names[1..] == names;
    }
  }

  // Which lists survive: the decoder's range, and the names an empty part costs.

  lemma {:induction false} ReadPartsFit(buf: Bytes, pos: nat, viaPointer: bool)
    ensures var r := ReadName(buf, pos, viaPointer); r.Complete? ==> AllFit(r.parts)
    decreases !viaPointer, |buf| - pos
  {
    if pos < |buf| && buf[pos] != 0 {
      if IsPointer(buf[pos]) {
        if !viaPointer && pos + 1 < |buf| {
          ReadPartsFit(buf, Target(buf[pos], buf[pos + 1]), true);
        }
      } else {
        ReadPartsFit(buf, pos + 1 + buf[pos], viaPointer);
      }
    }
  }

  lemma {:induction false} SplitJoinFits(parts: seq<Bytes>)
    requires AllFit(parts)
    ensures AllFit(Split(Join(parts)))
  {
    if parts != [] {
      assert parts[0] in parts;
      SplitWithin(parts[0], MAX_DECODABLE_PART);
      if |parts| > 1 {
        SplitAtDot(parts[0], Join(parts[1..]));
        SplitJoinFits(parts[1..]);
      }
    }
  }

  /** No name that comes out of the decoder has a part longer than 191 bytes. */
  lemma {:induction false} DecodedFit(buf: Bytes, pos: nat)
    ensures var r := DecodeFrom(buf, pos); r.Ok? ==> forall n :: n in r.value ==> AllFit(Split(n))
    decreases |buf| - pos
  {
    var r := ReadName(buf, pos, false);
    if r.Complete? {
      ReadPartsFit(buf, pos, false);
      SplitJoinFits(r.parts);
      DecodedFit(buf, r.next);
    }
  }

  function Empties(parts: seq<Bytes>): nat {
    if parts == [] then 0 else (if parts[0] == [] then 1 else 0) + Empties(parts[1..])
  }

  function EmptyParts(names: seq<Name>): nat {
    if names == [] then 0 else Empties(PartsOf(names[0])) + EmptyParts(names[1..])
  }

  /** Every empty part is read as the end of a name. */
  lemma {:induction false} PartsCount(buf: Bytes, pos: nat, parts: seq<Bytes>)
    requires At(buf, pos, EncodeParts(parts)) && AllFit(parts)
    ensures var a, b := DecodeFrom(buf, pos), DecodeFrom(buf, pos + |EncodeParts(parts)|);
      b.Ok? ==> a.Ok? && |a.value| == |b.value| + Empties(parts)
    decreases parts
  {
    if parts != [] {
      var after := pos + 1 + |parts[0]|;
      assert parts[0] in parts;
      FirstPart(buf, pos, parts, after);
      PartsCount(buf, after, parts[1..]);
    }
  }

  lemma {:induction false} NamesCount(buf: Bytes, pos: nat, names: seq<Name>)
    requires At(buf, pos, EncodeNames(names)) && pos + |EncodeNames(names)| == |buf|
    requires forall n :: n in names ==> AllFit(PartsOf(n))
    ensures var r := DecodeFrom(buf, pos); r.Ok? && |r.value| == |names| + EmptyParts(names)
    decreases names
  {
    if names != [] {
      assert names[0] in names;
      var e := EncodeParts(PartsOf(names[0]));
      var zero := pos + |e|;
      FirstName(buf, pos, names, e, zero);
      NamesCount(buf, zero + 1, names[1..]);
      NameCount(buf, pos, PartsOf(names[0]), zero, DecodeFrom(buf, zero + 1));
    }
  }

  lemma {:induction false} NameCount(buf: Bytes, pos: nat, parts: seq<Bytes>, zero: nat,
                                     rest: Result<seq<Name>, LabelError>)
    requires At(buf, pos, EncodeParts(parts)) && AllFit(parts) && zero == pos + |EncodeParts(parts)|
    requires zero < |buf| && buf[zero] == 0 && rest == DecodeFrom(buf, zero + 1) && rest.Ok?
    ensures var r := DecodeFrom(buf, pos); r.Ok? && |r.value| == |rest.value| + 1 + Empties(parts)
  {
    DecodeComplete(buf, zero, [], zero + 1);
    PartsCount(buf, pos, parts);
  }

  lemma {:induction false} SomeEmptyPart(parts: seq<Bytes>)
    requires [] in parts
    ensures Empties(parts) > 0
  {
    if parts[0] != [] {
      SomeEmptyPart(parts[1..]);
    }
  }

  lemma {:induction false} SomeEmptyParts(names: seq<Name>, name: Name)
    requires name in names && [] in PartsOf(name)
    ensures EmptyParts(names) > 0
  {
    if names[0] == name {
      SomeEmptyPart(PartsOf(name));
    } else {
      SomeEmptyParts(names[1..], name);
    }
  }

  /**
   Decoding what was encoded gives the names back exactly when every part of every non-empty name has
   1 to 191 bytes: the decoder takes any first byte below 192 for a length, and an empty part for an end.
   */
  lemma {:induction false} RoundTripIff(names: seq<Name>)
    ensures Decode(EncodeNames(names)) == Ok(names) <==> forall n :: n in names ==> Encodable(n)
  {
    var buf := EncodeNames(names);
    assert At(buf, 0, buf);
    if forall n :: n in names ==> Encodable(n) {
      DecodeEncodable(buf, 0, names);
    } else if Decode(buf) == Ok(names) {
      DecodedFit(buf, 0);
      NamesCount(buf, 0, names);
      var n :| n in names && !Encodable(n);
      assert [] in PartsOf(n);
      SomeEmptyParts(names, n);
    }
  }

  /** Names as RFC 1035 has them, parts of 1 to 63 bytes, are among those. */
  lemma {:induction false} RfcNamesRoundTrip(names: seq<Name>)
    requires forall n :: n in names ==> forall p :: p in PartsOf(n) ==> 1 <= |p| <= 63
    ensures Decode(EncodeNames(names)) == Ok(names)
  {
    RoundTripIff(names);
  }

  // Compression.

  /** The two bytes at `ptr` are a pointer: two bits set, and an offset in the other fourteen. */
  ghost predicate PointsTo(buf: Bytes, ptr: nat, off: nat) {
    ptr + 2 <= |buf| && off < 0x4000 && Get16(buf[ptr..ptr + 2]) == 0xc000 + off
  }

  lemma {:induction false} PointerTarget(buf: Bytes, ptr: nat, off: nat)
    requires PointsTo(buf, ptr, off)
    ensures IsPointer(buf[ptr]) && Target(buf[ptr], buf[ptr + 1]) == off
  {
    assert buf[ptr..ptr + 2] == [buf[ptr], buf[ptr + 1]];
  }

  lemma {:induction false} ReadPointer(buf: Bytes, ptr: nat, off: nat, suffix: seq<Bytes>)
    requires PointsTo(buf, ptr, off) && At(buf, off, EncodeParts(suffix) + [0]) && AllFit(suffix) && [] !in suffix
    ensures ReadName(buf, ptr, false) == Complete(suffix, ptr + 2)
  {
    var e := EncodeParts(suffix);
    PointerTarget(buf, ptr, off);
    assert e + [0] + [] == e + [0];
    AtTerminated(buf, off, e, [], off + |e|);
    ReadTerminated(buf, off, true, suffix, off + |e|);
  }

  /**
   A prefix followed by a pointer to offset `off`, where an uncompressed name stands, decodes to prefix,
   dot, that name, wherever in the buffer it is, and decoding resumes right after the pointer.
   */
  lemma {:induction false} CompressedName(buf: Bytes, pos: nat, prefix: seq<Bytes>, ptr: nat, off: nat, suffix: seq<Bytes>)
    requires At(buf, pos, EncodeParts(prefix)) && AllFit(prefix) && [] !in prefix && prefix != []
    requires ptr == pos + |EncodeParts(prefix)| && PointsTo(buf, ptr, off)
    requires At(buf, off, EncodeParts(suffix) + [0]) && AllFit(suffix) && [] !in suffix && suffix != []
    ensures DecodeFrom(buf, pos) == Prepend([Join(prefix) + [0x2e] + Join(suffix)], DecodeFrom(buf, ptr + 2))
  {
    ReadPointer(buf, ptr, off, suffix);
    ReadParts(buf, pos, false, prefix, ptr);
    JoinConcat(prefix, suffix);
  }

  // Every buffer.

  /** Whole parts of 1 to 191 bytes stand from `pos` up to `stop`. */
  ghost predicate PartsUpTo(buf: Bytes, pos: nat, parts: seq<Bytes>, stop: nat) {
    At(buf, pos, EncodeParts(parts)) && AllFit(parts) && [] !in parts && stop == pos + |EncodeParts(parts)|
  }

  /** No whole part stands at `stop`: the data end there or too soon after, or there is a zero or a pointer. */
  ghost predicate NoPartAt(buf: Bytes, stop: nat) {
    stop < |buf| ==> buf[stop] == 0 || buf[stop] >= 192 || stop + 1 + buf[stop] > |buf|
  }

  lemma {:induction false} PartsFrom(buf: Bytes, pos: nat) returns (parts: seq<Bytes>, stop: nat)
    requires pos <= |buf|
    ensures PartsUpTo(buf, pos, parts, stop) && NoPartAt(buf, stop)
    decreases |buf| - pos
  {
    if NoPartAt(buf, pos) {
      parts, stop := [], pos;
    } else {
      var after := pos + 1 + buf[pos];
      parts, stop := PartsFrom(buf, after);
      OnePartMore(buf, pos, buf[pos + 1..after], after, parts, stop);
      parts := [buf[pos + 1..after]] + parts;
    }
  }

  lemma {:induction false} OnePartMore(buf: Bytes, pos: nat, part: Bytes, after: nat, parts: seq<Bytes>, stop: nat)
    requires PartsUpTo(buf, after, parts, stop) && after == pos + 1 + |part| <= |buf|
    requires 1 <= |part| < 192 && buf[pos] == |part| && part == buf[pos + 1..after]
    ensures PartsUpTo(buf, pos, [part] + parts, stop)
  {
    assert ([part] + parts)[1..] == parts;
    assert EncodeParts([part] + parts) == [|part|] + part + EncodeParts(parts);
    assert buf[pos..stop] == [buf[pos]] + buf[pos + 1..after] + buf[after..stop];
  }

  /** What a name comes to at `stop`, where it has no further part. */
  lemma {:induction false} ReadAtStop(buf: Bytes, stop: nat, viaPointer: bool)
    requires stop <= |buf| && NoPartAt(buf, stop)
    ensures stop == |buf| ==> ReadName(buf, stop, viaPointer) == End
    ensures stop < |buf| && buf[stop] == 0 ==> ReadName(buf, stop, viaPointer) == Complete([], stop + 1)
    ensures stop < |buf| && 0 < buf[stop] < 192 ==> ReadName(buf, stop, viaPointer) == Malformed(BufferTooShort)
    ensures stop < |buf| && buf[stop] >= 192 && viaPointer ==> ReadName(buf, stop, true) == Malformed(NestedPointer)
    ensures stop + 1 == |buf| && buf[stop] >= 192 && !viaPointer ==> ReadName(buf, stop, false) == Malformed(PointerTooShort)
  {
  }

  lemma {:induction false} IsOffset(buf: Bytes, ptr: nat) returns (off: nat)
    requires ptr + 1 < |buf| && buf[ptr] >= 192
    ensures PointsTo(buf, ptr, off)
  {
    off := Get16(buf[ptr..ptr + 2]) - 0xc000;
  }

  /** What a name is that goes on at `off`, by a pointer at `ptr`. */
  ghost function Pointed(buf: Bytes, ptr: nat, prefix: seq<Bytes>, suffix: seq<Bytes>, halt: nat): Result<seq<Name>, LabelError> {
    if halt >= |buf| then Ok([])
    else if buf[halt] == 0 then Prepend([Join(prefix + suffix)], DecodeFrom(buf, ptr + 2))
    else if buf[halt] >= 192 then Err(NestedPointer)
    else Err(BufferTooShort)
  }

  /**
   Decoding read off the wire, for every buffer and position: parts up to some `stop`, and there the end
   of the data, a zero, a part that is cut off, a pointer that is cut off, or a pointer to an offset, where
   more parts stand up to some `halt`.
   */
  lemma {:induction false} DecodeLaw(buf: Bytes, pos: nat) returns (prefix: seq<Bytes>, stop: nat, off: nat,
                                                                    suffix: seq<Bytes>, halt: nat)
    requires pos <= |buf|
    ensures PartsUpTo(buf, pos, prefix, stop) && NoPartAt(buf, stop)
    ensures stop == |buf| ==> DecodeFrom(buf, pos) == Ok([])
    ensures stop < |buf| && buf[stop] == 0 ==>
      DecodeFrom(buf, pos) == Prepend([Join(prefix)], DecodeFrom(buf, stop + 1))
    ensures stop < |buf| && 0 < buf[stop] < 192 ==> DecodeFrom(buf, pos) == Err(BufferTooShort)
    ensures stop + 1 == |buf| && buf[stop] >= 192 ==> DecodeFrom(buf, pos) == Err(PointerTooShort)
    ensures stop + 1 < |buf| && buf[stop] >= 192 ==>
      && PointsTo(buf, stop, off)
      && (if off <= |buf| then PartsUpTo(buf, off, suffix, halt) && NoPartAt(buf, halt) else halt == off)
      && DecodeFrom(buf, pos) == Pointed(buf, stop, prefix, suffix, halt)
  {
    off, suffix, halt := 0, [], 0;
    prefix, stop := PartsFrom(buf, pos);
    ReadParts(buf, pos, false, prefix, stop);
    ReadAtStop(buf, stop, false);
    assert prefix + [] == prefix;
    if stop + 1 < |buf| && buf[stop] >= 192 {
      off, suffix, halt := PointedLaw(buf, pos, prefix, stop);
    }
  }

  lemma {:induction false} PointedLaw(buf: Bytes, pos: nat, prefix: seq<Bytes>, ptr: nat)
    returns (off: nat, suffix: seq<Bytes>, halt: nat)
    requires ReadName(buf, pos, false) == Onto(prefix, ReadName(buf, ptr, false))
    requires ptr + 1 < |buf| && buf[ptr] >= 192
    ensures PointsTo(buf, ptr, off)
    ensures if off <= |buf| then PartsUpTo(buf, off, suffix, halt) && NoPartAt(buf, halt) else halt == off
    ensures DecodeFrom(buf, pos) == Pointed(buf, ptr, prefix, suffix, halt)
  {
    off := IsOffset(buf, ptr);
    PointerTarget(buf, ptr, off);
    suffix, halt := [], off;
    if off <= |buf| {
      suffix, halt := PartsFrom(buf, off);
      ReadParts(buf, off, true, suffix, halt);
      ReadAtStop(buf, halt, true);
      assert suffix + [] == suffix;
    }
  }

  // The object.

  /**
   Parsed labels together with the bytes they were parsed from; a nil `original` is the empty sequence,
   which decodes and encodes alike. `Labels` may be edited freely between calls.
   */
  class LabelList {
    var original: Bytes
    var labels: seq<Name>

    /** Holds of every object that `FromBytes` and edits of `labels` can produce. */
    predicate Valid()
      reads this
    {
      Decode(original).Ok?
    }

    constructor ()
      ensures Valid() && original == [] && labels == []
    {
      original, labels := [], [];
    }

    method FromBytes(data: Bytes) returns (r: Result<(), LabelError>)
      modifies this
      ensures r.Ok? <==> Decode(data).Ok?
      ensures r.Ok? ==> Valid() && original == data && Decode(data) == Ok(labels)
      ensures r.Err? ==> Decode(data) == Err(r.error) && original == old(original) && labels == old(labels)
    {
      var labs, _ := LabelsFromBytes(data);
      if labs.Err? {
        return Err(labs.error);
      }
      original := data;
      labels := labs.value;
      r := Ok(());
    }

    /**
     The bytes are the cached ones while they still decode to the labels (or do not decode at all).
     In a valid object, decoding the result gives the current labels back whenever the labels are
     unedited or can be encoded, and not otherwise.
     */
    method ToBytes() returns (encoded: Bytes)
      ensures encoded == if Decode(original).Err? || Decode(original) == Ok(labels) then original else EncodeNames(labels)
      ensures Valid() ==>
        (Decode(encoded) == Ok(labels) <==>
          Decode(original) == Ok(labels) || forall n :: n in labels ==> Encodable(n))
    {
      RoundTripIff(labels);
      var originalLabels, _ := LabelsFromBytes(original);
      if originalLabels.Err? || (original != [] && originalLabels.value == labels) {
        return original;
      }
      encoded := LabelsToBytes(labels);
    }
  }
}
