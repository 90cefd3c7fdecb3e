/** Marshalling the option map, and when parsing gives the map back. */
module V4Marshal {
  import opened Wire
  import opened V4Options

  /** One code with its value, in pieces of at most 255 bytes. */
  function Chunks(code: byte, v: Bytes): Bytes {
    if v == [] then []
    else
      var n := ChunkLength(v);
      [code, n] + v[..n] + Chunks(code, v[n..])
  }

  function ChunkLength(v: Bytes): (n: byte)
    requires v != []
    ensures 0 < n <= |v|
  {
    if |v| > 255 then 255 else |v|
  }

  /** The keys from `i` on, in ascending order. */
  function KeysFrom(m: OptMap, i: nat): seq<byte>
    requires i <= 256
    decreases 256 - i
  {
    if i == 256 then []
    else if i in m then [i] + KeysFrom(m, i + 1)
    else KeysFrom(m, i + 1)
  }

  function MarshalKeys(m: OptMap, keys: seq<byte>): Bytes
    requires forall k | k in keys :: k in m
  {
    if keys == [] then []
    else (if keys[0] == END then [] else Chunks(keys[0], m[keys[0]])) + MarshalKeys(m, keys[1..])
  }

  lemma {:induction false} KeysAreThere(m: OptMap, i: nat)
    requires i <= 256
    ensures forall k | k in KeysFrom(m, i) :: k in m && k >= i
    ensures forall k | k in m && k >= i :: k in KeysFrom(m, i)
    ensures Ascending(KeysFrom(m, i))
    decreases 256 - i
  {
    if i < 256 {
      KeysAreThere(m, i + 1);
      var rest := KeysFrom(m, i + 1);
      assert forall j | 0 <= j < |rest| :: rest[j] in rest;
    }
  }

  predicate Ascending(keys: seq<byte>) {
    forall i, j | 0 <= i < j < |keys| :: keys[i] < keys[j]
  }

  function Marshal(m: OptMap): Bytes {
    KeysAreThere(m, 0);
    MarshalKeys(m, KeysFrom(m, 0))
  }

  lemma {:induction false} MarshalNothing()
    ensures Marshal(map[]) == []
  {
    var keys := KeysFrom(map[], 0);
    assert keys != [] ==> keys[0] in keys;
    KeysAreThere(map[], 0);
  }

  /** Keys that no reader takes for padding or for the end, with values that marshalling does not drop. */
  predicate Kept(m: OptMap) {
    forall k | k in m :: k != PAD && k != END && m[k] != []
  }

  function ChunkItems(code: byte, v: Bytes): (items: seq<Item>)
    ensures code != PAD && code != END ==> AllValid(items)
  {
    if v == [] then []
    else
      var n := ChunkLength(v);
      [Opt(code, v[..n])] + ChunkItems(code, v[n..])
  }

  function KeyItems(m: OptMap, keys: seq<byte>): seq<Item>
    requires forall k | k in keys :: k in m
  {
    if keys == [] then [] else ChunkItems(keys[0], m[keys[0]]) + KeyItems(m, keys[1..])
  }

  lemma {:induction false} SpellConcat(a: seq<Item>, b: seq<Item>)
    ensures Spell(a + b) == Spell(a) + Spell(b)
  {
    if a == [] {
      assert a + b == b;
    } else {
      var rest := a[1..] + b;
      assert a == [a[0]] + a[1..] && a + b == [a[0]] + rest;
      SpellCons(a[0], rest);
      SpellCons(a[0], a[1..]);
      SpellConcat(a[1..], b);
      Assoc(ItemBytes(a[0]), Spell(a[1..]), Spell(b));
    }
  }

  lemma {:induction false} JoinedConcat(a: seq<Item>, b: seq<Item>, code: byte)
    ensures Joined(a + b, code) == Joined(a, code) + Joined(b, code)
  {
    if a == [] {
      assert a + b == b;
    } else {
      assert (a + b)[1..] == a[1..] + b;
      JoinedConcat(a[1..], b, code);
    }
  }

  lemma {:induction false} ChunksSpell(code: byte, v: Bytes)
    requires code != PAD && code != END
    ensures Spell(ChunkItems(code, v)) == Chunks(code, v)
  {
    if v != [] {
      var n := ChunkLength(v);
      ChunksSpell(code, v[n..]);
      SpellCons(Opt(code, v[..n]), ChunkItems(code, v[n..]));
    }
  }

  /** The pieces of a value join up to the value, and say nothing about other codes. */
  lemma {:induction false} ChunksJoin(code: byte, v: Bytes, c: byte)
    ensures Joined(ChunkItems(code, v), c) == if c == code then v else []
  {
    if v != [] {
      var n := ChunkLength(v);
      ChunksJoin(code, v[n..], c);
      assert ChunkItems(code, v)[1..] == ChunkItems(code, v[n..]);
      assert v[..n] + v[n..] == v;
    }
  }

  lemma {:induction false} ChunksValid(m: OptMap, keys: seq<byte>)
    requires forall k | k in keys :: k in m && k != PAD && k != END
    ensures AllValid(KeyItems(m, keys))
  {
    if keys != [] {
      assert forall k | k in keys[1..] :: k in keys;
      ChunksValid(m, keys[1..]);
    }
  }

  lemma {:induction false} KeysSpell(m: OptMap, keys: seq<byte>)
    requires forall k | k in keys :: k in m && k != PAD && k != END
    ensures AllValid(KeyItems(m, keys))
    ensures Spell(KeyItems(m, keys)) == MarshalKeys(m, keys)
  {
    ChunksValid(m, keys);
    if keys != [] {
      assert forall k | k in keys[1..] :: k in keys;
      KeysSpell(m, keys[1..]);
      ChunksSpell(keys[0], m[keys[0]]);
      SpellConcat(ChunkItems(keys[0], m[keys[0]]), KeyItems(m, keys[1..]));
    }
  }

  lemma {:induction false} KeysJoin(m: OptMap, keys: seq<byte>, c: byte)
    requires forall k | k in keys :: k in m
    requires Ascending(keys)
    ensures Joined(KeyItems(m, keys), c) == if c in keys then m[c] else []
  {
    if keys != [] {
      KeysJoin(m, keys[1..], c);
      ChunksJoin(keys[0], m[keys[0]], c);
      JoinedConcat(ChunkItems(keys[0], m[keys[0]]), KeyItems(m, keys[1..]), c);
    }
  }

  predicate NoneEmpty(items: seq<Item>) {
    forall i | 0 <= i < |items| && items[i].Opt? :: items[i].data != []
  }

  lemma {:induction false} MentionedIffJoined(items: seq<Item>, code: byte)
    requires NoneEmpty(items)
    ensures Mentions(items, code) <==> Joined(items, code) != []
  {
    if items != [] {
      MentionsSplit(items, code);
      MentionedIffJoined(items[1..], code);
    }
  }

  lemma {:induction false} ChunksNoneEmpty(code: byte, v: Bytes)
    ensures NoneEmpty(ChunkItems(code, v))
  {
    if v != [] {
      ChunksNoneEmpty(code, v[ChunkLength(v)..]);
    }
  }

  lemma {:induction false} KeysNoneEmpty(m: OptMap, keys: seq<byte>)
    requires forall k | k in keys :: k in m
    ensures NoneEmpty(KeyItems(m, keys))
  {
    if keys != [] {
      ChunksNoneEmpty(keys[0], m[keys[0]]);
      KeysNoneEmpty(m, keys[1..]);
    }
  }

  /** The tails after which the map is as the items say. */
  predicate CleanTail(tail: Bytes, checkEnd: bool) {
    (tail != [] && tail[0] == END && AllPads(tail[1..])) || (tail == [] && !checkEnd)
  }

  function WithoutEmpty(m: OptMap): OptMap {
    map k | k in m && m[k] != [] :: m[k]
  }

  lemma {:induction false} CollectMarshalled(m: OptMap, keys: seq<byte>)
    requires keys == KeysFrom(m, 0)
    requires forall k | k in keys :: k in m
    ensures Collect(map[], KeyItems(m, keys)) == WithoutEmpty(m)
  {
    var items := KeyItems(m, keys);
    var found := Collect(map[], items);
    forall c: byte
      ensures Get(found, c) == Get(m, c) && (c in found <==> c in m && m[c] != [])
    {
      MarshalledValue(m, keys, c);
    }
  }

  lemma {:induction false} MarshalledValue(m: OptMap, keys: seq<byte>, c: byte)
    requires keys == KeysFrom(m, 0)
    requires forall k | k in keys :: k in m
    ensures var found := Collect(map[], KeyItems(m, keys));
            Get(found, c) == Get(m, c) && (c in found <==> c in m && m[c] != [])
  {
    var items := KeyItems(m, keys);
    KeysAreThere(m, 0);
    KeysNoneEmpty(m, keys);
    CollectJoins(map[], items, c);
    KeysJoin(m, keys, c);
    MentionedIffJoined(items, c);
  }

  lemma {:induction false} ParseClean(items: seq<Item>, tail: Bytes, checkEnd: bool)
    requires AllValid(items) && CleanTail(tail, checkEnd)
    ensures Parse(map[], Spell(items) + tail, checkEnd) == Parsed(Collect(map[], items), None)
  {
    ParseItems(map[], items, tail, checkEnd);
    ParseTail(Collect(map[], items), tail, checkEnd);
  }

  /** Every value but the empty ones is found again. */
  lemma {:induction false} ParseMarshalled(m: OptMap, tail: Bytes, checkEnd: bool)
    requires forall k | k in m :: k != PAD && k != END
    requires CleanTail(tail, checkEnd)
    ensures Parse(map[], Marshal(m) + tail, checkEnd) == Parsed(WithoutEmpty(m), None)
  {
    KeysAreThere(m, 0);
    var keys := KeysFrom(m, 0);
    KeysSpell(m, keys);
    ParseClean(KeyItems(m, keys), tail, checkEnd);
    CollectMarshalled(m, keys);
  }

  /** Parsing never makes an entry for padding or for the end. */
  lemma {:induction false} ParsedKeys(data: Bytes, checkEnd: bool)
    ensures forall k | k in Parse(map[], data, checkEnd).options :: k != PAD && k != END
  {
    if data != [] {
      AcceptIff(map[], data, checkEnd);
      forall k: byte
        ensures k in Collect(map[], ItemsOf(data)) ==> k != PAD && k != END
      {
        CollectJoins(map[], ItemsOf(data), k);
      }
    }
  }

  /** The map comes back exactly when it has no padding or end key and no empty value. */
  lemma {:induction false} RoundTripIff(m: OptMap, tail: Bytes, checkEnd: bool)
    requires CleanTail(tail, checkEnd)
    ensures Parse(map[], Marshal(m) + tail, checkEnd) == Parsed(m, None) <==> Kept(m)
  {
    ParsedKeys(Marshal(m) + tail, checkEnd);
    if forall k | k in m :: k != PAD && k != END {
      ParseMarshalled(m, tail, checkEnd);
      var found := WithoutEmpty(m);
      if found == m {
        assert forall k | k in m :: k in found;
      }
    }
  }

  // Every map.

  /** What is left of a map on the wire: no End option and no empty values. */
  function Clean(m: OptMap): OptMap {
    map k | k in m && k != 255 && m[k] != [] :: m[k]
  }

  /** What is marshalled for code `i`. */
  function Piece(m: OptMap, i: byte): Bytes {
    if i == 255 || i !in m then [] else Chunks(i, m[i])
  }

  function MarshalFrom(m: OptMap, i: nat): Bytes
    requires i <= 256
  {
    KeysAreThere(m, i);
    MarshalKeys(m, KeysFrom(m, i))
  }

  lemma {:induction false} MarshalFromCons(m: OptMap, i: byte)
    ensures MarshalFrom(m, i) == Piece(m, i) + MarshalFrom(m, i + 1)
  {
    KeysAreThere(m, i);
    KeysAreThere(m, i + 1);
    if i in m {
      assert KeysFrom(m, i)[1..] == KeysFrom(m, i + 1);
    } else {
      assert [] + MarshalFrom(m, i + 1) == MarshalFrom(m, i + 1);
    }
  }

  lemma {:induction false} PieceOfClean(m: OptMap, i: byte)
    ensures Piece(Clean(m), i) == Piece(m, i)
  {
  }

  lemma {:induction false} MarshalFromClean(m: OptMap, i: nat)
    requires i <= 256
    ensures MarshalFrom(Clean(m), i) == MarshalFrom(m, i)
    decreases 256 - i
  {
    if i < 256 {
      MarshalFromCons(m, i);
      MarshalFromCons(Clean(m), i);
      PieceOfClean(m, i);
      MarshalFromClean(m, i + 1);
    }
  }

  /** Any map is read as its clean part, exactly when that has nothing under code 0, which reads as padding. */
  lemma {:induction false} ReadsAsCleanIff(m: OptMap, tail: Bytes, checkEnd: bool)
    requires CleanTail(tail, checkEnd)
    ensures Parse(map[], Marshal(m) + tail, checkEnd) == Parsed(Clean(m), None) <==> 0 !in m || m[0] == []
  {
    MarshalFromClean(m, 0);
    assert Marshal(m) == Marshal(Clean(m));
    assert WithoutEmpty(Clean(m)) == Clean(m);
    if 0 !in m || m[0] == [] {
      ParseMarshalled(Clean(m), tail, checkEnd);
    } else {
      assert 0 in Clean(m);
      ParsedKeys(Marshal(m) + tail, checkEnd);
    }
  }

  function MarshalledLength(m: OptMap, keys: seq<byte>): nat {
    if keys == [] then 0
    else (if keys[0] == END then 0 else ValueLength(|Get(m, keys[0])|)) + MarshalledLength(m, keys[1..])
  }

  function ValueLength(n: nat): nat {
    n + 2 * ((n + 254) / 255)
  }

  lemma {:induction false} ChunksLength(code: byte, v: Bytes)
    ensures |Chunks(code, v)| == ValueLength(|v|)
  {
    if v != [] {
      ChunksLength(code, v[ChunkLength(v)..]);
    }
  }

  /** Every value costs its own bytes and two for every 255 of them or part of it. */
  lemma {:induction false} MarshalLength(m: OptMap, keys: seq<byte>)
    requires forall k | k in keys :: k in m
    ensures |MarshalKeys(m, keys)| == MarshalledLength(m, keys)
  {
    if keys != [] {
      ChunksLength(keys[0], m[keys[0]]);
      MarshalLength(m, keys[1..]);
    }
  }
}
