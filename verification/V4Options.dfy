/**
 DHCPv4 options (RFC 2132, with the splitting of long options of RFC 3396): what
 parsing and marshalling the option map compute, and the grammar of the bytes.
 */
module V4Options {
  import opened Wire

  const PAD: byte := 0
  const END: byte := 255

  type OptMap = map<byte, Bytes>

  datatype OptError = ShortOption | UnexpectedEOF | InvalidOptions

  /** What is left in the map, which an error does not undo, and the error if there is one. */
  datatype Parsed = Parsed(options: OptMap, error: Option<OptError>)

  function Get(m: OptMap, code: byte): Bytes {
    if code in m then m[code] else []
  }

  function Append(m: OptMap, code: byte, data: Bytes): OptMap {
    m[code := Get(m, code) + data]
  }

  predicate AllPads(data: Bytes) {
    forall i | 0 <= i < |data| :: data[i] == PAD
  }

  /** The loop over options. A code that is the last byte is an option without a length, taken as empty. */
  function ParseFrom(m: OptMap, data: Bytes, checkEnd: bool): Parsed
    decreases |data|
  {
    if data == [] then Parsed(m, if checkEnd then Some(UnexpectedEOF) else None)
    else if data[0] == PAD then ParseFrom(m, data[1..], checkEnd)
    else if data[0] == END then Parsed(m, if AllPads(data[1..]) then None else Some(InvalidOptions))
    else if |data| == 1 then ParseFrom(Append(m, data[0], []), [], checkEnd)
    else if 2 + data[1] > |data| then Parsed(m, Some(ShortOption))
    else ParseFrom(Append(m, data[0], data[2..2 + data[1]]), data[2 + data[1]..], checkEnd)
  }

  /** No bytes at all are accepted, even where an End option is asked for. */
  function Parse(m: OptMap, data: Bytes, checkEnd: bool): Parsed {
    if data == [] then Parsed(m, None) else ParseFrom(m, data, checkEnd)
  }

  // The grammar.

  datatype Item = Pad | Opt(code: byte, data: Bytes)

  predicate Valid(item: Item) {
    item.Opt? ==> item.code != PAD && item.code != END && |item.data| <= 255
  }

  predicate AllValid(items: seq<Item>) {
    forall i | 0 <= i < |items| :: Valid(items[i])
  }

  function ItemBytes(item: Item): Bytes {
    if item.Pad? then [PAD] else [item.code, |item.data| % 256] + item.data
  }

  function Spell(items: seq<Item>): Bytes {
    if items == [] then [] else ItemBytes(items[0]) + Spell(items[1..])
  }

  function Absorb(m: OptMap, item: Item): OptMap {
    if item.Pad? then m else Append(m, item.code, item.data)
  }

  function Collect(m: OptMap, items: seq<Item>): OptMap
    decreases items
  {
    if items == [] then m else Collect(Absorb(m, items[0]), items[1..])
  }

  /** What the items say about one code: all its occurrences, joined in order. */
  function Joined(items: seq<Item>, code: byte): Bytes {
    if items == [] then []
    else Said(items[0], code) + Joined(items[1..], code)
  }

  function Said(item: Item, code: byte): Bytes {
    if item.Opt? && item.code == code then item.data else []
  }

  predicate Mentions(items: seq<Item>, code: byte) {
    exists i :: 0 <= i < |items| && items[i].Opt? && items[i].code == code
  }

  /** What may follow the items: End and padding, or without the check nothing or a code without a length. */
  predicate GoodTail(tail: Bytes, checkEnd: bool) {
    || (tail != [] && tail[0] == END && AllPads(tail[1..]))
    || (!checkEnd && (tail == [] || (|tail| == 1 && tail[0] != PAD)))
  }

  /** An occurrence adds to the end of the code's value, whatever other codes and pads stand between. */
  lemma {:induction false} CollectJoins(m: OptMap, items: seq<Item>, code: byte)
    ensures Get(Collect(m, items), code) == Get(m, code) + Joined(items, code)
    ensures code in Collect(m, items) <==> code in m || Mentions(items, code)
    decreases items
  {
    if items == [] {
      assert Get(m, code) + [] == Get(m, code);
    } else {
      CollectJoins(Absorb(m, items[0]), items[1..], code);
      MentionsSplit(items, code);
      AbsorbSays(m, items[0], code);
      Assoc(Get(m, code), Said(items[0], code), Joined(items[1..], code));
    }
  }

  lemma {:induction false} AbsorbSays(m: OptMap, item: Item, code: byte)
    ensures Get(Absorb(m, item), code) == Get(m, code) + Said(item, code)
    ensures code in Absorb(m, item) <==> code in m || (item.Opt? && item.code == code)
  {
  }

  lemma {:induction false} MentionsSplit(items: seq<Item>, code: byte)
    requires items != []
    ensures Mentions(items, code) <==> (items[0].Opt? && items[0].code == code) || Mentions(items[1..], code)
  {
    var rest := items[1..];
    if Mentions(rest, code) {
      var i :| 0 <= i < |rest| && rest[i].Opt? && rest[i].code == code;
      assert items[i + 1] == rest[i];
    }
    if Mentions(items, code) && !(items[0].Opt? && items[0].code == code) {
      var i :| 0 <= i < |items| && items[i].Opt? && items[i].code == code;
      assert rest[i - 1] == items[i];
    }
  }

  lemma {:induction false} SpellCons(item: Item, items: seq<Item>)
    ensures Spell([item] + items) == ItemBytes(item) + Spell(items)
  {
    assert ([item] + items)[1..] == items;
  }

  /** Items in front of anything are collected, and the rest is parsed as if it stood alone. */
  lemma {:induction false} ParseItems(m: OptMap, items: seq<Item>, rest: Bytes, checkEnd: bool)
    requires AllValid(items)
    ensures ParseFrom(m, Spell(items) + rest, checkEnd) == ParseFrom(Collect(m, items), rest, checkEnd)
    decreases items
  {
    if items == [] {
      assert [] + rest == rest;
    } else {
      ParseItem(m, items[0], Spell(items[1..]) + rest, checkEnd);
      ParseItems(Absorb(m, items[0]), items[1..], rest, checkEnd);
      Assoc(ItemBytes(items[0]), Spell(items[1..]), rest);
    }
  }

  lemma {:induction false} ParseItem(m: OptMap, item: Item, rest: Bytes, checkEnd: bool)
    requires Valid(item)
    ensures ParseFrom(m, ItemBytes(item) + rest, checkEnd) ==
            ParseFrom(Absorb(m, item), rest, checkEnd)
  {
    var b := ItemBytes(item) + rest;
    if item.Pad? {
      assert b[1..] == rest;
    } else {
      assert b[2..2 + b[1]] == item.data && b[2 + b[1]..] == rest;
    }
  }

  /** No item stands at the front. */
  predicate Stuck(data: Bytes) {
    data == [] || data[0] == END || (data[0] != PAD && (|data| == 1 || 2 + data[1] > |data|))
  }

  /** How many bytes the item at the front takes. */
  function FirstLength(data: Bytes): (n: nat)
    requires !Stuck(data)
    ensures 0 < n <= |data|
  {
    var n: nat := if |data| == 1 then 0 else data[1];
    if data[0] == PAD then 1 else 2 + n
  }

  function FirstItem(data: Bytes): (item: Item)
    requires !Stuck(data)
    ensures Valid(item)
    ensures ItemBytes(item) == data[..FirstLength(data)]
  {
    if data[0] == PAD then Pad
    else
      assert [data[0], data[1]] + data[2..2 + data[1]] == data[..2 + data[1]];
      Opt(data[0], data[2..2 + data[1]])
  }

  function ItemsOf(data: Bytes): (items: seq<Item>)
    ensures AllValid(items)
    decreases |data|
  {
    if Stuck(data) then [] else [FirstItem(data)] + ItemsOf(data[FirstLength(data)..])
  }

  function TailOf(data: Bytes): (tail: Bytes)
    ensures Stuck(tail)
    decreases |data|
  {
    if Stuck(data) then data else TailOf(data[FirstLength(data)..])
  }

  lemma {:induction false} FirstThenRest(data: Bytes, rest: Bytes)
    requires !Stuck(data) && rest == data[FirstLength(data)..]
    ensures data == ItemBytes(FirstItem(data)) + rest
  {
    var n := FirstLength(data);
    assert data == data[..n] + data[n..];
  }

  lemma {:induction false} ItemsThenTail(data: Bytes)
    ensures data == Spell(ItemsOf(data)) + TailOf(data)
    decreases |data|
  {
    if !Stuck(data) {
      var rest := data[FirstLength(data)..];
      ItemsThenTail(rest);
      FirstThenRest(data, rest);
      SpellCons(FirstItem(data), ItemsOf(rest));
      Assoc(ItemBytes(FirstItem(data)), Spell(ItemsOf(rest)), TailOf(rest));
    }
  }

  /** What happens when no item is left. */
  lemma {:induction false} ParseTail(m: OptMap, tail: Bytes, checkEnd: bool)
    requires Stuck(tail)
    ensures ParseFrom(m, tail, checkEnd).error.None? <==> GoodTail(tail, checkEnd)
    ensures ParseFrom(m, tail, checkEnd).options ==
            if |tail| == 1 && tail[0] != END then Append(m, tail[0], []) else m
  {
  }

  ghost predicate Grammatical(data: Bytes, checkEnd: bool) {
    exists items: seq<Item>, tail: Bytes ::
      AllValid(items) && GoodTail(tail, checkEnd) && data == Spell(items) + tail
  }

  /**
   The bytes are accepted exactly when they are items and a good tail, whatever the
   map held before, and the map then holds what the items say.
   */
  lemma {:induction false} AcceptIff(m: OptMap, data: Bytes, checkEnd: bool)
    requires data != []
    ensures Parse(m, data, checkEnd).error.None? <==> Grammatical(data, checkEnd)
    ensures Parse(m, data, checkEnd).options ==
            var m', tail := Collect(m, ItemsOf(data)), TailOf(data);
            if |tail| == 1 && tail[0] != END then Append(m', tail[0], []) else m'
  {
    var items, tail := ItemsOf(data), TailOf(data);
    ItemsThenTail(data);
    ParseItems(m, items, tail, checkEnd);
    ParseTail(Collect(m, items), tail, checkEnd);
    if Grammatical(data, checkEnd) {
      var items', tail': Bytes :|
        AllValid(items') && GoodTail(tail', checkEnd) && data == Spell(items') + tail';
      ParseItems(m, items', tail', checkEnd);
      ParseTail(Collect(m, items'), tail', checkEnd);
    }
  }

  // Padding.

  function WithoutPads(items: seq<Item>): seq<Item> {
    if items == [] then []
    else if items[0].Pad? then WithoutPads(items[1..])
    else [items[0]] + WithoutPads(items[1..])
  }

  lemma {:induction false} CollectWithoutPads(m: OptMap, items: seq<Item>)
    ensures Collect(m, WithoutPads(items)) == Collect(m, items)
    ensures AllValid(items) ==> AllValid(WithoutPads(items))
    decreases items
  {
    if items != [] {
      CollectWithoutPads(Absorb(m, items[0]), items[1..]);
      if items[0].Opt? {
        assert WithoutPads(items)[1..] == WithoutPads(items[1..]);
      }
    }
  }

  /** Padding between options and after the end can be put in or taken out without a difference. */
  lemma {:induction false} PaddingDoesNotMatter(m: OptMap, items: seq<Item>, pads: Bytes, pads': Bytes, checkEnd: bool)
    requires AllValid(items) && AllPads(pads) && AllPads(pads')
    ensures Parse(m, Spell(items) + ([END] + pads), checkEnd) ==
            Parse(m, Spell(WithoutPads(items)) + ([END] + pads'), checkEnd)
  {
    CollectWithoutPads(m, items);
    ParseEnded(m, items, pads, checkEnd);
    ParseEnded(m, WithoutPads(items), pads', checkEnd);
  }

  lemma {:induction false} ParseEnded(m: OptMap, items: seq<Item>, pads: Bytes, checkEnd: bool)
    requires AllValid(items) && AllPads(pads)
    ensures Parse(m, Spell(items) + ([END] + pads), checkEnd) == Parsed(Collect(m, items), None)
  {
    var tail := [END] + pads;
    assert tail[1..] == pads;
    ParseItems(m, items, tail, checkEnd);
  }

  /** The bytes themselves: a 0 is skipped, and a 255 ends the options, with nothing but zeros behind it. */
  lemma {:induction false} PadAndEnd(m: OptMap, rest: Bytes, checkEnd: bool)
    ensures ParseFrom(m, [0] + rest, checkEnd) == ParseFrom(m, rest, checkEnd)
    ensures ParseFrom(m, [255] + rest, checkEnd) ==
            Parsed(m, if forall i | 0 <= i < |rest| :: rest[i] == 0 then None else Some(InvalidOptions))
  {
    assert ([0] + rest)[1..] == rest && ([255] + rest)[1..] == rest;
  }

  /** Any other byte is a code, with a length and as many bytes of data behind it. */
  lemma {:induction false} CodeLengthData(m: OptMap, code: byte, data: Bytes, rest: Bytes, checkEnd: bool)
    requires 0 < code < 255 && |data| <= 255
    ensures ParseFrom(m, [code, |data|] + data + rest, checkEnd) == ParseFrom(Append(m, code, data), rest, checkEnd)
  {
    ParseItem(m, Opt(code, data), rest, checkEnd);
  }
}
