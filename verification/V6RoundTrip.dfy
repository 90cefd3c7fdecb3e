/** Exactly which DHCPv6 messages survive being serialised and parsed again, at any depth of nesting. */
module V6RoundTrip {
  import opened Wire
  import Duids
  import opened V6

  /**
   The headers that read back when `n` more bytes follow: the type tells the two
   kinds of message apart, and the addresses of a relay are there, or are nil with
   too few bytes after them to be taken for an address.
   */
  predicate HeadKept(h: Head, n: nat) {
    match h
    case MessageHead(t, _) => !IsRelayType(t)
    case RelayHead(t, _, link, peer) =>
      && IsRelayType(t)
      && ((|link| == 16 && |peer| == 16) || ((|link| == 16 || link == []) && peer == [] && n < 16))
  }

  predicate WellFormed(m: DHCPv6) {
    HeadKept(HeadOf(m), |EncodeOptions(m.options)|) && AllWellFormed(m.options, false)
  }

  predicate AllWellFormed(options: seq<Opt>, vendor: bool) {
    options == [] || (WellFormedOption(options[0], vendor) && AllWellFormed(options[1..], vendor))
  }

  /** The body's length fits 16 bits, and the body is one that the parser of the code reads back. */
  predicate WellFormedOption(o: Opt, vendor: bool) {
    && |EncodeBody(o)| < 0x1_0000
    && if vendor then o.Plain?
       else if HasOptions(o) then OptHeadKept(o) && AllWellFormed(o.options, o.VendorOpts?)
       else if o.RelayMsg? then WellFormed(o.inner)
       else LeafKept(o)
  }

  predicate OptHeadKept(o: Opt)
    requires HasOptions(o)
  {
    (o.IaAddr? ==> |o.addr| == 16) && (o.IaPrefix? ==> |o.prefix| == 16)
  }

  predicate LeafKept(o: Opt) {
    match o
    case ClientId(d) => Duids.Normal(d)
    case ServerId(d) => Duids.Normal(d)
    case Plain(code, data) =>
      && OptHeadLength(code).None?
      && code !in {CLIENT_ID, SERVER_ID, RELAY_MSG}
      && LeafAccepts(code, data)
    case _ => false
  }

  // Headers.

  lemma {:induction false} HeadReads(h: Head, rest: Bytes)
    requires HeadKept(h, |rest|)
    ensures var b := EncodeHead(h) + rest; ReadHead(b) == h && b[HeadLength(b)..] == rest
  {
    var e := EncodeHead(h);
    var b := e + rest;
    assert b[|e|..] == rest && b[..|e|] == e;
    match h
    case MessageHead(t, xid) =>
      assert b[1..4] == xid;
    case RelayHead(t, hops, link, peer) =>
      assert e == [t, hops] + link + peer;
      if link != [] {
        assert b[2..18] == link;
      }
      if peer != [] {
        assert b[18..34] == peer;
      }
  }

  lemma {:induction false} HeadReadsOnlyIf(h: Head, rest: Bytes)
    requires var b := EncodeHead(h) + rest; ReadHead(b) == h
    ensures HeadKept(h, |rest|)
  {
  }

  lemma {:induction false} OptHeadReads(o: Opt)
    requires HasOptions(o) && OptHeadKept(o)
    ensures OptHeadLength(o.Code()) == Some(|EncodeOptHead(o)|)
    ensures ReadOptHead(o.Code(), EncodeOptHead(o), o.options) == o
  {
    match o
    case IaNa(id, t1, t2, _) => IaReads(id, t1, t2);
    case IaPd(id, t1, t2, _) => IaReads(id, t1, t2);
    case IaAddr(addr, p, v, _) => IaAddrReads(addr, p, v);
    case IaPrefix(p, v, n, prefix, _) => IaPrefixReads(p, v, n, prefix);
    case VendorOpts(n, _) => Get32Put32(n);
  }

  lemma {:induction false} IaAddrReads(addr: Bytes, p: u32, v: u32)
    requires |addr| == 16
    ensures var b := addr + Put32(p) + Put32(v);
            b[..16] == addr && Get32(b[16..20]) == p && Get32(b[20..24]) == v
  {
    var b := addr + Put32(p) + Put32(v);
    assert b[..16] == addr && b[16..20] == Put32(p) && b[20..24] == Put32(v);
    Get32Put32(p);
    Get32Put32(v);
  }

  lemma {:induction false} IaPrefixReads(p: u32, v: u32, n: byte, prefix: Bytes)
    requires |prefix| == 16
    ensures var b := Put32(p) + Put32(v) + [n] + prefix;
            Get32(b[..4]) == p && Get32(b[4..8]) == v && b[8] == n && b[9..25] == prefix
  {
    var b := Put32(p) + Put32(v) + [n] + prefix;
    assert b[..4] == Put32(p) && b[4..8] == Put32(v) && b[8] == n && b[9..25] == prefix;
    Get32Put32(p);
    Get32Put32(v);
  }

  lemma {:induction false} IaReads(id: Bytes4, t1: u32, t2: u32)
    ensures var b := id + Put32(t1) + Put32(t2);
            b[..4] == id && Get32(b[4..8]) == t1 && Get32(b[8..12]) == t2
  {
    var b := id + Put32(t1) + Put32(t2);
    assert b[..4] == id && b[4..8] == Put32(t1) && b[8..12] == Put32(t2);
    Get32Put32(t1);
    Get32Put32(t2);
  }

  /** How the loop over options divides up an option with other bytes behind it. */
  lemma {:induction false} TlvReads(code: u16, body: Bytes, rest: Bytes)
    ensures var b := Tlv(code, body) + rest;
            && Get16(b[..2]) == code
            && Get16(b[2..4]) == |body| % 0x1_0000
            && b[4..] == body + rest
  {
    var b := Tlv(code, body) + rest;
    assert b[..2] == Put16(code) && b[2..4] == Put16(|body|);
    Get16Put16(code);
    Get16Put16(|body|);
    assert b[4..] == body + rest;
  }

  /** What the first option of a prefix is parsed from. */
  lemma {:induction false} PrefixSlices(code: u16, body: Bytes, rest: Bytes, b: Bytes, n: nat)
    requires b <= Tlv(code, body) + rest
    requires |b| >= 4 && n == Get16(b[2..4]) && 4 + n <= |b|
    ensures Get16(b[..2]) == code && n <= |body| && (n == |body| || n + 0x1_0000 <= |body|)
    ensures b[4..4 + n] == body[..n]
    ensures n == |body| ==> b[4 + n..] == rest[..|b| - 4 - n]
    ensures n == |body| && b == Tlv(code, body) + rest ==> b[4..4 + n] == body && b[4 + n..] == rest
  {
    var e := Tlv(code, body) + rest;
    TlvReads(code, body, rest);
    assert b[..2] == e[..2] && b[2..4] == e[2..4];
    assert b[4..] == (body + rest)[..|b| - 4];
    assert b[4..4 + n] == b[4..][..n];
    assert b[4 + n..] == b[4..][n..];
  }

  lemma {:induction false} ParseFirst(code: u16, body: Bytes, rest: Bytes, vendor: bool)
    requires |body| < 0x1_0000
    ensures ParseOptions(Tlv(code, body) + rest, vendor) ==
            Chain(ParseOption(code, body, vendor), ParseOptions(rest, vendor))
  {
    var b := Tlv(code, body) + rest;
    TlvReads(code, body, rest);
    PrefixSlices(code, body, rest, b, |body|);
  }

  /** What a successful parse of the first option looked like. */
  lemma {:induction false} ParsedFirst(b: Bytes, options: seq<Opt>, vendor: bool)
    requires ParseOptions(b, vendor) == Some(options) && b != []
    ensures |b| >= 4 && 4 + Get16(b[2..4]) <= |b| && options != []
    ensures ParseOption(Get16(b[..2]), b[4..4 + Get16(b[2..4])], vendor) == Some(options[0])
    ensures ParseOptions(b[4 + Get16(b[2..4])..], vendor) == Some(options[1..])
  {
    var n := Get16(b[2..4]);
    var rest := ParseOptions(b[4 + n..], vendor);
    assert options[1..] == rest.value;
  }

  // From well-formedness to the round trip.

  lemma {:induction false} RoundTrip(m: DHCPv6)
    requires WellFormed(m)
    ensures ParseMsg(EncodeMsg(m)) == Some(m)
  {
    AllRoundTrip(m.options, false);
    HeadReads(HeadOf(m), EncodeOptions(m.options));
  }

  lemma {:induction false} AllRoundTrip(options: seq<Opt>, vendor: bool)
    requires AllWellFormed(options, vendor)
    ensures ParseOptions(EncodeOptions(options), vendor) == Some(options)
    decreases options
  {
    if options != [] {
      OptionRoundTrip(options[0], vendor);
      AllRoundTrip(options[1..], vendor);
      FirstRoundTrip(options, EncodeBody(options[0]), EncodeOptions(options[1..]), vendor);
    }
  }

  lemma {:induction false} FirstRoundTrip(options: seq<Opt>, body: Bytes, rest: Bytes, vendor: bool)
    requires options != [] && body == EncodeBody(options[0]) && rest == EncodeOptions(options[1..])
    requires |body| < 0x1_0000
    requires ParseOption(options[0].Code(), body, vendor) == Some(options[0])
    requires ParseOptions(rest, vendor) == Some(options[1..])
    ensures ParseOptions(EncodeOptions(options), vendor) == Some(options)
  {
    assert [options[0]] + options[1..] == options;
    ParseFirst(options[0].Code(), body, rest, vendor);
  }

  lemma {:induction false} OptionRoundTrip(o: Opt, vendor: bool)
    requires WellFormedOption(o, vendor)
    ensures ParseOption(o.Code(), EncodeBody(o), vendor) == Some(o)
    decreases o
  {
    if vendor {
    } else if HasOptions(o) {
      AllRoundTrip(o.options, o.VendorOpts?);
      OptHeadReads(o);
      var h, e := EncodeOptHead(o), EncodeOptions(o.options);
      assert EncodeBody(o) == h + e;
      assert (h + e)[..|h|] == h && (h + e)[|h|..] == e;
    } else if o.RelayMsg? {
      RoundTrip(o.inner);
    } else {
      LeafRoundTrip(o);
    }
  }

  lemma {:induction false} LeafRoundTrip(o: Opt)
    requires !HasOptions(o) && !o.RelayMsg?
    requires LeafKept(o)
    ensures ParseLeaf(o.Code(), EncodeBody(o)) == Some(o)
  {
    match o
    case ClientId(d) => Duids.RoundTrip(d);
    case ServerId(d) => Duids.RoundTrip(d);
    case Plain(_, _) =>
  }

  // From the round trip to well-formedness.

  /**
   A message is not what one parses from far fewer bytes than it serialises to.
   A length that was cut to 16 bits therefore never reads back.
   */
  lemma {:induction false} PrefixIsNotMsg(m: DHCPv6, b: Bytes)
    requires b <= EncodeMsg(m) && |b| + 0x1_0000 <= |EncodeMsg(m)|
    ensures ParseMsg(b) != Some(m)
  {
    if ParseMsg(b) == Some(m) {
      ParsedMsg(b, m);
      var h, e := EncodeHead(HeadOf(m)), EncodeOptions(m.options);
      assert (h + e)[|h|..] == e;
      PrefixIsNotOptions(m.options, b[HeadLength(b)..], false);
    }
  }

  /** Only a message of at most four bytes can have been read from a shorter header. */
  lemma {:induction false} ParsedMsg(b: Bytes, m: DHCPv6)
    requires ParseMsg(b) == Some(m)
    ensures ReadHead(b) == HeadOf(m) && ParseOptions(b[HeadLength(b)..], false) == Some(m.options)
    ensures |EncodeMsg(m)| > 4 ==> HeadLength(b) == |EncodeHead(HeadOf(m))|
  {
    var rest := b[HeadLength(b)..];
    if rest == [] {
      assert EncodeMsg(m) == EncodeHead(HeadOf(m));
    } else {
      ParsedFirst(rest, m.options, false);
    }
  }

  lemma {:induction false} PrefixIsNotOptions(options: seq<Opt>, b: Bytes, vendor: bool)
    requires b <= EncodeOptions(options) && |b| + 0x1_0000 <= |EncodeOptions(options)|
    ensures ParseOptions(b, vendor) != Some(options)
    decreases options
  {
    if b != [] && ParseOptions(b, vendor) == Some(options) {
      ParsedFirst(b, options, vendor);
      var body, rest := EncodeBody(options[0]), EncodeOptions(options[1..]);
      var n := Get16(b[2..4]);
      PrefixSlices(options[0].Code(), body, rest, b, n);
      if n < |body| {
        PrefixIsNotOption(options[0], body[..n], vendor);
      } else {
        PrefixIsNotOptions(options[1..], rest[..|b| - 4 - n], vendor);
      }
    }
  }

  lemma {:induction false} PrefixOfBody(o: Opt, b: Bytes)
    requires HasOptions(o) && b <= EncodeBody(o) && ParseOption(o.Code(), b, false) == Some(o)
    ensures var n := OptHeadLength(o.Code()).value;
            && n <= |b|
            && b[n..] <= EncodeOptions(o.options)
            && |EncodeBody(o)| == n + |EncodeOptions(o.options)|
            && ParseOptions(b[n..], o.VendorOpts?) == Some(o.options)
  {
    var h, e := EncodeOptHead(o), EncodeOptions(o.options);
    assert OptHeadKept(o);
    OptHeadReads(o);
    assert EncodeBody(o) == h + e;
  }

  lemma {:induction false} PrefixIsNotOption(o: Opt, b: Bytes, vendor: bool)
    requires b <= EncodeBody(o) && |b| + 0x1_0000 <= |EncodeBody(o)|
    ensures ParseOption(o.Code(), b, vendor) != Some(o)
    decreases o
  {
    if ParseOption(o.Code(), b, vendor) == Some(o) {
      if vendor || o.Plain? {
      } else if HasOptions(o) {
        PrefixOfBody(o, b);
        PrefixIsNotOptions(o.options, b[OptHeadLength(o.Code()).value..], o.VendorOpts?);
      } else if o.RelayMsg? {
        PrefixIsNotMsg(o.inner, b);
      } else {
        Duids.ReserialiseIff(b);
      }
    }
  }

  lemma {:induction false} RoundTripOnlyIf(m: DHCPv6)
    requires ParseMsg(EncodeMsg(m)) == Some(m)
    ensures WellFormed(m)
  {
    var b, e := EncodeMsg(m), EncodeOptions(m.options);
    ParsedMsg(b, m);
    HeadReadsOnlyIf(HeadOf(m), e);
    HeadReads(HeadOf(m), e);
    AllRoundTripOnlyIf(m.options, false);
  }

  lemma {:induction false} AllRoundTripOnlyIf(options: seq<Opt>, vendor: bool)
    requires ParseOptions(EncodeOptions(options), vendor) == Some(options)
    ensures AllWellFormed(options, vendor)
    decreases options
  {
    if options != [] {
      FirstRoundTripOnlyIf(options, EncodeBody(options[0]), EncodeOptions(options[1..]), vendor);
      OptionRoundTripOnlyIf(options[0], vendor);
      AllRoundTripOnlyIf(options[1..], vendor);
    }
  }

  lemma {:induction false} FirstRoundTripOnlyIf(options: seq<Opt>, body: Bytes, rest: Bytes, vendor: bool)
    requires options != [] && body == EncodeBody(options[0]) && rest == EncodeOptions(options[1..])
    requires ParseOptions(Tlv(options[0].Code(), body) + rest, vendor) == Some(options)
    ensures |body| < 0x1_0000
    ensures ParseOption(options[0].Code(), body, vendor) == Some(options[0])
    ensures ParseOptions(rest, vendor) == Some(options[1..])
  {
    var b := Tlv(options[0].Code(), body) + rest;
    ParsedFirst(b, options, vendor);
    var n := Get16(b[2..4]);
    PrefixSlices(options[0].Code(), body, rest, b, n);
    if n < |body| {
      PrefixIsNotOption(options[0], body[..n], vendor);
    }
    assert body[..n] == body && rest[..|b| - 4 - n] == rest;
  }

  lemma {:induction false} OptionRoundTripOnlyIf(o: Opt, vendor: bool)
    requires |EncodeBody(o)| < 0x1_0000
    requires ParseOption(o.Code(), EncodeBody(o), vendor) == Some(o)
    ensures WellFormedOption(o, vendor)
    decreases o
  {
    if vendor {
    } else if HasOptions(o) {
      var h, e := EncodeOptHead(o), EncodeOptions(o.options);
      assert OptHeadKept(o);
      OptHeadReads(o);
      assert (h + e)[|h|..] == e;
      AllRoundTripOnlyIf(o.options, o.VendorOpts?);
    } else if o.RelayMsg? {
      RoundTripOnlyIf(o.inner);
    } else if o.ClientId? || o.ServerId? {
      Duids.RoundTripIff(o.duid);
    }
  }

  /** A message is parsed back from its serialisation exactly when it is well-formed. */
  lemma {:induction false} RoundTripIff(m: DHCPv6)
    ensures ParseMsg(EncodeMsg(m)) == Some(m) <==> WellFormed(m)
  {
    if WellFormed(m) {
      RoundTrip(m);
    } else if ParseMsg(EncodeMsg(m)) == Some(m) {
      RoundTripOnlyIf(m);
    }
  }
}
