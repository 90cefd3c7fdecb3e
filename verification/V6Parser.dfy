/** The DHCPv6 parsers and serialisers as they are written, over a cursor, and what they compute. */
module V6Parser {
  import opened Wire
  import Duids
  import opened V6
  import V6Leaves

  /** Reading on from where an earlier read stopped. */
  lemma {:induction false} ReadOn(data: Bytes, i: nat, n: nat)
    requires i + n <= |data|
    ensures data[i..][..n] == data[i..i + n] && data[i..][n..] == data[i + n..]
  {
  }

  method FromBytes(data: Bytes) returns (r: Option<DHCPv6>)
    ensures r == ParseMsg(data)
    decreases |data|, 3
  {
    var buf := new Lexer(data);
    var t := buf.Read8();
    if IsRelayType(t) {
      r := RelayMessageFromBytes(data);
    } else {
      r := MessageFromBytes(data);
    }
  }

  method MessageFromBytes(data: Bytes) returns (r: Option<DHCPv6>)
    ensures r == if ReadHead(data).MessageHead? then ParseMsg(data) else None
    decreases |data|, 2
  {
    var buf := new Lexer(data);
    var t := buf.Read8();
    if IsRelayType(t) {
      return None;
    }
    var xid := buf.Read(3);
    var options := OptionsFromBytes(buf.data, false);
    if |data| >= 4 {
      ReadOn(data, 1, 3);
    }
    if options.None? {
      return None;
    }
    r := Some(Message(t, if |xid| == 3 then xid else [0, 0, 0], options.value));
  }

  method RelayMessageFromBytes(data: Bytes) returns (r: Option<DHCPv6>)
    ensures r == if ReadHead(data).RelayHead? then ParseMsg(data) else None
    decreases |data|, 2
  {
    var buf := new Lexer(data);
    var t := buf.Read8();
    if !IsRelayType(t) {
      return None;
    }
    var hops := buf.Read8();
    var link := buf.Read(16);
    var peer := buf.Read(16);
    var options := OptionsFromBytes(buf.data, false);
    if |data| >= 2 {
      ReadOn(data, 1, 1);
    }
    if |data| >= 18 {
      ReadOn(data, 2, 16);
    }
    if |data| >= 34 {
      ReadOn(data, 18, 16);
    }
    if options.None? {
      return None;
    }
    r := Some(Relay(t, hops, link, peer, options.value));
  }

  /** `vendor` stands for the parser that is passed in. A short body leaves the loop running on nil. */
  method OptionsFromBytes(data: Bytes, vendor: bool) returns (r: Option<seq<Opt>>)
    ensures r == ParseOptions(data, vendor)
    decreases |data|, 1
  {
    var options: seq<Opt> := [];
    if data == [] {
      return Some(options);
    }
    var buf := new Lexer(data);
    PrefixedByNothing(ParseOptions(data, vendor));
    while buf.Has(4)
      invariant fresh(buf) && |buf.data| <= |data|
      invariant !buf.failed ==> ParseOptions(data, vendor) == Prefixed(options, ParseOptions(buf.data, vendor))
      invariant buf.failed ==> ParseOptions(data, vendor).None?
      decreases |buf.data|
    {
      ghost var before := buf.data;
      var code := buf.Read16();
      var n := buf.Read16();
      var body := buf.Consume(n);
      var o := ParseOptionBytes(code, if body.Some? then body.value else [], vendor);
      FirstStep(before, code, n, vendor);
      PrefixedChain(options, o, ParseOptions(buf.data, vendor));
      if o.None? {
        return None;
      }
      options := options + [o.value];
    }
    assert options + [] == options;
    r := if buf.FinOk() then Some(options) else None;
  }

  lemma {:induction false} PrefixedChain(options: seq<Opt>, o: Option<Opt>, rest: Option<seq<Opt>>)
    ensures o.None? ==> Prefixed(options, Chain(o, rest)) == None
    ensures o.Some? ==> Prefixed(options, Chain(o, rest)) == Prefixed(options + [o.value], rest)
  {
    if o.Some? {
      PrefixedByOne(options, o.value, rest);
    }
  }

  /** One turn of the loop. */
  lemma {:induction false} FirstStep(data: Bytes, code: u16, n: nat, vendor: bool)
    requires |data| >= 4 && code == Get16(data[..2]) && n == Get16(data[2..][..2])
    ensures n > |data[2..][2..]| ==> ParseOptions(data, vendor).None?
    ensures n <= |data[2..][2..]| ==>
              ParseOptions(data, vendor) ==
              Chain(ParseOption(code, data[2..][2..][..n], vendor), ParseOptions(data[2..][2..][n..], vendor))
  {
    assert data[2..][..2] == data[2..4] && data[2..][2..] == data[4..];
    if n <= |data[4..]| {
      assert data[4..][..n] == data[4..4 + n] && data[4..][n..] == data[4 + n..];
    }
  }

  method ParseOptionBytes(code: u16, data: Bytes, vendor: bool) returns (r: Option<Opt>)
    ensures r == ParseOption(code, data, vendor)
    decreases |data|, 5
  {
    if vendor {
      r := Some(Plain(code, data));
    } else if code == IA_NA || code == IA_PD {
      r := ParseOptIA(code, data);
    } else if code == IA_ADDR {
      r := ParseOptIAAddress(data);
    } else if code == IA_PREFIX {
      r := ParseOptIAPrefix(data);
    } else if code == VENDOR_OPTS {
      r := ParseOptVendorOpts(data);
    } else if code == RELAY_MSG {
      var m := FromBytes(data);
      r := if m.None? then None else Some(RelayMsg(m.value));
    } else if code == CLIENT_ID || code == SERVER_ID {
      var duid := Duids.FromBytes(data);
      r := if duid.None? then None else Some(if code == CLIENT_ID then ClientId(duid.value) else ServerId(duid.value));
    } else {
      var leaf := V6Leaves.FromBytes(code, data);
      V6Leaves.Reserialise(code, data);
      r := if leaf.None? then None else Some(Plain(code, data));
    }
  }

  // What the headers of options hold, in the order in which they are read.

  lemma {:induction false} IaLayout(data: Bytes, options: seq<Opt>)
    requires |data| >= 12
    ensures var a := data[4..]; var b := a[4..];
            && b[4..] == data[12..]
            && ReadOptHead(IA_NA, data[..12], options) == IaNa(data[..4], Get32(a[..4]), Get32(b[..4]), options)
            && ReadOptHead(IA_PD, data[..12], options) == IaPd(data[..4], Get32(a[..4]), Get32(b[..4]), options)
  {
    var a, h := data[4..], data[..12];
    var b := a[4..];
    assert h[..4] == data[..4] && h[4..8] == a[..4] && h[8..12] == b[..4];
  }

  lemma {:induction false} IaAddrLayout(data: Bytes, options: seq<Opt>)
    requires |data| >= 24
    ensures var a := data[16..]; var b := a[4..];
            && b[4..] == data[24..]
            && ReadOptHead(IA_ADDR, data[..24], options) == IaAddr(data[..16], Get32(a[..4]), Get32(b[..4]), options)
  {
    var a, h := data[16..], data[..24];
    var b := a[4..];
    assert h[..16] == data[..16] && h[16..20] == a[..4] && h[20..24] == b[..4];
  }

  lemma {:induction false} IaPrefixLayout(data: Bytes, options: seq<Opt>)
    requires |data| >= 25
    ensures var a := data[4..]; var b := a[4..]; var c := b[1..];
            && c[16..] == data[25..]
            && ReadOptHead(IA_PREFIX, data[..25], options) ==
               IaPrefix(Get32(data[..4]), Get32(a[..4]), b[0], c[..16], options)
  {
    var a, h := data[4..], data[..25];
    var b := a[4..];
    assert h[..4] == data[..4] && h[4..8] == a[..4] && h[8] == b[0] && h[9..25] == b[1..][..16];
  }

  /** Both kinds of identity association have the same layout. */
  method ParseOptIA(code: u16, data: Bytes) returns (r: Option<Opt>)
    requires code == IA_NA || code == IA_PD
    ensures r == ParseOption(code, data, false)
    decreases |data|, 4
  {
    var buf := new Lexer(data);
    var id := buf.Read(4);
    var t1 := buf.Read32();
    var t2 := buf.Read32();
    var rest := buf.ReadAll();
    var options := OptionsFromBytes(rest, false);
    if |data| >= 12 && options.Some? {
      IaLayout(data, options.value);
    }
    if options.None? || !buf.FinOk() {
      return None;
    }
    r := Some(if code == IA_NA then IaNa(id, t1, t2, options.value) else IaPd(id, t1, t2, options.value));
  }

  method ParseOptIAAddress(data: Bytes) returns (r: Option<Opt>)
    ensures r == ParseOption(IA_ADDR, data, false)
    decreases |data|, 4
  {
    var buf := new Lexer(data);
    var addr := buf.Read(16);
    var preferred := buf.Read32();
    var valid := buf.Read32();
    var rest := buf.ReadAll();
    var options := OptionsFromBytes(rest, false);
    if |data| >= 24 && options.Some? {
      IaAddrLayout(data, options.value);
    }
    if options.None? || !buf.FinOk() {
      return None;
    }
    r := Some(IaAddr(addr, preferred, valid, options.value));
  }

  method ParseOptIAPrefix(data: Bytes) returns (r: Option<Opt>)
    ensures r == ParseOption(IA_PREFIX, data, false)
    decreases |data|, 4
  {
    var buf := new Lexer(data);
    var preferred := buf.Read32();
    var valid := buf.Read32();
    var length := buf.Read8();
    var prefix := buf.Read(16);
    var rest := buf.ReadAll();
    var options := OptionsFromBytes(rest, false);
    if |data| >= 25 && options.Some? {
      IaPrefixLayout(data, options.value);
    }
    if options.None? || !buf.FinOk() {
      return None;
    }
    r := Some(IaPrefix(preferred, valid, length, prefix, options.value));
  }

  method ParseOptVendorOpts(data: Bytes) returns (r: Option<Opt>)
    ensures r == ParseOption(VENDOR_OPTS, data, false)
    decreases |data|, 4
  {
    var buf := new Lexer(data);
    var enterprise := buf.Read32();
    var rest := buf.ReadAll();
    var options := OptionsFromBytes(rest, true);
    if options.None? || !buf.FinOk() {
      return None;
    }
    r := Some(VendorOpts(enterprise, options.value));
  }

  // No bytes at all come out of a message that holds, anywhere, an option with no message in it: the source
  // dereferences nil.

  predicate Complete(m: DHCPv6) {
    AllComplete(m.options)
  }

  predicate AllComplete(options: seq<Opt>) {
    options == [] || (CompleteOption(options[0]) && AllComplete(options[1..]))
  }

  predicate CompleteOption(o: Opt) {
    if HasOptions(o) then AllComplete(o.options)
    else if o.RelayMsg? then Complete(o.inner)
    else !o.UnsetRelayMsg?
  }

  method ToBytes(m: DHCPv6) returns (b: Option<Bytes>)
    ensures b == if Complete(m) then Some(EncodeMsg(m)) else None
    decreases m
  {
    var buf := new Lexer([]);
    match m {
      case Message(t, xid, _) =>
        buf.Write([t]);
        buf.Write(xid);
      case Relay(t, hops, link, peer, _) =>
        buf.Write([t]);
        buf.Write([hops]);
        buf.Write(To16(link));
        buf.Write(To16(peer));
    }
    assert buf.data == EncodeHead(HeadOf(m));
    var options := OptionsToBytes(m.options);
    if options.None? {
      return None;
    }
    buf.Write(options.value);
    b := Some(buf.data);
  }

  method OptionsToBytes(options: seq<Opt>) returns (b: Option<Bytes>)
    ensures b == if AllComplete(options) then Some(EncodeOptions(options)) else None
    decreases options
  {
    var buf := new Lexer([]);
    for i := 0 to |options|
      invariant fresh(buf)
      invariant AllComplete(options[i..]) == AllComplete(options)
      invariant buf.data + EncodeOptions(options[i..]) == EncodeOptions(options)
    {
      ghost var before := buf.data;
      var body := OptionToBytes(options[i]);
      CompleteStep(options, i);
      if body.None? {
        return None;
      }
      buf.Write(Put16(options[i].Code()));
      buf.Write(Put16(|body.value|));
      buf.Write(body.value);
      EncodeStep(options, i, before, body.value, EncodeOptions(options[i + 1..]));
    }
    assert options[|options|..] == [];
    assert buf.data + [] == buf.data;
    b := Some(buf.data);
  }

  lemma {:induction false} CompleteStep(options: seq<Opt>, i: nat)
    requires i < |options|
    ensures AllComplete(options[i..]) <==> CompleteOption(options[i]) && AllComplete(options[i + 1..])
  {
    assert options[i..][1..] == options[i + 1..];
  }

  lemma {:induction false} EncodeStep(options: seq<Opt>, i: nat, before: Bytes, body: Bytes, rest: Bytes)
    requires i < |options| && body == EncodeBody(options[i]) && rest == EncodeOptions(options[i + 1..])
    ensures before + EncodeOptions(options[i..]) == before + Put16(options[i].Code()) + Put16(|body|) + body + rest
  {
    assert options[i..][1..] == options[i + 1..];
    assert EncodeOptions(options[i..]) == Tlv(options[i].Code(), body) + rest;
  }

  method OptHeadToBytes(o: Opt) returns (b: Bytes)
    requires HasOptions(o)
    ensures b == EncodeOptHead(o)
  {
    match o {
      case IaNa(id, t1, t2, _) => b := id + Put32(t1) + Put32(t2);
      case IaPd(id, t1, t2, _) => b := id + Put32(t1) + Put32(t2);
      case IaAddr(addr, preferred, valid, _) => b := To16(addr) + Put32(preferred) + Put32(valid);
      case IaPrefix(preferred, valid, length, prefix, _) =>
        b := Put32(preferred) + Put32(valid) + [length] + To16(prefix);
      case VendorOpts(enterprise, _) => b := Put32(enterprise);
    }
  }

  method OptionToBytes(o: Opt) returns (b: Option<Bytes>)
    ensures b == if CompleteOption(o) then Some(EncodeBody(o)) else None
    decreases o
  {
    if HasOptions(o) {
      var options := OptionsToBytes(o.options);
      var head := OptHeadToBytes(o);
      b := if options.None? then None else Some(head + options.value);
    } else if o.RelayMsg? {
      b := ToBytes(o.inner);
    } else if o.ClientId? || o.ServerId? {
      b := Some(Duids.ToBytes(o.duid));
    } else {
      b := if o.Plain? then Some(o.data) else None;
    }
  }
}
