/**
 DHCPv6 messages byte by byte (sections 6, 7, 9 and 22 of RFC 3315, sections 9 and 10 of RFC 3633): which
 numbers stand for what, and what is sent for the addresses that are not IPv6 addresses.
 */
module V6Wire {
  import opened Wire
  import opened Duids
  import opened V6
  import opened V6RoundTrip

  const MAPPED: Bytes := [0, 0, 0, 0, 0, 0, 0, 0, 0, 0, 0xff, 0xff]

  /** An IPv6 address as it is, an IPv4 address in its IPv6 form, and nothing at all for anything else. */
  ghost predicate AddressAs(ip: Bytes, b: Bytes) {
    if |ip| == 16 then b == ip else if |ip| == 4 then b == MAPPED + ip else b == []
  }

  lemma {:induction false} MessageLayout(t: byte, xid: Bytes3, options: seq<Opt>, b: Bytes)
    requires b == EncodeMsg(Message(t, xid, options))
    ensures |b| >= 4 && b[0] == t && b[1..4] == xid && b[4..] == EncodeOptions(options)
  {
    assert b[1..4] == xid && b[4..] == EncodeOptions(options);
  }

  lemma {:induction false} RelayLayout(t: byte, hops: byte, link: Bytes, peer: Bytes, options: seq<Opt>)
    returns (a: Bytes, b: Bytes)
    ensures AddressAs(link, a) && AddressAs(peer, b)
    ensures EncodeMsg(Relay(t, hops, link, peer, options)) == [t, hops] + a + b + EncodeOptions(options)
  {
    a, b := To16(link), To16(peer);
  }

  /** What comes first decides what a message is read as: 12 and 13 are relays. */
  lemma {:induction false} KindIsRead(data: Bytes)
    requires ParseMsg(data).Some?
    ensures ParseMsg(data).value.Relay? <==> data != [] && (data[0] == 12 || data[0] == 13)
    ensures data != [] ==> ParseMsg(data).value.msgType == data[0]
  {
  }

  /** The code that stands for every kind of option. */
  lemma {:induction false} OptionLayout(o: Opt, b: Bytes)
    requires b == EncodeOption(o)
    ensures |b| == 4 + |EncodeBody(o)| && b[4..] == EncodeBody(o) && Get16(b[2..4]) == |EncodeBody(o)| % 0x1_0000
    ensures o.ClientId? ==> b[..2] == [0, 1]
    ensures o.ServerId? ==> b[..2] == [0, 2]
    ensures o.IaNa? ==> b[..2] == [0, 3]
    ensures o.IaAddr? ==> b[..2] == [0, 5]
    ensures o.RelayMsg? || o.UnsetRelayMsg? ==> b[..2] == [0, 9]
    ensures o.VendorOpts? ==> b[..2] == [0, 17]
    ensures o.IaPd? ==> b[..2] == [0, 25]
    ensures o.IaPrefix? ==> b[..2] == [0, 26]
    ensures o.Plain? ==> Get16(b[..2]) == o.plainCode
  {
    var body := EncodeBody(o);
    assert b[..2] == Put16(o.Code()) && b[2..4] == Put16(|body|) && b[4..] == body;
    Get16Put16(|body|);
    Get16Put16(o.Code());
  }

  /** The fixed part of the options that hold options, field by field. */
  lemma {:induction false} BodyLayout(o: Opt) returns (a: Bytes)
    requires HasOptions(o)
    ensures var rest := EncodeOptions(o.options);
            match o
            case IaNa(id, t1, t2, _) => EncodeBody(o) == id + Put32(t1) + Put32(t2) + rest
            case IaPd(id, t1, t2, _) => EncodeBody(o) == id + Put32(t1) + Put32(t2) + rest
            case IaAddr(addr, p, v, _) => AddressAs(addr, a) && EncodeBody(o) == a + Put32(p) + Put32(v) + rest
            case IaPrefix(p, v, n, prefix, _) =>
              AddressAs(prefix, a) && EncodeBody(o) == Put32(p) + Put32(v) + [n] + a + rest
            case VendorOpts(n, _) => EncodeBody(o) == Put32(n) + rest
  {
    a := if o.IaAddr? then To16(o.addr) else if o.IaPrefix? then To16(o.prefix) else [];
  }

  /** IPv4 addresses of a relay are read back in their IPv6 form. */
  lemma {:induction false} IPv4IsReadMapped(m: DHCPv6)
    requires m.Relay? && IsRelayType(m.msgType) && |m.linkAddr| == |m.peerAddr| == 4 && AllWellFormed(m.options, false)
    ensures ParseMsg(EncodeMsg(m)) == Some(m.(linkAddr := MAPPED + m.linkAddr, peerAddr := MAPPED + m.peerAddr))
  {
    var m' := m.(linkAddr := MAPPED + m.linkAddr, peerAddr := MAPPED + m.peerAddr);
    assert EncodeMsg(m') == EncodeMsg(m);
    V6RoundTrip.RoundTripIff(m');
  }

  /** Numbers are written with the most significant byte first. */
  lemma {:induction false} BigEndian(a: byte, b: byte, c: byte, d: byte)
    ensures Get16([a, b]) == a * 256 + b
    ensures Put16(a * 256 + b) == [a, b]
    ensures Get32([a, b, c, d]) == ((a * 256 + b) * 256 + c) * 256 + d
  {
    assert [a, b, c, d][..2] == [a, b] && [a, b, c, d][2..] == [c, d];
  }
}
