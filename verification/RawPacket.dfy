/** A UDP packet in an IPv4 packet for a raw socket: how it is built, and that a receiver's checks pass. */
module RawPacket {
  import opened Wire
  import opened Checksum
  import opened RawUdp

  const ANY: Bytes := [0, 0, 0, 0]

  function Complement(c: u16): u16 {
    0xffff - c
  }

  /** A length in 16 bits. */
  function Cut(n: nat): u16 {
    n % 0x1_0000
  }

  // What is built.

  function IPFields(n: nat, dest: UdpAddr, src: UdpAddr, checksum: u16): IPv4Fields {
    IPv4Fields(IP_SIZE, 0, Cut(28 + n), 0, 0, 0, 30, UDP_PROTOCOL, checksum, To4(src.ip), To4(dest.ip))
  }

  /** Written over zeros: an address that is not IPv4 stays zero. */
  function IPHeader(n: nat, dest: UdpAddr, src: UdpAddr, checksum: u16): (b: Bytes)
    ensures |b| == 20
    ensures b[0] == 0x45 && b[9] == UDP_PROTOCOL && b[2..4] == Put16(Cut(28 + n))
    ensures b[12..16] == Over(ANY, To4(src.ip)) && b[16..20] == Over(ANY, To4(dest.ip))
  {
    assert VersionAndLength(IP_SIZE) == 0x45;
    IPv4Header(IPFields(n, dest, src, checksum), ANY, ANY)
  }

  function IPChecksum(n: nat, dest: UdpAddr, src: UdpAddr): u16 {
    Complement(Sum(IPHeader(n, dest, src, 0), 0))
  }

  function Ports(n: nat, dest: UdpAddr, src: UdpAddr, checksum: u16): UDPFields {
    UDPFields(src.port % 0x1_0000, dest.port % 0x1_0000, UDPLength(n), checksum)
  }

  function UDPLength(n: nat): u16 {
    Cut(8 + n)
  }

  function PseudoHeaderSum(src: Bytes, dst: Bytes): u16 {
    SumAll([src, dst, [0, UDP_PROTOCOL]], 0)
  }

  /** Payload first, then the length, then the header, on top of the pseudo-header. */
  function UDPSum(packet: Bytes, dest: UdpAddr, src: UdpAddr): u16 {
    var header := UDPHeader(Ports(|packet|, dest, src, 0));
    SumAll([packet, Put16(UDPLength(|packet|)), header], PseudoHeaderSum(To4(src.ip), To4(dest.ip)))
  }

  function Assemble(packet: Bytes, dest: UdpAddr, src: UdpAddr, ipChecksum: u16, udpChecksum: u16): Bytes {
    IPHeader(|packet|, dest, src, ipChecksum) + UDPHeader(Ports(|packet|, dest, src, udpChecksum)) + packet
  }

  function Datagram(packet: Bytes, dest: UdpAddr, src: UdpAddr): Bytes {
    Assemble(packet, dest, src, IPChecksum(|packet|, dest, src), Complement(UDPSum(packet, dest, src)))
  }

  // Building it in place.

  lemma {:induction false} SetIPChecksum(n: nat, dest: UdpAddr, src: UdpAddr, v: u16, rest: Bytes)
    ensures Splice(IPHeader(n, dest, src, 0) + rest, 10, Put16(v)) == IPHeader(n, dest, src, v) + rest
  {
    IPHeaderParts(n, dest, src, 0);
    IPHeaderParts(n, dest, src, v);
    SpliceMiddle(IPStart(n, dest, src), Put16(0), Put16(v), IPAddresses(dest, src), rest);
  }

  function IPStart(n: nat, dest: UdpAddr, src: UdpAddr): (b: Bytes)
    ensures |b| == 10
  {
    IPv4Start(IPFields(n, dest, src, 0))
  }

  function IPAddresses(dest: UdpAddr, src: UdpAddr): (b: Bytes)
    ensures |b| == 8 && b[..4] == Over(ANY, To4(src.ip)) && b[4..] == Over(ANY, To4(dest.ip))
  {
    Over(ANY, To4(src.ip)) + Over(ANY, To4(dest.ip))
  }

  /** What stands before and after the checksum. */
  lemma {:induction false} IPHeaderParts(n: nat, dest: UdpAddr, src: UdpAddr, v: u16)
    ensures IPHeader(n, dest, src, v) == IPStart(n, dest, src) + Put16(v) + IPAddresses(dest, src)
  {
    var a, b := Over(ANY, To4(src.ip)), Over(ANY, To4(dest.ip));
    var start := IPStart(n, dest, src) + Put16(v);
    assert start + a + b == start + (a + b);
  }

  lemma {:induction false} SetUDPChecksum(before: Bytes, n: nat, dest: UdpAddr, src: UdpAddr, v: u16, rest: Bytes)
    ensures Splice(before + UDPHeader(Ports(n, dest, src, 0)) + rest, |before| + 6, Put16(v)) ==
            before + UDPHeader(Ports(n, dest, src, v)) + rest
  {
    var p := Put16(src.port % 0x1_0000) + Put16(dest.port % 0x1_0000) + Put16(UDPLength(n));
    assert before + UDPHeader(Ports(n, dest, src, 0)) + rest == before + p + Put16(0) + rest;
    assert before + UDPHeader(Ports(n, dest, src, v)) + rest == before + p + Put16(v) + rest;
    var s := before + p + Put16(0) + rest;
    assert s[..|before| + 6] == before + p && s[|before| + 8..] == rest;
  }

  method ChecksumOf(buf: Bytes, initial: u16) returns (r: u16)
    ensures r == Sum(buf, initial)
  {
    r := CalculateChecksum(buf, initial);
  }

  method ChecksumOfThree(a: Bytes, b: Bytes, c: Bytes, initial: u16) returns (r: u16)
    ensures r == SumAll([a, b, c], initial)
  {
    r := ChecksumOf(a, initial);
    assert [a, b, c][1..] == [b, c];
    assert SumAll([a, b, c], initial) == SumAll([b, c], r);
    r := ChecksumOf(b, r);
    assert [b, c][1..] == [c];
    assert SumAll([a, b, c], initial) == SumAll([c], r);
    r := ChecksumOf(c, r);
    assert [c][1..] == [];
  }

  method WriteIPHeader(h: array<byte>, n: nat, dest: UdpAddr, src: UdpAddr)
    requires h.Length >= 20 && h[12..16] == ANY && h[16..20] == ANY
    modifies h
    ensures h[..20] == IPHeader(n, dest, src, IPChecksum(n, dest, src))
    ensures h[20..] == old(h[20..])
  {
    ghost var rest := h[20..];
    EncodeIPv4(h, IPFields(n, dest, src, 0));
    assert h[..20] == IPHeader(n, dest, src, 0);
    assert h[0] == h[..20][0];
    var c := ChecksumOf(h[..HeaderLength(h[0])], 0);
    WriteAt(h, 10, Put16(Complement(c)));
    SetIPChecksum(n, dest, src, Complement(c), rest);
    TwoParts(h[..], IPHeader(n, dest, src, Complement(c)), rest);
  }

  lemma {:induction false} TwoParts(h: Bytes, a: Bytes, b: Bytes)
    requires h == a + b
    ensures h[..|a|] == a && h[|a|..] == b
  {
  }

  method WriteUDPHeader(h: array<byte>, packet: Bytes, dest: UdpAddr, src: UdpAddr, ghost ip: Bytes)
    requires h.Length >= 28 && |ip| == 20 && h[..20] == ip
    modifies h
    ensures h[..28] == ip + UDPHeader(Ports(|packet|, dest, src, Complement(UDPSum(packet, dest, src))))
    ensures h[28..] == old(h[28..])
  {
    var n := |packet|;
    ghost var rest := h[28..];
    EncodeUDP(h, 20, Ports(n, dest, src, 0));
    ThreeParts(h[..], ip, UDPHeader(Ports(n, dest, src, 0)), rest);
    var xsum := ChecksumOfThree(To4(src.ip), To4(dest.ip), [0, UDP_PROTOCOL], 0);
    xsum := ChecksumOfThree(packet, Put16(UDPLength(n)), h[20..28], xsum);
    WriteAt(h, 26, Put16(Complement(xsum)));
    SetUDPChecksum(ip, n, dest, src, Complement(xsum), rest);
    TwoParts(h[..], ip + UDPHeader(Ports(n, dest, src, Complement(xsum))), rest);
  }

  lemma {:induction false} ThreeParts(h: Bytes, a: Bytes, b: Bytes, c: Bytes)
    requires h == a + b + c
    ensures h[|a|..|a| + |b|] == b
  {
  }

  lemma {:induction false} SpliceEnd(s: Bytes, at: nat, data: Bytes)
    requires |s| == at + |data|
    ensures Splice(s, at, data) == s[..at] + data
  {
  }

  method Zeroed(n: nat) returns (h: array<byte>)
    requires n >= 20
    ensures fresh(h) && h.Length == n && h[12..16] == ANY && h[16..20] == ANY
  {
    h := new byte[n](_ => 0);
  }

  /** The headers and the payload, one behind the other. */
  method BuildInPlace(packet: Bytes, dest: UdpAddr, src: UdpAddr) returns (h: array<byte>, ghost ip: Bytes)
    ensures |ip| == 20 && ip == IPHeader(|packet|, dest, src, IPChecksum(|packet|, dest, src))
    ensures h.Length == 28 + |packet|
    ensures h[..28] == ip + UDPHeader(Ports(|packet|, dest, src, Complement(UDPSum(packet, dest, src))))
    ensures fresh(h)
  {
    h := Zeroed(IP_SIZE + UDP_SIZE + |packet|);
    WriteIPHeader(h, |packet|, dest, src);
    ip := h[..20];
    WriteUDPHeader(h, packet, dest, src, ip);
  }

  method Udp4Pkt(packet: Bytes, dest: UdpAddr, src: UdpAddr) returns (pkt: Bytes)
    ensures pkt == Datagram(packet, dest, src)
  {
    var h, ip := BuildInPlace(packet, dest, src);
    SpliceEnd(h[..], 28, packet);
    ghost var headers := h[..28];
    WriteAt(h, 28, packet);
    pkt := h[..];
    assert pkt == headers + packet;
  }
}
