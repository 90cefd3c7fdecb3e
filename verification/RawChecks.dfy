/** That a receiver's checks of a built datagram pass, and that its lengths are right. */
module RawChecks {
  import opened Wire
  import opened Checksum
  import opened RawUdp
  import opened RawPacket

  /** The pseudo-header of RFC 768, as a receiver makes it from the headers. */
  function PseudoHeader(dest: UdpAddr, src: UdpAddr, length: u16): (b: Bytes)
    ensures |b| == 12
  {
    Over(ANY, To4(src.ip)) + Over(ANY, To4(dest.ip)) + [0, UDP_PROTOCOL] + Put16(length)
  }

  lemma {:induction false} WordSumField(a: Bytes, v: u16, b: Bytes)
    requires |a| % 2 == 0
    ensures WordSum(a + Put16(v) + b) == WordSum(a) + v + WordSum(b)
  {
    WordSumConcat(a + Put16(v), b);
    WordSumConcat(a, Put16(v));
    WordOfField(v);
  }

  lemma {:induction false} WordOfField(v: u16)
    ensures WordSum(Put16(v)) == v
  {
    assert Put16(v)[2..] == [];
  }

  /** The header checksum of every datagram is right. */
  lemma {:induction false} IPVerifies(n: nat, dest: UdpAddr, src: UdpAddr)
    ensures OnesSum(WordSum(IPHeader(n, dest, src, IPChecksum(n, dest, src)))) == 0xffff
  {
    var v := IPChecksum(n, dest, src);
    IPHeaderField(n, dest, src, v);
    SumIsOnesSum(IPHeader(n, dest, src, 0), 0);
    ComplementVerifies(WordSum(IPHeader(n, dest, src, 0)));
  }

  lemma {:induction false} IPHeaderField(n: nat, dest: UdpAddr, src: UdpAddr, v: u16)
    ensures WordSum(IPHeader(n, dest, src, v)) == WordSum(IPHeader(n, dest, src, 0)) + v
  {
    var start, addrs := IPStart(n, dest, src), IPAddresses(dest, src);
    IPHeaderParts(n, dest, src, 0);
    IPHeaderParts(n, dest, src, v);
    WordSumField(start, 0, addrs);
    WordSumField(start, v, addrs);
  }

  /** Everything that the UDP checksum covers but the checksum itself. */
  function Covered(packet: Bytes, dest: UdpAddr, src: UdpAddr): nat {
    WordSum(PseudoHeader(dest, src, UDPLength(|packet|))) + WordSum(UDPHeader(Ports(|packet|, dest, src, 0))) +
    WordSum(packet)
  }

  lemma {:induction false} AddressSum(ip: Bytes)
    ensures WordSum(Over(ANY, To4(ip))) == WordSum(To4(ip))
  {
    if To4(ip) == [] {
      assert Over(ANY, []) == ANY;
      assert ANY[2..] == [0, 0] && [0, 0][2..] == [];
    } else {
      assert Over(ANY, To4(ip)) == To4(ip);
    }
  }

  lemma {:induction false} PseudoHeaderWords(dest: UdpAddr, src: UdpAddr, length: u16)
    ensures WordSum(PseudoHeader(dest, src, length)) ==
            WordSum(To4(src.ip)) + WordSum(To4(dest.ip)) + WordSum([0, UDP_PROTOCOL]) + length
  {
    var a, b, c := Over(ANY, To4(src.ip)), Over(ANY, To4(dest.ip)), [0, UDP_PROTOCOL];
    WordSumConcat(a, b);
    WordSumConcat(a + b, c);
    WordSumConcat(a + b + c, Put16(length));
    WordOfField(length);
    AddressSum(src.ip);
    AddressSum(dest.ip);
  }

  lemma {:induction false} WordSumsThree(a: Bytes, b: Bytes, c: Bytes)
    ensures WordSums([a, b, c]) == WordSum(a) + WordSum(b) + WordSum(c)
  {
    assert [a, b, c][1..] == [b, c] && [b, c][1..] == [c] && [c][1..] == [];
    assert WordSums([c]) == WordSum(c);
    assert WordSums([b, c]) == WordSum(b) + WordSums([c]);
  }

  lemma {:induction false} SumOfThree(a: Bytes, b: Bytes, c: Bytes, x: nat)
    requires |a| <= 0x2_0000 && |b| <= 0x2_0000 && |c| <= 0x2_0000
    ensures SumAll([a, b, c], OnesSum(x)) == OnesSum(x + WordSum(a) + WordSum(b) + WordSum(c))
  {
    WordSumsThree(a, b, c);
    SumAllIsOnesSum([a, b, c], x);
  }

  lemma {:induction false} SumOfSix(s: Bytes, d: Bytes, p: Bytes, packet: Bytes, length: Bytes, header: Bytes)
    requires |s| <= 4 && |d| <= 4 && |p| == 2 && |packet| <= 0x2_0000 && |length| == 2 && |header| == 8
    ensures SumAll([packet, length, header], SumAll([s, d, p], 0)) ==
            OnesSum(WordSum(s) + WordSum(d) + WordSum(p) + WordSum(packet) + WordSum(length) + WordSum(header))
  {
    SumOfThree(s, d, p, 0);
    SumOfThree(packet, length, header, WordSum(s) + WordSum(d) + WordSum(p));
  }

  /** Everything covered, in the order in which it is summed. */
  lemma {:induction false} CoveredInOrder(packet: Bytes, dest: UdpAddr, src: UdpAddr)
    ensures Covered(packet, dest, src) ==
            WordSum(To4(src.ip)) + WordSum(To4(dest.ip)) + WordSum([0, UDP_PROTOCOL]) + WordSum(packet) +
            WordSum(Put16(UDPLength(|packet|))) + WordSum(UDPHeader(Ports(|packet|, dest, src, 0)))
  {
    WordOfField(UDPLength(|packet|));
    PseudoHeaderWords(dest, src, UDPLength(|packet|));
  }

  /** Summing in parts, and the odd payload not last, gives the sum of everything covered. */
  lemma {:induction false} UDPSumCovers(packet: Bytes, dest: UdpAddr, src: UdpAddr)
    requires |packet| <= 0x2_0000
    ensures UDPSum(packet, dest, src) == OnesSum(Covered(packet, dest, src))
  {
    SumOfSix(To4(src.ip), To4(dest.ip), [0, UDP_PROTOCOL], packet, Put16(UDPLength(|packet|)),
             UDPHeader(Ports(|packet|, dest, src, 0)));
    CoveredInOrder(packet, dest, src);
  }

  lemma {:induction false} UDPHeaderWords(n: nat, dest: UdpAddr, src: UdpAddr, v: u16)
    ensures WordSum(UDPHeader(Ports(n, dest, src, v))) ==
            src.port % 0x1_0000 + dest.port % 0x1_0000 + UDPLength(n) + v
  {
    var a, b, c := Put16(src.port % 0x1_0000), Put16(dest.port % 0x1_0000), Put16(UDPLength(n));
    WordSumConcat(a, b);
    WordSumConcat(a + b, c);
    WordSumConcat(a + b + c, Put16(v));
    WordOfField(src.port % 0x1_0000);
    WordOfField(dest.port % 0x1_0000);
    WordOfField(UDPLength(n));
    WordOfField(v);
  }

  /** Putting the complement of a sum into a field that was zero. */
  lemma {:induction false} CompletedSum(pseudo: Bytes, blank: Bytes, header: Bytes, packet: Bytes, v: u16)
    requires |pseudo| % 2 == 0 && |header| % 2 == 0
    requires v == Complement(OnesSum(WordSum(pseudo) + WordSum(blank) + WordSum(packet)))
    requires WordSum(header) == WordSum(blank) + v
    ensures OnesSum(WordSum(pseudo + (header + packet))) == 0xffff
  {
    WordSumConcat(pseudo, header + packet);
    WordSumConcat(header, packet);
    ComplementVerifies(WordSum(pseudo) + WordSum(blank) + WordSum(packet));
  }

  lemma {:induction false} UDPHeaderField(n: nat, dest: UdpAddr, src: UdpAddr, v: u16)
    ensures WordSum(UDPHeader(Ports(n, dest, src, v))) == WordSum(UDPHeader(Ports(n, dest, src, 0))) + v
  {
    UDPHeaderWords(n, dest, src, 0);
    UDPHeaderWords(n, dest, src, v);
  }

  /** Pseudo-header, header and payload of every datagram add up to all ones. */
  lemma {:induction false} UDPVerifies(packet: Bytes, dest: UdpAddr, src: UdpAddr)
    requires |packet| <= 0x2_0000
    ensures var segment := Datagram(packet, dest, src)[20..];
            OnesSum(WordSum(PseudoHeader(dest, src, UDPLength(|packet|)) + segment)) == 0xffff
  {
    var n, v := |packet|, Complement(UDPSum(packet, dest, src));
    UDPSumCovers(packet, dest, src);
    UDPHeaderField(n, dest, src, v);
    SegmentOf(packet, dest, src);
    CompletedSum(PseudoHeader(dest, src, UDPLength(n)), UDPHeader(Ports(n, dest, src, 0)),
                 UDPHeader(Ports(n, dest, src, v)), packet, v);
  }

  lemma {:induction false} SegmentOf(packet: Bytes, dest: UdpAddr, src: UdpAddr)
    ensures Datagram(packet, dest, src)[20..] ==
            UDPHeader(Ports(|packet|, dest, src, Complement(UDPSum(packet, dest, src)))) + packet
  {
    var n, v := |packet|, Complement(UDPSum(packet, dest, src));
    DatagramParts(IPHeader(n, dest, src, IPChecksum(n, dest, src)), UDPHeader(Ports(n, dest, src, v)), packet);
  }

  lemma {:induction false} DatagramParts(ip: Bytes, header: Bytes, packet: Bytes)
    requires |ip| == 20 && |header| == 8
    ensures var pkt := ip + header + packet;
            && pkt[..20] == ip && pkt[20..] == header + packet && pkt[20..28] == header && pkt[28..] == packet
            && pkt[2..4] == ip[2..4] && pkt[24..26] == header[4..6]
  {
  }

  /**
   RFC 768 keeps a zero checksum for "none" and sends all ones instead. The source does
   not: it sends zero exactly when what is covered adds up to a multiple of 65535.
   */
  lemma {:induction false} ZeroChecksumIff(packet: Bytes, dest: UdpAddr, src: UdpAddr)
    requires |packet| <= 0x2_0000
    ensures Complement(UDPSum(packet, dest, src)) == 0 <==> Covered(packet, dest, src) % 0xffff == 0
  {
    UDPSumCovers(packet, dest, src);
    PseudoHeaderWords(dest, src, UDPLength(|packet|));
    assert [0, UDP_PROTOCOL][2..] == [];
    AllOnesIff(Covered(packet, dest, src));
  }

  lemma {:induction false} AllOnesIff(v: nat)
    requires v > 0
    ensures OnesSum(v) == 0xffff <==> v % 0xffff == 0
  {
    var k := OnesSumSplit(v);
    if OnesSum(v) == 0xffff {
      Remainder(v, k + 1, 0);
    } else {
      Remainder(v, k, OnesSum(v));
    }
  }

  /** For every payload and both addresses there is a source port that makes it so. */
  lemma {:induction false} ZeroChecksumHappens(packet: Bytes, dest: UdpAddr, ip: Bytes) returns (port: u16)
    requires |packet| <= 0x2_0000
    ensures Complement(UDPSum(packet, dest, UdpAddr(ip, port))) == 0
  {
    var others := Covered(packet, dest, UdpAddr(ip, 0));
    port := UpToRound(others);
    CoveredPort(packet, dest, ip, port);
    ZeroChecksumIff(packet, dest, UdpAddr(ip, port));
  }

  lemma {:induction false} UpToRound(v: nat) returns (r: u16)
    ensures (v + r) % 0xffff == 0
  {
    r := 0xffff - v % 0xffff;
    Remainder(v + r, v / 0xffff + 1, 0);
  }

  lemma {:induction false} CoveredPort(packet: Bytes, dest: UdpAddr, ip: Bytes, port: u16)
    ensures Covered(packet, dest, UdpAddr(ip, port)) == Covered(packet, dest, UdpAddr(ip, 0)) + port
  {
    UDPHeaderWords(|packet|, dest, UdpAddr(ip, 0), 0);
    UDPHeaderWords(|packet|, dest, UdpAddr(ip, port), 0);
  }

  lemma {:induction false} LengthFields(packet: Bytes, dest: UdpAddr, src: UdpAddr, c: u16, d: u16, pkt: Bytes)
    requires pkt == Assemble(packet, dest, src, c, d)
    ensures |pkt| == 28 + |packet|
    ensures Get16(pkt[2..4]) == (28 + |packet|) % 0x1_0000 && Get16(pkt[24..26]) == (8 + |packet|) % 0x1_0000
  {
    var n := |packet|;
    DatagramParts(IPHeader(n, dest, src, c), UDPHeader(Ports(n, dest, src, d)), packet);
    Get16Put16(Cut(28 + n));
    UDPFieldsRead(Ports(n, dest, src, d));
  }

  /** The lengths in the headers are cut to 16 bits, and are right exactly for payloads that fit. */
  lemma {:induction false} LengthsRightIff(packet: Bytes, dest: UdpAddr, src: UdpAddr, c: u16, d: u16, pkt: Bytes)
    requires pkt == Assemble(packet, dest, src, c, d)
    ensures Get16(pkt[2..4]) == |pkt| <==> |packet| <= 65507
    ensures Get16(pkt[24..26]) == |pkt| - 20 <==> |packet| <= 65527
  {
    LengthFields(packet, dest, src, c, d, pkt);
    CutIff(28 + |packet|);
    CutIff(8 + |packet|);
  }

  lemma {:induction false} CutIff(n: nat)
    ensures Cut(n) == n <==> n < 0x1_0000
  {
  }

  // The headers on the wire.

  /** The address that is sent for one given in Go's form: four bytes, or sixteen with the IPv4 prefix; zero otherwise. */
  function Sent(ip: Bytes): (b: Bytes)
    ensures |b| == 4
  {
    if |ip| == 4 then ip
    else if |ip| == 16 && ip[..10] == [0, 0, 0, 0, 0, 0, 0, 0, 0, 0] && ip[10] == 255 && ip[11] == 255 then ip[12..]
    else [0, 0, 0, 0]
  }

  lemma {:induction false} SentIsWritten(ip: Bytes)
    ensures Over(ANY, To4(ip)) == Sent(ip)
  {
    if |ip| == 16 {
      assert ip[..12] == ip[..10] + [ip[10], ip[11]];
      assert MAPPED[..10] == [0, 0, 0, 0, 0, 0, 0, 0, 0, 0];
      assert ip[..12][..10] == ip[..10] && ip[..12][10] == ip[10] && ip[..12][11] == ip[11];
    }
  }

  /** Every field that is encoded can be read from the header, whatever it is (section 3.1 of RFC 791). */
  lemma {:induction false} IPv4FieldsRead(f: IPv4Fields, src: Bytes, dst: Bytes)
    requires |src| == 4 && |dst| == 4
    ensures var b := IPv4Header(f, src, dst);
            && b[0] / 16 == 4 && (f.ihl % 4 == 0 && f.ihl <= 60 ==> HeaderLength(b[0]) == f.ihl)
            && b[1] == f.tos && Get16(b[2..4]) == f.totalLength && Get16(b[4..6]) == f.id
            && Get16(b[6..8]) / 0x2000 == f.flags % 8 && Get16(b[6..8]) % 0x2000 == f.fragmentOffset / 8
            && b[8] == f.ttl && b[9] == f.protocol && Get16(b[10..12]) == f.checksum
  {
    var b, fragment := IPv4Header(f, src, dst), FlagsAndOffset(f.flags, f.fragmentOffset);
    var first := VersionAndLength(f.ihl);
    HeaderPieces([first, f.tos], Put16(f.totalLength), Put16(f.id), Put16(fragment), [f.ttl, f.protocol],
                 Put16(f.checksum), Over(src, f.srcAddr), Over(dst, f.dstAddr));
    Get16Put16(f.totalLength);
    Get16Put16(f.id);
    Get16Put16(fragment);
    Get16Put16(f.checksum);
    FragmentReads(f.flags, f.fragmentOffset);
  }

  lemma {:induction false} FragmentReads(flags: byte, offset: u16)
    ensures FlagsAndOffset(flags, offset) / 0x2000 == flags % 8
    ensures FlagsAndOffset(flags, offset) % 0x2000 == offset / 8
  {
  }

  lemma {:induction false} HeaderPieces(a: Bytes, b: Bytes, c: Bytes, d: Bytes, e: Bytes, f: Bytes, g: Bytes, h: Bytes)
    requires |a| == |b| == |c| == |d| == |e| == |f| == 2 && |g| == |h| == 4
    ensures var s := a + b + c + d + e + f + g + h;
            && s[0] == a[0] && s[1] == a[1] && s[2..4] == b && s[4..6] == c && s[6..8] == d
            && s[8] == e[0] && s[9] == e[1] && s[10..12] == f
  {
  }

  /** What a built datagram looks like, byte by byte: a 20-byte header, no fragments, 30 hops to live, UDP. */
  lemma {:induction false} DatagramLayout(packet: Bytes, dest: UdpAddr, src: UdpAddr, pkt: Bytes)
    requires pkt == Datagram(packet, dest, src)
    ensures |pkt| == 28 + |packet|
    ensures pkt[0] == 0x45 && pkt[1] == 0 && pkt[4..8] == [0, 0, 0, 0] && pkt[8] == 30 && pkt[9] == 17
    ensures pkt[12..16] == Sent(src.ip) && pkt[16..20] == Sent(dest.ip)
    ensures Get16(pkt[20..22]) == src.port % 0x1_0000 && Get16(pkt[22..24]) == dest.port % 0x1_0000
    ensures pkt[28..] == packet
  {
    var n := |packet|;
    var ip, u := IPHeader(n, dest, src, IPChecksum(n, dest, src)), Ports(n, dest, src, Complement(UDPSum(packet, dest, src)));
    DatagramParts(ip, UDPHeader(u), packet);
    IPHeaderBytes(n, dest, src, IPChecksum(n, dest, src));
    UDPFieldsRead(u);
    SentIsWritten(src.ip);
    SentIsWritten(dest.ip);
    assert pkt[4..8] == ip[4..8] && pkt[12..16] == ip[12..16] && pkt[16..20] == ip[16..20];
    assert pkt[20..22] == UDPHeader(u)[..2] && pkt[22..24] == UDPHeader(u)[2..4];
  }

  lemma {:induction false} IPHeaderBytes(n: nat, dest: UdpAddr, src: UdpAddr, c: u16)
    ensures var ip := IPHeader(n, dest, src, c); ip[1] == 0 && ip[4..8] == [0, 0, 0, 0] && ip[8] == 30
  {
    IPv4FieldsRead(IPFields(n, dest, src, c), ANY, ANY);
    ZeroWords(IPHeader(n, dest, src, c));
  }

  lemma {:induction false} ZeroWords(s: Bytes)
    requires |s| >= 8 && Get16(s[4..6]) == 0 && Get16(s[6..8]) / 0x2000 == 0 && Get16(s[6..8]) % 0x2000 == 0
    ensures s[4..8] == [0, 0, 0, 0]
  {
    assert s[4..8] == s[4..6] + s[6..8];
    ZeroWord(s[4..6]);
    ZeroWord(s[6..8]);
  }

  lemma {:induction false} ZeroWord(b: Bytes)
    requires |b| == 2 && Get16(b) == 0
    ensures b == [0, 0]
  {
  }
}
