/** IPv4 and UDP headers written in place around a payload (RFC 791, RFC 768), and read back from a raw socket. */
module RawUdp {
  import opened Wire
  import opened Checksum

  const IP_SIZE := 20
  const UDP_SIZE := 8
  const UDP_PROTOCOL: byte := 17

  datatype UdpAddr = UdpAddr(ip: Bytes, port: int)

  datatype IPv4Fields = IPv4Fields(
    ihl: byte,
    tos: byte,
    totalLength: u16,
    id: u16,
    flags: byte,
    fragmentOffset: u16,
    ttl: byte,
    protocol: byte,
    checksum: u16,
    srcAddr: Bytes,
    dstAddr: Bytes)

  datatype UDPFields = UDPFields(srcPort: u16, dstPort: u16, length: u16, checksum: u16)

  const MAPPED: Bytes := [0, 0, 0, 0, 0, 0, 0, 0, 0, 0, 255, 255]

  /** `net.IP.To4`: nil unless it is an IPv4 address in either form. */
  function To4(ip: Bytes): (r: Bytes)
    ensures r == [] || |r| == 4
  {
    if |ip| == 4 then ip
    else if |ip| == 16 && ip[..12] == MAPPED then ip[12..]
    else []
  }

  /** The header length, in words, is the low half of the first byte. */
  function HeaderLength(first: byte): nat {
    first % 16 * 4
  }

  // Headers as values.

  /** `copy` over an address that may be shorter than four bytes. */
  function Over(was: Bytes, addr: Bytes): (b: Bytes)
    requires |was| == 4
    ensures |b| == 4
  {
    if |addr| >= 4 then addr[..4] else addr + was[|addr|..]
  }

  function FlagsAndOffset(flags: byte, offset: u16): u16 {
    flags % 8 * 0x2000 + offset / 8
  }

  /** The version is 4, and the header length counts words. */
  function VersionAndLength(ihl: byte): byte {
    0x40 + ihl / 4 % 16
  }

  function IPv4Start(f: IPv4Fields): (b: Bytes)
    ensures |b| == 10
  {
    StartBytes(VersionAndLength(f.ihl), f.tos, f.totalLength, f.id,
               FlagsAndOffset(f.flags, f.fragmentOffset), f.ttl, f.protocol)
  }

  function StartBytes(first: byte, tos: byte, length: u16, id: u16, fragment: u16, ttl: byte,
                      protocol: byte): (b: Bytes)
    ensures |b| == 10 && b[0] == first && b[9] == protocol && b[2..4] == Put16(length)
  {
    [first, tos] + Put16(length) + Put16(id) + Put16(fragment) + [ttl, protocol]
  }

  /** The header that encoding leaves where `src` and `dst` were. */
  function IPv4Header(f: IPv4Fields, src: Bytes, dst: Bytes): (b: Bytes)
    requires |src| == 4 && |dst| == 4
    ensures |b| == 20
    ensures b[0] == VersionAndLength(f.ihl) && b[2..4] == Put16(f.totalLength) && b[9] == f.protocol
    ensures b[12..16] == Over(src, f.srcAddr) && b[16..20] == Over(dst, f.dstAddr)
  {
    IPv4Start(f) + Put16(f.checksum) + Over(src, f.srcAddr) + Over(dst, f.dstAddr)
  }

  function UDPHeader(u: UDPFields): (b: Bytes)
    ensures |b| == 8
  {
    Put16(u.srcPort) + Put16(u.dstPort) + Put16(u.length) + Put16(u.checksum)
  }

  lemma {:induction false} UDPFieldsRead(u: UDPFields)
    ensures var b := UDPHeader(u);
            Get16(b[..2]) == u.srcPort && Get16(b[2..4]) == u.dstPort && Get16(b[4..6]) == u.length
  {
    FieldsRead(Put16(u.srcPort), Put16(u.dstPort), Put16(u.length), Put16(u.checksum));
    Get16Put16(u.srcPort);
    Get16Put16(u.dstPort);
    Get16Put16(u.length);
  }

  lemma {:induction false} FieldsRead(a: Bytes, b: Bytes, c: Bytes, d: Bytes)
    requires |a| == |b| == |c| == |d| == 2
    ensures var h := a + b + c + d; h[..2] == a && h[2..4] == b && h[4..6] == c
  {
  }

  // Headers in place.

  function Splice(s: Bytes, at: nat, data: Bytes): (r: Bytes)
    requires at + |data| <= |s|
    ensures |r| == |s|
  {
    s[..at] + data + s[at + |data|..]
  }

  method WriteAt(b: array<byte>, at: nat, data: Bytes)
    requires at + |data| <= b.Length
    modifies b
    ensures b[..] == Splice(old(b[..]), at, data)
  {
    for i := 0 to |data|
      invariant b[..at] == old(b[..at])
      invariant b[at..at + i] == data[..i]
      invariant b[at + i..] == old(b[at + i..])
    {
      b[at + i] := data[i];
    }
    assert b[..] == b[..at] + b[at..at + |data|] + b[at + |data|..];
  }

  lemma {:induction false} SpliceMiddle(a: Bytes, was: Bytes, now: Bytes, b: Bytes, c: Bytes)
    requires |was| == |now|
    ensures Splice(a + was + b + c, |a|, now) == a + now + b + c
  {
  }

  /** Writing on from where the last write stopped. */
  lemma {:induction false} SpliceNext(s: Bytes, done: Bytes, data: Bytes)
    requires |done| + |data| <= |s|
    ensures Splice(done + s[|done|..], |done|, data) == done + data + s[|done + data|..]
  {
  }

  /** `s` is what the array held before, and `done` what has been written from its start. */
  method WriteNext(b: array<byte>, at: nat, data: Bytes, ghost s: Bytes, ghost done: Bytes)
    requires |s| == b.Length && at == |done| && at + |data| <= b.Length
    requires b[..] == done + s[|done|..]
    modifies b
    ensures b[..] == done + data + s[|done + data|..]
  {
    WriteAt(b, at, data);
    SpliceNext(s, done, data);
  }

  method CopyAddress(b: array<byte>, at: nat, addr: Bytes, ghost s: Bytes, ghost done: Bytes)
    requires |s| == b.Length && at == |done| && at + 4 <= b.Length
    requires b[..] == done + s[|done|..]
    modifies b
    ensures b[..] == done + Over(s[at..at + 4], addr) + s[at + 4..]
  {
    var data := if |addr| >= 4 then addr[..4] else addr;
    WriteNext(b, at, data, s, done);
    OverReads(s, done, addr, data);
  }

  lemma {:induction false} OverReads(s: Bytes, done: Bytes, addr: Bytes, data: Bytes)
    requires |done| + 4 <= |s| && data == if |addr| >= 4 then addr[..4] else addr
    ensures done + data + s[|done + data|..] == done + Over(s[|done|..|done| + 4], addr) + s[|done| + 4..]
  {
    var n := |done|;
    assert s[n..n + 4][|data|..] + s[n + 4..] == s[n + |data|..];
  }

  method EncodeIPv4(b: array<byte>, f: IPv4Fields)
    requires b.Length >= IP_SIZE
    modifies b
    ensures b[..] == IPv4Header(f, old(b[12..16]), old(b[16..20])) + old(b[20..])
  {
    ghost var s := b[..];
    EncodeIPv4Start(b, f, s);
    WriteNext(b, 10, Put16(f.checksum), s, IPv4Start(f));
    CopyAddress(b, 12, f.srcAddr, s, IPv4Start(f) + Put16(f.checksum));
    CopyAddress(b, 16, f.dstAddr, s, IPv4Start(f) + Put16(f.checksum) + Over(s[12..16], f.srcAddr));
  }

  method EncodeIPv4Start(b: array<byte>, f: IPv4Fields, ghost s: Bytes)
    requires b.Length >= 10 && s == b[..]
    modifies b
    ensures b[..] == IPv4Start(f) + s[10..]
  {
    assert s == [] + s[0..];
    WriteNext(b, 0, [VersionAndLength(f.ihl), f.tos], s, []);
    ghost var done: Bytes := [VersionAndLength(f.ihl), f.tos];
    assert [] + done == done;
    WriteNext(b, 2, Put16(f.totalLength), s, done);
    done := done + Put16(f.totalLength);
    WriteNext(b, 4, Put16(f.id), s, done);
    done := done + Put16(f.id);
    WriteNext(b, 6, Put16(FlagsAndOffset(f.flags, f.fragmentOffset)), s, done);
    done := done + Put16(FlagsAndOffset(f.flags, f.fragmentOffset));
    WriteNext(b, 8, [f.ttl, f.protocol], s, done);
  }

  /** The UDP header starts behind `before`. */
  method EncodeUDP(b: array<byte>, at: nat, u: UDPFields)
    requires at + UDP_SIZE <= b.Length
    modifies b
    ensures b[..] == old(b[..at]) + UDPHeader(u) + old(b[at + 8..])
  {
    ghost var s := b[..];
    ghost var done := s[..at];
    assert s == done + s[at..];
    WriteNext(b, at, Put16(u.srcPort), s, done);
    done := done + Put16(u.srcPort);
    WriteNext(b, at + 2, Put16(u.dstPort), s, done);
    done := done + Put16(u.dstPort);
    WriteNext(b, at + 4, Put16(u.length), s, done);
    done := done + Put16(u.length);
    WriteNext(b, at + 6, Put16(u.checksum), s, done);
    assert done + Put16(u.checksum) == s[..at] + UDPHeader(u);
  }
}
