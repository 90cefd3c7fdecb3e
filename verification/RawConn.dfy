/**
 Reading UDP packets from a raw socket. The socket is a sequence of arrivals; a packet
 longer than the read buffer arrives cut to it.
 */
module RawConn {
  import opened Wire
  import opened RawUdp
  import opened RawPacket
  import opened RawChecks

  const IP_MAX_SIZE := 60

  datatype Arrival = Raw(bytes: Bytes) | Failure

  /** What one arrival leads to. A header that is shorter than it says makes the source panic. */
  datatype Verdict = Skip | Deliver(payload: Bytes, from: UdpAddr) | EndOfFile | SocketError | Panic

  function Take(b: Bytes, n: nat): Bytes {
    if |b| <= n then b else b[..n]
  }

  /** The read buffer: what arrived, and zeros. Slicing an address out of a short header reaches into it. */
  function Buffer(raw: Bytes, size: nat): (b: Bytes)
    requires |raw| <= IP_MAX_SIZE + UDP_SIZE + size
    ensures |b| == IP_MAX_SIZE + UDP_SIZE + size && b[..|raw|] == raw
    ensures forall i | |raw| <= i < |b| :: b[i] == 0
  {
    raw + seq(IP_MAX_SIZE + UDP_SIZE + size - |raw|, _ => 0)
  }

  /** A bound address without an IP matches every address. */
  predicate UdpMatch(addr: UdpAddr, bound: Option<UdpAddr>) {
    bound.Some? ==>
      (bound.value.ip == [] || To4(bound.value.ip) == addr.ip) && bound.value.port == addr.port
  }

  function Judge(raw: Bytes, bound: Option<UdpAddr>, size: nat): Verdict
    requires |raw| <= IP_MAX_SIZE + UDP_SIZE + size
  {
    if raw == [] then EndOfFile
    else
      var n := HeaderLength(raw[0]);
      if n < 10 || n > |raw| then Panic
      else if raw[9] != UDP_PROTOCOL then Skip
      else if n + UDP_SIZE > |raw| then Panic
      else
        var b := Buffer(raw, size);
        if UdpMatch(UdpAddr(b[16..20], Get16(raw[n + 2..n + 4])), bound) then
          Deliver(Take(raw[n + 8..], size), UdpAddr(b[12..16], Get16(raw[n..n + 2])))
        else Skip
  }

  function JudgeArrival(a: Arrival, bound: Option<UdpAddr>, size: nat): Verdict {
    if a.Failure? then SocketError else Judge(Take(a.bytes, IP_MAX_SIZE + UDP_SIZE + size), bound, size)
  }

  method MatchUdp(addr: UdpAddr, bound: Option<UdpAddr>) returns (ok: bool)
    ensures ok == UdpMatch(addr, bound)
  {
    if bound.None? {
      return true;
    }
    if bound.value.ip != [] && To4(bound.value.ip) != addr.ip {
      return false;
    }
    ok := bound.value.port == addr.port;
  }

  /** One turn of the loop, over a cursor. */
  method JudgePacket(raw: Bytes, bound: Option<UdpAddr>, size: nat) returns (v: Verdict)
    requires |raw| <= IP_MAX_SIZE + UDP_SIZE + size
    ensures v == Judge(raw, bound, size)
  {
    if raw == [] {
      return EndOfFile;
    }
    var buf := new Lexer(raw);
    var n := HeaderLength(raw[0]);
    var ip := buf.Consume(n);
    if ip.None? || n < 10 {
      return Panic;
    }
    if ip.value[9] != UDP_PROTOCOL {
      return Skip;
    }
    var udp := buf.Consume(UDP_SIZE);
    if udp.None? {
      return Panic;
    }
    HeaderSlices(raw, n);
    var b := Buffer(raw, size);
    var matches := MatchUdp(UdpAddr(b[16..20], Get16(udp.value[2..4])), bound);
    if !matches {
      return Skip;
    }
    var payload := buf.ReadAll();
    v := Deliver(if |payload| > size then payload[..size] else payload, UdpAddr(b[12..16], Get16(udp.value[..2])));
  }

  lemma {:induction false} HeaderSlices(raw: Bytes, n: nat)
    requires n + 8 <= |raw|
    ensures var udp := raw[n..][..8];
            udp[..2] == raw[n..n + 2] && udp[2..4] == raw[n + 2..n + 4] && raw[n..][8..] == raw[n + 8..]
  {
  }

  /** The first arrival that is not skipped decides; `k` counts the skipped ones. */
  method ReadFrom(arrivals: seq<Arrival>, bound: Option<UdpAddr>, size: nat) returns (r: Option<Verdict>, k: nat)
    ensures k <= |arrivals|
    ensures forall i | 0 <= i < k :: JudgeArrival(arrivals[i], bound, size) == Skip
    ensures r == None <==> k == |arrivals|
    ensures r.Some? ==> r.value == JudgeArrival(arrivals[k], bound, size) && r.value != Skip
  {
    k := 0;
    while k < |arrivals|
      invariant k <= |arrivals|
      invariant forall i | 0 <= i < k :: JudgeArrival(arrivals[i], bound, size) == Skip
    {
      if arrivals[k].Failure? {
        return Some(SocketError), k;
      }
      var v := JudgePacket(Take(arrivals[k].bytes, IP_MAX_SIZE + UDP_SIZE + size), bound, size);
      if v != Skip {
        return Some(v), k;
      }
      k := k + 1;
    }
    r := None;
  }

  // What comes of a datagram, by the form of the bound address.

  const MAPPED_PREFIX: Bytes := [0, 0, 0, 0, 0, 0, 0, 0, 0, 0, 0xff, 0xff]

  /**
   A connection that is not bound takes everything; one bound to a port only, what is for that port; one
   bound to an IPv4 address in either of its forms, what is for that address and port; any other, nothing.
   */
  ghost predicate IsFor(bound: Option<UdpAddr>, ip: Bytes, port: u16) {
    bound.None? ||
    (&& bound.value.port == port
     && var b := bound.value.ip;
     b == [] || (|b| == 4 && b == ip) || (|b| == 16 && b == MAPPED_PREFIX + ip))
  }

  lemma {:induction false} MatchesIff(bound: Option<UdpAddr>, ip: Bytes, port: u16)
    requires |ip| == 4
    ensures UdpMatch(UdpAddr(ip, port), bound) <==> IsFor(bound, ip, port)
  {
    if bound.Some? && |bound.value.ip| == 16 {
      var b := bound.value.ip;
      assert b == b[..12] + b[12..];
      assert (MAPPED_PREFIX + ip)[..12] == MAPPED_PREFIX && (MAPPED_PREFIX + ip)[12..] == ip;
    }
  }

  /** As much of the payload as the reader has room for. */
  ghost function Room(payload: Bytes, size: nat): Bytes {
    payload[..if |payload| < size then |payload| else size]
  }

  lemma {:induction false} TakeWhole(ip: Bytes, udp: Bytes, packet: Bytes, size: nat)
    requires |ip| <= 60 && |udp| == 8
    ensures Take(ip + udp + packet, 68 + size) == ip + udp + Take(packet, size + 60 - |ip|)
    ensures Take(Take(packet, size + 60 - |ip|), size) == Room(packet, size)
  {
  }

  lemma {:induction false} HeaderParts(ip: Bytes, udp: Bytes, rest: Bytes)
    requires |ip| >= 20 && |udp| == 8
    ensures var raw, n := ip + udp + rest, |ip|;
            && raw[0] == ip[0] && raw[9] == ip[9] && raw[12..16] == ip[12..16] && raw[16..20] == ip[16..20]
            && raw[n..n + 2] == udp[..2] && raw[n + 2..n + 4] == udp[2..4] && raw[n + 8..] == rest
  {
  }

  lemma {:induction false} JudgeParts(ip: Bytes, udp: Bytes, rest: Bytes, bound: Option<UdpAddr>, size: nat)
    requires 20 <= |ip| <= 60 && |udp| == 8 && HeaderLength(ip[0]) == |ip| && |rest| <= size + 60 - |ip|
    ensures Judge(ip + udp + rest, bound, size) ==
            if ip[9] == UDP_PROTOCOL && UdpMatch(UdpAddr(ip[16..20], Get16(udp[2..4])), bound) then
              Deliver(Take(rest, size), UdpAddr(ip[12..16], Get16(udp[..2])))
            else Skip
  {
    var raw := ip + udp + rest;
    HeaderParts(ip, udp, rest);
    var b := Buffer(raw, size);
    assert b[16..20] == raw[16..20];
    assert b[12..16] == raw[12..16];
  }

  /**
   Any datagram, whatever options its IPv4 header carries: it is delivered if and only if it is UDP and
   for the bound address, and what is delivered is the payload and the sender in its headers.
   */
  lemma {:induction false} AnyDatagramIsRead(ip: Bytes, udp: Bytes, payload: Bytes, bound: Option<UdpAddr>, size: nat)
    requires 20 <= |ip| <= 60 && ip[0] % 16 * 4 == |ip| && |udp| == 8
    ensures JudgeArrival(Raw(ip + udp + payload), bound, size) ==
            if ip[9] == 17 && IsFor(bound, ip[16..20], Get16(udp[2..4])) then
              Deliver(Room(payload, size), UdpAddr(ip[12..16], Get16(udp[..2])))
            else Skip
  {
    TakeWhole(ip, udp, payload, size);
    JudgeParts(ip, udp, Take(payload, size + 60 - |ip|), bound, size);
    MatchesIff(bound, ip[16..20], Get16(udp[2..4]));
  }

  lemma {:induction false} AssembledIsRead(packet: Bytes, dest: UdpAddr, src: UdpAddr, c: u16, d: u16,
                                           bound: Option<UdpAddr>, size: nat)
    ensures JudgeArrival(Raw(Assemble(packet, dest, src, c, d)), bound, size) ==
            if IsFor(bound, Sent(dest.ip), dest.port % 0x1_0000) then
              Deliver(Room(packet, size), UdpAddr(Sent(src.ip), src.port % 0x1_0000))
            else Skip
  {
    var ip, udp := IPHeader(|packet|, dest, src, c), UDPHeader(Ports(|packet|, dest, src, d));
    UDPFieldsRead(Ports(|packet|, dest, src, d));
    SentIsWritten(dest.ip);
    SentIsWritten(src.ip);
    AnyDatagramIsRead(ip, udp, packet, bound, size);
  }

  /**
   A datagram of any size is delivered exactly where it is addressed to: with its payload,
   as far as the reader has room, and with its sender.
   */
  lemma {:induction false} BuiltIsRead(packet: Bytes, dest: UdpAddr, src: UdpAddr, bound: Option<UdpAddr>, size: nat)
    ensures JudgeArrival(Raw(Datagram(packet, dest, src)), bound, size) ==
            if IsFor(bound, Sent(dest.ip), dest.port % 0x1_0000) then
              Deliver(Room(packet, size), UdpAddr(Sent(src.ip), src.port % 0x1_0000))
            else Skip
  {
    var c, d := IPChecksum(|packet|, dest, src), Complement(UDPSum(packet, dest, src));
    AssembledIsRead(packet, dest, src, c, d, bound, size);
  }
}
