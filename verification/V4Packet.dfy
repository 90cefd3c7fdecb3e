/** DHCPv4 packets (section 2 of RFC 2131): the fixed header, the magic cookie and the options. */
module V4Packet {
  import opened Wire
  import opened V4Options
  import opened V4Marshal
  import opened V4OptionMap

  const ETHERNET: byte := 1
  const COOKIE: Bytes := [99, 130, 83, 99]

  type Bytes4 = b: Bytes | |b| == 4 witness [0, 0, 0, 0]

  /** An address that was never set is nil, here the empty sequence. Names are the bytes of Go strings. */
  datatype Packet = Packet(
    op: byte,
    hwType: byte,
    hopCount: byte,
    xid: Bytes4,
    secs: u16,
    flags: u16,
    clientIP: Bytes,
    yourIP: Bytes,
    serverIP: Bytes,
    gatewayIP: Bytes,
    hwAddr: Bytes,
    serverName: Bytes,
    bootFile: Bytes,
    options: OptMap)

  datatype PacketError = TooShort | BadCookie | BadOptions(error: OptError)

  function Zeros(n: nat): (z: Bytes)
    ensures |z| == n && forall i | 0 <= i < n :: z[i] == 0
  {
    seq(n, _ => 0)
  }

  predicate NulFree(s: Bytes) {
    forall i | 0 <= i < |s| :: s[i] != 0
  }

  // Serialising.

  /** The inputs on which the source does not panic: addresses are nil or hold four bytes, names leave room for a NUL. */
  predicate Serialisable(p: Packet) {
    && (forall ip | ip in [p.clientIP, p.yourIP, p.serverIP, p.gatewayIP] :: ip == [] || |ip| >= 4)
    && |p.serverName| < 64
    && |p.bootFile| < 128
  }

  /** The first four bytes, whatever the length of the address. */
  function IPBytes(ip: Bytes): (b: Bytes)
    requires ip == [] || |ip| >= 4
    ensures |b| == 4
  {
    if ip == [] then Zeros(4) else ip[..4]
  }

  function HwLength(p: Packet): byte {
    if |p.hwAddr| % 256 == 0 && p.hwType == ETHERNET then 6 else |p.hwAddr| % 256
  }

  /** `copy` into a zeroed array of `n` bytes. */
  function Fill(s: Bytes, n: nat): (b: Bytes)
    ensures |b| == n
  {
    if |s| >= n then s[..n] else s + Zeros(n - |s|)
  }

  function Numbers(p: Packet): (b: Bytes)
    ensures |b| == 12
  {
    [p.op, p.hwType, HwLength(p), p.hopCount] + p.xid + Put16(p.secs) + Put16(p.flags)
  }

  function Addresses(p: Packet): (b: Bytes)
    requires Serialisable(p)
    ensures |b| == 16
  {
    IPBytes(p.clientIP) + IPBytes(p.yourIP) + IPBytes(p.serverIP) + IPBytes(p.gatewayIP)
  }

  function Encode(p: Packet): Bytes
    requires Serialisable(p)
  {
    Numbers(p) + Addresses(p) + Fill(p.hwAddr, 16) + Fill(p.serverName, 64) + Fill(p.bootFile, 128) +
    COOKIE + Marshal(p.options) + [END]
  }

  // Parsing.

  /** Up to the first NUL, or all of it. */
  function Text(b: Bytes): (s: Bytes)
    ensures NulFree(s) && |s| <= |b| && s == b[..|s|] && (|s| < |b| ==> b[|s|] == 0)
  {
    if b == [] || b[0] == 0 then [] else [b[0]] + Text(b[1..])
  }

  function CapHwLength(n: byte): (m: nat)
    ensures m <= 16
  {
    if n > 16 then 16 else n
  }

  function Fixed(q: Bytes, options: OptMap): Packet
    requires |q| >= 240
  {
    Packet(q[0], q[1], q[3], q[4..8], Get16(q[8..10]), Get16(q[10..12]),
           q[12..16], q[16..20], q[20..24], q[24..28],
           q[28..28 + CapHwLength(q[2])], Text(q[44..108]), Text(q[108..236]), options)
  }

  function Decode(q: Bytes): Result<Packet, PacketError> {
    if |q| < 240 then Err(TooShort)
    else if q[236..240] != COOKIE then Err(BadCookie)
    else
      var o := Parse(map[], q[240..], true);
      if o.error.Some? then Err(BadOptions(o.error.value)) else Ok(Fixed(q, o.options))
  }

  // The round trip.

  /** What reading back keeps: set IPv4 addresses, a hardware address that fits, names without NUL, clean options. */
  predicate Survives(p: Packet) {
    && |p.clientIP| == |p.yourIP| == |p.serverIP| == |p.gatewayIP| == 4
    && |p.hwAddr| <= 16
    && (p.hwAddr == [] ==> p.hwType != ETHERNET)
    && NulFree(p.serverName)
    && NulFree(p.bootFile)
    && Kept(p.options)
  }

  lemma {:induction false} TextOf(s: Bytes, rest: Bytes)
    requires NulFree(s) && (rest == [] || rest[0] == 0)
    ensures Text(s + rest) == s
  {
    if s == [] {
      assert [] + rest == rest;
    } else {
      assert (s + rest)[1..] == s[1..] + rest;
      TextOf(s[1..], rest);
    }
  }

  lemma {:induction false} NameReadsIff(s: Bytes, n: nat)
    requires |s| < n
    ensures Text(Fill(s, n)) == s <==> NulFree(s)
  {
    if NulFree(s) {
      TextOf(s, Zeros(n - |s|));
    }
  }

  lemma {:induction false} HwReadsIff(p: Packet)
    ensures Fill(p.hwAddr, 16)[..CapHwLength(HwLength(p))] == p.hwAddr <==>
            |p.hwAddr| <= 16 && (p.hwAddr == [] ==> p.hwType != ETHERNET)
  {
  }

  /** Where each part of the header ends up. */
  lemma {:induction false} Layout(a: Bytes, b: Bytes, c: Bytes, d: Bytes, e: Bytes, rest: Bytes)
    requires |a| == 12 && |b| == 16 && |c| == 16 && |d| == 64 && |e| == 128
    ensures var q := a + b + c + d + e + COOKIE + rest;
            && |q| >= 240
            && q[..12] == a && q[12..28] == b && q[28..44] == c && q[44..108] == d && q[108..236] == e
            && q[236..240] == COOKIE && q[240..] == rest
  {
  }

  lemma {:induction false} FixedReadsIff(p: Packet, q: Bytes, options: OptMap)
    requires Serialisable(p) && |q| >= 240
    requires q[..12] == Numbers(p) && q[12..28] == Addresses(p)
    requires q[28..44] == Fill(p.hwAddr, 16)
    requires q[44..108] == Fill(p.serverName, 64) && q[108..236] == Fill(p.bootFile, 128)
    ensures Fixed(q, options) == p <==>
            && |p.clientIP| == |p.yourIP| == |p.serverIP| == |p.gatewayIP| == 4
            && |p.hwAddr| <= 16
            && (p.hwAddr == [] ==> p.hwType != ETHERNET)
            && NulFree(p.serverName)
            && NulFree(p.bootFile)
            && options == p.options
  {
    NumbersRead(p, q);
    AddressesRead(p, q);
    HwReadsIff(p);
    SliceOfSlice(q, 28, 44, CapHwLength(q[2]));
    NameReadsIff(p.serverName, 64);
    NameReadsIff(p.bootFile, 128);
  }

  lemma {:induction false} SliceOfSlice(q: Bytes, i: nat, j: nat, n: nat)
    requires i + n <= j <= |q|
    ensures q[i..j][..n] == q[i..i + n]
  {
  }

  lemma {:induction false} NumbersRead(p: Packet, q: Bytes)
    requires |q| >= 12 && q[..12] == Numbers(p)
    ensures q[0] == p.op && q[1] == p.hwType && q[2] == HwLength(p) && q[3] == p.hopCount
    ensures q[4..8] == p.xid && Get16(q[8..10]) == p.secs && Get16(q[10..12]) == p.flags
  {
    var n := Numbers(p);
    assert forall i | 0 <= i < 12 :: q[i] == n[i];
    assert q[4..8] == n[4..8] == p.xid;
    assert q[8..10] == n[8..10] == Put16(p.secs);
    assert q[10..12] == n[10..12] == Put16(p.flags);
    Get16Put16(p.secs);
    Get16Put16(p.flags);
  }

  lemma {:induction false} AddressesRead(p: Packet, q: Bytes)
    requires Serialisable(p) && |q| >= 28 && q[12..28] == Addresses(p)
    ensures q[12..16] == IPBytes(p.clientIP) && q[16..20] == IPBytes(p.yourIP)
    ensures q[20..24] == IPBytes(p.serverIP) && q[24..28] == IPBytes(p.gatewayIP)
  {
    FourParts(IPBytes(p.clientIP), IPBytes(p.yourIP), IPBytes(p.serverIP), IPBytes(p.gatewayIP));
    SliceInSlice(q, 12, 28, 0, 4);
    SliceInSlice(q, 12, 28, 4, 8);
    SliceInSlice(q, 12, 28, 8, 12);
    SliceInSlice(q, 12, 28, 12, 16);
  }

  lemma {:induction false} FourParts(a: Bytes, b: Bytes, c: Bytes, d: Bytes)
    requires |a| == |b| == |c| == |d| == 4
    ensures var s := a + b + c + d; s[0..4] == a && s[4..8] == b && s[8..12] == c && s[12..16] == d
  {
    var s := a + b + c + d;
    assert s[0..4] == a;
    assert s[4..8] == b;
    assert s[8..12] == c;
    assert s[12..16] == d;
  }

  lemma {:induction false} SliceInSlice(q: Bytes, i: nat, j: nat, k: nat, l: nat)
    requires i <= j <= |q| && k <= l <= j - i
    ensures q[i..j][k..l] == q[i + k..i + l]
  {
    var s := q[i..j];
    assert forall x | k <= x < l :: s[x] == q[i + x];
    assert s[k..l] == q[i + k..i + l];
  }

  /** A packet is read back from its bytes exactly when nothing in it is rewritten on the way. */
  lemma {:induction false} RoundTripIff(p: Packet)
    requires Serialisable(p)
    ensures Decode(Encode(p)) == Ok(p) <==> Survives(p)
  {
    var rest := Marshal(p.options) + [END];
    EncodeParts(p, rest);
    Layout(Numbers(p), Addresses(p), Fill(p.hwAddr, 16), Fill(p.serverName, 64), Fill(p.bootFile, 128), rest);
    V4Marshal.RoundTripIff(p.options, [END], true);
    FixedReadsIff(p, Encode(p), Parse(map[], rest, true).options);
  }

  // Every packet.

  /** What is written for an address: zeros for nil, and the first four bytes of anything else. */
  ghost predicate AddressAs(ip: Bytes, b: Bytes) {
    if ip == [] then b == [0, 0, 0, 0] else |ip| >= 4 && b == ip[..4]
  }

  /** `s` in a field of zeros, as far as it goes. */
  ghost predicate FieldAs(s: Bytes, b: Bytes) {
    forall i | 0 <= i < |b| :: b[i] == if i < |s| then s[i] else 0
  }

  /** The length byte of a hardware address: cut to 8 bits, and 6 for an Ethernet address that is not there. */
  ghost function LengthByte(hw: Bytes, hwType: byte): byte {
    if |hw| % 256 != 0 then |hw| % 256 else if hwType == 1 then 6 else 0
  }

  lemma {:induction false} FillFields(s: Bytes, n: nat)
    ensures FieldAs(s, Fill(s, n))
  {
  }

  lemma {:induction false} ZeroAddress()
    ensures Zeros(4) == [0, 0, 0, 0]
  {
  }

  lemma {:induction false} WrittenAddresses(p: Packet, q: Bytes)
    requires Serialisable(p) && |q| >= 28 && q[12..28] == Addresses(p)
    ensures AddressAs(p.clientIP, q[12..16]) && AddressAs(p.yourIP, q[16..20])
    ensures AddressAs(p.serverIP, q[20..24]) && AddressAs(p.gatewayIP, q[24..28])
  {
    AddressesRead(p, q);
    ZeroAddress();
  }

  /** Where everything stands on the wire, for every packet (section 2 of RFC 2131). */
  lemma {:induction false} WireLayout(p: Packet, q: Bytes)
    requires Serialisable(p) && q == Encode(p)
    ensures |q| >= 241
    ensures q[0] == p.op && q[1] == p.hwType && q[2] == LengthByte(p.hwAddr, p.hwType) && q[3] == p.hopCount
    ensures q[4..8] == p.xid && Get16(q[8..10]) == p.secs && Get16(q[10..12]) == p.flags
    ensures AddressAs(p.clientIP, q[12..16]) && AddressAs(p.yourIP, q[16..20])
    ensures AddressAs(p.serverIP, q[20..24]) && AddressAs(p.gatewayIP, q[24..28])
    ensures FieldAs(p.hwAddr, q[28..44]) && FieldAs(p.serverName, q[44..108]) && FieldAs(p.bootFile, q[108..236])
    ensures q[236..240] == [99, 130, 83, 99]
    ensures q[240..] == Marshal(p.options) + [255]
  {
    var rest := Marshal(p.options) + [END];
    EncodeParts(p, rest);
    Layout(Numbers(p), Addresses(p), Fill(p.hwAddr, 16), Fill(p.serverName, 64), Fill(p.bootFile, 128), rest);
    NumbersRead(p, q);
    WrittenAddresses(p, q);
    FillFields(p.hwAddr, 16);
    FillFields(p.serverName, 64);
    FillFields(p.bootFile, 128);
  }

  /** What every field of an accepted packet is read from. */
  lemma {:induction false} ReadFields(q: Bytes, p: Packet)
    requires Decode(q) == Ok(p)
    ensures |q| >= 240 && q[236..240] == [99, 130, 83, 99]
    ensures p.op == q[0] && p.hwType == q[1] && p.hopCount == q[3] && p.xid == q[4..8]
    ensures p.secs == Get16(q[8..10]) && p.flags == Get16(q[10..12])
    ensures p.clientIP == q[12..16] && p.yourIP == q[16..20] && p.serverIP == q[20..24] && p.gatewayIP == q[24..28]
    ensures p.hwAddr == q[28..if q[2] < 16 then 28 + q[2] else 44]
    ensures UpToNul(q[44..108], p.serverName) && UpToNul(q[108..236], p.bootFile)
    ensures Parse(map[], q[240..], true) == Parsed(p.options, None)
  {
  }

  /** `s` is what stands in `b` before the first zero, or all of it. */
  ghost predicate UpToNul(b: Bytes, s: Bytes) {
    |s| <= |b| && s == b[..|s|] && 0 !in s && (|s| < |b| ==> b[|s|] == 0)
  }

  /** The hardware address that comes back. */
  function HwRead(hw: Bytes, hwType: byte): Bytes {
    if hw == [] then (if hwType == 1 then [0, 0, 0, 0, 0, 0] else [])
    else if |hw| <= 16 then hw
    else if |hw| % 256 == 0 then (if hwType == 1 then hw[..6] else [])
    else hw[..if |hw| % 256 < 16 then |hw| % 256 else 16]
  }

  lemma {:induction false} HwReads(p: Packet)
    ensures Fill(p.hwAddr, 16)[..CapHwLength(HwLength(p))] == HwRead(p.hwAddr, p.hwType)
  {
  }

  lemma {:induction false} TextOfFill(s: Bytes, n: nat)
    requires |s| < n
    ensures Text(Fill(s, n)) == Text(s)
  {
    var t := Text(s);
    assert t == s[..|t|];
    TextOf(t, Fill(s, n)[|t|..]);
    assert Fill(s, n) == t + Fill(s, n)[|t|..];
  }

  /** An address that comes back. */
  function IPRead(ip: Bytes): Bytes {
    if |ip| < 4 then [0, 0, 0, 0] else ip[..4]
  }

  /** What a packet comes back as. */
  function AsRead(p: Packet): Packet {
    p.(clientIP := IPRead(p.clientIP), yourIP := IPRead(p.yourIP),
       serverIP := IPRead(p.serverIP), gatewayIP := IPRead(p.gatewayIP),
       hwAddr := HwRead(p.hwAddr, p.hwType),
       serverName := Text(p.serverName), bootFile := Text(p.bootFile),
       options := Clean(p.options))
  }

  lemma {:induction false} FixedReads(p: Packet, q: Bytes, options: OptMap)
    requires Serialisable(p) && |q| >= 240
    requires q[..12] == Numbers(p) && q[12..28] == Addresses(p)
    requires q[28..44] == Fill(p.hwAddr, 16)
    requires q[44..108] == Fill(p.serverName, 64) && q[108..236] == Fill(p.bootFile, 128)
    ensures Fixed(q, options) == AsRead(p).(options := options)
  {
    NumbersRead(p, q);
    AddressesRead(p, q);
    ZeroAddress();
    HwReads(p);
    SliceOfSlice(q, 28, 44, CapHwLength(q[2]));
    TextOfFill(p.serverName, 64);
    TextOfFill(p.bootFile, 128);
  }

  /**
   Every packet, whatever is in it, comes back with its addresses cut to four bytes or filled in with
   zeros, its hardware address cut or filled in, its names up to their NUL, and its options without the
   empty ones, exactly when it has no value under option code 0; the header comes back so in any case.
   */
  lemma {:induction false} ReadsAsIff(p: Packet)
    requires Serialisable(p)
    ensures var r := Decode(Encode(p));
            && (r == Ok(AsRead(p)) <==> 0 !in p.options || p.options[0] == [])
            && (r.Ok? ==> r.value == AsRead(p).(options := r.value.options))
  {
    var rest := Marshal(p.options) + [END];
    EncodeParts(p, rest);
    Layout(Numbers(p), Addresses(p), Fill(p.hwAddr, 16), Fill(p.serverName, 64), Fill(p.bootFile, 128), rest);
    ReadsAsCleanIff(p.options, [END], true);
    FixedReads(p, Encode(p), Parse(map[], rest, true).options);
  }

  lemma {:induction false} EncodeParts(p: Packet, rest: Bytes)
    requires Serialisable(p) && rest == Marshal(p.options) + [END]
    ensures Encode(p) == Numbers(p) + Addresses(p) + Fill(p.hwAddr, 16) + Fill(p.serverName, 64) +
                         Fill(p.bootFile, 128) + COOKIE + rest
  {
    var header := Numbers(p) + Addresses(p) + Fill(p.hwAddr, 16) + Fill(p.serverName, 64) + Fill(p.bootFile, 128) + COOKIE;
    Assoc(header, Marshal(p.options), [END]);
  }

  /** 240 bytes of header and cookie, the End option, and for every value its length and 2 per piece of 255. */
  lemma {:induction false} EncodedLength(p: Packet)
    requires Serialisable(p)
    ensures |Encode(p)| == 241 + MarshalledLength(p.options, KeysFrom(p.options, 0))
  {
    KeysAreThere(p.options, 0);
    MarshalLength(p.options, KeysFrom(p.options, 0));
  }

  /** Exactly which bytes are packets: no options at all may be without an End. */
  lemma {:induction false} AcceptIff(q: Bytes)
    ensures Decode(q).Ok? <==>
            |q| >= 240 && q[236..240] == COOKIE && (|q| == 240 || Grammatical(q[240..], true))
  {
    if |q| > 240 {
      V4Options.AcceptIff(map[], q[240..], true);
    }
  }

  /**
   A parsed packet can be serialised exactly when both names were terminated, and it is
   then read back exactly when it has no unset Ethernet address and no empty option.
   */
  lemma {:induction false} ReparseIff(q: Bytes)
    requires Decode(q).Ok?
    ensures var p := Decode(q).value;
            && (Serialisable(p) <==> 0 in q[44..108] && 0 in q[108..236])
            && (Serialisable(p) ==>
                  (Decode(Encode(p)) == Ok(p) <==>
                   (q[1] == ETHERNET ==> q[2] != 0) && forall k | k in p.options :: p.options[k] != []))
  {
    var p := Decode(q).value;
    TerminatedIff(q[44..108]);
    TerminatedIff(q[108..236]);
    ParsedSurvivesIff(q, p);
    if Serialisable(p) {
      RoundTripIff(p);
    }
  }

  lemma {:induction false} ParsedSurvivesIff(q: Bytes, p: Packet)
    requires Decode(q) == Ok(p)
    ensures Survives(p) <==> (q[1] == ETHERNET ==> q[2] != 0) && forall k | k in p.options :: p.options[k] != []
  {
    ParsedKeys(q[240..], true);
    assert |p.hwAddr| == CapHwLength(q[2]);
  }

  lemma {:induction false} TerminatedIff(b: Bytes)
    ensures |Text(b)| < |b| <==> 0 in b
  {
    if |Text(b)| < |b| {
      assert b[|Text(b)|] == 0;
    }
  }

  // The code, over a cursor. `q` and `i` say where in the packet the cursor is, until a read fails.

  ghost predicate At(buf: Lexer, q: Bytes, i: nat)
    reads buf
  {
    !buf.failed ==> i <= |q| && buf.data == q[i..]
  }

  method Next(buf: Lexer, n: nat, ghost q: Bytes, ghost i: nat) returns (v: Bytes)
    requires At(buf, q, i)
    modifies buf
    ensures At(buf, q, i + n)
    ensures buf.failed <==> old(buf.failed) || i + n > |q|
    ensures !buf.failed ==> v == q[i..i + n]
  {
    v := buf.Read(n);
    assert !buf.failed ==> q[i..][..n] == q[i..i + n] && q[i..][n..] == q[i + n..];
  }

  method Next8(buf: Lexer, ghost q: Bytes, ghost i: nat) returns (v: byte)
    requires At(buf, q, i)
    modifies buf
    ensures At(buf, q, i + 1)
    ensures buf.failed <==> old(buf.failed) || i + 1 > |q|
    ensures !buf.failed ==> v == q[i]
  {
    var b := Next(buf, 1, q, i);
    v := if |b| == 1 then b[0] else 0;
  }

  method Next16(buf: Lexer, ghost q: Bytes, ghost i: nat) returns (v: u16)
    requires At(buf, q, i)
    modifies buf
    ensures At(buf, q, i + 2)
    ensures buf.failed <==> old(buf.failed) || i + 2 > |q|
    ensures !buf.failed ==> v == Get16(q[i..i + 2])
  {
    var b := Next(buf, 2, q, i);
    v := if |b| == 2 then Get16(b) else 0;
  }

  method ReadNumbers(buf: Lexer, ghost q: Bytes)
    returns (op: byte, hwType: byte, hwLength: byte, hops: byte, xid: Bytes, secs: u16, flags: u16)
    requires At(buf, q, 0) && !buf.failed
    modifies buf
    ensures At(buf, q, 12)
    ensures buf.failed <==> 12 > |q|
    ensures !buf.failed ==>
              && op == q[0] && hwType == q[1] && hwLength == q[2] && hops == q[3] && xid == q[4..8]
              && secs == Get16(q[8..10]) && flags == Get16(q[10..12])
  {
    op := Next8(buf, q, 0);
    hwType := Next8(buf, q, 1);
    hwLength := Next8(buf, q, 2);
    hops := Next8(buf, q, 3);
    xid := Next(buf, 4, q, 4);
    secs := Next16(buf, q, 8);
    flags := Next16(buf, q, 10);
  }

  method ReadAddresses(buf: Lexer, ghost q: Bytes)
    returns (clientIP: Bytes, yourIP: Bytes, serverIP: Bytes, gatewayIP: Bytes)
    requires At(buf, q, 12)
    modifies buf
    ensures At(buf, q, 28)
    ensures buf.failed <==> old(buf.failed) || 28 > |q|
    ensures !buf.failed ==>
              clientIP == q[12..16] && yourIP == q[16..20] && serverIP == q[20..24] && gatewayIP == q[24..28]
  {
    clientIP := Next(buf, 4, q, 12);
    yourIP := Next(buf, 4, q, 16);
    serverIP := Next(buf, 4, q, 20);
    gatewayIP := Next(buf, 4, q, 24);
  }

  method FromBytes(q: Bytes) returns (r: Result<Packet, PacketError>)
    ensures r == Decode(q)
  {
    var buf := new Lexer(q);
    var op, hwType, hwLength, hops, xid, secs, flags := ReadNumbers(buf, q);
    var clientIP, yourIP, serverIP, gatewayIP := ReadAddresses(buf, q);
    var hwAddr := Next(buf, 16, q, 28);
    var sname := Next(buf, 64, q, 44);
    var file := Next(buf, 128, q, 108);
    var cookie := Next(buf, 4, q, 236);
    if buf.failed {
      return Err(TooShort);
    }
    if cookie != COOKIE {
      return Err(BadCookie);
    }
    var options := new Options();
    var error := options.FromBytesCheckEnd(buf.data, true);
    if error.Some? {
      return Err(BadOptions(error.value));
    }
    var n: nat := if hwLength > 16 then 16 else hwLength;
    SliceOfSlice(q, 28, 44, n);
    r := Ok(Packet(op, hwType, hops, xid, secs, flags, clientIP, yourIP, serverIP, gatewayIP,
                   hwAddr[..n], Text(sname), Text(file), options.m));
  }

  method WriteNumbers(buf: Lexer, p: Packet)
    modifies buf
    ensures buf.data == old(buf.data) + Numbers(p)
  {
    buf.Write([p.op]);
    buf.Write([p.hwType]);
    var hlen := |p.hwAddr| % 256;
    if hlen == 0 && p.hwType == ETHERNET {
      hlen := 6;
    }
    buf.Write([hlen]);
    buf.Write([p.hopCount]);
    buf.Write(p.xid);
    buf.Write(Put16(p.secs));
    buf.Write(Put16(p.flags));
  }

  /** Fails, as slicing does in the source, on an address that is neither nil nor four bytes long or more. */
  method WriteIP(buf: Lexer, ip: Bytes) returns (ok: bool)
    modifies buf
    ensures ok <==> ip == [] || |ip| >= 4
    ensures ok ==> buf.data == old(buf.data) + IPBytes(ip)
  {
    if ip == [] {
      buf.Write([0, 0, 0, 0]);
      ZeroAddress();
    } else if |ip| < 4 {
      return false;
    } else {
      buf.Write(ip[..4]);
    }
    ok := true;
  }

  method WriteAddresses(buf: Lexer, p: Packet) returns (ok: bool)
    modifies buf
    ensures ok <==> forall ip | ip in [p.clientIP, p.yourIP, p.serverIP, p.gatewayIP] :: ip == [] || |ip| >= 4
    ensures ok && Serialisable(p) ==> buf.data == old(buf.data) + Addresses(p)
  {
    var ok1 := WriteIP(buf, p.clientIP);
    var ok2 := WriteIP(buf, p.yourIP);
    var ok3 := WriteIP(buf, p.serverIP);
    var ok4 := WriteIP(buf, p.gatewayIP);
    var ips := [p.clientIP, p.yourIP, p.serverIP, p.gatewayIP];
    assert ips[0] in ips && ips[1] in ips && ips[2] in ips && ips[3] in ips;
    ok := ok1 && ok2 && ok3 && ok4;
  }

  /** `copy` into an array of zeros; `terminated` also sets the byte after the text, which must be there. */
  method WriteField(buf: Lexer, s: Bytes, n: nat, terminated: bool) returns (ok: bool)
    modifies buf
    ensures ok <==> (terminated ==> |s| < n)
    ensures ok ==> buf.data == old(buf.data) + Fill(s, n)
  {
    var field := new byte[n](_ => 0);
    var k := if |s| < n then |s| else n;
    for i := 0 to k
      invariant buf.data == old(buf.data) && field[..i] == s[..i]
      invariant forall j | i <= j < n :: field[j] == 0
    {
      field[i] := s[i];
    }
    if terminated {
      if |s| >= n {
        return false;
      }
      field[|s|] := 0;
    }
    FillFields(s, n);
    assert field[..] == Fill(s, n);
    buf.Write(field[..]);
    ok := true;
  }

  /** `options` is the packet's map, an object that marshals itself. Nothing comes out where the source panics. */
  method ToBytes(p: Packet, options: Options) returns (b: Option<Bytes>)
    requires options.m == p.options
    ensures b == if Serialisable(p) then Some(Encode(p)) else None
    ensures b.Some? ==>
              && |b.value| > 240
              && AddressAs(p.clientIP, b.value[12..16]) && AddressAs(p.yourIP, b.value[16..20])
              && AddressAs(p.serverIP, b.value[20..24]) && AddressAs(p.gatewayIP, b.value[24..28])
  {
    var buf := new Lexer([]);
    WriteNumbers(buf, p);
    assert buf.data == Numbers(p);
    var ok := WriteAddresses(buf, p);
    if !ok {
      return None;
    }
    ok := WriteField(buf, p.hwAddr, 16, false);
    ok := WriteField(buf, p.serverName, 64, true);
    if !ok {
      return None;
    }
    ok := WriteField(buf, p.bootFile, 128, true);
    if !ok {
      return None;
    }
    buf.Write(COOKIE);
    options.Marshal(buf);
    buf.Write([END]);
    WireLayout(p, buf.data);
    b := Some(buf.data);
  }
}
