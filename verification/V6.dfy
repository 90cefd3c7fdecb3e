/**
 DHCPv6 messages, relay messages and options (sections 6, 7 and 22 of RFC 3315,
 sections 9 and 10 of RFC 3633), which nest in each other without bound, and what
 their serialisers and parsers compute.

 Options whose body is not itself structured here are kept as code and bytes
 (`Plain`): for the ones the repository has a type for, `LeafAccepts` says which
 bodies the type's parser takes, and the type serialises back to those bytes.
 */
module V6 {
  import opened Wire
  import opened Duids
  import Labels

  const RELAY_FORWARD: byte := 12
  const RELAY_REPLY: byte := 13

  const CLIENT_ID: u16 := 1
  const SERVER_ID: u16 := 2
  const IA_NA: u16 := 3
  const IA_ADDR: u16 := 5
  const ORO: u16 := 6
  const ELAPSED_TIME: u16 := 8
  const RELAY_MSG: u16 := 9
  const STATUS_CODE: u16 := 13
  const USER_CLASS: u16 := 15
  const VENDOR_CLASS: u16 := 16
  const VENDOR_OPTS: u16 := 17
  const INTERFACE_ID: u16 := 18
  const DNS_SERVERS: u16 := 23
  const DOMAIN_SEARCH: u16 := 24
  const IA_PD: u16 := 25
  const IA_PREFIX: u16 := 26
  const REMOTE_ID: u16 := 37
  const CLIENT_ARCH: u16 := 61
  const NII: u16 := 62

  type Bytes3 = b: Bytes | |b| == 3 witness [0, 0, 0]
  type Bytes4 = b: Bytes | |b| == 4 witness [0, 0, 0, 0]

  datatype DHCPv6 =
    | Message(msgType: byte, xid: Bytes3, options: seq<Opt>)
    | Relay(msgType: byte, hopCount: byte, linkAddr: Bytes, peerAddr: Bytes, options: seq<Opt>)

  /** `UnsetRelayMsg` is a relay message option whose message was never set. */
  datatype Opt =
    | ClientId(duid: Duid)
    | ServerId(duid: Duid)
    | IaNa(iaId: Bytes4, t1: u32, t2: u32, options: seq<Opt>)
    | IaPd(iaId: Bytes4, t1: u32, t2: u32, options: seq<Opt>)
    | IaAddr(addr: Bytes, preferred: u32, valid: u32, options: seq<Opt>)
    | IaPrefix(preferred: u32, valid: u32, prefixLength: byte, prefix: Bytes, options: seq<Opt>)
    | RelayMsg(inner: DHCPv6)
    | UnsetRelayMsg
    | VendorOpts(enterpriseNumber: u32, options: seq<Opt>)
    | Plain(plainCode: u16, data: Bytes)
  {
    function Code(): u16 {
      match this
      case ClientId(_) => CLIENT_ID
      case ServerId(_) => SERVER_ID
      case IaNa(_, _, _, _) => IA_NA
      case IaPd(_, _, _, _) => IA_PD
      case IaAddr(_, _, _, _) => IA_ADDR
      case IaPrefix(_, _, _, _, _) => IA_PREFIX
      case RelayMsg(_) => RELAY_MSG
      case UnsetRelayMsg => RELAY_MSG
      case VendorOpts(_, _) => VENDOR_OPTS
      case Plain(code, _) => code
    }
  }

  predicate IsRelayType(t: byte) {
    t == RELAY_FORWARD || t == RELAY_REPLY
  }

  /** `net.IP.To16`: an IPv4 address is mapped, anything but 4 or 16 bytes gives nil. */
  function To16(ip: Bytes): Bytes {
    if |ip| == 4 then [0, 0, 0, 0, 0, 0, 0, 0, 0, 0, 255, 255] + ip else if |ip| == 16 then ip else []
  }

  // Fixed headers: what comes before the options of a message, and before the options of an option.

  datatype Head =
    | MessageHead(msgType: byte, xid: Bytes3)
    | RelayHead(msgType: byte, hopCount: byte, linkAddr: Bytes, peerAddr: Bytes)

  function HeadOf(m: DHCPv6): Head {
    match m
    case Message(t, xid, _) => MessageHead(t, xid)
    case Relay(t, hops, link, peer, _) => RelayHead(t, hops, link, peer)
  }

  function WithOptions(h: Head, options: seq<Opt>): DHCPv6 {
    match h
    case MessageHead(t, xid) => Message(t, xid, options)
    case RelayHead(t, hops, link, peer) => Relay(t, hops, link, peer, options)
  }

  function EncodeHead(h: Head): Bytes {
    match h
    case MessageHead(t, xid) => [t] + xid
    case RelayHead(t, hops, link, peer) => [t, hops] + To16(link) + To16(peer)
  }

  /** How many bytes the header takes. What a short header lacks is not an error. */
  function HeadLength(data: Bytes): (n: nat)
    ensures n <= |data|
  {
    if |data| < 2 then |data|
    else if IsRelayType(data[0]) then (if |data| >= 34 then 34 else if |data| >= 18 then 18 else 2)
    else if |data| >= 4 then 4
    else 1
  }

  /** Missing numbers read as zero and a missing address as nil. */
  function ReadHead(data: Bytes): Head {
    var t := if data == [] then 0 else data[0];
    if IsRelayType(t) then
      RelayHead(t,
                if |data| >= 2 then data[1] else 0,
                if |data| >= 18 then data[2..18] else [],
                if |data| >= 34 then data[18..34] else [])
    else
      MessageHead(t, if |data| >= 4 then data[1..4] else [0, 0, 0])
  }

  predicate HasOptions(o: Opt) {
    o.IaNa? || o.IaPd? || o.IaAddr? || o.IaPrefix? || o.VendorOpts?
  }

  /** The length of the header in front of the options in an option with this code, if it holds options. */
  function OptHeadLength(code: u16): Option<nat> {
    if code == IA_NA || code == IA_PD then Some(12)
    else if code == IA_ADDR then Some(24)
    else if code == IA_PREFIX then Some(25)
    else if code == VENDOR_OPTS then Some(4)
    else None
  }

  function EncodeOptHead(o: Opt): Bytes
    requires HasOptions(o)
  {
    match o
    case IaNa(id, t1, t2, _) => id + Put32(t1) + Put32(t2)
    case IaPd(id, t1, t2, _) => id + Put32(t1) + Put32(t2)
    case IaAddr(addr, p, v, _) => To16(addr) + Put32(p) + Put32(v)
    case IaPrefix(p, v, n, prefix, _) => Put32(p) + Put32(v) + [n] + To16(prefix)
    case VendorOpts(n, _) => Put32(n)
  }

  function ReadOptHead(code: u16, h: Bytes, options: seq<Opt>): Opt
    requires OptHeadLength(code) == Some(|h|)
  {
    if code == IA_NA then IaNa(h[..4], Get32(h[4..8]), Get32(h[8..12]), options)
    else if code == IA_PD then IaPd(h[..4], Get32(h[4..8]), Get32(h[8..12]), options)
    else if code == IA_ADDR then IaAddr(h[..16], Get32(h[16..20]), Get32(h[20..24]), options)
    else if code == IA_PREFIX then IaPrefix(Get32(h[..4]), Get32(h[4..8]), h[8], h[9..25], options)
    else VendorOpts(Get32(h), options)
  }

  // Serialising.

  /** Code, length and body; the length is cut to 16 bits. */
  function Tlv(code: u16, body: Bytes): Bytes {
    Put16(code) + Put16(|body|) + body
  }

  function EncodeMsg(m: DHCPv6): Bytes {
    EncodeHead(HeadOf(m)) + EncodeOptions(m.options)
  }

  function EncodeOptions(options: seq<Opt>): Bytes {
    if options == [] then []
    else EncodeOption(options[0]) + EncodeOptions(options[1..])
  }

  function EncodeOption(o: Opt): Bytes
    decreases o, 1
  {
    Tlv(o.Code(), EncodeBody(o))
  }

  /** The body of an option. An unset relay message has none. */
  function EncodeBody(o: Opt): Bytes
    decreases o, 0
  {
    if HasOptions(o) then EncodeOptHead(o) + EncodeOptions(o.options)
    else
      match o
      case ClientId(duid) => Duids.ToBytes(duid)
      case ServerId(duid) => Duids.ToBytes(duid)
      case RelayMsg(inner) => EncodeMsg(inner)
      case Plain(_, data) => data
      case _ => []
  }

  // Parsing.

  /** A list of 16-bit lengths, each followed by that many bytes. */
  predicate IsClassList(data: Bytes) {
    data == [] ||
    (|data| >= 2 && 2 + Get16(data[..2]) <= |data| && IsClassList(data[2 + Get16(data[..2])..]))
  }

  /** The bodies that the parsers of the unstructured options accept. */
  predicate LeafAccepts(code: u16, data: Bytes) {
    if code == ORO || code == CLIENT_ARCH then |data| % 2 == 0
    else if code == ELAPSED_TIME then |data| == 2
    else if code == STATUS_CODE then |data| >= 2
    else if code == USER_CLASS then data != [] && IsClassList(data)
    else if code == VENDOR_CLASS then |data| > 4 && IsClassList(data[4..])
    else if code == DNS_SERVERS then |data| % 16 == 0
    else if code == DOMAIN_SEARCH then Labels.Decode(data).Ok?
    else if code == REMOTE_ID then |data| >= 4
    else if code == NII then |data| == 3
    else true
  }

  function ParseMsg(data: Bytes): Option<DHCPv6>
    decreases |data|, 2
  {
    var options := ParseOptions(data[HeadLength(data)..], false);
    if options.None? then None else Some(WithOptions(ReadHead(data), options.value))
  }

  /** `vendor` selects the parser that keeps every option as code and bytes. */
  function ParseOptions(data: Bytes, vendor: bool): Option<seq<Opt>>
    decreases |data|, 1
  {
    if data == [] then Some([])
    else if |data| < 4 then None
    else
      var n := Get16(data[2..4]);
      if 4 + n > |data| then None
      else
        var o := ParseOption(Get16(data[..2]), data[4..4 + n], vendor);
        var rest := ParseOptions(data[4 + n..], vendor);
        Chain(o, rest)
  }

  function Chain(o: Option<Opt>, rest: Option<seq<Opt>>): Option<seq<Opt>> {
    if o.None? || rest.None? then None else Some([o.value] + rest.value)
  }

  function ParseOption(code: u16, data: Bytes, vendor: bool): Option<Opt>
    decreases |data|, 3
  {
    if vendor then Some(Plain(code, data))
    else if OptHeadLength(code).Some? then
      var n := OptHeadLength(code).value;
      if |data| < n then None
      else
        var options := ParseOptions(data[n..], code == VENDOR_OPTS);
        if options.None? then None else Some(ReadOptHead(code, data[..n], options.value))
    else if code == RELAY_MSG then
      var m := ParseMsg(data);
      if m.None? then None else Some(RelayMsg(m.value))
    else
      ParseLeaf(code, data)
  }

  /** The options that hold neither options nor a message. */
  function ParseLeaf(code: u16, data: Bytes): Option<Opt> {
    if code == CLIENT_ID || code == SERVER_ID then
      var d := Duids.FromBytes(data);
      if d.None? then None else Some(if code == CLIENT_ID then ClientId(d.value) else ServerId(d.value))
    else if LeafAccepts(code, data) then Some(Plain(code, data))
    else None
  }
}
