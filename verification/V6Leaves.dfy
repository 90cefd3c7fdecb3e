/**
 The DHCPv6 options that hold neither options nor a message nor a DUID: their fields, what their parsers
 accept, and that they serialise back to what they were parsed from. Options without a type of their own,
 and those that are just bytes, are `Unstructured`.
 */
module V6Leaves {
  import opened Wire
  import opened V6
  import Labels
  import LabelEncoding

  datatype Leaf =
    | Words(words: seq<u16>)
    | Elapsed(hundredths: u16)
    | Status(status: u16, message: Bytes)
    | UserClasses(classes: seq<Bytes>)
    | VendorClasses(enterprise: u32, items: seq<Bytes>)
    | NameServers(servers: seq<Bytes>)
    | Domains(original: Bytes, names: seq<Labels.Name>)
    | Remote(enterprise: u32, id: Bytes)
    | Interface(kind: byte, major: byte, minor: byte)
    | Unstructured(data: Bytes)

  // Lists in options.

  function EncodeWords(words: seq<u16>): Bytes {
    if words == [] then [] else Put16(words[0]) + EncodeWords(words[1..])
  }

  function ReadWords(data: Bytes): Option<seq<u16>> {
    if data == [] then Some([])
    else if |data| < 2 then None
    else Prefixed([Get16(data[..2])], ReadWords(data[2..]))
  }

  function EncodeClasses(classes: seq<Bytes>): Bytes {
    if classes == [] then [] else Put16(|classes[0]|) + classes[0] + EncodeClasses(classes[1..])
  }

  function ReadClasses(data: Bytes): Option<seq<Bytes>> {
    if data == [] then Some([])
    else if |data| < 2 || 2 + Get16(data[..2]) > |data| then None
    else
      var after := 2 + Get16(data[..2]);
      Prefixed([data[2..after]], ReadClasses(data[after..]))
  }

  function EncodeServers(servers: seq<Bytes>): Bytes {
    if servers == [] then [] else To16(servers[0]) + EncodeServers(servers[1..])
  }

  function ReadServers(data: Bytes): Option<seq<Bytes>> {
    if data == [] then Some([])
    else if |data| < 16 then None
    else Prefixed([data[..16]], ReadServers(data[16..]))
  }

  // Fields and bytes, by option code (sections 22.7 to 22.18 of RFC 3315, RFC 3646, RFC 4649, RFC 5970).

  function Read(code: u16, data: Bytes): Option<Leaf> {
    if code == 6 || code == 61 then
      var r := ReadWords(data);
      if r.None? then None else Some(Words(r.value))
    else if code == 8 then
      if |data| == 2 then Some(Elapsed(Get16(data))) else None
    else if code == 13 then
      if |data| >= 2 then Some(Status(Get16(data[..2]), data[2..])) else None
    else if code == 15 then
      var r := ReadClasses(data);
      if r.None? || r.value == [] then None else Some(UserClasses(r.value))
    else if code == 16 then
      if |data| < 4 then None
      else
        var r := ReadClasses(data[4..]);
        if r.None? || r.value == [] then None else Some(VendorClasses(Get32(data[..4]), r.value))
    else if code == 23 then
      var r := ReadServers(data);
      if r.None? then None else Some(NameServers(r.value))
    else if code == 24 then
      var r := Labels.Decode(data);
      if r.Err? then None else Some(Domains(data, r.value))
    else if code == 37 then
      if |data| >= 4 then Some(Remote(Get32(data[..4]), data[4..])) else None
    else if code == 62 then
      if |data| == 3 then Some(Interface(data[0], data[1], data[2])) else None
    else Some(Unstructured(data))
  }

  /** Domain names are those of an object that keeps the bytes it was read from. */
  function Encode(l: Leaf): Bytes {
    match l
    case Words(words) => EncodeWords(words)
    case Elapsed(t) => Put16(t)
    case Status(status, message) => Put16(status) + message
    case UserClasses(classes) => EncodeClasses(classes)
    case VendorClasses(n, items) => Put32(n) + EncodeClasses(items)
    case NameServers(servers) => EncodeServers(servers)
    case Domains(original, names) =>
      if Labels.Decode(original).Err? || Labels.Decode(original) == Ok(names) then original
      else LabelEncoding.EncodeNames(names)
    case Remote(n, id) => Put32(n) + id
    case Interface(kind, major, minor) => [kind, major, minor]
    case Unstructured(data) => data
  }

  // What is read serialises back.

  lemma {:induction false} WordsReserialise(data: Bytes)
    ensures ReadWords(data).Some? <==> |data| % 2 == 0
    ensures ReadWords(data).Some? ==> EncodeWords(ReadWords(data).value) == data
  {
    if |data| >= 2 {
      WordsReserialise(data[2..]);
      Put16Get16(data[..2]);
      assert data == data[..2] + data[2..];
      if ReadWords(data[2..]).Some? {
        assert ReadWords(data).value[1..] == ReadWords(data[2..]).value;
      }
    }
  }

  lemma {:induction false} ClassesReserialise(data: Bytes)
    ensures ReadClasses(data).Some? <==> IsClassList(data)
    ensures ReadClasses(data).Some? ==> EncodeClasses(ReadClasses(data).value) == data
    ensures ReadClasses(data) == Some([]) <==> data == []
  {
    if |data| >= 2 && 2 + Get16(data[..2]) <= |data| {
      var n := Get16(data[..2]);
      ClassesReserialise(data[2 + n..]);
      Put16Get16(data[..2]);
      assert data == data[..2] + data[2..2 + n] + data[2 + n..];
      if ReadClasses(data[2 + n..]).Some? {
        assert ReadClasses(data).value[1..] == ReadClasses(data[2 + n..]).value;
      }
    }
  }

  lemma {:induction false} ServersReserialise(data: Bytes)
    ensures ReadServers(data).Some? <==> |data| % 16 == 0
    ensures ReadServers(data).Some? ==> EncodeServers(ReadServers(data).value) == data
  {
    if |data| >= 16 {
      ServersReserialise(data[16..]);
      assert data == data[..16] + data[16..];
      if ReadServers(data[16..]).Some? {
        assert ReadServers(data).value[1..] == ReadServers(data[16..]).value;
      }
    }
  }

  lemma {:induction false} HeadThenRest(data: Bytes)
    ensures |data| >= 2 ==> Put16(Get16(data[..2])) + data[2..] == data
    ensures |data| >= 4 ==> Put32(Get32(data[..4])) + data[4..] == data
  {
    if |data| >= 2 {
      Put16Get16(data[..2]);
    }
    if |data| >= 4 {
      Put32Get32(data[..4]);
    }
  }

  lemma {:induction false} VendorReserialise(data: Bytes)
    ensures Read(16, data).Some? <==> |data| > 4 && IsClassList(data[4..])
    ensures Read(16, data).Some? ==> Encode(Read(16, data).value) == data
  {
    if |data| >= 4 {
      ClassesReserialise(data[4..]);
      HeadThenRest(data);
    }
  }

  /** The bodies that are accepted, by code; an accepted body is what its option serialises to. */
  lemma {:induction false} Reserialise(code: u16, data: Bytes)
    ensures Read(code, data).Some? <==> LeafAccepts(code, data)
    ensures Read(code, data).Some? ==> Encode(Read(code, data).value) == data
  {
    if code == 6 || code == 61 {
      WordsReserialise(data);
    } else if code == 8 {
      if |data| == 2 {
        Put16Get16(data);
      }
    } else if code == 15 {
      ClassesReserialise(data);
    } else if code == 16 {
      VendorReserialise(data);
    } else if code == 23 {
      ServersReserialise(data);
    } else if code == 13 || code == 37 {
      HeadThenRest(data);
    }
  }

  // What is serialised reads back.

  lemma {:induction false} WordsRead(words: seq<u16>)
    ensures ReadWords(EncodeWords(words)) == Some(words)
  {
    if words != [] {
      var b, rest := EncodeWords(words), EncodeWords(words[1..]);
      assert b[..2] == Put16(words[0]) && b[2..] == rest;
      Get16Put16(words[0]);
      WordsRead(words[1..]);
      assert [words[0]] + words[1..] == words;
    }
  }

  predicate AllShort(classes: seq<Bytes>) {
    forall i | 0 <= i < |classes| :: |classes[i]| < 0x1_0000
  }

  lemma {:induction false} FirstClassReads(item: Bytes, rest: Bytes)
    requires |item| < 0x1_0000
    ensures ReadClasses(Put16(|item|) + item + rest) == Prefixed([item], ReadClasses(rest))
  {
    var b, n := Put16(|item|) + item + rest, |item|;
    assert b[..2] == Put16(n);
    assert b[2..2 + n] == item && b[2 + n..] == rest;
    Get16Put16(n);
  }

  lemma {:induction false} ClassesRead(classes: seq<Bytes>)
    requires AllShort(classes)
    ensures ReadClasses(EncodeClasses(classes)) == Some(classes)
  {
    if classes != [] {
      FirstClassReads(classes[0], EncodeClasses(classes[1..]));
      ClassesRead(classes[1..]);
      assert [classes[0]] + classes[1..] == classes;
    }
  }

  lemma {:induction false} ReadClassesShort(data: Bytes)
    ensures ReadClasses(data).Some? ==> AllShort(ReadClasses(data).value)
  {
    if |data| >= 2 && 2 + Get16(data[..2]) <= |data| {
      ReadClassesShort(data[2 + Get16(data[..2])..]);
    }
  }

  predicate AllAddresses(servers: seq<Bytes>) {
    forall i | 0 <= i < |servers| :: |servers[i]| == 16
  }

  lemma {:induction false} ServersRead(servers: seq<Bytes>)
    requires AllAddresses(servers)
    ensures ReadServers(EncodeServers(servers)) == Some(servers)
  {
    if servers != [] {
      var b := EncodeServers(servers);
      assert b[..16] == servers[0] && b[16..] == EncodeServers(servers[1..]);
      ServersRead(servers[1..]);
      assert [servers[0]] + servers[1..] == servers;
    }
  }

  lemma {:induction false} ReadServersWhole(data: Bytes)
    ensures ReadServers(data).Some? ==> AllAddresses(ReadServers(data).value)
  {
    if |data| >= 16 {
      ReadServersWhole(data[16..]);
    }
  }

  /** The fields that an option with this code reads back. */
  predicate Fits(code: u16, l: Leaf) {
    if code == 6 || code == 61 then l.Words?
    else if code == 8 then l.Elapsed?
    else if code == 13 then l.Status?
    else if code == 15 then l.UserClasses? && l.classes != [] && AllShort(l.classes)
    else if code == 16 then l.VendorClasses? && l.items != [] && AllShort(l.items)
    else if code == 23 then l.NameServers? && AllAddresses(l.servers)
    else if code == 24 then l.Domains? && Labels.Decode(l.original) == Ok(l.names)
    else if code == 37 then l.Remote?
    else if code == 62 then l.Interface?
    else l.Unstructured?
  }

  lemma {:induction false} HeadReads(v: u32, rest: Bytes)
    ensures var b := Put32(v) + rest; b[..4] == Put32(v) && Get32(b[..4]) == v && b[4..] == rest
    ensures var b := Put16(v) + rest; b[..2] == Put16(v) && Get16(b[..2]) == v % 0x1_0000 && b[2..] == rest
  {
    var b, b' := Put32(v) + rest, Put16(v) + rest;
    assert b[..4] == Put32(v) && b[4..] == rest && b'[..2] == Put16(v) && b'[2..] == rest;
    Get32Put32(v);
    Get16Put16(v);
  }

  lemma {:induction false} FittingReads(code: u16, l: Leaf)
    requires Fits(code, l)
    ensures Read(code, Encode(l)) == Some(l)
  {
    match l
    case Words(words) => WordsRead(words);
    case Elapsed(t) => Get16Put16(t);
    case Status(status, message) => HeadReads(status, message);
    case UserClasses(classes) => ClassesRead(classes);
    case VendorClasses(n, items) =>
      HeadReads(n, EncodeClasses(items));
      ClassesRead(items);
    case NameServers(servers) => ServersRead(servers);
    case Remote(n, id) => HeadReads(n, id);
    case _ =>
  }

  lemma {:induction false} ReadFits(code: u16, data: Bytes)
    requires Read(code, data).Some?
    ensures Fits(code, Read(code, data).value)
  {
    if code == 15 {
      ReadClassesShort(data);
    } else if code == 16 {
      ReadClassesShort(data[4..]);
    } else if code == 23 {
      ReadServersWhole(data);
    }
  }

  /** The fields of an option are read back from its bytes if and only if they fit its code. */
  lemma {:induction false} RoundTripIff(code: u16, l: Leaf)
    ensures Read(code, Encode(l)) == Some(l) <==> Fits(code, l)
  {
    if Fits(code, l) {
      FittingReads(code, l);
    } else if Read(code, Encode(l)) == Some(l) {
      ReadFits(code, Encode(l));
    }
  }

  // The parsers, over a cursor.

  method WordsFromBytes(data: Bytes) returns (r: Option<seq<u16>>)
    ensures r == ReadWords(data)
  {
    var words: seq<u16> := [];
    var buf := new Lexer(data);
    PrefixedByNothing(ReadWords(data));
    while buf.Has(2)
      invariant fresh(buf) && !buf.failed
      invariant ReadWords(data) == Prefixed(words, ReadWords(buf.data))
      decreases |buf.data|
    {
      ghost var before := buf.data;
      var v := buf.Read16();
      PrefixedByOne(words, v, ReadWords(before[2..]));
      words := words + [v];
    }
    assert words + [] == words;
    r := if buf.FinOk() then Some(words) else None;
  }

  method ServersFromBytes(data: Bytes) returns (r: Option<seq<Bytes>>)
    ensures r == ReadServers(data)
  {
    var servers: seq<Bytes> := [];
    var buf := new Lexer(data);
    PrefixedByNothing(ReadServers(data));
    while buf.Has(16)
      invariant fresh(buf) && !buf.failed
      invariant ReadServers(data) == Prefixed(servers, ReadServers(buf.data))
      decreases |buf.data|
    {
      ghost var before := buf.data;
      var v := buf.Read(16);
      PrefixedByOne(servers, v, ReadServers(before[16..]));
      servers := servers + [v];
    }
    assert servers + [] == servers;
    r := if buf.FinOk() then Some(servers) else None;
  }

  lemma {:induction false} ClassStep(data: Bytes, n: nat)
    requires |data| >= 2 && n == Get16(data[..2])
    ensures n > |data[2..]| ==> ReadClasses(data) == None
    ensures n <= |data[2..]| ==> ReadClasses(data) == Prefixed([data[2..][..n]], ReadClasses(data[2..][n..]))
  {
    if n <= |data[2..]| {
      assert data[2..][..n] == data[2..2 + n] && data[2..][n..] == data[2 + n..];
    }
  }

  /** What is left of an option's body; a short item leaves the loop running on what is there. */
  method ClassesFromBytes(buf: Lexer) returns (classes: seq<Bytes>)
    modifies buf
    ensures buf.FinOk() <==> !old(buf.failed) && ReadClasses(old(buf.data)).Some?
    ensures buf.FinOk() ==> ReadClasses(old(buf.data)) == Some(classes)
    ensures |old(buf.data)| < 2 ==> classes == []
  {
    classes := [];
    PrefixedByNothing(ReadClasses(buf.data));
    while buf.Has(2)
      invariant old(buf.failed) ==> buf.failed
      invariant !buf.failed ==> ReadClasses(old(buf.data)) == Prefixed(classes, ReadClasses(buf.data))
      invariant buf.failed ==> old(buf.failed) || ReadClasses(old(buf.data)) == None
      invariant |old(buf.data)| < 2 ==> classes == []
      decreases |buf.data|
    {
      ghost var before, done := buf.data, classes;
      var n := buf.Read16();
      var item := buf.Read(n);
      ClassStep(before, n);
      PrefixedByOne(done, item, ReadClasses(buf.data));
      classes := classes + [item];
    }
    assert classes + [] == classes;
  }

  method UserClassesFromBytes(data: Bytes) returns (r: Option<Leaf>)
    ensures r == Read(15, data)
  {
    if |data| == 0 {
      return None;
    }
    var buf := new Lexer(data);
    var classes := ClassesFromBytes(buf);
    ClassesReserialise(data);
    r := if buf.FinOk() then Some(UserClasses(classes)) else None;
  }

  method VendorClassesFromBytes(data: Bytes) returns (r: Option<Leaf>)
    ensures r == Read(16, data)
  {
    var buf := new Lexer(data);
    var enterprise := buf.Read32();
    var items := ClassesFromBytes(buf);
    if |items| < 1 {
      return None;
    }
    r := if buf.FinOk() then Some(VendorClasses(enterprise, items)) else None;
  }

  method StatusFromBytes(data: Bytes) returns (r: Option<Leaf>)
    ensures r == Read(13, data)
  {
    var buf := new Lexer(data);
    var status := buf.Read16();
    var message := buf.ReadAll();
    r := if buf.FinOk() then Some(Status(status, message)) else None;
  }

  method RemoteFromBytes(data: Bytes) returns (r: Option<Leaf>)
    ensures r == Read(37, data)
  {
    var buf := new Lexer(data);
    var enterprise := buf.Read32();
    var id := buf.ReadAll();
    r := if buf.FinOk() then Some(Remote(enterprise, id)) else None;
  }

  method ElapsedFromBytes(data: Bytes) returns (r: Option<Leaf>)
    ensures r == Read(8, data)
  {
    var buf := new Lexer(data);
    var t := buf.Read16();
    assert |data| == 2 ==> data[..2] == data;
    r := if buf.FinOk() then Some(Elapsed(t)) else None;
  }

  method InterfaceFromBytes(data: Bytes) returns (r: Option<Leaf>)
    ensures r == Read(62, data)
  {
    var buf := new Lexer(data);
    var kind := buf.Read8();
    var major := buf.Read8();
    var minor := buf.Read8();
    r := if buf.FinOk() then Some(Interface(kind, major, minor)) else None;
  }

  /** The dispatch over codes. */
  method FromBytes(code: u16, data: Bytes) returns (r: Option<Leaf>)
    ensures r == Read(code, data)
  {
    if code == ORO || code == CLIENT_ARCH {
      var words := WordsFromBytes(data);
      r := if words.None? then None else Some(Words(words.value));
    } else if code == ELAPSED_TIME {
      r := ElapsedFromBytes(data);
    } else if code == STATUS_CODE {
      r := StatusFromBytes(data);
    } else if code == USER_CLASS {
      r := UserClassesFromBytes(data);
    } else if code == VENDOR_CLASS {
      r := VendorClassesFromBytes(data);
    } else if code == DNS_SERVERS {
      var servers := ServersFromBytes(data);
      r := if servers.None? then None else Some(NameServers(servers.value));
    } else if code == DOMAIN_SEARCH {
      var names, _ := Labels.LabelsFromBytes(data);
      r := if names.Err? then None else Some(Domains(data, names.value));
    } else if code == REMOTE_ID {
      r := RemoteFromBytes(data);
    } else if code == NII {
      r := InterfaceFromBytes(data);
    } else {
      r := Some(Unstructured(data));
    }
  }

  // The serialisers.

  method WordsToBytes(words: seq<u16>) returns (b: Bytes)
    ensures b == EncodeWords(words)
  {
    b := [];
    for i := 0 to |words|
      invariant b + EncodeWords(words[i..]) == EncodeWords(words)
    {
      assert words[i..][1..] == words[i + 1..];
      Assoc(b, Put16(words[i]), EncodeWords(words[i + 1..]));
      b := b + Put16(words[i]);
    }
    assert words[|words|..] == [];
  }

  method ClassesToBytes(classes: seq<Bytes>) returns (b: Bytes)
    ensures b == EncodeClasses(classes)
  {
    b := [];
    for i := 0 to |classes|
      invariant b + EncodeClasses(classes[i..]) == EncodeClasses(classes)
    {
      assert classes[i..][1..] == classes[i + 1..];
      Assoc(b, Put16(|classes[i]|) + classes[i], EncodeClasses(classes[i + 1..]));
      Assoc(b, Put16(|classes[i]|), classes[i]);
      b := b + Put16(|classes[i]|) + classes[i];
    }
    assert classes[|classes|..] == [];
  }

  method ServersToBytes(servers: seq<Bytes>) returns (b: Bytes)
    ensures b == EncodeServers(servers)
  {
    b := [];
    for i := 0 to |servers|
      invariant b + EncodeServers(servers[i..]) == EncodeServers(servers)
    {
      assert servers[i..][1..] == servers[i + 1..];
      Assoc(b, To16(servers[i]), EncodeServers(servers[i + 1..]));
      b := b + To16(servers[i]);
    }
    assert servers[|servers|..] == [];
  }

  method ToBytes(l: Leaf) returns (b: Bytes)
    ensures b == Encode(l)
  {
    match l {
      case Words(words) => b := WordsToBytes(words);
      case Elapsed(t) => b := Put16(t);
      case Status(status, message) => b := Put16(status) + message;
      case UserClasses(classes) => b := ClassesToBytes(classes);
      case VendorClasses(n, items) =>
        b := ClassesToBytes(items);
        b := Put32(n) + b;
      case NameServers(servers) => b := ServersToBytes(servers);
      case Domains(original, names) =>
        var read, _ := Labels.LabelsFromBytes(original);
        if read.Err? || read.value == names {
          return original;
        }
        b := LabelEncoding.LabelsToBytes(names);
      case Remote(n, id) => b := Put32(n) + id;
      case Interface(kind, major, minor) => b := [kind, major, minor];
      case Unstructured(data) => b := data;
    }
  }
}
