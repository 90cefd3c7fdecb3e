/** When serialising what was parsed gives back the very bytes that were parsed, at any depth of nesting. */
module V6Reserialise {
  import opened Wire
  import Duids
  import opened V6
  import opened V6RoundTrip

  /** Nothing that belongs to a number in the header is missing. */
  predicate HeadWhole(data: Bytes) {
    data != [] && |data| >= if IsRelayType(data[0]) then 2 else 4
  }

  /** No header at any level was completed with zeros, and no hardware type was cut to 8 bits. */
  predicate Faithful(data: Bytes)
    requires ParseMsg(data).Some?
    decreases |data|, 2
  {
    HeadWhole(data) && AllFaithful(data[HeadLength(data)..], false)
  }

  predicate AllFaithful(data: Bytes, vendor: bool)
    requires ParseOptions(data, vendor).Some?
    decreases |data|, 1
  {
    data == [] ||
    var n := Get16(data[2..4]);
    && FaithfulOption(Get16(data[..2]), data[4..4 + n], vendor)
    && AllFaithful(data[4 + n..], vendor)
  }

  predicate FaithfulOption(code: u16, data: Bytes, vendor: bool)
    requires ParseOption(code, data, vendor).Some?
    decreases |data|, 3
  {
    if vendor then true
    else if OptHeadLength(code).Some? then AllFaithful(data[OptHeadLength(code).value..], code == VENDOR_OPTS)
    else if code == RELAY_MSG then Faithful(data)
    else code == CLIENT_ID || code == SERVER_ID ==> Duids.HwTypeFits(data)
  }

  lemma {:induction false} HeadReserialise(data: Bytes)
    ensures var h, n := EncodeHead(ReadHead(data)), HeadLength(data);
            |h| >= n && (h == data[..n] <==> HeadWhole(data))
  {
    var h := EncodeHead(ReadHead(data));
    if |data| >= 2 && IsRelayType(data[0]) {
      assert [data[0], data[1]] == data[..2];
      if |data| >= 18 {
        assert data[..2] + data[2..18] == data[..18];
      }
      if |data| >= 34 {
        assert data[..18] + data[18..34] == data[..34];
      }
    } else if |data| >= 4 {
      assert [data[0]] + data[1..4] == data[..4];
    }
  }

  lemma {:induction false} OptHeadReserialise(code: u16, h: Bytes, options: seq<Opt>)
    requires OptHeadLength(code) == Some(|h|)
    ensures HasOptions(ReadOptHead(code, h, options)) && ReadOptHead(code, h, options).options == options
    ensures ReadOptHead(code, h, options).Code() == code
    ensures EncodeOptHead(ReadOptHead(code, h, options)) == h
  {
    if code == IA_NA || code == IA_PD {
      Put32Get32(h[4..8]);
      Put32Get32(h[8..12]);
      assert h == h[..4] + h[4..8] + h[8..12];
    } else if code == IA_ADDR {
      Put32Get32(h[16..20]);
      Put32Get32(h[20..24]);
      assert h == h[..16] + h[16..20] + h[20..24];
    } else if code == IA_PREFIX {
      Put32Get32(h[..4]);
      Put32Get32(h[4..8]);
      assert h == h[..4] + h[4..8] + [h[8]] + h[9..25];
    } else {
      Put32Get32(h);
    }
  }

  /** Two parts that did not shrink make up the same whole exactly when each is the same. */
  lemma {:induction false} PartsAgree(a: Bytes, b: Bytes, a': Bytes, b': Bytes)
    requires |a'| >= |a| && |b'| >= |b|
    ensures a' + b' == a + b <==> a' == a && b' == b
  {
    if a' + b' == a + b {
      assert |a' + b'| == |a + b|;
      assert a' == (a' + b')[..|a|] && a == (a + b)[..|a|];
      assert b' == (a' + b')[|a|..] && b == (a + b)[|a|..];
    }
  }

  lemma {:induction false} TlvAgree(code: u16, body: Bytes, rest: Bytes, body': Bytes, rest': Bytes)
    requires |body'| >= |body| && |rest'| >= |rest|
    ensures Tlv(code, body') + rest' == Tlv(code, body) + rest <==> body' == body && rest' == rest
  {
    PartsAgree(Tlv(code, body), rest, Tlv(code, body'), rest');
    if Tlv(code, body') == Tlv(code, body) {
      assert body' == Tlv(code, body')[4..] && body == Tlv(code, body)[4..];
    }
  }

  /** Serialising what was parsed never shortens it, and gives it back exactly when the input was faithful. */
  lemma {:induction false} Reserialise(data: Bytes)
    requires ParseMsg(data).Some?
    ensures |EncodeMsg(ParseMsg(data).value)| >= |data|
    ensures EncodeMsg(ParseMsg(data).value) == data <==> Faithful(data)
    decreases |data|, 2
  {
    var n, m := HeadLength(data), ParseMsg(data).value;
    ParsedMsg(data, m);
    AllReserialise(data[n..], false);
    HeadReserialise(data);
    PartsAgree(data[..n], data[n..], EncodeHead(HeadOf(m)), EncodeOptions(m.options));
    assert data == data[..n] + data[n..];
  }

  lemma {:induction false} AllReserialise(data: Bytes, vendor: bool)
    requires ParseOptions(data, vendor).Some?
    ensures |EncodeOptions(ParseOptions(data, vendor).value)| >= |data|
    ensures EncodeOptions(ParseOptions(data, vendor).value) == data <==> AllFaithful(data, vendor)
    decreases |data|, 1
  {
    if data != [] {
      var options := ParseOptions(data, vendor).value;
      var code, n := Get16(data[..2]), Get16(data[2..4]);
      var body, rest := data[4..4 + n], data[4 + n..];
      ParsedFirst(data, options, vendor);
      OptionReserialise(code, body, vendor);
      AllReserialise(rest, vendor);
      TlvAgree(code, body, rest, EncodeBody(options[0]), EncodeOptions(options[1..]));
      TlvSplit(data);
    }
  }

  lemma {:induction false} TlvSplit(data: Bytes)
    requires |data| >= 4 && 4 + Get16(data[2..4]) <= |data|
    ensures data == Tlv(Get16(data[..2]), data[4..4 + Get16(data[2..4])]) + data[4 + Get16(data[2..4])..]
  {
    Put16Get16(data[..2]);
    Put16Get16(data[2..4]);
  }

  lemma {:induction false} OptionReserialise(code: u16, data: Bytes, vendor: bool)
    requires ParseOption(code, data, vendor).Some?
    ensures var o := ParseOption(code, data, vendor).value;
            && o.Code() == code
            && |EncodeBody(o)| >= |data|
            && (EncodeBody(o) == data <==> FaithfulOption(code, data, vendor))
    decreases |data|, 3
  {
    if vendor {
    } else if OptHeadLength(code).Some? {
      var n := OptHeadLength(code).value;
      var options := ParseOptions(data[n..], code == VENDOR_OPTS).value;
      AllReserialise(data[n..], code == VENDOR_OPTS);
      OptHeadReserialise(code, data[..n], options);
      PartsAgree(data[..n], data[n..], data[..n], EncodeOptions(options));
      assert data == data[..n] + data[n..];
    } else if code == RELAY_MSG {
      Reserialise(data);
    } else if code == CLIENT_ID || code == SERVER_ID {
      Duids.ReserialiseIff(data);
    }
  }
}
