/** DHCP unique identifiers (section 9 of RFC 3315), as the client and server identifier options carry them. */
module Duids {
  import opened Wire

  const DUID_LLT := 1
  const DUID_EN := 2
  const DUID_LL := 3
  const DUID_UUID := 4

  /** One record for every kind; which fields matter depends on `kind`. Hardware types are kept in 8 bits. */
  datatype Duid = Duid(
    kind: u16,
    hwType: byte,
    time: u32,
    linkLayerAddr: Bytes,
    enterpriseNumber: u32,
    enterpriseIdentifier: Bytes,
    uuid: Bytes,
    unknown: Bytes)

  function Blank(kind: u16): Duid {
    Duid(kind, 0, 0, [], 0, [], [], [])
  }

  function ToBytes(d: Duid): Bytes {
    Put16(d.kind) +
    if d.kind == DUID_LLT then Put16(d.hwType) + Put32(d.time) + d.linkLayerAddr
    else if d.kind == DUID_LL then Put16(d.hwType) + d.linkLayerAddr
    else if d.kind == DUID_EN then Put32(d.enterpriseNumber) + d.enterpriseIdentifier
    else if d.kind == DUID_UUID then d.uuid
    else d.unknown
  }

  function FromBytes(data: Bytes): Option<Duid> {
    if |data| < 2 then None
    else
      var d := Blank(Get16(data[..2]));
      if d.kind == DUID_LLT then
        if |data| < 8 then None
        else Some(d.(hwType := data[3], time := Get32(data[4..8]), linkLayerAddr := data[8..]))
      else if d.kind == DUID_LL then
        if |data| < 4 then None else Some(d.(hwType := data[3], linkLayerAddr := data[4..]))
      else if d.kind == DUID_EN then
        if |data| < 6 then None
        else Some(d.(enterpriseNumber := Get32(data[2..6]), enterpriseIdentifier := data[6..]))
      else if d.kind == DUID_UUID then
        if |data| != 18 then None else Some(d.(uuid := data[2..]))
      else Some(d.(unknown := data[2..]))
  }

  function Length(d: Duid): nat {
    if d.kind == DUID_LLT then 8 + |d.linkLayerAddr|
    else if d.kind == DUID_LL then 4 + |d.linkLayerAddr|
    else if d.kind == DUID_EN then 6 + |d.enterpriseIdentifier|
    else if d.kind == DUID_UUID then 18
    else 2 + |d.unknown|
  }

  /** The fields that do not belong to the kind are unset, and a UUID has 16 bytes. */
  predicate Normal(d: Duid) {
    var b := Blank(d.kind);
    if d.kind == DUID_LLT then d == b.(hwType := d.hwType, time := d.time, linkLayerAddr := d.linkLayerAddr)
    else if d.kind == DUID_LL then d == b.(hwType := d.hwType, linkLayerAddr := d.linkLayerAddr)
    else if d.kind == DUID_EN then
      d == b.(enterpriseNumber := d.enterpriseNumber, enterpriseIdentifier := d.enterpriseIdentifier)
    else if d.kind == DUID_UUID then d == b.(uuid := d.uuid) && |d.uuid| == 16
    else d == b.(unknown := d.unknown)
  }

  /** `Length` tells the truth about `ToBytes` exactly when a UUID has 16 bytes. */
  lemma {:induction false} LengthIff(d: Duid)
    ensures Length(d) == |ToBytes(d)| <==> (d.kind == DUID_UUID ==> |d.uuid| == 16)
  {
  }

  lemma {:induction false} ParsedIsNormal(data: Bytes)
    requires FromBytes(data).Some?
    ensures Normal(FromBytes(data).value)
  {
  }

  lemma {:induction false} KindReadsBack(d: Duid)
    ensures ToBytes(d)[..2] == Put16(d.kind) && Get16(ToBytes(d)[..2]) == d.kind
  {
    assert ToBytes(d)[..2] == Put16(d.kind);
    Get16Put16(d.kind);
  }

  lemma {:induction false} RoundTrip(d: Duid)
    requires Normal(d)
    ensures FromBytes(ToBytes(d)) == Some(d)
  {
    var b := ToBytes(d);
    KindReadsBack(d);
    if d.kind == DUID_LLT {
      assert b[3] == Put16(d.hwType)[1] == d.hwType;
      assert b[4..8] == Put32(d.time) && b[8..] == d.linkLayerAddr;
      Get32Put32(d.time);
    } else if d.kind == DUID_LL {
      assert b[3] == Put16(d.hwType)[1] == d.hwType;
      assert b[4..] == d.linkLayerAddr;
    } else if d.kind == DUID_EN {
      assert b[2..6] == Put32(d.enterpriseNumber) && b[6..] == d.enterpriseIdentifier;
      Get32Put32(d.enterpriseNumber);
    } else if d.kind == DUID_UUID {
      assert b[2..] == d.uuid;
    } else {
      assert b[2..] == d.unknown;
    }
  }

  /** A DUID survives serialisation exactly when it is normal. */
  lemma {:induction false} RoundTripIff(d: Duid)
    ensures FromBytes(ToBytes(d)) == Some(d) <==> Normal(d)
  {
    if Normal(d) {
      RoundTrip(d);
    } else if FromBytes(ToBytes(d)) == Some(d) {
      ParsedIsNormal(ToBytes(d));
    }
  }

  /** The hardware type, where there is one, fits the 8 bits in which it is kept. */
  predicate HwTypeFits(data: Bytes)
    requires FromBytes(data).Some?
  {
    var kind := Get16(data[..2]);
    kind == DUID_LLT || kind == DUID_LL ==> data[2] == 0
  }

  lemma {:induction false} HwTypeBytes(data: Bytes)
    requires |data| >= 4
    ensures Put16(data[3]) == data[2..4] <==> data[2] == 0
  {
    assert Put16(data[3]) == [0, data[3]];
    assert data[2..4] == [data[2], data[3]];
  }

  /** Serialising a parsed DUID gives the input back exactly when the hardware type was below 256. */
  lemma {:induction false} ReserialiseIff(data: Bytes)
    requires FromBytes(data).Some?
    ensures |ToBytes(FromBytes(data).value)| == |data|
    ensures ToBytes(FromBytes(data).value) == data <==> HwTypeFits(data)
  {
    var d := FromBytes(data).value;
    var b := ToBytes(d);
    Put16Get16(data[..2]);
    if d.kind == DUID_LLT {
      Put32Get32(data[4..8]);
      HwTypeBytes(data);
      assert data == data[..2] + (data[2..4] + data[4..8] + data[8..]);
      assert b[2..4] == Put16(d.hwType);
    } else if d.kind == DUID_LL {
      HwTypeBytes(data);
      assert data == data[..2] + (data[2..4] + data[4..]);
      assert b[2..4] == Put16(d.hwType);
    } else if d.kind == DUID_EN {
      Put32Get32(data[2..6]);
      assert data == data[..2] + (data[2..6] + data[6..]);
    } else {
      assert data == data[..2] + data[2..];
    }
  }

  /** Which bytes are which identifier (section 9 of RFC 3315, and RFC 6355 for kind 4), on every input. */
  lemma {:induction false} WireForms(data: Bytes)
    ensures |data| < 2 ==> FromBytes(data) == None
    ensures |data| >= 2 && data[..2] == [0, 1] ==>
              FromBytes(data) == if |data| < 8 then None else Some(Duid(1, data[3], Get32(data[4..8]), data[8..], 0, [], [], []))
    ensures |data| >= 2 && data[..2] == [0, 2] ==>
              FromBytes(data) == if |data| < 6 then None else Some(Duid(2, 0, 0, [], Get32(data[2..6]), data[6..], [], []))
    ensures |data| >= 2 && data[..2] == [0, 3] ==>
              FromBytes(data) == if |data| < 4 then None else Some(Duid(3, data[3], 0, data[4..], 0, [], [], []))
    ensures |data| >= 2 && data[..2] == [0, 4] ==>
              FromBytes(data) == if |data| != 18 then None else Some(Duid(4, 0, 0, [], 0, [], data[2..], []))
    ensures |data| >= 2 && data[..2] !in [[0, 1], [0, 2], [0, 3], [0, 4]] ==>
              FromBytes(data) == Some(Duid(Get16(data[..2]), 0, 0, [], 0, [], [], data[2..]))
  {
    if |data| >= 2 {
      assert data[..2] == [data[0], data[1]];
    }
  }
}
