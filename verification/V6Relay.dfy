/** Relay messages inside relay messages: taking them apart, building them, and answering along the same path. */
module V6Relay {
  import opened Wire
  import opened V6

  type ClientMsg = m: DHCPv6 | m.Message? witness Message(1, [0, 0, 0], [])
  type RelayedMsg = m: DHCPv6 | m.Relay? witness Relay(12, 0, [], [], [])

  /** `WrongOptionType` is the failed type assertion on an option that only has the code of a relay message. */
  datatype RelayError =
    | NoRelayMsgOption
    | NilRelayMessage
    | WrongOptionType
    | InvalidIndex
    | WrongMessageType
    | NoRelay
    | NoMessage

  /** The first option with the code. */
  function GetOne(options: seq<Opt>, code: u16): (r: Option<Opt>)
    ensures r.None? ==> forall o | o in options :: o.Code() != code
    ensures r.Some? ==> r.value in options && r.value.Code() == code
  {
    if options == [] then None
    else if options[0].Code() == code then Some(options[0])
    else GetOne(options[1..], code)
  }

  method GetOneOption(options: seq<Opt>, code: u16) returns (r: Option<Opt>)
    ensures r == GetOne(options, code)
    ensures r.Some? ==> exists i | 0 <= i < |options| ::
                          options[i] == r.value && forall j | 0 <= j < i :: options[j].Code() != code
  {
    for i := 0 to |options|
      invariant GetOne(options[i..], code) == GetOne(options, code)
      invariant forall j | 0 <= j < i :: options[j].Code() != code
    {
      if options[i].Code() == code {
        return Some(options[i]);
      }
      assert options[i..][1..] == options[i + 1..];
    }
    r := None;
  }

  /** One level deeper; a message that is no relay is its own content. */
  function Decapsulate(l: DHCPv6): (r: Result<DHCPv6, RelayError>)
    ensures l.Message? ==> r == Ok(l)
    ensures l.Relay? && r.Ok? ==> r.value < l && RelayMsg(r.value) in l.options
    ensures r == Err(NoRelayMsgOption) <==> l.Relay? && forall o | o in l.options :: o.Code() != RELAY_MSG
  {
    if l.Message? then Ok(l)
    else
      match GetOne(l.options, RELAY_MSG)
      case None => Err(NoRelayMsgOption)
      case Some(UnsetRelayMsg) => Err(NilRelayMessage)
      case Some(RelayMsg(inner)) => Ok(inner)
      case Some(_) => Err(WrongOptionType)
  }

  /** Option `i` is the first with code 9, that of a relay message (section 22.10 of RFC 3315). */
  predicate FirstRelayMsg(options: seq<Opt>, i: nat) {
    i < |options| && options[i].Code() == 9 && forall j | 0 <= j < i :: options[j].Code() != 9
  }

  lemma {:induction false} GetOneFirst(options: seq<Opt>, i: nat)
    requires FirstRelayMsg(options, i)
    ensures GetOne(options, RELAY_MSG) == Some(options[i])
  {
    if i > 0 {
      assert options[0].Code() != 9;
      forall j | 0 <= j < i - 1
        ensures options[1..][j].Code() != 9
      {
        assert options[j + 1].Code() != 9;
      }
      GetOneFirst(options[1..], i - 1);
    }
  }

  lemma {:induction false} SomeFirst(options: seq<Opt>) returns (i: nat)
    requires exists o | o in options :: o.Code() == 9
    ensures FirstRelayMsg(options, i)
  {
    i := 0;
    while options[i].Code() != 9
      invariant i < |options| && forall j | 0 <= j < i :: options[j].Code() != 9
      decreases |options| - i
    {
      assert exists o | o in options :: o.Code() == 9;
      i := i + 1;
    }
  }

  /** What a relay holds is decided by the first of its options with the code, wherever that stands. */
  lemma {:induction false} DecapsulateIff(l: RelayedMsg, r: Result<DHCPv6, RelayError>)
    ensures Decapsulate(l) == r <==>
      (|| (r == Err(NoRelayMsgOption) && forall o | o in l.options :: o.Code() != 9)
       || exists i: nat :: FirstRelayMsg(l.options, i) && r == Held(l.options[i]))
  {
    if exists o | o in l.options :: o.Code() == 9 {
      var i := SomeFirst(l.options);
      GetOneFirst(l.options, i);
      forall j: nat | FirstRelayMsg(l.options, j)
        ensures j == i
      {
      }
    }
  }

  /** The message in an option that should hold one. */
  function Held(o: Opt): Result<DHCPv6, RelayError> {
    match o
    case RelayMsg(inner) => Ok(inner)
    case UnsetRelayMsg => Err(NilRelayMessage)
    case _ => Err(WrongOptionType)
  }

  /** A whole message taken apart: its relays from the outside in, and what ends them. */
  datatype Unwrapped = Unwrapped(relays: seq<RelayedMsg>, end: Result<ClientMsg, RelayError>)

  function Unwrap(l: DHCPv6): (u: Unwrapped)
    ensures l.Relay? ==> |u.relays| > 0 && u.relays[0] == l
  {
    if l.Message? then Unwrapped([], Ok(l))
    else
      var d := Decapsulate(l);
      if d.Err? then Unwrapped([l], Err(d.error))
      else
        var u := Unwrap(d.value);
        Unwrapped([l] + u.relays, u.end)
  }

  /** What index `i` selects, read off the message taken apart. */
  function AtIndex(l: DHCPv6, index: int): Result<DHCPv6, RelayError> {
    var u := Unwrap(l);
    if l.Message? then Ok(l)
    else if index < -1 then Err(InvalidIndex)
    else if index == -1 then (if u.end.Ok? then Ok(u.relays[|u.relays| - 1]) else u.end)
    else if index + 1 < |u.relays| then Ok(u.relays[index + 1])
    else u.end
  }

  /** -1 stops at the innermost relay; `i >= 0` goes `i + 1` levels in and stays at the client's message. */
  method DecapsulateRelayIndex(l: DHCPv6, index: int) returns (r: Result<DHCPv6, RelayError>)
    ensures r == AtIndex(l, index)
  {
    if l.Message? {
      return Ok(l);
    }
    if index < -1 {
      return Err(InvalidIndex);
    }
    var cur := l;
    if index == -1 {
      while true
        invariant cur.Relay? && AtIndex(cur, -1) == AtIndex(l, -1)
        decreases cur
      {
        var d := Decapsulate(cur);
        if d.Err? {
          return d;
        }
        if d.value.Message? {
          InnermostReached(cur, d.value);
          return Ok(cur);
        }
        InnermostDeeper(cur, d.value);
        cur := d.value;
      }
    }
    for i := 0 to index + 1
      invariant Deeper(cur, index + 1 - i) == Deeper(l, index + 1)
    {
      var d := Decapsulate(cur);
      if d.Err? {
        DeeperIsAtIndex(l, index);
        return d;
      }
      cur := d.value;
    }
    DeeperIsAtIndex(l, index);
    r := Ok(cur);
  }

  lemma {:induction false} InnermostReached(l: RelayedMsg, m: ClientMsg)
    requires Decapsulate(l) == Ok(m)
    ensures AtIndex(l, -1) == Ok(l)
  {
    assert Unwrap(m) == Unwrapped([], Ok(m));
    assert Unwrap(l) == Unwrapped([l] + [], Ok(m));
  }

  lemma {:induction false} InnermostDeeper(l: RelayedMsg, inner: RelayedMsg)
    requires Decapsulate(l) == Ok(inner)
    ensures AtIndex(l, -1) == AtIndex(inner, -1)
  {
    assert Unwrap(l).relays == [l] + Unwrap(inner).relays;
  }

  /** `n` levels in. */
  function Deeper(l: DHCPv6, n: nat): Result<DHCPv6, RelayError> {
    if n == 0 then Ok(l)
    else
      var d := Decapsulate(l);
      if d.Err? then d else Deeper(d.value, n - 1)
  }

  lemma {:induction false} DeeperStays(m: ClientMsg, n: nat)
    ensures Deeper(m, n) == Ok(m)
  {
    if n > 0 {
      DeeperStays(m, n - 1);
    }
  }

  /** Going in step by step selects from the message taken apart. */
  lemma {:induction false} DeeperIsAtIndex(l: RelayedMsg, index: nat)
    ensures Deeper(l, index + 1) == AtIndex(l, index)
  {
    var d := Decapsulate(l);
    if d.Ok? {
      assert Unwrap(l).relays == [l] + Unwrap(d.value).relays;
      if d.value.Message? {
        DeeperStays(d.value, index);
      } else if index > 0 {
        DeeperIsAtIndex(d.value, index - 1);
      }
    }
  }

  method GetInnerMessage(l: RelayedMsg) returns (r: Result<ClientMsg, RelayError>)
    ensures r == Unwrap(l).end
  {
    var p: DHCPv6 := l;
    while true
      invariant p.Relay? && Unwrap(p).end == Unwrap(l).end
      decreases p
    {
      var d := Decapsulate(p);
      if d.Err? {
        return Err(d.error);
      }
      if d.value.Message? {
        return Ok(d.value);
      }
      p := d.value;
    }
  }

  /** The innermost relay is there exactly when the client's message is, and holds it. */
  lemma {:induction false} InnermostHoldsInner(l: RelayedMsg)
    ensures AtIndex(l, -1).Ok? <==> Unwrap(l).end.Ok?
    ensures AtIndex(l, -1).Err? ==> AtIndex(l, -1) == Unwrap(l).end
    ensures AtIndex(l, -1).Ok? ==> Decapsulate(AtIndex(l, -1).value) == Unwrap(l).end
  {
    var d := Decapsulate(l);
    if d.Ok? && d.value.Relay? {
      InnermostDeeper(l, d.value);
      InnermostHoldsInner(d.value);
    }
  }
}
