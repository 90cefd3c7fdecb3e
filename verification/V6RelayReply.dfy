/** Wrapping a message in relays, and the reply that retraces the relays of a forwarded message. */
module V6RelayReply {
  import opened Wire
  import opened V6
  import opened V6Relay
  import opened V6RoundTrip

  function HopsAround(d: DHCPv6): byte {
    if d.Relay? then (d.hopCount + 1) % 256 else 0
  }

  function Encapsulate(d: DHCPv6, t: byte, link: Bytes, peer: Bytes): Result<RelayedMsg, RelayError> {
    if !IsRelayType(t) then Err(WrongMessageType)
    else Ok(Relay(t, HopsAround(d), link, peer, [RelayMsg(d)]))
  }

  /** Wrapping puts one relay in front, with type, link and peer as given, and changes nothing inside. */
  lemma {:induction false} UnwrapEncapsulated(d: DHCPv6, t: byte, link: Bytes, peer: Bytes)
    ensures Encapsulate(d, t, link, peer).Ok? <==> t == 12 || t == 13
    ensures t == 12 || t == 13 ==>
              var m := Encapsulate(d, t, link, peer).value;
              && m.msgType == t && m.linkAddr == link && m.peerAddr == peer && |m.options| == 1
              && Decapsulate(m) == Ok(d)
              && Unwrap(m) == Unwrapped([m] + Unwrap(d).relays, Unwrap(d).end)
    ensures t != 12 && t != 13 ==> Encapsulate(d, t, link, peer) == Err(WrongMessageType)
  {
  }

  /** The options that a relay wants back: its first interface identifier, then its first remote identifier. */
  function Echoed(relay: RelayedMsg): seq<Opt> {
    Optional(GetOne(relay.options, INTERFACE_ID)) + Optional(GetOne(relay.options, REMOTE_ID))
  }

  function Optional(o: Option<Opt>): seq<Opt> {
    if o.None? then [] else [o.value]
  }

  /** One relay of the reply, answering one relay of the forwarded message. */
  function Answer(relay: RelayedMsg, inner: DHCPv6): RelayedMsg {
    Relay(RELAY_REPLY, HopsAround(inner), relay.linkAddr, relay.peerAddr, [RelayMsg(inner)] + Echoed(relay))
  }

  function Answers(relays: seq<RelayedMsg>, msg: DHCPv6): DHCPv6 {
    if relays == [] then msg else Answer(relays[0], Answers(relays[1..], msg))
  }

  function Reply(relay: Option<RelayedMsg>, msg: Option<ClientMsg>): Result<DHCPv6, RelayError> {
    if relay.None? then Err(NoRelay)
    else if relay.value.msgType != RELAY_FORWARD then Err(WrongMessageType)
    else if msg.None? then Err(NoMessage)
    else if Unwrap(relay.value).end.Err? then Err(Unwrap(relay.value).end.error)
    else Ok(Answers(Unwrap(relay.value).relays, msg.value))
  }

  ghost predicate Collected(relays: seq<RelayedMsg>, linkAddr: seq<Bytes>, peerAddr: seq<Bytes>,
                            optiid: seq<Option<Opt>>, optrid: seq<Option<Opt>>)
  {
    && |linkAddr| == |peerAddr| == |optiid| == |optrid| == |relays|
    && forall i | 0 <= i < |relays| ::
         && linkAddr[i] == relays[i].linkAddr
         && peerAddr[i] == relays[i].peerAddr
         && optiid[i] == GetOne(relays[i].options, INTERFACE_ID)
         && optrid[i] == GetOne(relays[i].options, REMOTE_ID)
  }

  lemma {:induction false} CollectOne(relays: seq<RelayedMsg>, linkAddr: seq<Bytes>, peerAddr: seq<Bytes>,
                   optiid: seq<Option<Opt>>, optrid: seq<Option<Opt>>, relay: RelayedMsg)
    requires Collected(relays, linkAddr, peerAddr, optiid, optrid)
    ensures Collected(relays + [relay], linkAddr + [relay.linkAddr], peerAddr + [relay.peerAddr],
                      optiid + [GetOne(relay.options, INTERFACE_ID)], optrid + [GetOne(relay.options, REMOTE_ID)])
  {
  }

  /** The first loop: going in, it collects what the reply needs of every relay, or fails as unwrapping does. */
  method CollectRelays(relay: RelayedMsg) returns (
      error: Option<RelayError>,
      linkAddr: seq<Bytes>, peerAddr: seq<Bytes>, optiid: seq<Option<Opt>>, optrid: seq<Option<Opt>>)
    ensures error == if Unwrap(relay).end.Err? then Some(Unwrap(relay).end.error) else None
    ensures error.None? ==> Collected(Unwrap(relay).relays, linkAddr, peerAddr, optiid, optrid)
  {
    var cur: RelayedMsg := relay;
    linkAddr, peerAddr, optiid, optrid := [], [], [], [];
    ghost var done: seq<RelayedMsg> := [];
    while true
      invariant Unwrap(relay) == Unwrapped(done + Unwrap(cur).relays, Unwrap(cur).end)
      invariant Collected(done, linkAddr, peerAddr, optiid, optrid)
      decreases cur
    {
      CollectOne(done, linkAddr, peerAddr, optiid, optrid, cur);
      linkAddr, peerAddr := linkAddr + [cur.linkAddr], peerAddr + [cur.peerAddr];
      var iid := GetOneOption(cur.options, INTERFACE_ID);
      var rid := GetOneOption(cur.options, REMOTE_ID);
      optiid, optrid := optiid + [iid], optrid + [rid];
      var d := Decapsulate(cur);
      if d.Err? {
        return Some(d.error), [], [], [], [];
      }
      UnwrapStep(done, cur, d.value);
      done := done + [cur];
      if d.value.Message? {
        assert done + [] == done;
        return None, linkAddr, peerAddr, optiid, optrid;
      }
      cur := d.value;
    }
  }

  lemma {:induction false} UnwrapStep(done: seq<RelayedMsg>, l: RelayedMsg, inner: DHCPv6)
    requires Decapsulate(l) == Ok(inner)
    ensures Unwrap(l).end == Unwrap(inner).end
    ensures done + Unwrap(l).relays == done + [l] + Unwrap(inner).relays
  {
    assert Unwrap(l).relays == [l] + Unwrap(inner).relays;
  }

  /** Both loops: the second wraps the message in an answer to every relay, from the inside out. */
  method NewRelayReplFromRelayForw(relay: Option<RelayedMsg>, msg: Option<ClientMsg>)
    returns (r: Result<DHCPv6, RelayError>)
    ensures r == Reply(relay, msg)
  {
    if relay.None? {
      return Err(NoRelay);
    }
    if relay.value.msgType != RELAY_FORWARD {
      return Err(WrongMessageType);
    }
    if msg.None? {
      return Err(NoMessage);
    }
    var error, linkAddr, peerAddr, optiid, optrid := CollectRelays(relay.value);
    if error.Some? {
      return Err(error.value);
    }
    ghost var relays := Unwrap(relay.value).relays;
    var m: DHCPv6 := msg.value;
    for i := |linkAddr| downto 0
      invariant m == Answers(relays[i..], msg.value)
    {
      AnswerBuilt(relays[i], m);
      var e := Encapsulate(m, RELAY_REPLY, linkAddr[i], peerAddr[i]);
      m := AddOption(e.value, optiid[i]);
      m := AddOption(m, optrid[i]);
      assert relays[i..][1..] == relays[i + 1..];
    }
    assert relays[0..] == relays;
    r := Ok(m);
  }

  lemma {:induction false} AnswerBuilt(relay: RelayedMsg, inner: DHCPv6)
    ensures var m := Encapsulate(inner, RELAY_REPLY, relay.linkAddr, relay.peerAddr).value;
            AddOption(AddOption(m, GetOne(relay.options, INTERFACE_ID)), GetOne(relay.options, REMOTE_ID)) ==
            Answer(relay, inner)
  {
    var iid, rid := GetOne(relay.options, INTERFACE_ID), GetOne(relay.options, REMOTE_ID);
    assert [RelayMsg(inner)] + Optional(iid) + Optional(rid) == [RelayMsg(inner)] + Echoed(relay);
    assert [RelayMsg(inner)] + [] == [RelayMsg(inner)];
  }

  function AddOption(m: DHCPv6, o: Option<Opt>): DHCPv6 {
    if o.None? then m else m.(options := m.options + [o.value])
  }

  /**
   A relay of the reply that answers `forward` with `hops` relays inside it: behind the relayed message it
   has the first interface identifier and the first remote identifier of `forward`, and nothing else.
   */
  ghost predicate Retraces(answer: RelayedMsg, forward: RelayedMsg, hops: nat) {
    && answer.msgType == 13
    && answer.hopCount == hops % 256
    && answer.linkAddr == forward.linkAddr
    && answer.peerAddr == forward.peerAddr
    && |answer.options| > 0 && answer.options[0].RelayMsg? && answer.options[1..] == Echoed(forward)
  }

  /** One answer for every relay, the outermost first. */
  ghost predicate AllRetrace(answers: seq<RelayedMsg>, forwards: seq<RelayedMsg>) {
    if answers == [] || forwards == [] then answers == [] && forwards == []
    else Retraces(answers[0], forwards[0], |answers| - 1) && AllRetrace(answers[1..], forwards[1..])
  }

  lemma {:induction false} AllRetraceAt(answers: seq<RelayedMsg>, forwards: seq<RelayedMsg>, i: nat)
    requires AllRetrace(answers, forwards) && i < |answers|
    ensures |answers| == |forwards| && Retraces(answers[i], forwards[i], |answers| - 1 - i)
  {
    SameDepth(answers, forwards);
    if i > 0 {
      AllRetraceAt(answers[1..], forwards[1..], i - 1);
    }
  }

  lemma {:induction false} SameDepth(answers: seq<RelayedMsg>, forwards: seq<RelayedMsg>)
    requires AllRetrace(answers, forwards)
    ensures |answers| == |forwards|
  {
    if answers != [] && forwards != [] {
      SameDepth(answers[1..], forwards[1..]);
    }
  }

  lemma {:induction false} AnswerUnwraps(relay: RelayedMsg, inner: DHCPv6)
    ensures Decapsulate(Answer(relay, inner)) == Ok(inner)
    ensures Unwrap(Answer(relay, inner)) == Unwrapped([Answer(relay, inner)] + Unwrap(inner).relays, Unwrap(inner).end)
  {
  }

  lemma {:induction false} AnswerRetraces(relay: RelayedMsg, inner: DHCPv6, hops: nat)
    requires HopsAround(inner) == hops % 256
    ensures Retraces(Answer(relay, inner), relay, hops)
  {
    assert Answer(relay, inner).options[1..] == Echoed(relay);
  }

  /** So the relay finds its own identifiers in the answer, and none that it did not have. */
  lemma {:induction false} RetracedIdentifiers(answer: RelayedMsg, forward: RelayedMsg, hops: nat)
    requires Retraces(answer, forward, hops)
    ensures GetOne(answer.options, 18) == GetOne(forward.options, 18)
    ensures GetOne(answer.options, 37) == GetOne(forward.options, 37)
    ensures forall i | 1 <= i < |answer.options| :: answer.options[i].Code() in {18, 37}
  {
    var iid, rid := GetOne(forward.options, INTERFACE_ID), GetOne(forward.options, REMOTE_ID);
    if iid.Some? {
      assert Echoed(forward)[1..] == Optional(rid);
    } else {
      assert Echoed(forward) == Optional(rid);
    }
  }

  /** The relays of the reply, the outermost first. */
  ghost function AnswerChain(relays: seq<RelayedMsg>, msg: ClientMsg): seq<RelayedMsg> {
    if relays == [] then [] else [Answers(relays, msg)] + AnswerChain(relays[1..], msg)
  }

  lemma {:induction false} AnswersUnwrap(relays: seq<RelayedMsg>, msg: ClientMsg)
    ensures Unwrap(Answers(relays, msg)) == Unwrapped(AnswerChain(relays, msg), Ok(msg))
  {
    if relays != [] {
      AnswersUnwrap(relays[1..], msg);
      AnswerUnwraps(relays[0], Answers(relays[1..], msg));
    }
  }

  lemma {:induction false} HopsAroundAnswers(relays: seq<RelayedMsg>, msg: ClientMsg)
    ensures HopsAround(Answers(relays, msg)) == |relays| % 256
  {
    if relays != [] {
      HopsAroundAnswers(relays[1..], msg);
      AnswerCountsOne(relays[0], Answers(relays[1..], msg), |relays| - 1);
    }
  }

  lemma {:induction false} AnswerCountsOne(relay: RelayedMsg, inner: DHCPv6, hops: nat)
    requires HopsAround(inner) == hops % 256
    ensures HopsAround(Answer(relay, inner)) == (hops + 1) % 256
  {
    HopsWrap(hops);
  }

  lemma {:induction false} AnswersRetrace(relays: seq<RelayedMsg>, msg: ClientMsg)
    ensures AllRetrace(AnswerChain(relays, msg), relays)
  {
    if relays != [] {
      AnswersRetrace(relays[1..], msg);
      HopsAroundAnswers(relays[1..], msg);
      AnswerRetraces(relays[0], Answers(relays[1..], msg), |relays| - 1);
      AllRetraceCons(Answers(relays, msg), AnswerChain(relays[1..], msg), relays);
    }
  }

  lemma {:induction false} AllRetraceCons(answer: RelayedMsg, rest: seq<RelayedMsg>, forwards: seq<RelayedMsg>)
    requires forwards != [] && AllRetrace(rest, forwards[1..])
    requires Retraces(answer, forwards[0], |forwards| - 1)
    ensures AllRetrace([answer] + rest, forwards)
  {
    SameDepth(rest, forwards[1..]);
    assert ([answer] + rest)[1..] == rest;
  }

  lemma {:induction false} HopsWrap(n: nat)
    ensures (n % 256 + 1) % 256 == (n + 1) % 256
  {
  }

  /**
   There is a reply exactly when a forwarded message ends in a client's message, and it
   wraps the new message in one answer for every relay, in the order of the relays.
   */
  lemma {:induction false} ReplyRetracesForward(relay: RelayedMsg, msg: ClientMsg)
    requires relay.msgType == 12
    ensures var r, u := Reply(Some(relay), Some(msg)), Unwrap(relay);
            && (r.Ok? <==> u.end.Ok?)
            && (r.Ok? ==> Unwrap(r.value).end == Ok(msg) && AllRetrace(Unwrap(r.value).relays, u.relays))
  {
    AnswersUnwrap(Unwrap(relay).relays, msg);
    AnswersRetrace(Unwrap(relay).relays, msg);
  }

  // Hop counts.

  /** Every relay counts the relays inside it. */
  ghost predicate CountsHops(relays: seq<RelayedMsg>) {
    forall i | 0 <= i < |relays| :: relays[i].hopCount == (|relays| - 1 - i) % 256
  }

  /** The reply has the hop counts of the forwarded message exactly when those counted the hops. */
  lemma {:induction false} SameHopsIff(answers: seq<RelayedMsg>, forwards: seq<RelayedMsg>)
    requires AllRetrace(answers, forwards)
    ensures |answers| == |forwards|
    ensures (forall i | 0 <= i < |answers| :: answers[i].hopCount == forwards[i].hopCount) <==> CountsHops(forwards)
  {
    SameDepth(answers, forwards);
    AnswersCountHops(answers, forwards);
  }

  lemma {:induction false} AnswersCountHops(answers: seq<RelayedMsg>, forwards: seq<RelayedMsg>)
    requires AllRetrace(answers, forwards)
    ensures CountsHops(answers)
  {
    forall i | 0 <= i < |answers|
      ensures answers[i].hopCount == (|answers| - 1 - i) % 256
    {
      AllRetraceAt(answers, forwards, i);
    }
  }

  /** What one relay agent does: it encapsulates, and may add options. */
  datatype Wrapping = Wrapping(msgType: byte, link: Bytes, peer: Bytes, extra: seq<Opt>)

  function AddOptions(m: DHCPv6, options: seq<Opt>): DHCPv6 {
    m.(options := m.options + options)
  }

  /** A message wrapped by relay agents, the outermost first. */
  function Wrap(ws: seq<Wrapping>, msg: DHCPv6): (m: DHCPv6)
    requires forall w | w in ws :: IsRelayType(w.msgType)
    ensures ws != [] ==> m.Relay? && m.msgType == ws[0].msgType
  {
    if ws == [] then msg
    else
      var m := Encapsulate(Wrap(ws[1..], msg), ws[0].msgType, ws[0].link, ws[0].peer).value;
      AddOptions(m, ws[0].extra)
  }

  lemma {:induction false} WrapUnwraps(ws: seq<Wrapping>, msg: DHCPv6)
    requires ws != [] && forall w | w in ws :: IsRelayType(w.msgType)
    ensures var inner, m := Wrap(ws[1..], msg), Wrap(ws, msg);
            && m.hopCount == HopsAround(inner)
            && Unwrap(m) == Unwrapped([m] + Unwrap(inner).relays, Unwrap(inner).end)
  {
    var inner, m := Wrap(ws[1..], msg), Wrap(ws, msg);
    assert m.options[0] == RelayMsg(inner);
    assert Decapsulate(m) == Ok(inner);
  }

  /** Relays that are all put there by `Encapsulate`, around a client's message, count the hops. */
  lemma {:induction false} WrappedCountsHops(ws: seq<Wrapping>, msg: ClientMsg)
    requires forall w | w in ws :: IsRelayType(w.msgType)
    ensures var u := Unwrap(Wrap(ws, msg)); u.end == Ok(msg) && |u.relays| == |ws| && CountsHops(u.relays)
    ensures HopsAround(Wrap(ws, msg)) == |ws| % 256
  {
    if ws != [] {
      WrappedCountsHops(ws[1..], msg);
      WrapUnwraps(ws, msg);
      CountsHopsCons(Wrap(ws, msg), Unwrap(Wrap(ws[1..], msg)).relays);
    }
  }

  lemma {:induction false} CountsHopsCons(m: RelayedMsg, inner: seq<RelayedMsg>)
    requires CountsHops(inner) && m.hopCount == |inner| % 256
    ensures CountsHops([m] + inner) && HopsAround(m) == (|inner| + 1) % 256
  {
    HopsWrap(|inner|);
    var relays := [m] + inner;
    forall i | 1 <= i < |relays|
      ensures relays[i].hopCount == (|relays| - 1 - i) % 256
    {
      assert relays[i] == inner[i - 1];
    }
  }

  /** The reply to a chain that relay agents built from a client's message has the hop counts of that chain. */
  lemma {:induction false} ReplyToBuiltHasSameHops(ws: seq<Wrapping>, msg: ClientMsg, answer: ClientMsg)
    requires ws != [] && (forall w | w in ws :: w.msgType == 12 || w.msgType == 13) && ws[0].msgType == 12
    ensures var forward := Wrap(ws, msg);
            var r := Reply(Some(forward), Some(answer));
            && r.Ok?
            && |Unwrap(r.value).relays| == |Unwrap(forward).relays| == |ws|
            && forall i | 0 <= i < |ws| :: Unwrap(r.value).relays[i].hopCount == Unwrap(forward).relays[i].hopCount
  {
    WrappedCountsHops(ws, msg);
    ReplyRetracesForward(Wrap(ws, msg), answer);
    SameHopsIff(Unwrap(Reply(Some(Wrap(ws, msg)), Some(answer)).value).relays, Unwrap(Wrap(ws, msg)).relays);
  }

  // The reply on the wire.

  /** The answer's own header reads back, what it copies does, and what it holds fits an option. */
  predicate AnswerFits(relay: RelayedMsg, inner: DHCPv6) {
    && HeadKept(HeadOf(Answer(relay, inner)), |EncodeOptions(Answer(relay, inner).options)|)
    && AllWellFormed(Echoed(relay), false)
    && |EncodeMsg(inner)| < 0x1_0000
  }

  lemma {:induction false} AnswerWellFormedIff(relay: RelayedMsg, inner: DHCPv6)
    ensures WellFormed(Answer(relay, inner)) <==> WellFormed(inner) && AnswerFits(relay, inner)
  {
    var options := Answer(relay, inner).options;
    assert options[1..] == Echoed(relay);
    assert WellFormedOption(options[0], false) <==> |EncodeMsg(inner)| < 0x1_0000 && WellFormed(inner);
  }

  /** Every answer fits, around the answers inside it. */
  predicate AllAnswersFit(relays: seq<RelayedMsg>, msg: ClientMsg) {
    forall k | 0 <= k < |relays| :: AnswerFits(relays[k], Answers(relays[k + 1..], msg))
  }

  lemma {:induction false} AllAnswersFitCons(relays: seq<RelayedMsg>, rest: seq<RelayedMsg>, msg: ClientMsg)
    requires relays != [] && rest == relays[1..]
    ensures AllAnswersFit(relays, msg) <==> AnswerFits(relays[0], Answers(rest, msg)) && AllAnswersFit(rest, msg)
  {
    forall k | 1 <= k < |relays|
      ensures relays[k] == rest[k - 1] && relays[k + 1..] == rest[k..]
    {
    }
    if AllAnswersFit(relays, msg) {
      forall k | 0 <= k < |rest|
        ensures AnswerFits(rest[k], Answers(rest[k + 1..], msg))
      {
        assert AnswerFits(relays[k + 1], Answers(relays[k + 1 + 1..], msg));
      }
    }
  }

  lemma {:induction false} AnswersWellFormedIff(relays: seq<RelayedMsg>, msg: ClientMsg)
    ensures WellFormed(Answers(relays, msg)) <==> WellFormed(msg) && AllAnswersFit(relays, msg)
  {
    if relays != [] {
      AnswersWellFormedIff(relays[1..], msg);
      AnswerWellFormedIff(relays[0], Answers(relays[1..], msg));
      AllAnswersFitCons(relays, relays[1..], msg);
    }
  }

  /** The reply reads back from its bytes if and only if the message is well-formed and every answer fits. */
  lemma {:induction false} AnswersReadBackIff(relays: seq<RelayedMsg>, msg: ClientMsg)
    ensures ParseMsg(EncodeMsg(Answers(relays, msg))) == Some(Answers(relays, msg)) <==>
            WellFormed(msg) && AllAnswersFit(relays, msg)
  {
    V6RoundTrip.RoundTripIff(Answers(relays, msg));
    AnswersWellFormedIff(relays, msg);
  }
}
