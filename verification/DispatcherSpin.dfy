/**
 Which calls can come to spin once the client is down. A call that waits for an answer
 and whose matcher rejects nil can come to spin when nothing that is still on its way to
 it will be accepted, and its channel is closed or another call on its transaction ID
 still has to cancel. No step makes a call able to, and one that is able has a way there.
 */
module DispatcherSpin {
  import opened Wire
  import opened Dispatcher
  import opened DispatcherSafety
  import opened DispatcherDelivery
  import opened DispatcherProgress

  /** `Close` has closed the connection and `done`; reads and writes now fail. */
  predicate Down(s: State) {
    s.connClosed && s.done
  }

  ghost predicate OwnNext(c: Config, s: State, s': State) {
    exists step: Step :: !step.Env? && Enabled(c, s, step) && s' == Apply(c, s, step)
  }

  /** A schedule of what is in flight: no new calls, every state one step after the one before. */
  ghost predicate Schedule(c: Config, path: seq<State>) {
    |path| > 0 && forall i :: 0 < i < |path| ==> OwnNext(c, path[i - 1], path[i])
  }

  lemma {:induction false} ScheduleFrom(c: Config, s: State, path: seq<State>)
    requires Schedule(c, path) && OwnNext(c, s, path[0])
    ensures Schedule(c, [s] + path)
  {
    var path' := [s] + path;
    forall i | 0 < i < |path'|
      ensures OwnNext(c, path'[i - 1], path'[i])
    {
      if i > 1 {
        assert OwnNext(c, path[i - 2], path[i - 1]);
      }
    }
  }

  lemma {:induction false} StepKeepsDown(c: Config, s: State, step: Step)
    requires Down(s) && Enabled(c, s, step)
    ensures Down(Apply(c, s, step))
  {
  }

  /** The call rejects nil and whatever waits in its channel. */
  ghost predicate Unanswered(s: State, t: nat) {
    t < |s.calls| && s.calls[t].onNil.RejectsNil? && s.calls[t].pc.Receiving? && s.calls[t].pc.e < |s.entries|
    && Rejected(s, t, s.entries[s.calls[t].pc.e].buf)
  }

  /** The message that the loop holds with the lock, if it is for this call, will be rejected. */
  ghost predicate LoopHasNothing(s: State, t: nat)
    requires t < |s.calls|
  {
    ((s.loop.Locked? || s.loop.Selecting?) && s.loop.msg < |s.arrivals|
     && s.arrivals[s.loop.msg].xid == s.calls[t].xid) ==> s.arrivals[s.loop.msg] !in s.calls[t].accepts
  }

  /** Call `u` is on its way to a `cancel` under the transaction ID of `t`. */
  ghost predicate Rival(s: State, t: nat, u: nat)
    requires t < |s.calls|
  {
    u < |s.calls| && u != t && s.calls[u].xid == s.calls[t].xid && HasEntry(s.calls[u].pc)
  }

  ghost predicate HasRival(s: State, t: nat)
    requires t < |s.calls|
  {
    exists u: nat :: Rival(s, t, u)
  }

  ghost predicate Doomed(s: State, t: nat) {
    Unanswered(s, t)
    && (!s.entries[s.calls[t].pc.e].open || (LoopHasNothing(s, t) && HasRival(s, t)))
  }

  /** Some call can come to spin. */
  ghost predicate CanSpin(s: State) {
    exists t: nat :: t < |s.calls| && Doomed(s, t)
  }

  lemma {:induction false} SpinningCanSpin(s: State, t: nat)
    requires t < |s.calls| && SpinsAt(s, t)
    ensures CanSpin(s)
  {
    assert Doomed(s, t);
  }

  // Nobody becomes able to spin.

  /** The entry of a call that waits on an open channel is the one pending under its ID. */
  lemma {:induction false} OpenIsPending(s: State, t: nat)
    requires Safe(s) && Unanswered(s, t)
    ensures var e := s.calls[t].pc.e;
      && s.entries[e].owner == t && s.entries[e].xid == s.calls[t].xid && !s.entries[e].done
      && (s.entries[e].open ==> s.calls[t].xid in s.pending && s.pending[s.calls[t].xid] == e)
  {
    assert Attached(s, t, s.calls[t].pc.e);
  }

  /** Entries of different calls are different. */
  lemma {:induction false} OthersEntry(s: State, t: nat, u: nat)
    requires Safe(s) && t < |s.calls| && u < |s.calls| && t != u && HasEntry(s.calls[t].pc) && HasEntry(s.calls[u].pc)
    ensures s.calls[t].pc.e != s.calls[u].pc.e
  {
    assert Attached(s, t, s.calls[t].pc.e) && Attached(s, u, s.calls[u].pc.e);
  }

  /** Two states in which `t` waits on the same channel with the same messages. */
  ghost predicate SameWait(s: State, s': State, t: nat) {
    && t < |s.calls| && t < |s'.calls| && s'.calls[t] == s.calls[t] && s.calls[t].pc.Receiving?
    && s'.arrivals == s.arrivals
    && var e := s.calls[t].pc.e;
    e < |s.entries| && e < |s'.entries| && s'.entries[e].buf == s.entries[e].buf
  }

  lemma {:induction false} SameWaitSameAnswers(s: State, s': State, t: nat)
    requires SameWait(s, s', t)
    ensures Unanswered(s', t) <==> Unanswered(s, t)
  {
  }

  /** Both ways: a step that leaves the wait of `t` alone. */
  lemma {:induction false} SameDoom(s: State, s': State, t: nat)
    requires SameWait(s, s', t) && Doomed(s', t) && s'.entries[s.calls[t].pc.e].open == s.entries[s.calls[t].pc.e].open
    requires s.entries[s.calls[t].pc.e].open && HasRival(s', t) ==> HasRival(s, t)
    requires s.entries[s.calls[t].pc.e].open && LoopHasNothing(s', t) ==> LoopHasNothing(s, t)
    ensures Doomed(s, t)
  {
    SameWaitSameAnswers(s, s', t);
    if s.entries[s.calls[t].pc.e].open {
      assert HasRival(s', t);
      assert HasRival(s, t);
    }
  }

  /** A step of call `v` alone. */
  lemma {:induction false} RivalsSame(s: State, s': State, t: nat, v: nat, pc: CallPc)
    requires t < |s.calls| && v < |s.calls| && s'.calls == s.calls[v := s.calls[v].(pc := pc)]
    requires HasEntry(pc) ==> v == t || HasEntry(s.calls[v].pc)
    ensures HasRival(s', t) ==> HasRival(s, t)
  {
    if HasRival(s', t) {
      var u: nat :| Rival(s', t, u);
      assert Rival(s, t, u);
    }
  }

  /** The receive of the call itself. */
  lemma {:induction false} ReceiveWasDoomed(c: Config, s: State, t: nat)
    requires Sound(c, s) && t < |s.calls| && CallEnabled(s, t, Receive) && Doomed(DoReceive(s, t), t)
    ensures Doomed(s, t)
  {
    var e := s.calls[t].pc.e;
    var s' := DoReceive(s, t);
    if s.entries[e].buf != [] {
      assert s.entries[e].buf == [s.entries[e].buf[0]] + s'.entries[e].buf;
    }
    RivalsSame(s, s', t, t, s'.calls[t].pc);
  }

  /** Only a receive leaves a call waiting when the connection is closed. */
  lemma {:induction false} WaitingAfter(c: Config, s: State, t: nat, call: CallStep)
    requires Down(s) && t < |s.calls| && CallEnabled(s, t, call) && ApplyCall(c, s, t, call).calls[t].pc.Receiving?
    ensures call.Receive?
  {
  }

  /** Another call's step that leaves the entry of `t` alone and does not make a rival of it. */
  lemma {:induction false} OtherStepWasDoomed(s: State, s': State, t: nat, v: nat, pc: CallPc)
    requires SameWait(s, s', t) && s'.loop == s.loop && Doomed(s', t)
    requires s'.entries[s.calls[t].pc.e].open == s.entries[s.calls[t].pc.e].open
    requires v < |s.calls| && v != t && s'.calls == s.calls[v := s.calls[v].(pc := pc)]
    requires HasEntry(pc) ==> HasEntry(s.calls[v].pc) || !s.entries[s.calls[t].pc.e].open || s.calls[v].xid != s.calls[t].xid
    ensures Doomed(s, t)
  {
    if s.entries[s.calls[t].pc.e].open && HasRival(s', t) {
      var u: nat :| Rival(s', t, u);
      assert Rival(s, t, u);
    }
    SameDoom(s, s', t);
  }

  lemma {:induction false} RegisterWasDoomed(s: State, t: nat, v: nat)
    requires Safe(s) && v < |s.calls| && v != t && CallEnabled(s, v, Register) && Doomed(DoRegister(s, v), t)
    ensures Doomed(s, t)
  {
    assert Attached(s, t, s.calls[t].pc.e);
    OtherStepWasDoomed(s, DoRegister(s, v), t, v, DoRegister(s, v).calls[v].pc);
  }

  /** A step of `v` on its own entry. */
  lemma {:induction false} EntryStepWasDoomed(c: Config, s: State, t: nat, v: nat, call: CallStep)
    requires Safe(s) && v < |s.calls| && v != t && CallEnabled(s, v, call) && (call.Receive? || call.CloseEntryDone?)
    requires Doomed(ApplyCall(c, s, v, call), t)
    ensures Doomed(s, t)
  {
    assert Attached(s, t, s.calls[t].pc.e);
    OthersEntry(s, t, v);
    var s' := ApplyCall(c, s, v, call);
    OtherStepWasDoomed(s, s', t, v, s'.calls[v].pc);
  }

  /** The `cancel` that closes the channel of `t` is a rival's. */
  lemma {:induction false} CancelWasDoomed(s: State, t: nat, v: nat)
    requires Safe(s) && v < |s.calls| && v != t && CallEnabled(s, v, Cancel) && Doomed(DoCancel(s, v), t)
    ensures Doomed(s, t)
  {
    var e, s' := s.calls[t].pc.e, DoCancel(s, v);
    assert Attached(s, t, e);
    SameWaitSameAnswers(s, s', t);
    LockExcludesLoop(s, v);
    if s.entries[e].open && !s'.entries[e].open {
      assert Rival(s, t, v);
    } else {
      OtherStepWasDoomed(s, s', t, v, AfterAttempt(s.calls[v].pc));
    }
  }

  lemma {:induction false} CallWasDoomed(c: Config, s: State, v: nat, call: CallStep, t: nat)
    requires Sound(c, s) && Down(s) && v < |s.calls| && CallEnabled(s, v, call) && Doomed(ApplyCall(c, s, v, call), t)
    ensures Doomed(s, t)
  {
    if v == t {
      WaitingAfter(c, s, t, call);
      ReceiveWasDoomed(c, s, t);
    } else {
      match call
      case Local(_) => LocalWasDoomed(c, s, v, call, t);
      case Acquire => LocalWasDoomed(c, s, v, call, t);
      case Register => RegisterWasDoomed(s, t, v);
      case Receive => EntryStepWasDoomed(c, s, t, v, call);
      case CloseEntryDone => EntryStepWasDoomed(c, s, t, v, call);
      case Cancel => CancelWasDoomed(s, t, v);
    }
  }

  /** A step of `v` that touches no entry. */
  lemma {:induction false} LocalWasDoomed(c: Config, s: State, v: nat, call: CallStep, t: nat)
    requires Safe(s) && v < |s.calls| && v != t && CallEnabled(s, v, call) && (call.Local? || call.Acquire?)
    requires Doomed(ApplyCall(c, s, v, call), t)
    ensures Doomed(s, t)
  {
    var s' := ApplyCall(c, s, v, call);
    OtherStepWasDoomed(s, s', t, v, s'.calls[v].pc);
  }

  /** A step of the loop on an entry that is not the one of `t`, or on none. */
  lemma {:induction false} LoopElsewhereWasDoomed(s: State, s': State, t: nat)
    requires Safe(s) && SameWait(s, s', t) && s'.calls == s.calls && Doomed(s', t)
    requires s'.entries[s.calls[t].pc.e].open == s.entries[s.calls[t].pc.e].open
    requires s.loop.Locked? || s.loop.Selecting? ==>
      || (s'.loop.HoldsLock() && s'.loop.Carries() && s'.loop.msg == s.loop.msg)
      || (s.entries[s.calls[t].pc.e].open ==> s.loop.msg < |s.arrivals| && s.arrivals[s.loop.msg].xid != s.calls[t].xid)
    ensures Doomed(s, t)
  {
    assert HasRival(s', t) ==> HasRival(s, t) by {
      if HasRival(s', t) {
        var u: nat :| Rival(s', t, u);
        assert Rival(s, t, u);
      }
    }
    SameDoom(s, s', t);
  }

  /** The loop has the entry of another call in hand: its message is for another transaction. */
  lemma {:induction false} SelectsElsewhere(s: State, t: nat)
    requires Safe(s) && Unanswered(s, t) && LoopOnEntry(s) && s.loop.e != s.calls[t].pc.e
    ensures s.entries[s.calls[t].pc.e].open ==> s.arrivals[s.loop.msg].xid != s.calls[t].xid
  {
    OpenIsPending(s, t);
  }

  lemma {:induction false} SeesDoneWasDoomed(s: State, t: nat)
    requires Safe(s) && LoopOnEntry(s) && s.entries[s.loop.e].done && Doomed(DoSeesDone(s), t)
    ensures Doomed(s, t)
  {
    assert Attached(s, t, s.calls[t].pc.e);
    SameWaitSameAnswers(s, DoSeesDone(s), t);
    SelectsElsewhere(s, t);
    LoopElsewhereWasDoomed(s, DoSeesDone(s), t);
  }

  lemma {:induction false} SendWasDoomed(s: State, t: nat)
    requires Safe(s) && LoopOnEntry(s) && Doomed(DoSend(s), t)
    ensures Doomed(s, t)
  {
    var e, s' := s.calls[t].pc.e, DoSend(s);
    SelectedIsOpen(s);
    assert Attached(s, t, e);
    if s.loop.e == e {
      SendToDoomed(s, t);
    } else {
      SameWaitSameAnswers(s, s', t);
      SelectsElsewhere(s, t);
      LoopElsewhereWasDoomed(s, s', t);
    }
  }

  /** What the loop put into the channel of `t` is rejected too. */
  lemma {:induction false} SendToDoomed(s: State, t: nat)
    requires Safe(s) && LoopOnEntry(s) && s.entries[s.loop.e].open && Doomed(DoSend(s), t)
    requires s.calls[t].pc.e == s.loop.e
    ensures Doomed(s, t)
  {
    var x, s' := s.entries[s.loop.e], DoSend(s);
    var buf := x.buf + [s.loop.msg];
    assert forall i :: 0 <= i < |x.buf| ==> buf[i] == x.buf[i];
    assert buf[|x.buf|] == s.loop.msg;
    var u: nat :| Rival(s', t, u);
    assert Rival(s, t, u);
  }

  lemma {:induction false} HandoffWasDoomed(c: Config, s: State, t: nat, w: nat)
    requires Safe(s) && LoopEnabled(c, s, Handoff(w)) && Doomed(DoHandoff(s, w), t)
    ensures Doomed(s, t)
  {
    var e, s' := s.calls[t].pc.e, DoHandoff(s, w);
    assert Attached(s, w, s.loop.e);
    if w == t {
      var u: nat :| Rival(s', t, u);
      assert Rival(s, t, u);
    } else {
      assert Attached(s, t, e);
      OthersEntry(s, t, w);
      SameWaitSameAnswers(s, s', t);
      SelectsElsewhere(s, t);
      HandoffElsewhere(s, t, w);
    }
  }

  lemma {:induction false} HandoffElsewhere(s: State, t: nat, w: nat)
    requires Safe(s) && LoopOnEntry(s) && w < |s.calls| && w != t && s.calls[w].pc.Receiving? && s.calls[w].pc.e == s.loop.e
    requires SameWait(s, DoHandoff(s, w), t) && s.loop.e != s.calls[t].pc.e && Doomed(DoHandoff(s, w), t)
    requires s.entries[s.calls[t].pc.e].open ==> s.arrivals[s.loop.msg].xid != s.calls[t].xid
    ensures Doomed(s, t)
  {
    var s' := DoHandoff(s, w);
    RivalsSame(s, s', t, w, s'.calls[w].pc);
    SameDoom(s, s', t);
  }

  lemma {:induction false} LookupWasDoomed(s: State, t: nat)
    requires Safe(s) && s.loop.Locked? && Doomed(DoLookup(s), t)
    ensures Doomed(s, t)
  {
    SameWaitSameAnswers(s, DoLookup(s), t);
    OpenIsPending(s, t);
    LoopElsewhereWasDoomed(s, DoLookup(s), t);
  }

  lemma {:induction false} LoopWasDoomed(c: Config, s: State, act: LoopStep, t: nat)
    requires Safe(s) && LoopEnabled(c, s, act) && Doomed(ApplyLoop(c, s, act), t)
    ensures Doomed(s, t)
  {
    match act
    case ReadFails => LoopElsewhereWasDoomed(s, s.(loop := Exited), t);
    case LoopLock => LoopElsewhereWasDoomed(s, s.(lock := Some(LoopHolds), loop := Locked(s.loop.msg)), t);
    case LoopLookup => LookupWasDoomed(s, t);
    case LoopSeesDone => SeesDoneWasDoomed(s, t);
    case LoopSends => SendWasDoomed(s, t);
    case Handoff(w) => HandoffWasDoomed(c, s, t, w);
    case LoopUnlock => LoopElsewhereWasDoomed(s, s.(lock := None, loop := Reading), t);
  }

  lemma {:induction false} CloserWasDoomed(s: State, k: nat, t: nat)
    requires Safe(s) && k < |s.closers| && s.closers[k] != CloseReturned && Doomed(ApplyClose(s, k), t)
    ensures Doomed(s, t)
  {
    LoopElsewhereWasDoomed(s, ApplyClose(s, k), t);
  }

  /** If some call can come to spin after a step of the program, some call could before. */
  lemma {:induction false} SpinWasPossible(c: Config, s: State, step: Step)
    requires Sound(c, s) && Down(s) && Enabled(c, s, step) && !step.Env? && CanSpin(Apply(c, s, step))
    ensures CanSpin(s)
  {
    var t: nat :| t < |Apply(c, s, step).calls| && Doomed(Apply(c, s, step), t);
    match step
    case Loop(act) => LoopWasDoomed(c, s, act, t);
    case OfCall(v, call) => CallWasDoomed(c, s, v, call, t);
    case OfClose(k) => CloserWasDoomed(s, k, t);
  }

  // And whoever can come to spin has a way there.

  /** The wait of `t` goes on as it was, on an open channel, with a rival and nothing for it in the loop's hands. */
  lemma {:induction false} StillDoomed(s: State, s': State, t: nat, u: nat)
    requires Unanswered(s, t) && SameWait(s, s', t) && LoopHasNothing(s', t) && Rival(s', t, u)
    ensures Doomed(s', t)
  {
    SameWaitSameAnswers(s, s', t);
  }

  /** A doomed call takes a message that it rejects. */
  lemma {:induction false} ReceiveStaysDoomed(c: Config, s: State, t: nat)
    requires Sound(c, s) && Doomed(s, t) && s.entries[s.calls[t].pc.e].buf != []
    ensures Enabled(c, s, OfCall(t, Receive)) && !Spins(s, OfCall(t, Receive)) && Doomed(DoReceive(s, t), t)
  {
    BufferedIsReceivable(c, s, t);
    var e := s.calls[t].pc.e;
    var buf, s' := s.entries[e].buf, DoReceive(s, t);
    assert s.arrivals[buf[0]] !in s.calls[t].accepts;
    assert s'.entries[e].buf == buf[1..] && forall i :: 0 <= i < |buf[1..]| ==> buf[1..][i] == buf[i + 1];
    if s.entries[e].open {
      var u: nat :| Rival(s, t, u);
      assert Rival(s', t, u);
    }
  }

  /** The step of another call, on its way to `cancel`, that needs no lock. */
  function TowardCancel(pc: CallPc): CallStep
    requires pc.Writing? || pc.Receiving? || pc.Cancelling?
  {
    if pc.Writing? then Local(WriteFails) else if pc.Receiving? then Local(SeesClosed) else CloseEntryDone
  }

  lemma {:induction false} OtherStaysDoomed(c: Config, s: State, t: nat, w: nat)
    requires Sound(c, s) && Down(s) && Doomed(s, t) && s.entries[s.calls[t].pc.e].open
    requires w < |s.calls| && w != t && (s.calls[w].pc.Writing? || s.calls[w].pc.Receiving? || s.calls[w].pc.Cancelling?)
    ensures var call := TowardCancel(s.calls[w].pc); CallEnabled(s, w, call) && Doomed(ApplyCall(c, s, w, call), t)
  {
    var call := TowardCancel(s.calls[w].pc);
    assert Attached(s, w, s.calls[w].pc.e);
    OthersEntry(s, t, w);
    var s' := ApplyCall(c, s, w, call);
    var u: nat :| Rival(s, t, u);
    StillDoomed(s, s', t, u);
  }

  lemma {:induction false} AcquireStaysDoomed(s: State, t: nat, u: nat)
    requires Safe(s) && Doomed(s, t) && s.entries[s.calls[t].pc.e].open
    requires Rival(s, t, u) && CallEnabled(s, u, Acquire)
    ensures Doomed(DoAcquire(s, u), t)
  {
    StillDoomed(s, DoAcquire(s, u), t, u);
  }

  lemma {:induction false} RegisterStaysDoomed(s: State, t: nat, v: nat)
    requires Safe(s) && Doomed(s, t) && s.entries[s.calls[t].pc.e].open && v < |s.calls| && CallEnabled(s, v, Register)
    ensures Doomed(DoRegister(s, v), t)
  {
    var u: nat :| Rival(s, t, u);
    StillDoomed(s, DoRegister(s, v), t, u);
  }

  /** Any `cancel` either closes the channel of `t`, or is none of its business. */
  lemma {:induction false} CancelStaysDoomed(s: State, t: nat, v: nat)
    requires Safe(s) && Doomed(s, t) && s.entries[s.calls[t].pc.e].open && v < |s.calls| && CallEnabled(s, v, Cancel)
    ensures Doomed(DoCancel(s, v), t)
  {
    OpenIsPending(s, t);
    LockExcludesLoop(s, v);
    if s.calls[v].xid != s.calls[t].xid {
      var u: nat :| Rival(s, t, u);
      StillDoomed(s, DoCancel(s, v), t, u);
    } else {
      CancelCloses(s, t, v);
    }
  }

  lemma {:induction false} CancelCloses(s: State, t: nat, v: nat)
    requires Safe(s) && Unanswered(s, t) && s.entries[s.calls[t].pc.e].open
    requires v < |s.calls| && CallEnabled(s, v, Cancel) && s.calls[v].xid == s.calls[t].xid
    ensures Doomed(DoCancel(s, v), t)
  {
    OpenIsPending(s, t);
    SameWaitSameAnswers(s, DoCancel(s, v), t);
  }

  lemma {:induction false} LoopStaysDoomed(s: State, s': State, t: nat)
    requires Doomed(s, t) && s.entries[s.calls[t].pc.e].open && SameWait(s, s', t) && s'.calls == s.calls
    requires LoopHasNothing(s', t)
    ensures Doomed(s', t)
  {
    var u: nat :| Rival(s, t, u);
    assert Rival(s', t, u);
    StillDoomed(s, s', t, u);
  }

  lemma {:induction false} SeesDoneStaysDoomed(s: State, t: nat)
    requires Safe(s) && Doomed(s, t) && s.entries[s.calls[t].pc.e].open && LoopOnEntry(s) && s.entries[s.loop.e].done
    ensures Doomed(DoSeesDone(s), t)
  {
    OpenIsPending(s, t);
    LoopStaysDoomed(s, DoSeesDone(s), t);
  }

  /** The loop's message goes straight to `t`, which rejects it. */
  lemma {:induction false} HandoffStaysDoomed(s: State, t: nat)
    requires Safe(s) && Doomed(s, t) && s.entries[s.calls[t].pc.e].open
    requires LoopOnEntry(s) && s.loop.e == s.calls[t].pc.e && s.entries[s.loop.e].buf == []
    ensures Doomed(DoHandoff(s, t), t)
  {
    OpenIsPending(s, t);
    var s' := DoHandoff(s, t);
    assert s.arrivals[s.loop.msg].xid == s.calls[t].xid;
    assert s'.calls[t].pc == s.calls[t].pc;
    var u: nat :| Rival(s, t, u);
    assert Rival(s', t, u);
  }

  /** With the loop in its `select`. */
  lemma {:induction false} AdvanceSelecting(c: Config, s: State, t: nat) returns (step: Step)
    requires Sound(c, s) && Down(s) && Doomed(s, t) && s.entries[s.calls[t].pc.e].open && s.loop.Selecting?
    ensures !step.Env? && Enabled(c, s, step) && !Spins(s, step) && Doomed(Apply(c, s, step), t)
  {
    var f := s.loop.e;
    var w := s.entries[f].owner;
    assert Attached(s, w, f);
    if f == s.calls[t].pc.e {
      if s.entries[f].buf == [] {
        step := Loop(Handoff(t));
        HandoffStaysDoomed(s, t);
      } else {
        step := OfCall(t, Receive);
        ReceiveStaysDoomed(c, s, t);
      }
    } else if s.entries[f].done {
      step := Loop(LoopSeesDone);
      SeesDoneStaysDoomed(s, t);
    } else {
      OpenIsPending(s, t);
      step := OfCall(w, TowardCancel(s.calls[w].pc));
      OtherStaysDoomed(c, s, t, w);
    }
  }

  /** With the lock in the loop's hands. */
  lemma {:induction false} AdvanceLoop(c: Config, s: State, t: nat) returns (step: Step)
    requires Sound(c, s) && Down(s) && Doomed(s, t) && s.entries[s.calls[t].pc.e].open && s.lock == Some(LoopHolds)
    ensures !step.Env? && Enabled(c, s, step) && !Spins(s, step) && Doomed(Apply(c, s, step), t)
  {
    if s.loop.Selecting? {
      step := AdvanceSelecting(c, s, t);
    } else if s.loop.Locked? {
      step := Loop(LoopLookup);
      LoopStaysDoomed(s, DoLookup(s), t);
    } else {
      step := Loop(LoopUnlock);
      LoopStaysDoomed(s, s.(lock := None, loop := Reading), t);
    }
  }

  /** With the lock in a call's hands. */
  lemma {:induction false} AdvanceHolder(c: Config, s: State, t: nat) returns (step: Step)
    requires Sound(c, s) && Doomed(s, t) && s.entries[s.calls[t].pc.e].open
    requires s.lock.Some? && s.lock.value.CallHolds?
    ensures !step.Env? && Enabled(c, s, step) && !Spins(s, step) && Doomed(Apply(c, s, step), t)
  {
    var v := s.lock.value.t;
    if s.calls[v].pc.InSend? {
      step := OfCall(v, Register);
      RegisterStaysDoomed(s, t, v);
    } else {
      step := OfCall(v, Cancel);
      CancelStaysDoomed(s, t, v);
    }
  }

  /** With the lock free: the rival goes on to its `cancel`. */
  lemma {:induction false} AdvanceRival(c: Config, s: State, t: nat) returns (step: Step)
    requires Sound(c, s) && Down(s) && Doomed(s, t) && s.entries[s.calls[t].pc.e].open && s.lock.None?
    ensures !step.Env? && Enabled(c, s, step) && !Spins(s, step) && Doomed(Apply(c, s, step), t)
  {
    var u: nat :| Rival(s, t, u);
    if s.calls[u].pc.WantCancel? {
      step := OfCall(u, Acquire);
      AcquireStaysDoomed(s, t, u);
    } else {
      step := OfCall(u, TowardCancel(s.calls[u].pc));
      OtherStaysDoomed(c, s, t, u);
    }
  }

  /** A call that can come to spin and does not yet is one step nearer to it after some step of the program. */
  lemma {:induction false} DoomedAdvances(c: Config, s: State, t: nat) returns (step: Step)
    requires Sound(c, s) && Down(s) && t < |s.calls| && Doomed(s, t) && !SpinsAt(s, t)
    ensures !step.Env? && Enabled(c, s, step) && !Spins(s, step) && Doomed(Apply(c, s, step), t)
  {
    if !s.entries[s.calls[t].pc.e].open {
      step := OfCall(t, Receive);
      ReceiveStaysDoomed(c, s, t);
    } else if s.lock.None? {
      step := AdvanceRival(c, s, t);
    } else if s.lock.value.LoopHolds? {
      step := AdvanceLoop(c, s, t);
    } else {
      step := AdvanceHolder(c, s, t);
    }
  }
}
