/**
 Progress of the dispatcher while it is in use: no reachable state is deadlocked, and
 whoever holds the lock can give it back. Neither needs a timer to fire, a context to
 end or a write on an open connection to fail.
 */
module DispatcherProgress {
  import opened Wire
  import opened Dispatcher
  import opened DispatcherSafety
  import opened DispatcherDelivery

  /** A receive of nil by a call whose matcher rejects nil: it leads back to the same `select`. */
  ghost predicate Spins(s: State, step: Step) {
    step.OfCall? && step.call.Receive? && step.t < |s.calls| && SpinsAt(s, step.t)
  }

  ghost predicate SpinsAt(s: State, t: nat)
    requires t < |s.calls|
  {
    var call := s.calls[t];
    call.onNil.RejectsNil? && call.pc.Receiving? && call.pc.e < |s.entries|
    && !s.entries[call.pc.e].open && s.entries[call.pc.e].buf == []
  }

  /**
   A step of the program's own goroutines that gets somewhere, without help from a timer or a context.
   A read or write fails because the connection is closed.
   */
  ghost predicate Proper(s: State, step: Step) {
    match step
    case Env(_) => false
    case Loop(act) => act.ReadFails? ==> s.connClosed
    case OfCall(t, call) =>
      && call != Local(TimesOut) && call != Local(ContextEnds)
      && (call == Local(WriteFails) ==> s.connClosed)
      && !Spins(s, step)
    case OfClose(_) => true
  }

  ghost predicate CanStep(c: Config, s: State) {
    exists step :: Proper(s, step) && Enabled(c, s, step)
  }

  /** The call is over, or waits for a message, or asks a closed channel again and again and wants none of it. */
  ghost predicate Idle(s: State, t: nat)
    requires t < |s.calls|
  {
    var call := s.calls[t];
    || call.pc.Returned?
    || (call.pc.Receiving? && !s.done && call.pc.e < |s.entries| && s.entries[call.pc.e].buf == []
        && (s.entries[call.pc.e].open || call.onNil.RejectsNil?))
  }

  /** Only the network, a timer, a context or a new call can change anything. */
  ghost predicate Resting(s: State) {
    && (forall t :: 0 <= t < |s.calls| ==> Idle(s, t))
    && (forall k :: 0 <= k < |s.closers| ==> s.closers[k].CloseReturned?)
    && (s.loop.Exited? || (s.loop.Reading? && !s.connClosed))
  }

  // What holds in every reachable state.

  /** A channel holds no more than its capacity. */
  ghost predicate Fits(c: Config, s: State) {
    forall e :: 0 <= e < |s.entries| ==> |s.entries[e].buf| <= c.bufferCap
  }

  ghost predicate Sound(c: Config, s: State) {
    Safe(s) && MsgInv(c, s) && Fits(c, s)
  }

  lemma {:induction false} CallKeepsFits(c: Config, s: State, t: nat, call: CallStep)
    requires Fits(c, s) && t < |s.calls| && CallEnabled(s, t, call)
    ensures Fits(c, ApplyCall(c, s, t, call))
  {
    match call
    case Receive => ReceiveKeepsFits(c, s, t);
    case Cancel => DropKeepsFits(c, s, s.calls[t].xid);
    case _ =>
  }

  lemma {:induction false} ReceiveKeepsFits(c: Config, s: State, t: nat)
    requires Fits(c, s) && t < |s.calls| && CallEnabled(s, t, Receive)
    ensures Fits(c, DoReceive(s, t))
  {
  }

  lemma {:induction false} DropKeepsFits(c: Config, s: State, x: Xid)
    requires Fits(c, s) && (x in s.pending ==> s.pending[x] < |s.entries|)
    ensures Fits(c, Drop(s, x))
  {
  }

  lemma {:induction false} LoopKeepsFits(c: Config, s: State, act: LoopStep)
    requires Fits(c, s) && PendingInv(s) && LoopEnabled(c, s, act)
    ensures Fits(c, ApplyLoop(c, s, act))
  {
    if act.LoopSends? {
      SelectedIsOpen(s);
    }
  }

  lemma {:induction false} StepKeepsSound(c: Config, s: State, step: Step)
    requires Sound(c, s) && Enabled(c, s, step)
    ensures Sound(c, Apply(c, s, step))
  {
    StepKeepsSafe(c, s, step);
    StepKeepsMsgs(c, s, step);
    match step
    case Env(_) =>
    case Loop(act) => LoopKeepsFits(c, s, act);
    case OfCall(t, call) => CallKeepsFits(c, s, t, call);
    case OfClose(k) =>
  }

  lemma {:induction false} RunIsSound(c: Config, run: seq<State>, i: nat)
    requires IsRun(c, run) && i < |run|
    ensures Sound(c, run[i])
  {
    if i > 0 {
      RunIsSound(c, run, i - 1);
      assert Next(c, run[i - 1], run[i]);
      var step :| Enabled(c, run[i - 1], step) && run[i] == Apply(c, run[i - 1], step);
      StepKeepsSound(c, run[i - 1], step);
    }
  }

  // No deadlock.

  /** What a call that has no lock and needs none does next. */
  ghost function NextMove(s: State, pc: CallPc): CallStep
    requires pc.Writing? || pc.Cancelling?
  {
    if pc.Cancelling? then CloseEntryDone else Local(if s.connClosed then WriteFails else WriteOk)
  }

  lemma {:induction false} NextMoveEnabled(c: Config, s: State, t: nat)
    requires Safe(s) && t < |s.calls| && (s.calls[t].pc.Writing? || s.calls[t].pc.Cancelling?)
    ensures var step := OfCall(t, NextMove(s, s.calls[t].pc)); Proper(s, step) && Enabled(c, s, step)
  {
    assert Attached(s, t, s.calls[t].pc.e);
  }

  lemma {:induction false} BufferedIsReceivable(c: Config, s: State, t: nat)
    requires Sound(c, s) && t < |s.calls| && s.calls[t].pc.Receiving?
    requires s.calls[t].pc.e < |s.entries| && s.entries[s.calls[t].pc.e].buf != []
    ensures Enabled(c, s, OfCall(t, Receive)) && Proper(s, OfCall(t, Receive))
  {
    var x := s.entries[s.calls[t].pc.e];
    assert DeliveryInv(s, x);
    assert Delivered(x)[|x.taken|] == x.buf[0];
  }

  /** The step that serves the loop blocked on entry `e`: its owner's, or the handover to the owner. */
  ghost function ServingStep(s: State): Step
    requires LoopOnEntry(s) && s.entries[s.loop.e].owner < |s.calls|
  {
    var t := s.entries[s.loop.e].owner;
    var pc := s.calls[t].pc;
    if pc.Writing? || pc.Cancelling? then OfCall(t, NextMove(s, pc))
    else if s.entries[s.loop.e].buf == [] then Loop(Handoff(t))
    else OfCall(t, Receive)
  }

  /**
   When the receive loop is blocked in its `select` with the lock held, the owner of the entry does not
   wait for the lock and can go on or take the message, because it closes `done` before it asks for the lock.
   */
  lemma {:induction false} BlockedSenderIsServed(c: Config, s: State)
    requires Sound(c, s) && s.loop.Selecting?
    requires !Enabled(c, s, Loop(LoopSeesDone)) && !Enabled(c, s, Loop(LoopSends))
    ensures s.lock == Some(LoopHolds) && LoopOnEntry(s) && s.entries[s.loop.e].owner < |s.calls|
    ensures s.calls[s.entries[s.loop.e].owner].pc.Awaiting(s.loop.e)
    ensures Proper(s, ServingStep(s)) && Enabled(c, s, ServingStep(s))
  {
    var e := s.loop.e;
    var t := s.entries[e].owner;
    assert Attached(s, t, e);
    if s.calls[t].pc.Writing? || s.calls[t].pc.Cancelling? {
      NextMoveEnabled(c, s, t);
    } else if s.entries[e].buf != [] {
      BufferedIsReceivable(c, s, t);
    }
  }

  lemma {:induction false} LoopHolderCanStep(c: Config, s: State)
    requires Sound(c, s) && s.lock == Some(LoopHolds)
    ensures CanStep(c, s)
  {
    match s.loop
    case Locked(_) => assert Proper(s, Loop(LoopLookup)) && Enabled(c, s, Loop(LoopLookup));
    case Unlocking => assert Proper(s, Loop(LoopUnlock)) && Enabled(c, s, Loop(LoopUnlock));
    case Selecting(_, _) =>
      if Enabled(c, s, Loop(LoopSeesDone)) {
        assert Proper(s, Loop(LoopSeesDone));
      } else if Enabled(c, s, Loop(LoopSends)) {
        assert Proper(s, Loop(LoopSends));
      } else {
        BlockedSenderIsServed(c, s);
      }
  }

  lemma {:induction false} CallHolderCanStep(c: Config, s: State)
    requires Safe(s) && s.lock.Some? && s.lock.value.CallHolds?
    ensures CanStep(c, s)
  {
    var t := s.lock.value.t;
    var step := OfCall(t, if s.calls[t].pc.InSend? then Register else Cancel);
    assert Proper(s, step) && Enabled(c, s, step);
  }

  lemma {:induction false} UnlockedCallCanStep(c: Config, s: State, t: nat)
    requires Sound(c, s) && s.lock.None? && t < |s.calls| && !Idle(s, t)
    ensures CanStep(c, s)
  {
    var pc := s.calls[t].pc;
    if pc.Writing? || pc.Cancelling? {
      NextMoveEnabled(c, s, t);
    } else if pc.Receiving? {
      ReceivingCanStep(c, s, t);
    } else {
      var step := OfCall(t, if pc.Retrying? then Local(Attempt) else Acquire);
      assert Proper(s, step) && Enabled(c, s, step);
    }
  }

  lemma {:induction false} ReceivingCanStep(c: Config, s: State, t: nat)
    requires Sound(c, s) && t < |s.calls| && s.calls[t].pc.Receiving? && !Idle(s, t)
    ensures CanStep(c, s)
  {
    var e := s.calls[t].pc.e;
    assert Attached(s, t, e);
    if s.done {
      assert Proper(s, OfCall(t, Local(SeesClosed))) && Enabled(c, s, OfCall(t, Local(SeesClosed)));
    } else if s.entries[e].buf != [] {
      BufferedIsReceivable(c, s, t);
    } else {
      assert Proper(s, OfCall(t, Receive)) && Enabled(c, s, OfCall(t, Receive));
    }
  }

  lemma {:induction false} SoundCanStep(c: Config, s: State)
    requires Sound(c, s) && !Resting(s)
    ensures CanStep(c, s)
  {
    if s.lock == Some(LoopHolds) {
      LoopHolderCanStep(c, s);
    } else if s.lock.Some? {
      CallHolderCanStep(c, s);
    } else if s.loop.WantLock? {
      assert Proper(s, Loop(LoopLock)) && Enabled(c, s, Loop(LoopLock));
    } else if exists t :: 0 <= t < |s.calls| && !Idle(s, t) {
      var t :| 0 <= t < |s.calls| && !Idle(s, t);
      UnlockedCallCanStep(c, s, t);
    } else if s.loop.Reading? && s.connClosed {
      assert Proper(s, Loop(ReadFails)) && Enabled(c, s, Loop(ReadFails));
    } else {
      var k :| 0 <= k < |s.closers| && !s.closers[k].CloseReturned?;
      assert Proper(s, OfClose(k)) && Enabled(c, s, OfClose(k));
    }
  }

  /** No reachable state is deadlocked: some goroutine can get on, or all wait for the world outside. */
  lemma {:induction false} DeadlockFree(c: Config, run: seq<State>, i: nat)
    requires IsRun(c, run) && i < |run|
    ensures Resting(run[i]) || CanStep(c, run[i])
  {
    RunIsSound(c, run, i);
    if !Resting(run[i]) {
      SoundCanStep(c, run[i]);
    }
  }

  // A held lock can be given back.

  /** Who may take part: the loop, and one call. */
  datatype Parties = Parties(loop: bool, call: Option<nat>)

  predicate Among(p: Parties, step: Step) {
    (p.loop && step.Loop?) || (step.OfCall? && p.call == Some(step.t))
  }

  /** The owner of the entry that the loop's message is for. */
  ghost function Addressee(s: State): Option<nat> {
    if (s.loop.Locked? || s.loop.Selecting?) && s.loop.msg < |s.arrivals|
      && s.arrivals[s.loop.msg].xid in s.pending && s.pending[s.arrivals[s.loop.msg].xid] < |s.entries|
    then Some(s.entries[s.pending[s.arrivals[s.loop.msg].xid]].owner)
    else None
  }

  /** The holder of the lock and, when that is the loop, the call it has a message for. */
  ghost function PartiesOf(s: State): Parties {
    match s.lock
    case Some(CallHolds(t)) => Parties(false, Some(t))
    case Some(LoopHolds) => Parties(true, Addressee(s))
    case None => Parties(false, None)
  }

  /** A path to a state in which the lock is free, on which only these parties make proper steps. */
  ghost predicate Releases(c: Config, p: Parties, s: State, path: seq<State>) {
    && |path| > 0 && path[0] == s && path[|path| - 1].lock.None?
    && forall i :: 0 < i < |path| ==> NextBy(c, p, path[i - 1], path[i])
  }

  ghost predicate NextBy(c: Config, p: Parties, s: State, s': State) {
    exists step :: Among(p, step) && Proper(s, step) && Enabled(c, s, step) && s' == Apply(c, s, step)
  }

  lemma {:induction false} Prepend(c: Config, p: Parties, s: State, step: Step, path: seq<State>)
    requires Among(p, step) && Proper(s, step) && Enabled(c, s, step) && Releases(c, p, Apply(c, s, step), path)
    ensures Releases(c, p, s, [s] + path)
  {
    var path' := [s] + path;
    assert NextBy(c, p, s, Apply(c, s, step));
    forall i | 0 < i < |path'|
      ensures NextBy(c, p, path'[i - 1], path'[i])
    {
      if i > 1 {
        assert NextBy(c, p, path[i - 2], path[i - 1]);
      }
    }
  }

  lemma {:induction false} ReleaseFromUnlocking(c: Config, p: Parties, s: State) returns (path: seq<State>)
    requires Sound(c, s) && s.loop.Unlocking? && p.loop
    ensures |path| == 2 && Releases(c, p, s, path)
  {
    path := [Apply(c, s, Loop(LoopUnlock))];
    Prepend(c, p, s, Loop(LoopUnlock), path);
    path := [s] + path;
  }

  /** The loop leaves its `select`. */
  lemma {:induction false} ReleaseByLeaving(c: Config, p: Parties, s: State, act: LoopStep) returns (path: seq<State>)
    requires Sound(c, s) && s.loop.Selecting? && p.loop && LoopEnabled(c, s, act) && !act.ReadFails?
    ensures |path| == 3 && Releases(c, p, s, path)
  {
    StepKeepsSound(c, s, Loop(act));
    LeavingUnlocks(c, s, act);
    path := ReleaseFromUnlocking(c, p, ApplyLoop(c, s, act));
    Prepend(c, p, s, Loop(act), path);
    path := [s] + path;
  }

  lemma {:induction false} LeavingUnlocks(c: Config, s: State, act: LoopStep)
    requires Safe(s) && s.loop.Selecting? && LoopEnabled(c, s, act)
    ensures ApplyLoop(c, s, act).loop.Unlocking?
  {
    if act.LoopSends? {
      SelectedIsOpen(s);
    }
  }

  /** The loop is in its `select` on entry `e` of call `t`. */
  ghost predicate Blocked(s: State, t: nat, e: nat) {
    s.loop.Selecting? && s.loop.e == e < |s.entries| && s.entries[e].owner == t < |s.calls|
  }

  lemma {:induction false} CallKeepsBlocked(c: Config, s: State, t: nat, e: nat, call: CallStep)
    requires Safe(s) && Blocked(s, t, e) && CallEnabled(s, t, call) && !call.Cancel? && !call.Register?
    ensures Blocked(ApplyCall(c, s, t, call), t, e)
  {
  }

  lemma {:induction false} ReleaseFromCancelling(c: Config, s: State, t: nat, e: nat) returns (path: seq<State>)
    requires Sound(c, s) && Blocked(s, t, e) && s.calls[t].pc.Cancelling?
    ensures |path| == 4 && Releases(c, Parties(true, Some(t)), s, path)
  {
    var p, step := Parties(true, Some(t)), OfCall(t, CloseEntryDone);
    CloseEntryDoneIsSeen(c, s, t, e, step);
    path := ReleaseByLeaving(c, p, Apply(c, s, step), LoopSeesDone);
    Prepend(c, p, s, step, path);
    path := [s] + path;
  }

  lemma {:induction false} CloseEntryDoneIsSeen(c: Config, s: State, t: nat, e: nat, step: Step)
    requires Sound(c, s) && Blocked(s, t, e) && s.calls[t].pc.Cancelling? && step == OfCall(t, CloseEntryDone)
    ensures Proper(s, step) && Enabled(c, s, step) && Sound(c, Apply(c, s, step))
    ensures Apply(c, s, step).loop.Selecting? && LoopEnabled(c, Apply(c, s, step), LoopSeesDone)
  {
    NextMoveEnabled(c, s, t);
    StepKeepsSound(c, s, step);
    assert Attached(s, t, e);
  }

  lemma {:induction false} ReleaseFromReceiving(c: Config, s: State, t: nat, e: nat) returns (path: seq<State>)
    requires Sound(c, s) && Blocked(s, t, e) && s.calls[t].pc.Receiving?
    ensures |path| <= 5 && Releases(c, Parties(true, Some(t)), s, path)
  {
    var p, step := Parties(true, Some(t)), OfCall(t, Receive);
    assert Attached(s, t, e);
    if s.entries[e].buf == [] {
      path := ReleaseByLeaving(c, p, s, Handoff(t));
    } else {
      BufferedIsReceivable(c, s, t);
      StepKeepsSound(c, s, step);
      CallKeepsBlocked(c, s, t, e, Receive);
      var s1 := DoReceive(s, t);
      ReceiveMakesRoom(c, s, t, e);
      if s1.calls[t].pc.Receiving? {
        path := ReleaseByLeaving(c, p, s1, LoopSends);
      } else {
        path := ReleaseFromCancelling(c, s1, t, e);
      }
      Prepend(c, p, s, step, path);
      path := [s] + path;
    }
  }

  lemma {:induction false} ReceiveMakesRoom(c: Config, s: State, t: nat, e: nat)
    requires Sound(c, s) && t < |s.calls| && CallEnabled(s, t, Receive)
    requires s.calls[t].pc.e == e && s.entries[e].buf != []
    ensures |DoReceive(s, t).entries[e].buf| < c.bufferCap
    ensures DoReceive(s, t).calls[t].pc.Receiving? || DoReceive(s, t).calls[t].pc.Cancelling?
  {
  }

  lemma {:induction false} ReleaseFromWriting(c: Config, s: State, t: nat, e: nat) returns (path: seq<State>)
    requires Sound(c, s) && Blocked(s, t, e) && s.calls[t].pc.Writing?
    ensures |path| <= 6 && Releases(c, Parties(true, Some(t)), s, path)
  {
    var p, call := Parties(true, Some(t)), NextMove(s, s.calls[t].pc);
    NextMoveEnabled(c, s, t);
    StepKeepsSound(c, s, OfCall(t, call));
    CallKeepsBlocked(c, s, t, e, call);
    var s1 := ApplyCall(c, s, t, call);
    if s.connClosed {
      path := ReleaseFromCancelling(c, s1, t, e);
    } else {
      path := ReleaseFromReceiving(c, s1, t, e);
    }
    Prepend(c, p, s, OfCall(t, call), path);
    path := [s] + path;
  }

  lemma {:induction false} ReleaseFromSelect(c: Config, s: State, t: nat, e: nat) returns (path: seq<State>)
    requires Sound(c, s) && Blocked(s, t, e)
    ensures |path| <= 6 && Releases(c, Parties(true, Some(t)), s, path)
  {
    assert Attached(s, t, e);
    var pc := s.calls[t].pc;
    if s.entries[e].done {
      path := ReleaseByLeaving(c, Parties(true, Some(t)), s, LoopSeesDone);
    } else if pc.Writing? {
      path := ReleaseFromWriting(c, s, t, e);
    } else if pc.Receiving? {
      path := ReleaseFromReceiving(c, s, t, e);
    } else {
      path := ReleaseFromCancelling(c, s, t, e);
    }
  }

  lemma {:induction false} ReleaseFromLocked(c: Config, s: State) returns (path: seq<State>)
    requires Sound(c, s) && s.loop.Locked?
    ensures |path| <= 7 && Releases(c, Parties(true, Addressee(s)), s, path)
  {
    var p, step := Parties(true, Addressee(s)), Loop(LoopLookup);
    StepKeepsSound(c, s, step);
    var s1 := DoLookup(s);
    if s1.loop.Unlocking? {
      path := ReleaseFromUnlocking(c, p, s1);
    } else {
      assert Attached(s1, s1.entries[s1.loop.e].owner, s1.loop.e);
      path := ReleaseFromSelect(c, s1, s1.entries[s1.loop.e].owner, s1.loop.e);
    }
    Prepend(c, p, s, step, path);
    path := [s] + path;
  }

  lemma {:induction false} ReleaseByCall(c: Config, s: State, t: nat) returns (path: seq<State>)
    requires Sound(c, s) && s.lock == Some(CallHolds(t))
    ensures |path| == 2 && Releases(c, Parties(false, Some(t)), s, path)
  {
    var step := OfCall(t, if s.calls[t].pc.InSend? then Register else Cancel);
    path := [Apply(c, s, step)];
    Prepend(c, Parties(false, Some(t)), s, step, path);
    path := [s] + path;
  }

  /**
   In every reachable state at most six steps of the holder, and of the call it has a message for when the
   holder is the loop, free the lock, with no timer, no context and no failed write on an open connection.
   */
  lemma {:induction false} LockCanBeReleased(c: Config, run: seq<State>, i: nat) returns (path: seq<State>)
    requires IsRun(c, run) && i < |run|
    ensures |path| <= 7 && Releases(c, PartiesOf(run[i]), run[i], path)
  {
    RunIsSound(c, run, i);
    path := ReleaseLock(c, run[i]);
  }

  lemma {:induction false} ReleaseLock(c: Config, s: State) returns (path: seq<State>)
    requires Sound(c, s)
    ensures |path| <= 7 && Releases(c, PartiesOf(s), s, path)
  {
    if s.lock.None? {
      path := [s];
    } else if s.lock.value.CallHolds? {
      path := ReleaseByCall(c, s, s.lock.value.t);
    } else if s.loop.Unlocking? {
      path := ReleaseFromUnlocking(c, PartiesOf(s), s);
    } else if s.loop.Locked? {
      path := ReleaseFromLocked(c, s);
    } else {
      assert Attached(s, s.entries[s.loop.e].owner, s.loop.e);
      path := ReleaseFromSelect(c, s, s.entries[s.loop.e].owner, s.loop.e);
    }
  }
}
