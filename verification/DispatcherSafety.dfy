/**
 What holds in every interleaving of the dispatcher, for any transaction IDs: no
 channel is misused, and the lock, the map of pending transactions and the owners
 of its entries agree. `ChannelSafety` is the result; the rest builds its
 inductive invariant, step by step.
 */
module DispatcherSafety {
  import opened Wire
  import opened Dispatcher

  ghost predicate LockInv(s: State) {
    && (s.loop.HoldsLock() <==> s.lock == Some(LoopHolds))
    && (forall t :: 0 <= t < |s.calls| ==> (s.calls[t].pc.HoldsLock() <==> s.lock == Some(CallHolds(t))))
    && (s.lock.Some? && s.lock.value.CallHolds? ==> s.lock.value.t < |s.calls|)
  }

  /** A response channel is open exactly while its entry is in `pending`. */
  ghost predicate PendingInv(s: State) {
    && (forall x :: x in s.pending ==>
          s.pending[x] < |s.entries| && s.entries[s.pending[x]].xid == x && s.entries[s.pending[x]].open)
    && (forall e :: 0 <= e < |s.entries| && s.entries[e].open ==>
          s.entries[e].xid in s.pending && s.pending[s.entries[e].xid] == e)
    && (s.loop.Carries() ==> s.loop.msg < |s.arrivals|)
    && (s.loop.Selecting? ==>
          s.arrivals[s.loop.msg].xid in s.pending && s.pending[s.arrivals[s.loop.msg].xid] == s.loop.e)
  }

  /** Entry `e` and call `t` are attached: `t` is the owner and is at work on `e`. */
  ghost predicate Attached(s: State, t: nat, e: nat) {
    t < |s.calls| && e < |s.entries| && s.calls[t].pc.OnEntry(e)
    && s.entries[e].owner == t && s.entries[e].xid == s.calls[t].xid
    && (s.entries[e].done <==> !s.calls[t].pc.Awaiting(e))
  }

  ghost predicate OwnerInv(s: State) {
    && (forall t :: 0 <= t < |s.calls| && HasEntry(s.calls[t].pc) ==> Attached(s, t, s.calls[t].pc.e))
    && (forall e :: 0 <= e < |s.entries| && (s.entries[e].open || !s.entries[e].done) ==>
          Attached(s, s.entries[e].owner, e))
    && (forall e :: 0 <= e < |s.entries| ==> s.entries[e].owner < |s.calls|)
  }

  predicate HasEntry(pc: CallPc) {
    pc.Writing? || pc.Receiving? || pc.Cancelling? || pc.WantCancel? || pc.InCancel?
  }

  /** `Close` goes past the compare-and-swap once, and `c.done` is still open until that call closes it. */
  ghost predicate CloseInv(s: State) {
    && (forall k :: 0 <= k < |s.closers| && MidClose(s.closers[k]) ==> s.closed && !s.done)
    && (forall j, k :: 0 <= j < |s.closers| && 0 <= k < |s.closers| && MidClose(s.closers[j]) && MidClose(s.closers[k])
          ==> j == k)
    && (s.done ==> s.closed && s.connClosed)
    && (forall k :: 0 <= k < |s.closers| && s.closers[k].ClosingDone? ==> s.connClosed)
    && (forall k :: 0 <= k < |s.closers| && s.closers[k].Waiting? ==> s.done)
  }

  predicate MidClose(pc: ClosePc) {
    pc.ClosingConn? || pc.ClosingDone?
  }

  // What each step keeps.

  /** Lock, map and ownership: the part of the invariant about who may touch which channel. */
  ghost predicate ChanInv(s: State) {
    LockInv(s) && PendingInv(s) && OwnerInv(s)
  }

  /** Another program counter on the same entry, or on none as before. */
  ghost predicate SameStanding(pc: CallPc, pc': CallPc) {
    && !pc.HoldsLock() && !pc'.HoldsLock()
    && HasEntry(pc') == HasEntry(pc)
    && (HasEntry(pc) ==> pc'.e == pc.e && pc'.Awaiting(pc.e) == pc.Awaiting(pc.e))
  }

  lemma {:induction false} MoveKeeps(s: State, t: nat, pc: CallPc)
    requires ChanInv(s) && t < |s.calls| && SameStanding(s.calls[t].pc, pc)
    ensures ChanInv(Goto(s, t, pc))
  {
  }

  /** The same entry, perhaps with its channel closed and with other messages in it. */
  predicate SameOwner(x: Entry, x': Entry) {
    x'.xid == x.xid && x'.owner == x.owner && x'.done == x.done && (x'.open ==> x.open)
  }

  lemma {:induction false} OwnersKeep(s: State, s': State)
    requires OwnerInv(s) && s'.calls == s.calls && |s'.entries| == |s.entries|
    requires forall e :: 0 <= e < |s.entries| ==> SameOwner(s.entries[e], s'.entries[e])
    ensures OwnerInv(s')
  {
    forall t | 0 <= t < |s'.calls| && HasEntry(s'.calls[t].pc)
      ensures Attached(s', t, s'.calls[t].pc.e)
    {
      assert Attached(s, t, s.calls[t].pc.e);
    }
    forall e | 0 <= e < |s'.entries| && (s'.entries[e].open || !s'.entries[e].done)
      ensures Attached(s', s'.entries[e].owner, e)
    {
      assert SameOwner(s.entries[e], s'.entries[e]);
      assert Attached(s, s.entries[e].owner, e);
    }
  }

  /** What waits in a channel is nobody's business but its owner's. */
  lemma {:induction false} QueueKeeps(s: State, e: nat, taken: seq<nat>, buf: seq<nat>)
    requires ChanInv(s) && e < |s.entries|
    ensures ChanInv(s.(entries := s.entries[e := s.entries[e].(taken := taken, buf := buf)]))
  {
    OwnersKeep(s, s.(entries := s.entries[e := s.entries[e].(taken := taken, buf := buf)]));
  }

  lemma {:induction false} TakeKeeps(s: State, t: nat, e: nat, m: nat, buf: seq<nat>)
    requires ChanInv(s) && t < |s.calls| && s.calls[t].pc.Receiving? && s.calls[t].pc.e == e
    requires e < |s.entries| && m < |s.arrivals|
    ensures ChanInv(TakeMsg(s, t, e, m, buf))
  {
    var x := s.entries[e];
    QueueKeeps(s, e, x.taken + [m], buf);
    MoveKeeps(s.(entries := s.entries[e := x.(taken := x.taken + [m], buf := buf)]), t, Judge(s, t, e, m));
  }

  lemma {:induction false} ReceiveKeeps(s: State, t: nat)
    requires ChanInv(s) && t < |s.calls| && CallEnabled(s, t, Receive)
    ensures ChanInv(DoReceive(s, t))
  {
    var pc := s.calls[t].pc;
    var x := s.entries[pc.e];
    if x.buf == [] {
      MoveKeeps(s, t, JudgeNil(s.calls[t]));
    } else {
      TakeKeeps(s, t, pc.e, x.buf[0], x.buf[1..]);
    }
  }

  lemma {:induction false} AcquireKeeps(s: State, t: nat)
    requires ChanInv(s) && t < |s.calls| && CallEnabled(s, t, Acquire)
    ensures ChanInv(DoAcquire(s, t))
  {
  }

  lemma {:induction false} EnrolKeepsMap(s: State, t: nat)
    requires ChanInv(s) && t < |s.calls| && s.calls[t].pc.InSend? && s.calls[t].xid !in s.pending
    ensures LockInv(Enrol(s, t)) && PendingInv(Enrol(s, t))
  {
  }

  lemma {:induction false} EnrolKeeps(s: State, t: nat)
    requires ChanInv(s) && t < |s.calls| && s.calls[t].pc.InSend? && s.calls[t].xid !in s.pending
    ensures ChanInv(Enrol(s, t))
  {
    EnrolKeepsMap(s, t);
    var s' := Enrol(s, t);
    forall e | 0 <= e < |s.entries| && (s.entries[e].open || !s.entries[e].done)
      ensures Attached(s', s'.entries[e].owner, e)
    {
      assert Attached(s, s.entries[e].owner, e);
    }
    forall u | 0 <= u < |s.calls| && u != t && HasEntry(s.calls[u].pc)
      ensures Attached(s', u, s'.calls[u].pc.e)
    {
      assert Attached(s, u, s.calls[u].pc.e);
    }
    assert Attached(s', t, |s.entries|);
  }

  lemma {:induction false} RegisterKeeps(s: State, t: nat)
    requires ChanInv(s) && t < |s.calls| && CallEnabled(s, t, Register)
    ensures ChanInv(DoRegister(s, t))
  {
    if s.calls[t].xid !in s.pending {
      EnrolKeeps(s, t);
    }
  }

  lemma {:induction false} CloseEntryDoneKeeps(s: State, t: nat)
    requires ChanInv(s) && t < |s.calls| && CallEnabled(s, t, CloseEntryDone)
    ensures ChanInv(DoCloseEntryDone(s, t)) && DoCloseEntryDone(s, t).panicked == s.panicked
  {
    assert Attached(s, t, s.calls[t].pc.e);
    CloseEntryDoneKeepsOwners(s, t);
  }

  lemma {:induction false} CloseEntryDoneKeepsOwners(s: State, t: nat)
    requires OwnerInv(s) && t < |s.calls| && CallEnabled(s, t, CloseEntryDone)
    ensures OwnerInv(DoCloseEntryDone(s, t))
  {
    assert Attached(s, t, s.calls[t].pc.e);
    var s' := DoCloseEntryDone(s, t);
    forall u | 0 <= u < |s'.calls| && HasEntry(s'.calls[u].pc)
      ensures Attached(s', u, s'.calls[u].pc.e)
    {
      assert Attached(s, u, s.calls[u].pc.e);
    }
    forall f | 0 <= f < |s'.entries| && (s'.entries[f].open || !s'.entries[f].done)
      ensures Attached(s', s'.entries[f].owner, f)
    {
      assert Attached(s, s.entries[f].owner, f);
    }
  }

  /** Taking the pending entry of `x` out of the map and closing its channel, with the lock held. */
  lemma {:induction false} DropKeeps(s: State, x: Xid)
    requires ChanInv(s) && !s.loop.Selecting?
    ensures ChanInv(Drop(s, x)) && Drop(s, x).panicked == s.panicked
    ensures x !in Drop(s, x).pending
  {
    DropKeepsMap(s, x);
    OwnersKeep(s, Drop(s, x));
  }

  lemma {:induction false} DropKeepsMap(s: State, x: Xid)
    requires PendingInv(s) && !s.loop.Selecting?
    ensures PendingInv(Drop(s, x)) && Drop(s, x).panicked == s.panicked && x !in Drop(s, x).pending
  {
    if x in s.pending {
      var s' := Drop(s, x);
      forall f | 0 <= f < |s'.entries| && s'.entries[f].open
        ensures s'.entries[f].xid in s'.pending && s'.pending[s'.entries[f].xid] == f
      {
        assert s.entries[f].open;
      }
    }
  }

  /** Leaving `cancel`: by now the call's own entry is out of the map. */
  lemma {:induction false} LeaveKeeps(s: State, t: nat, pc: CallPc)
    requires ChanInv(s) && t < |s.calls| && s.calls[t].pc.InCancel? && s.calls[t].xid !in s.pending
    requires !HasEntry(pc) && !pc.HoldsLock()
    ensures ChanInv(Goto(s, t, pc).(lock := None))
  {
    assert Attached(s, t, s.calls[t].pc.e);
    assert !s.entries[s.calls[t].pc.e].open;
  }

  lemma {:induction false} LockExcludesLoop(s: State, t: nat)
    requires LockInv(s) && t < |s.calls| && s.calls[t].pc.HoldsLock()
    ensures !s.loop.HoldsLock()
  {
  }

  lemma {:induction false} CancelKeeps(s: State, t: nat)
    requires ChanInv(s) && t < |s.calls| && CallEnabled(s, t, Cancel)
    ensures ChanInv(DoCancel(s, t)) && DoCancel(s, t).panicked == s.panicked
  {
    var pc, x := s.calls[t].pc, s.calls[t].xid;
    LockExcludesLoop(s, t);
    DropKeeps(s, x);
    LeaveKeeps(Drop(s, x), t, AfterAttempt(pc));
  }

  /** The loop may leave its `select`; it still holds the lock. */
  lemma {:induction false} LeaveSelectKeeps(s: State)
    requires ChanInv(s) && s.loop.Selecting?
    ensures ChanInv(s.(loop := Unlocking))
  {
  }

  /** What the `done` case of the `select` drops is the entry pending under the message's ID. */
  lemma {:induction false} SeesDoneDrops(s: State)
    requires PendingInv(s) && LoopOnEntry(s)
    ensures DoSeesDone(s) == Drop(s.(loop := Unlocking), s.arrivals[s.loop.msg].xid)
  {
  }

  lemma {:induction false} SeesDoneKeeps(s: State)
    requires ChanInv(s) && LoopOnEntry(s)
    ensures ChanInv(DoSeesDone(s)) && DoSeesDone(s).panicked == s.panicked
  {
    LeaveSelectKeeps(s);
    SeesDoneDrops(s);
    DropKeeps(s.(loop := Unlocking), s.arrivals[s.loop.msg].xid);
  }

  /** The channel the loop sends on is registered, hence open. */
  lemma {:induction false} SelectedIsOpen(s: State)
    requires PendingInv(s) && LoopOnEntry(s)
    ensures s.entries[s.loop.e].open
  {
  }

  lemma {:induction false} SendKeeps(s: State)
    requires ChanInv(s) && LoopOnEntry(s)
    ensures ChanInv(DoSend(s)) && DoSend(s).panicked == s.panicked
  {
    SelectedIsOpen(s);
    LeaveSelectKeeps(s);
    var x := s.entries[s.loop.e];
    QueueKeeps(s.(loop := Unlocking), s.loop.e, x.taken, x.buf + [s.loop.msg]);
  }

  lemma {:induction false} HandoffKeeps(c: Config, s: State, t: nat)
    requires ChanInv(s) && LoopEnabled(c, s, Handoff(t))
    ensures ChanInv(DoHandoff(s, t)) && DoHandoff(s, t).panicked == s.panicked
  {
    TakeKeeps(s, t, s.loop.e, s.loop.msg, []);
    LeaveSelectKeeps(TakeMsg(s, t, s.loop.e, s.loop.msg, []));
  }

  lemma {:induction false} LookupKeeps(s: State)
    requires ChanInv(s) && s.loop.Locked? && s.loop.msg < |s.arrivals|
    ensures ChanInv(DoLookup(s))
  {
  }

  /** The loop takes or gives back the lock, or leaves; it carries the message it had, or none. */
  lemma {:induction false} LoopMoveKeeps(s: State, lock: Option<Holder>, loop: LoopPc)
    requires ChanInv(s) && !loop.Selecting? && (loop.Carries() ==> s.loop.Carries() && loop.msg == s.loop.msg)
    requires s.lock.Some? ==> s.lock == Some(LoopHolds)
    requires lock == if loop.HoldsLock() then Some(LoopHolds) else None
    ensures ChanInv(s.(lock := lock, loop := loop))
  {
  }

  lemma {:induction false} ReadFailsKeeps(s: State)
    requires ChanInv(s) && s.loop.Reading?
    ensures ChanInv(s.(loop := Exited))
  {
  }

  lemma {:induction false} LoopKeeps(c: Config, s: State, act: LoopStep)
    requires ChanInv(s) && LoopEnabled(c, s, act)
    ensures ChanInv(ApplyLoop(c, s, act)) && ApplyLoop(c, s, act).panicked == s.panicked
  {
    match act
    case ReadFails => ReadFailsKeeps(s);
    case LoopLock => LoopMoveKeeps(s, Some(LoopHolds), Locked(s.loop.msg));
    case LoopLookup => LookupKeeps(s);
    case LoopSeesDone => SeesDoneKeeps(s);
    case LoopSends => SendKeeps(s);
    case Handoff(t) => HandoffKeeps(c, s, t);
    case LoopUnlock => LoopMoveKeeps(s, None, Reading);
  }

  lemma {:induction false} CallKeeps(c: Config, s: State, t: nat, call: CallStep)
    requires ChanInv(s) && t < |s.calls| && CallEnabled(s, t, call)
    ensures ChanInv(ApplyCall(c, s, t, call)) && ApplyCall(c, s, t, call).panicked == s.panicked
  {
    match call
    case Local(move) => MoveKeeps(s, t, MoveTo(c, s, s.calls[t].pc, move));
    case Acquire => AcquireKeeps(s, t);
    case Register => RegisterKeeps(s, t);
    case Receive => ReceiveKeeps(s, t);
    case CloseEntryDone => CloseEntryDoneKeeps(s, t);
    case Cancel => CancelKeeps(s, t);
  }

  lemma {:induction false} EnvKeeps(c: Config, s: State, env: EnvStep)
    requires ChanInv(s) && (env.Arrive? ==> s.loop.Reading?)
    ensures ChanInv(ApplyEnv(c, s, env)) && ApplyEnv(c, s, env).panicked == s.panicked
  {
    var s' := ApplyEnv(c, s, env);
    if env.Begin? {
      forall e | 0 <= e < |s'.entries| && (s'.entries[e].open || !s'.entries[e].done)
        ensures Attached(s', s'.entries[e].owner, e)
      {
        assert Attached(s, s.entries[e].owner, e);
      }
    }
  }

  lemma {:induction false} SameChannelsKeep(s: State, s': State)
    requires ChanInv(s) && SameChannels(s, s')
    ensures ChanInv(s')
  {
    forall t | 0 <= t < |s'.calls| && HasEntry(s'.calls[t].pc)
      ensures Attached(s', t, s'.calls[t].pc.e)
    {
      assert Attached(s, t, s.calls[t].pc.e);
    }
    forall e | 0 <= e < |s'.entries| && (s'.entries[e].open || !s'.entries[e].done)
      ensures Attached(s', s'.entries[e].owner, e)
    {
      assert Attached(s, s.entries[e].owner, e);
    }
  }

  lemma {:induction false} SwapKeepsClose(s: State, k: nat)
    requires CloseInv(s) && k < |s.closers| && s.closers[k].Swapping?
    ensures CloseInv(DoSwap(s, k))
  {
  }

  lemma {:induction false} CloseDoneKeepsClose(s: State, k: nat)
    requires CloseInv(s) && k < |s.closers| && s.closers[k].ClosingDone?
    ensures CloseInv(DoCloseDone(s, k)) && DoCloseDone(s, k).panicked == s.panicked
  {
  }

  lemma {:induction false} CloseConnKeepsClose(s: State, k: nat)
    requires CloseInv(s) && k < |s.closers| && s.closers[k].ClosingConn?
    ensures CloseInv(s.(closers := s.closers[k := ClosingDone], connClosed := true))
  {
  }

  lemma {:induction false} WaitKeepsClose(s: State, k: nat)
    requires CloseInv(s) && k < |s.closers| && s.closers[k].Waiting?
    ensures CloseInv(s.(closers := s.closers[k := CloseReturned]))
  {
  }

  lemma {:induction false} CloseKeeps(s: State, k: nat)
    requires ChanInv(s) && CloseInv(s) && k < |s.closers| && s.closers[k] != CloseReturned
    ensures ChanInv(ApplyClose(s, k)) && CloseInv(ApplyClose(s, k)) && ApplyClose(s, k).panicked == s.panicked
  {
    SameChannelsKeep(s, ApplyClose(s, k));
    match s.closers[k]
    case Swapping => SwapKeepsClose(s, k);
    case ClosingConn => CloseConnKeepsClose(s, k);
    case ClosingDone => CloseDoneKeepsClose(s, k);
    case Waiting => WaitKeepsClose(s, k);
  }

  /** The whole safety invariant. */
  ghost predicate Safe(s: State) {
    !s.panicked && ChanInv(s) && CloseInv(s)
  }

  lemma {:induction false} SameCloseKeeps(s: State, s': State)
    requires CloseInv(s) && SameClose(s, s')
    ensures CloseInv(s')
  {
  }

  lemma {:induction false} CallKeepsSafe(c: Config, s: State, t: nat, call: CallStep)
    requires Safe(s) && t < |s.calls| && CallEnabled(s, t, call)
    ensures Safe(ApplyCall(c, s, t, call))
  {
    CallKeeps(c, s, t, call);
    SameCloseKeeps(s, ApplyCall(c, s, t, call));
  }

  lemma {:induction false} LoopKeepsSafe(c: Config, s: State, act: LoopStep)
    requires Safe(s) && LoopEnabled(c, s, act)
    ensures Safe(ApplyLoop(c, s, act))
  {
    LoopKeeps(c, s, act);
    SameCloseKeeps(s, ApplyLoop(c, s, act));
  }

  lemma {:induction false} EnvKeepsSafe(c: Config, s: State, env: EnvStep)
    requires Safe(s) && (env.Arrive? ==> s.loop.Reading?)
    ensures Safe(ApplyEnv(c, s, env))
  {
    EnvKeeps(c, s, env);
  }

  lemma {:induction false} CloseKeepsSafe(s: State, k: nat)
    requires Safe(s) && k < |s.closers| && s.closers[k] != CloseReturned
    ensures Safe(ApplyClose(s, k))
  {
    CloseKeeps(s, k);
  }

  lemma {:induction false} StepKeepsSafe(c: Config, s: State, step: Step)
    requires Safe(s) && Enabled(c, s, step)
    ensures Safe(Apply(c, s, step))
  {
    match step
    case Env(env) => EnvKeepsSafe(c, s, env);
    case Loop(act) => LoopKeepsSafe(c, s, act);
    case OfCall(t, call) => CallKeepsSafe(c, s, t, call);
    case OfClose(k) => CloseKeepsSafe(s, k);
  }

  /** Every state of every run is safe: no panic, and the lock, the map and the owners agree. */
  lemma {:induction false} RunIsSafe(c: Config, run: seq<State>, i: nat)
    requires IsRun(c, run) && i < |run|
    ensures Safe(run[i])
  {
    if i > 0 {
      RunIsSafe(c, run, i - 1);
      assert Next(c, run[i - 1], run[i]);
      var step :| Enabled(c, run[i - 1], step) && run[i] == Apply(c, run[i - 1], step);
      StepKeepsSafe(c, run[i - 1], step);
    }
  }

  /**
   In every interleaving, whatever the transaction IDs: nothing is closed twice and nothing is sent on a
   closed channel, a response channel is open exactly while it is registered, an attempt's `done` is
   closed exactly when its owner has asked for the entry to be dropped, and the lock has one holder.
   */
  lemma {:induction false} ChannelSafety(c: Config, run: seq<State>, i: nat)
    requires IsRun(c, run) && i < |run|
    ensures !run[i].panicked
    ensures forall e :: 0 <= e < |run[i].entries| ==>
      (run[i].entries[e].open <==>
        run[i].entries[e].xid in run[i].pending && run[i].pending[run[i].entries[e].xid] == e)
    ensures forall t :: 0 <= t < |run[i].calls| && HasEntry(run[i].calls[t].pc) ==>
      Attached(run[i], t, run[i].calls[t].pc.e)
    ensures forall t :: 0 <= t < |run[i].calls| && run[i].calls[t].pc.HoldsLock() ==>
      !run[i].loop.HoldsLock() && forall u :: 0 <= u < |run[i].calls| && run[i].calls[u].pc.HoldsLock() ==> u == t
  {
    RunIsSafe(c, run, i);
  }
}
