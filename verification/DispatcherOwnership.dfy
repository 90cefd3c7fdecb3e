/**
 `cancel` looks its entry up by transaction ID alone. So a call's channel is closed
 only on the call's own behalf when calls on one transaction ID do not overlap
 (`OwnChannel`), and may be closed under its feet when they do (`OverlapLosesChannel`).
 */
module DispatcherOwnership {
  import opened Wire
  import opened Dispatcher
  import opened DispatcherSafety

  /** At any time at most one call that has not returned uses a given transaction ID. */
  ghost predicate NoOverlap(s: State) {
    forall t, u :: 0 <= t < u < |s.calls| && s.calls[t].xid == s.calls[u].xid ==>
      s.calls[t].pc.Returned? || s.calls[u].pc.Returned?
  }

  /** The call ends because of a nil: it returns it, or its matcher could not bear it. */
  predicate SawNil(pc: CallPc) {
    (pc.Cancelling? || pc.WantCancel? || pc.InCancel? || pc.Returned?) && (pc.out.NilResponse? || pc.out.MatcherPanic?)
  }

  ghost predicate Own(s: State, t: nat)
    requires t < |s.calls|
  {
    !SawNil(s.calls[t].pc)
    && forall e: nat :: s.calls[t].pc.Awaiting(e) ==> e < |s.entries| && s.entries[e].open
  }

  ghost predicate OwnInv(s: State) {
    forall t :: 0 <= t < |s.calls| ==> Own(s, t)
  }

  /** A channel that `Drop` closes belongs to the only active call on that transaction. */
  lemma {:induction false} DropSparesOthers(s: State, x: Xid, u: nat)
    requires Safe(s) && u < |s.calls| && Own(s, u)
    requires x in s.pending ==> forall e: nat :: s.calls[u].pc.Awaiting(e) ==> e != s.pending[x]
    requires x in s.pending ==> s.pending[x] < |s.entries|
    ensures Drop(s, x).calls == s.calls && Own(Drop(s, x), u)
  {
  }

  /** The step is a `cancel` that finds, under its transaction ID, an entry whose owner still wants it. */
  ghost predicate Steals(s: State, step: Step) {
    step.OfCall? && step.call.Cancel? && step.t < |s.calls|
    && var x := s.calls[step.t].xid;
    x in s.pending && s.pending[x] < |s.entries| && !s.entries[s.pending[x]].done
  }

  lemma {:induction false} CancelKeepsOwn(s: State, t: nat)
    requires Safe(s) && OwnInv(s) && t < |s.calls| && CallEnabled(s, t, Cancel) && !Steals(s, OfCall(t, Cancel))
    ensures OwnInv(DoCancel(s, t))
  {
    var x := s.calls[t].xid;
    var s' := DoCancel(s, t);
    assert Own(s, t);
    forall u | 0 <= u < |s'.calls|
      ensures Own(s', u)
    {
      if u != t {
        assert Own(s, u);
        if HasEntry(s.calls[u].pc) {
          assert Attached(s, u, s.calls[u].pc.e);
        }
        DropSparesOthers(s, x, u);
      }
    }
  }

  lemma {:induction false} StealBreaksOwn(s: State, t: nat)
    requires Safe(s) && t < |s.calls| && CallEnabled(s, t, Cancel) && Steals(s, OfCall(t, Cancel))
    ensures !OwnInv(DoCancel(s, t))
  {
    var e := s.pending[s.calls[t].xid];
    var u := s.entries[e].owner;
    assert Attached(s, u, e);
    assert Attached(s, t, s.calls[t].pc.e);
    var s' := DoCancel(s, t);
    assert u != t && s'.calls[u] == s.calls[u];
    assert s'.calls[u].pc.Awaiting(e) && !s'.entries[e].open;
    assert !Own(s', u);
  }

  lemma {:induction false} SeesDoneKeepsOwn(c: Config, s: State)
    requires Safe(s) && OwnInv(s) && LoopEnabled(c, s, LoopSeesDone)
    ensures OwnInv(ApplyLoop(c, s, LoopSeesDone))
  {
    var s' := ApplyLoop(c, s, LoopSeesDone);
    forall u | 0 <= u < |s'.calls|
      ensures Own(s', u)
    {
      assert Own(s, u);
      if HasEntry(s.calls[u].pc) {
        assert Attached(s, u, s.calls[u].pc.e);
      }
    }
  }

  /** A step that closes no channel and only moves call `t`, to a place that claims no more. */
  lemma {:induction false} QuietKeepsOwn(s: State, s': State)
    requires OwnInv(s) && |s'.entries| >= |s.entries| && |s'.calls| == |s.calls|
    requires forall e :: 0 <= e < |s.entries| && s.entries[e].open ==> s'.entries[e].open
    requires forall t :: 0 <= t < |s.calls| && s'.calls[t].pc != s.calls[t].pc ==> Own(s', t)
    ensures OwnInv(s')
  {
    forall u | 0 <= u < |s'.calls|
      ensures Own(s', u)
    {
      assert Own(s, u);
    }
  }

  lemma {:induction false} RegisterKeepsOwn(s: State, t: nat)
    requires OwnInv(s) && t < |s.calls| && CallEnabled(s, t, Register)
    ensures OwnInv(DoRegister(s, t))
  {
    QuietKeepsOwn(s, DoRegister(s, t));
  }

  lemma {:induction false} MoveKeepsOwn(c: Config, s: State, t: nat, move: Move)
    requires OwnInv(s) && t < |s.calls| && MoveEnabled(s, s.calls[t].pc, move)
    ensures OwnInv(Goto(s, t, MoveTo(c, s, s.calls[t].pc, move)))
  {
    var pc := s.calls[t].pc;
    assert Own(s, t);
    assert forall e: nat :: MoveTo(c, s, pc, move).Awaiting(e) ==> pc.Awaiting(e);
    QuietKeepsOwn(s, Goto(s, t, MoveTo(c, s, pc, move)));
  }

  lemma {:induction false} AcquireKeepsOwn(s: State, t: nat)
    requires OwnInv(s) && t < |s.calls| && CallEnabled(s, t, Acquire)
    ensures OwnInv(DoAcquire(s, t))
  {
    assert Own(s, t);
    QuietKeepsOwn(s, DoAcquire(s, t));
  }

  lemma {:induction false} CloseEntryDoneKeepsOwn(s: State, t: nat)
    requires OwnInv(s) && t < |s.calls| && CallEnabled(s, t, CloseEntryDone)
    ensures OwnInv(DoCloseEntryDone(s, t))
  {
    assert Own(s, t);
    QuietKeepsOwn(s, DoCloseEntryDone(s, t));
  }

  /** The channel is still open, so what is received is a message. */
  lemma {:induction false} ReceiveKeepsOwn(s: State, t: nat)
    requires OwnInv(s) && t < |s.calls| && CallEnabled(s, t, Receive)
    ensures OwnInv(DoReceive(s, t))
  {
    assert Own(s, t) && s.calls[t].pc.Awaiting(s.calls[t].pc.e);
    QuietKeepsOwn(s, DoReceive(s, t));
  }

  lemma {:induction false} CallKeepsOwn(c: Config, s: State, t: nat, call: CallStep)
    requires Safe(s) && OwnInv(s) && t < |s.calls| && CallEnabled(s, t, call) && !Steals(s, OfCall(t, call))
    ensures OwnInv(ApplyCall(c, s, t, call))
  {
    match call
    case Local(move) => MoveKeepsOwn(c, s, t, move);
    case Acquire => AcquireKeepsOwn(s, t);
    case Register => RegisterKeepsOwn(s, t);
    case Receive => ReceiveKeepsOwn(s, t);
    case CloseEntryDone => CloseEntryDoneKeepsOwn(s, t);
    case Cancel => CancelKeepsOwn(s, t);
  }

  lemma {:induction false} LoopKeepsOwn(c: Config, s: State, act: LoopStep)
    requires Safe(s) && OwnInv(s) && LoopEnabled(c, s, act)
    ensures OwnInv(ApplyLoop(c, s, act))
  {
    if act.LoopSeesDone? {
      SeesDoneKeepsOwn(c, s);
    } else {
      if act.Handoff? {
        assert Own(s, act.t);
      }
      QuietKeepsOwn(s, ApplyLoop(c, s, act));
    }
  }

  /** The exact condition, in every state and for every step: channels stay with their owners unless the step steals. */
  lemma {:induction false} StepKeepsOwn(c: Config, s: State, step: Step)
    requires Safe(s) && OwnInv(s) && Enabled(c, s, step)
    ensures OwnInv(Apply(c, s, step)) <==> !Steals(s, step)
  {
    match step
    case Env(env) =>
      if env.Begin? {
        forall u | 0 <= u < |s.calls|
          ensures Own(Apply(c, s, step), u)
        {
          assert Own(s, u);
        }
      } else {
        QuietKeepsOwn(s, ApplyEnv(c, s, env));
      }
    case Loop(act) => LoopKeepsOwn(c, s, act);
    case OfCall(t, call) =>
      if Steals(s, step) {
        StealBreaksOwn(s, t);
      } else {
        CallKeepsOwn(c, s, t, call);
      }
    case OfClose(k) => QuietKeepsOwn(s, ApplyClose(s, k));
  }

  lemma {:induction false} StealNeedsOverlap(c: Config, s: State, step: Step)
    requires Safe(s) && Enabled(c, s, step) && Steals(s, step)
    ensures !NoOverlap(s)
  {
    var t, e := step.t, s.pending[s.calls[step.t].xid];
    assert Attached(s, t, s.calls[t].pc.e);
    assert Attached(s, s.entries[e].owner, e);
    assert s.entries[e].owner != t;
  }

  /**
   Over every run in which calls on one transaction ID do not overlap, an attempt's channel stays open
   until the attempt itself asks for it to be dropped, so no call ever receives nil.
   */
  lemma {:induction false} OwnChannel(c: Config, run: seq<State>, i: nat)
    requires IsRun(c, run) && i < |run|
    requires forall j :: 0 <= j < |run| ==> NoOverlap(run[j])
    ensures OwnInv(run[i])
  {
    if i > 0 {
      OwnChannel(c, run, i - 1);
      RunIsSafe(c, run, i - 1);
      assert Next(c, run[i - 1], run[i]);
      var step :| Enabled(c, run[i - 1], step) && run[i] == Apply(c, run[i - 1], step);
      if Steals(run[i - 1], step) {
        StealNeedsOverlap(c, run[i - 1], step);
      }
      StepKeepsOwn(c, run[i - 1], step);
    }
  }

  /** A run together with its steps. */
  ghost predicate IsRunBy(c: Config, run: seq<State>, steps: seq<Step>) {
    && |run| == |steps| + 1 && run[0] == INITIAL
    && forall i :: 0 <= i < |steps| ==> Enabled(c, run[i], steps[i]) && run[i + 1] == Apply(c, run[i], steps[i])
  }

  lemma {:induction false} RunByIsRun(c: Config, run: seq<State>, steps: seq<Step>)
    requires IsRunBy(c, run, steps)
    ensures IsRun(c, run)
  {
    forall i | 0 < i < |run|
      ensures Next(c, run[i - 1], run[i])
    {
      assert Enabled(c, run[i - 1], steps[i - 1]) && run[i] == Apply(c, run[i - 1], steps[i - 1]);
    }
  }

  lemma {:induction false} OwnUntilStolen(c: Config, run: seq<State>, steps: seq<Step>, i: nat)
    requires IsRunBy(c, run, steps) && i < |run|
    requires forall j :: 0 <= j < i ==> !Steals(run[j], steps[j])
    ensures OwnInv(run[i])
  {
    if i > 0 {
      OwnUntilStolen(c, run, steps, i - 1);
      RunByIsRun(c, run, steps);
      RunIsSafe(c, run, i - 1);
      StepKeepsOwn(c, run[i - 1], steps[i - 1]);
    }
  }

  /** For whole runs: every channel stays with its owner all along exactly when no step steals. */
  lemma {:induction false} RunKeepsOwnIff(c: Config, run: seq<State>, steps: seq<Step>)
    requires IsRunBy(c, run, steps)
    ensures (forall i :: 0 <= i < |run| ==> OwnInv(run[i])) <==> forall j :: 0 <= j < |steps| ==> !Steals(run[j], steps[j])
  {
    if forall j :: 0 <= j < |steps| ==> !Steals(run[j], steps[j]) {
      forall i | 0 <= i < |run|
        ensures OwnInv(run[i])
      {
        OwnUntilStolen(c, run, steps, i);
      }
    } else if forall i :: 0 <= i < |run| ==> OwnInv(run[i]) {
      var j :| 0 <= j < |steps| && Steals(run[j], steps[j]);
      RunByIsRun(c, run, steps);
      RunIsSafe(c, run, j);
      assert OwnInv(run[j]) && OwnInv(run[j + 1]);
      StepKeepsOwn(c, run[j], steps[j]);
    }
  }

  // The overlap that breaks it.

  lemma {:induction false} Advance(c: Config, run: seq<State>, step: Step) returns (run': seq<State>)
    requires IsRun(c, run) && Enabled(c, run[|run| - 1], step)
    ensures IsRun(c, run') && run'[|run'| - 1] == Apply(c, run[|run| - 1], step)
  {
    run' := run + [Apply(c, run[|run| - 1], step)];
    forall i | 0 < i < |run'|
      ensures Next(c, run'[i - 1], run'[i])
    {
      if i < |run| {
        assert Next(c, run[i - 1], run[i]);
      }
    }
  }

  const CONFIG := Config(None, 5, 3)
  const REPLY := Msg(OPCODE_BOOT_REPLY, 7, [], [])
  ghost const ANY: iset<Msg> := iset m: Msg | true

  ghost function Snapshot(arrivals: seq<Msg>, entries: seq<Entry>, pending: map<Xid, nat>, calls: seq<Call>): State {
    INITIAL.(arrivals := arrivals, entries := entries, pending := pending, calls := calls)
  }

  ghost function First(pc: CallPc): Call {
    Call(7, ANY, AcceptsNil, pc)
  }

  ghost function Second(onNil: NilVerdict, pc: CallPc): Call {
    Call(7, ANY, onNil, pc)
  }

  /** Call 0 times out and closes its `done`, but does not have the lock yet. */
  lemma {:induction false} FirstCallTimesOut() returns (run: seq<State>)
    ensures IsRun(CONFIG, run)
    ensures run[|run| - 1] ==
      Snapshot([], [Entry(7, 0, true, true, [], [])], map[7 := 0], [First(WantCancel(0, 0, DeadlineExceeded))])
  {
    run := [INITIAL];
    run := Advance(CONFIG, run, Env(Begin(7, ANY, AcceptsNil)));
    run := Advance(CONFIG, run, OfCall(0, Local(Attempt)));
    run := Advance(CONFIG, run, OfCall(0, Acquire));
    run := Advance(CONFIG, run, OfCall(0, Register));
    run := Advance(CONFIG, run, OfCall(0, Local(WriteOk)));
    run := Advance(CONFIG, run, OfCall(0, Local(TimesOut)));
    run := Advance(CONFIG, run, OfCall(0, CloseEntryDone));
  }

  /** A late reply makes the receive loop drop the entry of call 0, which frees the transaction ID. */
  lemma {:induction false} LoopDropsFirst() returns (run: seq<State>)
    ensures IsRun(CONFIG, run)
    ensures run[|run| - 1] ==
      Snapshot([REPLY], [Entry(7, 0, true, false, [], [])], map[], [First(WantCancel(0, 0, DeadlineExceeded))])
  {
    run := FirstCallTimesOut();
    run := Advance(CONFIG, run, Env(Arrive(REPLY)));
    run := Advance(CONFIG, run, Loop(LoopLock));
    run := Advance(CONFIG, run, Loop(LoopLookup));
    run := Advance(CONFIG, run, Loop(LoopSeesDone));
    run := Advance(CONFIG, run, Loop(LoopUnlock));
  }

  /** Call 1 takes the freed ID and waits on a channel of its own. */
  lemma {:induction false} SecondCallWaits(onNil: NilVerdict) returns (run: seq<State>)
    ensures IsRun(CONFIG, run)
    ensures run[|run| - 1] ==
      Snapshot([REPLY], [Entry(7, 0, true, false, [], []), Entry(7, 1, false, true, [], [])], map[7 := 1],
               [First(WantCancel(0, 0, DeadlineExceeded)), Second(onNil, Receiving(0, 1))])
  {
    run := LoopDropsFirst();
    run := Advance(CONFIG, run, Env(Begin(7, ANY, onNil)));
    run := Advance(CONFIG, run, OfCall(1, Local(Attempt)));
    run := Advance(CONFIG, run, OfCall(1, Acquire));
    run := Advance(CONFIG, run, OfCall(1, Register));
    run := Advance(CONFIG, run, OfCall(1, Local(WriteOk)));
  }

  /** The `cancel` of call 0 closes the channel that call 1 waits on. */
  lemma {:induction false} ChannelIsStolen(onNil: NilVerdict) returns (run: seq<State>)
    ensures IsRun(CONFIG, run)
    ensures run[|run| - 1] ==
      Snapshot([REPLY], [Entry(7, 0, true, false, [], []), Entry(7, 1, false, false, [], [])], map[],
               [First(Retrying(1)), Second(onNil, Receiving(0, 1))])
  {
    run := SecondCallWaits(onNil);
    run := Advance(CONFIG, run, OfCall(0, Acquire));
    run := Advance(CONFIG, run, OfCall(0, Cancel));
  }

  /**
   With two overlapping calls on transaction 7 the ownership claim is false: call 1 receives nil. A
   matcher that accepts it makes the call return it as its response, and one that cannot bear nil panics.
   */
  lemma {:induction false} OverlapLosesChannel(onNil: NilVerdict) returns (run: seq<State>)
    requires !onNil.RejectsNil?
    ensures IsRun(CONFIG, run) && |run[|run| - 1].calls| == 2
    ensures run[|run| - 1].calls[1].pc == Returned(if onNil.AcceptsNil? then NilResponse else MatcherPanic)
  {
    run := ChannelIsStolen(onNil);
    run := Advance(CONFIG, run, OfCall(1, Receive));
    run := Advance(CONFIG, run, OfCall(1, CloseEntryDone));
    run := Advance(CONFIG, run, OfCall(1, Acquire));
    run := Advance(CONFIG, run, OfCall(1, Cancel));
  }
}
