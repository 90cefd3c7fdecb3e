/**
 What `Close` brings about: once it has closed the connection and `done`, everything in
 flight has a bounded number of steps left that change anything, and can always be
 brought to its end. A matcher that rejects nil, on a channel that an overlapping call
 closed, can spin in between; `CloseTerminatesIff` says exactly when.
 */
module DispatcherShutdown {
  import opened Wire
  import opened Dispatcher
  import opened DispatcherSafety
  import opened DispatcherDelivery
  import opened DispatcherOwnership
  import opened DispatcherProgress
  import opened DispatcherSpin

  function CallWeight(pc: CallPc): nat {
    match pc
    case Retrying(_) => 7
    case WantSend(_) => 6
    case InSend(_) => 5
    case Writing(_, _) => 4
    case Receiving(_, _) => 11
    case Cancelling(_, _, out) => if out.DeadlineExceeded? then 10 else 3
    case WantCancel(_, _, out) => if out.DeadlineExceeded? then 9 else 2
    case InCancel(_, _, out) => if out.DeadlineExceeded? then 8 else 1
    case Returned(_) => 0
  }

  function LoopWeight(pc: LoopPc): nat {
    match pc
    case WantLock(_) => 6
    case Locked(_) => 5
    case Selecting(_, _) => 4
    case Unlocking => 2
    case Reading => 1
    case Exited => 0
  }

  function CloseWeight(pc: ClosePc): nat {
    match pc
    case Swapping => 4
    case ClosingConn => 3
    case ClosingDone => 2
    case Waiting => 1
    case CloseReturned => 0
  }

  function Sum(xs: seq<nat>): nat {
    if xs == [] then 0 else xs[0] + Sum(xs[1..])
  }

  lemma {:induction false} SumUpdate(xs: seq<nat>, i: nat, x: nat)
    requires i < |xs|
    ensures Sum(xs[i := x]) + xs[i] == Sum(xs) + x
  {
    if i == 0 {
      assert xs[0 := x] == [x] + xs[1..];
    } else {
      assert xs[i := x][1..] == xs[1..][i - 1 := x];
      SumUpdate(xs[1..], i - 1, x);
    }
  }

  lemma {:induction false} SumAppend(xs: seq<nat>, x: nat)
    ensures Sum(xs + [x]) == Sum(xs) + x
  {
    if xs == [] {
      assert xs + [x] == [x];
    } else {
      assert (xs + [x])[1..] == xs[1..] + [x];
      SumAppend(xs[1..], x);
    }
  }

  ghost function CallWeights(calls: seq<Call>): seq<nat> {
    seq(|calls|, t requires 0 <= t < |calls| => CallWeight(calls[t].pc))
  }

  ghost function Queued(entries: seq<Entry>): seq<nat> {
    seq(|entries|, e requires 0 <= e < |entries| => |entries[e].buf|)
  }

  ghost function CloseWeights(closers: seq<ClosePc>): seq<nat> {
    seq(|closers|, k requires 0 <= k < |closers| => CloseWeight(closers[k]))
  }

  /** How many more steps the calls in flight, the loop and the closers can make once the client is down. */
  ghost function Remaining(s: State): nat {
    LoopWeight(s.loop) + Sum(CallWeights(s.calls)) + Sum(Queued(s.entries)) + Sum(CloseWeights(s.closers))
  }

  lemma {:induction false} CallsUpdate(calls: seq<Call>, t: nat, call: Call)
    requires t < |calls|
    ensures Sum(CallWeights(calls[t := call])) + CallWeight(calls[t].pc) == Sum(CallWeights(calls)) + CallWeight(call.pc)
  {
    assert CallWeights(calls[t := call]) == CallWeights(calls)[t := CallWeight(call.pc)];
    SumUpdate(CallWeights(calls), t, CallWeight(call.pc));
  }

  lemma {:induction false} EntriesUpdate(entries: seq<Entry>, e: nat, x: Entry)
    requires e < |entries|
    ensures Sum(Queued(entries[e := x])) + |entries[e].buf| == Sum(Queued(entries)) + |x.buf|
  {
    assert Queued(entries[e := x]) == Queued(entries)[e := |x.buf|];
    SumUpdate(Queued(entries), e, |x.buf|);
  }

  lemma {:induction false} EntriesAppend(entries: seq<Entry>, x: Entry)
    ensures Sum(Queued(entries + [x])) == Sum(Queued(entries)) + |x.buf|
  {
    assert Queued(entries + [x]) == Queued(entries) + [|x.buf|];
    SumAppend(Queued(entries), |x.buf|);
  }

  lemma {:induction false} CloserDecreases(s: State, k: nat)
    requires Safe(s) && k < |s.closers| && s.closers[k] != CloseReturned
    ensures Remaining(ApplyClose(s, k)) < Remaining(s)
  {
    CloseKeeps(s, k);
    var s' := ApplyClose(s, k);
    assert CloseWeights(s'.closers) == CloseWeights(s.closers)[k := CloseWeight(s'.closers[k])];
    SumUpdate(CloseWeights(s.closers), k, CloseWeight(s'.closers[k]));
  }

  /** Dropping an entry from the map changes nothing that is counted. */
  lemma {:induction false} DropWeight(s: State, x: Xid)
    requires x in s.pending ==> s.pending[x] < |s.entries|
    ensures Sum(Queued(Drop(s, x).entries)) == Sum(Queued(s.entries))
    ensures Drop(s, x).calls == s.calls && Drop(s, x).loop == s.loop && Drop(s, x).closers == s.closers
  {
    if x in s.pending {
      var e := s.pending[x];
      EntriesUpdate(s.entries, e, s.entries[e].(open := false));
    }
  }

  lemma {:induction false} TakeWeight(s: State, t: nat, e: nat, m: nat, buf: seq<nat>)
    requires t < |s.calls| && s.calls[t].pc.Receiving? && e < |s.entries| && m < |s.arrivals|
    ensures var s' := TakeMsg(s, t, e, m, buf);
      && Sum(CallWeights(s'.calls)) <= Sum(CallWeights(s.calls)) && s'.closers == s.closers && s'.loop == s.loop
      && Sum(Queued(s'.entries)) + |s.entries[e].buf| == Sum(Queued(s.entries)) + |buf|
  {
    var x := s.entries[e];
    CallsUpdate(s.calls, t, s.calls[t].(pc := Judge(s, t, e, m)));
    EntriesUpdate(s.entries, e, x.(taken := x.taken + [m], buf := buf));
  }

  lemma {:induction false} RegisterDecreases(s: State, t: nat)
    requires t < |s.calls| && CallEnabled(s, t, Register)
    ensures Remaining(DoRegister(s, t)) < Remaining(s)
  {
    EntriesAppend(s.entries, Entry(s.calls[t].xid, t, false, true, [], []));
    CallsUpdate(s.calls, t, DoRegister(s, t).calls[t]);
  }

  /** A receive brings the end nearer unless it spins, and then it changes nothing at all. */
  lemma {:induction false} ReceiveDecreasesIff(s: State, t: nat)
    requires t < |s.calls| && CallEnabled(s, t, Receive)
    ensures Remaining(DoReceive(s, t)) < Remaining(s) <==> !SpinsAt(s, t)
    ensures SpinsAt(s, t) ==> DoReceive(s, t) == s
  {
    var pc := s.calls[t].pc;
    var x := s.entries[pc.e];
    if x.buf != [] {
      TakeWeight(s, t, pc.e, x.buf[0], x.buf[1..]);
    } else if s.calls[t].onNil.RejectsNil? {
      assert s.calls[t := s.calls[t]] == s.calls;
    } else {
      CallsUpdate(s.calls, t, s.calls[t].(pc := JudgeNil(s.calls[t])));
    }
  }

  lemma {:induction false} CancellingIsNotDone(s: State, t: nat)
    requires Safe(s) && t < |s.calls| && s.calls[t].pc.Cancelling?
    ensures s.calls[t].pc.e < |s.entries| && !s.entries[s.calls[t].pc.e].done
  {
    assert Attached(s, t, s.calls[t].pc.e);
  }

  lemma {:induction false} CloseEntryDoneDecreases(s: State, t: nat)
    requires Safe(s) && t < |s.calls| && CallEnabled(s, t, CloseEntryDone)
    ensures Remaining(DoCloseEntryDone(s, t)) < Remaining(s)
  {
    var pc := s.calls[t].pc;
    CancellingIsNotDone(s, t);
    EntriesUpdate(s.entries, pc.e, s.entries[pc.e].(done := true));
    CallsUpdate(s.calls, t, s.calls[t].(pc := WantCancel(pc.i, pc.e, pc.out)));
  }

  lemma {:induction false} CancelDecreases(s: State, t: nat)
    requires t < |s.calls| && CallEnabled(s, t, Cancel)
    ensures Remaining(DoCancel(s, t)) < Remaining(s)
  {
    DropWeight(s, s.calls[t].xid);
    CallsUpdate(s.calls, t, s.calls[t].(pc := AfterAttempt(s.calls[t].pc)));
  }

  lemma {:induction false} CallDecreases(c: Config, s: State, t: nat, call: CallStep)
    requires Safe(s) && Down(s) && t < |s.calls| && CallEnabled(s, t, call) && !call.Receive?
    ensures Remaining(ApplyCall(c, s, t, call)) < Remaining(s)
  {
    match call
    case Local(move) => MoveDecreases(c, s, t, move);
    case Acquire => CallsUpdate(s.calls, t, DoAcquire(s, t).calls[t]);
    case Register => RegisterDecreases(s, t);
    case CloseEntryDone => CloseEntryDoneDecreases(s, t);
    case Cancel => CancelDecreases(s, t);
  }

  lemma {:induction false} MoveDecreases(c: Config, s: State, t: nat, move: Move)
    requires Down(s) && t < |s.calls| && MoveEnabled(s, s.calls[t].pc, move)
    ensures Remaining(Goto(s, t, MoveTo(c, s, s.calls[t].pc, move))) < Remaining(s)
  {
    CallsUpdate(s.calls, t, s.calls[t].(pc := MoveTo(c, s, s.calls[t].pc, move)));
  }

  lemma {:induction false} SendDecreases(s: State)
    requires Safe(s) && LoopOnEntry(s)
    ensures Remaining(DoSend(s)) < Remaining(s)
  {
    SelectedIsOpen(s);
    var x := s.entries[s.loop.e];
    EntriesUpdate(s.entries, s.loop.e, x.(buf := x.buf + [s.loop.msg]));
  }

  lemma {:induction false} SeesDoneDecreases(s: State)
    requires Safe(s) && LoopOnEntry(s)
    ensures Remaining(DoSeesDone(s)) < Remaining(s)
  {
    EntriesUpdate(s.entries, s.loop.e, s.entries[s.loop.e].(open := false));
  }

  lemma {:induction false} HandoffDecreases(s: State, t: nat)
    requires LoopOnEntry(s) && t < |s.calls| && s.calls[t].pc.Receiving? && s.entries[s.loop.e].buf == []
    ensures Remaining(DoHandoff(s, t)) < Remaining(s)
  {
    TakeWeight(s, t, s.loop.e, s.loop.msg, []);
  }

  lemma {:induction false} LoopDecreases(c: Config, s: State, act: LoopStep)
    requires Safe(s) && LoopEnabled(c, s, act)
    ensures Remaining(ApplyLoop(c, s, act)) < Remaining(s)
  {
    match act
    case LoopSeesDone => SeesDoneDecreases(s);
    case LoopSends => SendDecreases(s);
    case Handoff(t) => HandoffDecreases(s, t);
    case ReadFails => LoopMoveDecreases(s, s.(loop := Exited));
    case LoopLock => LoopMoveDecreases(s, s.(lock := Some(LoopHolds), loop := Locked(s.loop.msg)));
    case LoopLookup => LoopMoveDecreases(s, DoLookup(s));
    case LoopUnlock => LoopMoveDecreases(s, s.(lock := None, loop := Reading));
  }

  lemma {:induction false} LoopMoveDecreases(s: State, s': State)
    requires s'.calls == s.calls && s'.entries == s.entries && s'.closers == s.closers
    requires LoopWeight(s'.loop) < LoopWeight(s.loop)
    ensures Remaining(s') < Remaining(s)
  {
  }

  /**
   Exactly which steps bring the end nearer once the client is down: all but the receives of a nil that
   the matcher rejects, which change nothing at all.
   */
  lemma {:induction false} StepDecreasesIff(c: Config, s: State, step: Step)
    requires Safe(s) && Down(s) && Enabled(c, s, step) && !step.Env?
    ensures Remaining(Apply(c, s, step)) < Remaining(s) <==> !Spins(s, step)
    ensures Spins(s, step) ==> Apply(c, s, step) == s
  {
    match step
    case Loop(act) => LoopDecreases(c, s, act);
    case OfCall(t, call) =>
      if call.Receive? {
        ReceiveDecreasesIff(s, t);
      } else {
        CallDecreases(c, s, t, call);
      }
    case OfClose(k) => CloserDecreases(s, k);
  }

  lemma {:induction false} OwnStepKeeps(c: Config, s: State, s': State)
    requires Sound(c, s) && Down(s) && OwnNext(c, s, s')
    ensures Sound(c, s') && Down(s') && (s' == s || Remaining(s') < Remaining(s))
    ensures CanSpin(s') ==> CanSpin(s)
  {
    var step: Step :| !step.Env? && Enabled(c, s, step) && s' == Apply(c, s, step);
    StepKeepsSound(c, s, step);
    StepKeepsDown(c, s, step);
    StepDecreasesIff(c, s, step);
    if CanSpin(s') {
      SpinWasPossible(c, s, step);
    }
  }

  /** How many steps of the path change something. */
  ghost function Changes(path: seq<State>): nat {
    if |path| < 2 then 0
    else Changes(path[..|path| - 1]) + if path[|path| - 1] == path[|path| - 2] then 0 else 1
  }

  lemma {:induction false} ScheduleCounts(c: Config, path: seq<State>)
    requires Schedule(c, path) && Sound(c, path[0]) && Down(path[0])
    ensures var s := path[|path| - 1]; Sound(c, s) && Down(s) && Changes(path) + Remaining(s) <= Remaining(path[0])
    ensures CanSpin(path[|path| - 1]) ==> CanSpin(path[0])
    ensures !CanSpin(path[0]) ==> Changes(path) == |path| - 1
  {
    if |path| > 1 {
      var before, s, s' := path[..|path| - 1], path[|path| - 2], path[|path| - 1];
      ScheduleWithoutLast(c, path, before, s, s');
      ScheduleCounts(c, before);
      OwnStepKeeps(c, s, s');
      if s' == s {
        UnchangedSpins(c, s);
      }
    }
  }

  lemma {:induction false} ScheduleWithoutLast(c: Config, path: seq<State>, before: seq<State>, s: State, s': State)
    requires Schedule(c, path) && |path| > 1 && before == path[..|path| - 1]
    requires s == path[|path| - 2] && s' == path[|path| - 1]
    ensures Schedule(c, before) && before[0] == path[0] && before[|before| - 1] == s && OwnNext(c, s, s')
    ensures Changes(path) == Changes(before) + if s' == s then 0 else 1
  {
    assert OwnNext(c, path[|path| - 2], path[|path| - 1]);
    forall i | 0 < i < |before|
      ensures OwnNext(c, before[i - 1], before[i])
    {
      assert OwnNext(c, path[i - 1], path[i]);
    }
  }

  /** Only a spin leaves everything as it was. */
  lemma {:induction false} UnchangedSpins(c: Config, s: State)
    requires Sound(c, s) && Down(s) && OwnNext(c, s, s)
    ensures CanSpin(s)
  {
    var step: Step :| !step.Env? && Enabled(c, s, step) && s == Apply(c, s, step);
    StepDecreasesIff(c, s, step);
    SpinningCanSpin(s, step.t);
  }

  /** An entry is in the map only while its owner is at work on it. */
  lemma {:induction false} PendingOwnerIsActive(s: State, x: Xid)
    requires Safe(s) && x in s.pending
    ensures var t := s.entries[s.pending[x]].owner; t < |s.calls| && !s.calls[t].pc.Returned?
  {
    assert Attached(s, s.entries[s.pending[x]].owner, s.pending[x]);
  }

  /** Everything has come to its end. */
  ghost predicate Finished(s: State) {
    && s.loop.Exited? && s.pending == map[]
    && (forall t :: 0 <= t < |s.calls| ==> s.calls[t].pc.Returned?)
    && (forall k :: 0 <= k < |s.closers| ==> s.closers[k].CloseReturned?)
  }

  lemma {:induction false} RestingIsFinished(s: State)
    requires Safe(s) && Down(s) && Resting(s)
    ensures Finished(s)
  {
    forall t | 0 <= t < |s.calls|
      ensures s.calls[t].pc.Returned?
    {
      assert Idle(s, t);
    }
    if x :| x in s.pending {
      PendingOwnerIsActive(s, x);
    }
  }

  /** A state that is not finished has a step to a different state. */
  lemma {:induction false} UnfinishedCanChange(c: Config, s: State) returns (s': State)
    requires Sound(c, s) && Down(s) && !Finished(s)
    ensures OwnNext(c, s, s') && s' != s
  {
    if Resting(s) {
      RestingIsFinished(s);
    }
    SoundCanStep(c, s);
    var step :| Proper(s, step) && Enabled(c, s, step);
    StepDecreasesIff(c, s, step);
    s' := Apply(c, s, step);
  }

  /**
   Once `Close` has closed the connection and `done`, however many retries are allowed: in every schedule
   of what is in flight at most `Remaining` steps change anything, a state that no step changes has
   returned from every call and every `Close`, left the receive loop and emptied `pending`, and where no
   call can come to spin the schedule itself is that short.
   */
  lemma {:induction false} CloseTerminates(c: Config, run: seq<State>, i: nat, path: seq<State>)
    requires IsRun(c, run) && i < |run| && Down(run[i])
    requires Schedule(c, path) && path[0] == run[i]
    ensures Changes(path) <= Remaining(run[i])
    ensures var s := path[|path| - 1]; (forall s' :: OwnNext(c, s, s') ==> s' == s) ==> Finished(s)
    ensures !CanSpin(run[i]) ==> |path| <= Remaining(run[i]) + 1
  {
    RunIsSound(c, run, i);
    ScheduleCounts(c, path);
    var s := path[|path| - 1];
    if (forall s' :: OwnNext(c, s, s') ==> s' == s) && !Finished(s) {
      var s' := UnfinishedCanChange(c, s);
    }
  }

  /** Whatever happened before, there is a way to the end. */
  lemma {:induction false} CanFinish(c: Config, s: State) returns (path: seq<State>)
    requires Sound(c, s) && Down(s)
    ensures Schedule(c, path) && path[0] == s && Finished(path[|path| - 1])
    decreases Remaining(s)
  {
    if Finished(s) {
      path := [s];
    } else {
      var s' := UnfinishedCanChange(c, s);
      OwnStepKeeps(c, s, s');
      path := CanFinish(c, s');
      ScheduleFrom(c, s, path);
      path := [s] + path;
    }
  }

  // Spinning.

  /** A spin can be repeated as often as one likes. */
  lemma {:induction false} SpinForever(c: Config, s: State, t: nat, n: nat) returns (path: seq<State>)
    requires Sound(c, s) && Down(s) && t < |s.calls| && SpinsAt(s, t)
    ensures Schedule(c, path) && path[0] == s && |path| == n + 1
  {
    path := [s];
    if n > 0 {
      path := SpinForever(c, s, t, n - 1);
      StepDecreasesIff(c, s, OfCall(t, Receive));
      assert Enabled(c, s, OfCall(t, Receive)) && s == Apply(c, s, OfCall(t, Receive));
      ScheduleFrom(c, s, path);
      path := [s] + path;
    }
  }

  /** Where a call can come to spin, there are schedules of every length. */
  lemma {:induction false} CanSpinForever(c: Config, s: State, n: nat) returns (path: seq<State>)
    requires Sound(c, s) && Down(s) && CanSpin(s)
    ensures Schedule(c, path) && path[0] == s && |path| >= n + 1
    decreases Remaining(s)
  {
    var t: nat :| t < |s.calls| && Doomed(s, t);
    if SpinsAt(s, t) {
      path := SpinForever(c, s, t, n);
    } else {
      var step := DoomedAdvances(c, s, t);
      StepKeepsSound(c, s, step);
      StepKeepsDown(c, s, step);
      StepDecreasesIff(c, s, step);
      path := CanSpinForever(c, Apply(c, s, step), n);
      ScheduleFrom(c, s, path);
      path := [s] + path;
    }
  }

  /** The exact condition: the schedules after `Close` are bounded if and only if no call can come to spin. */
  lemma {:induction false} CloseTerminatesIff(c: Config, run: seq<State>, i: nat)
    requires IsRun(c, run) && i < |run| && Down(run[i])
    ensures (forall path :: Schedule(c, path) && path[0] == run[i] ==> |path| <= Remaining(run[i]) + 1)
            <==> !CanSpin(run[i])
  {
    RunIsSound(c, run, i);
    if CanSpin(run[i]) {
      var path := CanSpinForever(c, run[i], Remaining(run[i]) + 1);
    } else {
      forall path | Schedule(c, path) && path[0] == run[i]
        ensures |path| <= Remaining(run[i]) + 1
      {
        CloseTerminates(c, run, i, path);
      }
    }
  }

  /** Without overlap on a transaction ID, up to the moment in question, no call can come to spin. */
  lemma {:induction false} NoOverlapNoSpin(c: Config, run: seq<State>, i: nat)
    requires IsRun(c, run) && i < |run|
    requires forall j :: 0 <= j <= i ==> NoOverlap(run[j])
    ensures !CanSpin(run[i])
  {
    var past := run[..i + 1];
    assert IsRun(c, past) by {
      assert forall j :: 0 < j < |past| ==> Next(c, run[j - 1], run[j]);
    }
    OwnChannel(c, past, i);
    forall t | 0 <= t < |run[i].calls|
      ensures !Doomed(run[i], t)
    {
      assert Own(run[i], t);
    }
  }

  /** Nor does a call in flight whose matcher does not reject nil. */
  lemma {:induction false} TolerantNoSpin(s: State)
    requires forall t :: 0 <= t < |s.calls| && s.calls[t].onNil.RejectsNil? ==> s.calls[t].pc.Returned?
    ensures !CanSpin(s)
  {
  }

  /**
   The run that shows it: call 1 rejects nil, the overlapping call 0 closes its channel, and after `Close`
   there are schedules of every length.
   */
  lemma {:induction false} OverlapSpins(n: nat) returns (run: seq<State>, path: seq<State>)
    ensures IsRun(CONFIG, run) && Down(run[|run| - 1])
    ensures Schedule(CONFIG, path) && path[0] == run[|run| - 1] && |path| == n + 1
  {
    run := ChannelIsStolen(RejectsNil);
    run := Advance(CONFIG, run, Env(BeginClose));
    run := Advance(CONFIG, run, OfClose(0));
    run := Advance(CONFIG, run, OfClose(0));
    run := Advance(CONFIG, run, OfClose(0));
    var s := run[|run| - 1];
    RunIsSound(CONFIG, run, |run| - 1);
    assert SpinsAt(s, 1);
    path := SpinForever(CONFIG, s, 1, n);
  }
}
