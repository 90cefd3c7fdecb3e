/**
 What becomes of a call: which step gives an attempt its outcome, that every outcome but an exceeded
 deadline is the one the call returns, how many exceeded deadlines make it give up, and that a
 message its matcher accepts does get returned.
 */
module DispatcherOutcome {
  import opened Wire
  import opened Dispatcher
  import opened DispatcherSafety
  import opened DispatcherDelivery
  import opened DispatcherProgress

  // Where outcomes come from.

  /** Call `t` takes message `m` off the channel of its attempt: out of the buffer, or from the loop's hands. */
  ghost predicate Takes(s: State, step: Step, t: nat, m: nat)
    requires t < |s.calls|
  {
    var pc := s.calls[t].pc;
    && pc.Receiving? && pc.e < |s.entries| && m < |s.arrivals|
    && (|| (step == OfCall(t, Receive) && s.entries[pc.e].buf != [] && s.entries[pc.e].buf[0] == m)
        || (step == Loop(Handoff(t)) && s.loop.Selecting? && s.loop.msg == m))
  }

  /** Call `t` receives nil from a channel that is closed and drained. */
  ghost predicate TakesNil(s: State, step: Step, t: nat)
    requires t < |s.calls|
  {
    var pc := s.calls[t].pc;
    step == OfCall(t, Receive) && pc.Receiving? && pc.e < |s.entries| && s.entries[pc.e].buf == []
  }

  /** Call `t` waits, and finds that the client was closed. */
  ghost predicate SeesDone(s: State, step: Step, t: nat)
    requires t < |s.calls|
  {
    step == OfCall(t, Local(SeesClosed)) && s.calls[t].pc.Receiving? && s.done
  }

  ghost predicate GivesUp(c: Config, s: State, step: Step, t: nat)
    requires t < |s.calls|
  {
    step == OfCall(t, Local(Attempt)) && s.calls[t].pc.Retrying? && 0 <= c.retry <= s.calls[t].pc.i
  }

  /** The outcomes that a step may give call `t`, and the steps that give them. */
  ghost predicate Ends(c: Config, s: State, step: Step, t: nat, out: Option<Outcome>)
    requires t < |s.calls|
  {
    && (forall e: nat, m: nat :: out == Some(Response(e, m)) <==>
          Takes(s, step, t, m) && e == s.calls[t].pc.e && s.arrivals[m] in s.calls[t].accepts)
    && (out == Some(NilResponse) <==> TakesNil(s, step, t) && s.calls[t].onNil.AcceptsNil?)
    && (out == Some(MatcherPanic) <==> TakesNil(s, step, t) && s.calls[t].onNil.PanicsOnNil?)
    && (out == Some(DeadlineExceeded) <==> step == OfCall(t, Local(TimesOut)) && s.calls[t].pc.Receiving?)
    && (out == Some(ContextDone) <==> step == OfCall(t, Local(ContextEnds)) && s.calls[t].pc.Receiving?)
    && (out == Some(WriteFailed) <==> step == OfCall(t, Local(WriteFails)) && s.calls[t].pc.Writing?)
    && (out == Some(IdInUse) <==> step == OfCall(t, Register) && s.calls[t].pc.InSend? && s.calls[t].xid in s.pending)
    && (out == Some(NoResponse) <==> SeesDone(s, step, t) || GivesUp(c, s, step, t))
  }

  /** Which step, of whichever goroutine, ends an attempt or the call, and with which outcome. */
  lemma {:induction false} OutcomeArises(c: Config, s: State, step: Step, t: nat)
    requires Enabled(c, s, step) && t < |s.calls| && OutcomeOf(s.calls[t].pc).None?
    ensures t < |Apply(c, s, step).calls|
    ensures Ends(c, s, step, t, OutcomeOf(Apply(c, s, step).calls[t].pc))
  {
    if step.OfCall? && step.t == t {
      OwnOutcomeArises(c, s, t, step.call);
    } else if step == Loop(Handoff(t)) {
      HandoffOutcomeArises(c, s, t);
    } else {
      StepLeavesOthers(c, s, step, t);
    }
  }

  lemma {:induction false} OwnOutcomeArises(c: Config, s: State, t: nat, call: CallStep)
    requires t < |s.calls| && CallEnabled(s, t, call) && OutcomeOf(s.calls[t].pc).None?
    ensures Ends(c, s, OfCall(t, call), t, OutcomeOf(ApplyCall(c, s, t, call).calls[t].pc))
  {
    if call.Receive? {
      ReceiveOutcomeArises(c, s, t);
    }
  }

  lemma {:induction false} ReceiveOutcomeArises(c: Config, s: State, t: nat)
    requires t < |s.calls| && CallEnabled(s, t, Receive)
    ensures Ends(c, s, OfCall(t, Receive), t, OutcomeOf(DoReceive(s, t).calls[t].pc))
  {
  }

  lemma {:induction false} HandoffOutcomeArises(c: Config, s: State, t: nat)
    requires LoopEnabled(c, s, Handoff(t))
    ensures Ends(c, s, Loop(Handoff(t)), t, OutcomeOf(DoHandoff(s, t).calls[t].pc))
  {
  }

  /** Only the steps of a call, and a message handed to it, move its program counter. */
  lemma {:induction false} StepLeavesOthers(c: Config, s: State, step: Step, t: nat)
    requires Enabled(c, s, step) && t < |s.calls|
    ensures |Apply(c, s, step).calls| >= |s.calls|
    ensures (step.OfCall? ==> step.t != t) && step != Loop(Handoff(t)) ==> Apply(c, s, step).calls[t] == s.calls[t]
  {
    match step
    case Env(_) =>
    case Loop(act) => LoopLeavesOthers(c, s, act, t);
    case OfCall(u, call) => CallLeavesOthers(c, s, u, call, t);
    case OfClose(_) =>
  }

  lemma {:induction false} LoopLeavesOthers(c: Config, s: State, act: LoopStep, t: nat)
    requires LoopEnabled(c, s, act) && t < |s.calls|
    ensures |ApplyLoop(c, s, act).calls| == |s.calls|
    ensures act != Handoff(t) ==> ApplyLoop(c, s, act).calls[t] == s.calls[t]
  {
  }

  lemma {:induction false} CallLeavesOthers(c: Config, s: State, u: nat, call: CallStep, t: nat)
    requires u < |s.calls| && CallEnabled(s, u, call) && t < |s.calls|
    ensures |ApplyCall(c, s, u, call).calls| == |s.calls|
    ensures u != t ==> ApplyCall(c, s, u, call).calls[t] == s.calls[t]
  {
    match call
    case Receive => ReceiveLeavesOthers(s, u, t);
    case Cancel => CancelLeavesOthers(s, u, t);
    case _ =>
  }

  lemma {:induction false} ReceiveLeavesOthers(s: State, u: nat, t: nat)
    requires u < |s.calls| && CallEnabled(s, u, Receive) && t < |s.calls|
    ensures |DoReceive(s, u).calls| == |s.calls| && (u != t ==> DoReceive(s, u).calls[t] == s.calls[t])
  {
  }

  lemma {:induction false} CancelLeavesOthers(s: State, u: nat, t: nat)
    requires u < |s.calls| && CallEnabled(s, u, Cancel) && t < |s.calls|
    ensures |DoCancel(s, u).calls| == |s.calls| && (u != t ==> DoCancel(s, u).calls[t] == s.calls[t])
  {
  }

  // What becomes of them.

  /** How far the call still is from returning its outcome. */
  ghost function ToReturn(pc: CallPc): nat {
    if pc.Cancelling? then 3 else if pc.WantCancel? then 2 else if pc.InCancel? then 1 else 0
  }

  /** No step of any goroutine changes an outcome; only an exceeded deadline gives way to another attempt. */
  lemma {:induction false} OutcomeIsKept(c: Config, s: State, step: Step, t: nat)
    requires Enabled(c, s, step) && t < |s.calls| && OutcomeOf(s.calls[t].pc).Some?
    ensures t < |Apply(c, s, step).calls|
    ensures var pc, pc' := s.calls[t].pc, Apply(c, s, step).calls[t].pc;
      && (OutcomeOf(pc') == OutcomeOf(pc) <==> !(step == OfCall(t, Cancel) && pc.out == DeadlineExceeded))
      && (OutcomeOf(pc') == OutcomeOf(pc) ==> ToReturn(pc') <= ToReturn(pc))
      && (OutcomeOf(pc') != OutcomeOf(pc) ==> pc' == Retrying(pc.i + 1))
  {
    StepLeavesOthers(c, s, step, t);
  }

  /** The outcome is there, and the call is at most `far` from returning it. */
  ghost predicate Within(s: State, t: nat, out: Outcome, far: nat) {
    t < |s.calls| && OutcomeOf(s.calls[t].pc) == Some(out) && ToReturn(s.calls[t].pc) <= far
  }

  lemma {:induction false} NextKeepsOutcome(c: Config, s: State, s': State, t: nat, out: Outcome, far: nat)
    requires Next(c, s, s') && Within(s, t, out, far) && out != DeadlineExceeded
    ensures Within(s', t, out, far)
  {
    var step :| Enabled(c, s, step) && s' == Apply(c, s, step);
    OutcomeIsKept(c, s, step, t);
  }

  lemma {:induction false} StaysWithin(states: seq<State>, i: nat, j: nat, t: nat, out: Outcome, far: nat)
    requires i <= j < |states| && Within(states[i], t, out, far)
    requires forall k :: 0 < k < |states| && Within(states[k - 1], t, out, far) ==> Within(states[k], t, out, far)
    ensures Within(states[j], t, out, far)
  {
    if i < j {
      StaysWithin(states, i, j - 1, t, out, far);
    }
  }

  /** Over a whole run: an outcome that is no exceeded deadline stays, and is the one that the call returns. */
  lemma {:induction false} OutcomeIsFinal(c: Config, run: seq<State>, i: nat, j: nat, t: nat, out: Outcome, far: nat)
    requires IsPath(c, run) && i <= j < |run| && Within(run[i], t, out, far) && out != DeadlineExceeded
    ensures Within(run[j], t, out, far)
  {
    forall k | 0 < k < |run| && Within(run[k - 1], t, out, far)
      ensures Within(run[k], t, out, far)
    {
      NextKeepsOutcome(c, run[k - 1], run[k], t, out, far);
    }
    StaysWithin(run, i, j, t, out, far);
  }

  // Giving up.

  /** The step from `s` to `s'` is a deadline of call `t` being exceeded. */
  ghost predicate Exceeds(s: State, s': State, t: nat) {
    && t < |s.calls| && t < |s'.calls|
    && OutcomeOf(s.calls[t].pc) != Some(DeadlineExceeded) && OutcomeOf(s'.calls[t].pc) == Some(DeadlineExceeded)
  }

  /** How many deadlines call `t` has exceeded in a run. */
  ghost function Exceeded(run: seq<State>, t: nat): nat {
    if |run| < 2 then 0
    else Exceeded(run[..|run| - 1], t) + if Exceeds(run[|run| - 2], run[|run| - 1], t) then 1 else 0
  }

  /** The program counter counts the exceeded deadlines, and no attempt is made beyond those allowed. */
  ghost predicate Counts(c: Config, pc: CallPc, exceeded: nat) {
    && pc != Returned(DeadlineExceeded)
    && (!pc.Returned? ==> exceeded == pc.i + if OutcomeOf(pc) == Some(DeadlineExceeded) then 1 else 0)
    && (!pc.Returned? && !pc.Retrying? && c.retry >= 0 ==> pc.i < c.retry)
    && (c.retry >= 0 ==> exceeded <= c.retry)
  }

  /** One more when a deadline is exceeded on the way from `pc` to `pc'`. */
  ghost function Tally(pc: CallPc, pc': CallPc): nat {
    if OutcomeOf(pc) != Some(DeadlineExceeded) && OutcomeOf(pc') == Some(DeadlineExceeded) then 1 else 0
  }

  lemma {:induction false} CallKeepsCount(c: Config, s: State, t: nat, call: CallStep, exceeded: nat)
    requires t < |s.calls| && CallEnabled(s, t, call) && Counts(c, s.calls[t].pc, exceeded)
    ensures t < |ApplyCall(c, s, t, call).calls|
    ensures var pc' := ApplyCall(c, s, t, call).calls[t].pc; Counts(c, pc', exceeded + Tally(s.calls[t].pc, pc'))
  {
    if call.Receive? {
      ReceiveKeepsCount(c, s, t, exceeded);
    }
  }

  lemma {:induction false} ReceiveKeepsCount(c: Config, s: State, t: nat, exceeded: nat)
    requires t < |s.calls| && CallEnabled(s, t, Receive) && Counts(c, s.calls[t].pc, exceeded)
    ensures t < |DoReceive(s, t).calls|
    ensures var pc' := DoReceive(s, t).calls[t].pc; Counts(c, pc', exceeded + Tally(s.calls[t].pc, pc'))
  {
  }

  lemma {:induction false} HandoffKeepsCount(c: Config, s: State, t: nat, exceeded: nat)
    requires LoopEnabled(c, s, Handoff(t)) && Counts(c, s.calls[t].pc, exceeded)
    ensures var pc' := DoHandoff(s, t).calls[t].pc; Counts(c, pc', exceeded + Tally(s.calls[t].pc, pc'))
  {
  }

  lemma {:induction false} StepKeepsCount(c: Config, s: State, step: Step, t: nat, exceeded: nat)
    requires Enabled(c, s, step) && t < |s.calls| && Counts(c, s.calls[t].pc, exceeded)
    ensures t < |Apply(c, s, step).calls|
    ensures var pc' := Apply(c, s, step).calls[t].pc; Counts(c, pc', exceeded + Tally(s.calls[t].pc, pc'))
  {
    if step.OfCall? && step.t == t {
      CallKeepsCount(c, s, t, step.call, exceeded);
    } else if step == Loop(Handoff(t)) {
      HandoffKeepsCount(c, s, t, exceeded);
    } else {
      StepLeavesOthers(c, s, step, t);
    }
  }

  /** A call that is not there yet has exceeded nothing, and a new one is at its first attempt. */
  ghost predicate CountInv(c: Config, s: State, t: nat, exceeded: nat) {
    if t < |s.calls| then Counts(c, s.calls[t].pc, exceeded) else exceeded == 0
  }

  lemma {:induction false} NextKeepsCount(c: Config, s: State, s': State, t: nat, exceeded: nat)
    requires Next(c, s, s') && CountInv(c, s, t, exceeded)
    ensures CountInv(c, s', t, exceeded + if Exceeds(s, s', t) then 1 else 0)
  {
    var step :| Enabled(c, s, step) && s' == Apply(c, s, step);
    if t < |s.calls| {
      StepKeepsCount(c, s, step, t, exceeded);
    } else {
      NewCallCounts(c, s, step, t);
    }
  }

  lemma {:induction false} NewCallCounts(c: Config, s: State, step: Step, t: nat)
    requires Enabled(c, s, step) && t >= |s.calls|
    ensures CountInv(c, Apply(c, s, step), t, 0)
  {
    OnlyBeginAdds(c, s, step);
  }

  lemma {:induction false} OnlyBeginAdds(c: Config, s: State, step: Step)
    requires Enabled(c, s, step)
    ensures var calls := Apply(c, s, step).calls;
      |calls| == |s.calls| || (|calls| == |s.calls| + 1 && calls[|s.calls|].pc == Retrying(0))
  {
    if |s.calls| > 0 {
      match step
      case Loop(act) => LoopLeavesOthers(c, s, act, 0);
      case OfCall(u, call) => CallLeavesOthers(c, s, u, call, 0);
      case _ =>
    }
  }

  /** A call can begin in any state, and begins with its transaction ID and matcher, at its first attempt. */
  lemma {:induction false} BeginAdds(c: Config, s: State, xid: Xid, accepts: iset<Msg>, onNil: NilVerdict)
    requires !s.panicked
    ensures Enabled(c, s, Env(Begin(xid, accepts, onNil)))
    ensures Apply(c, s, Env(Begin(xid, accepts, onNil))).calls == s.calls + [Call(xid, accepts, onNil, Retrying(0))]
  {
  }

  lemma {:induction false} RunKeepsCount(c: Config, run: seq<State>, t: nat)
    requires IsRun(c, run)
    ensures CountInv(c, run[|run| - 1], t, Exceeded(run, t))
  {
    if |run| > 1 {
      var before := run[..|run| - 1];
      assert IsRun(c, before) by {
        assert forall i :: 0 < i < |before| ==> Next(c, run[i - 1], run[i]);
      }
      RunKeepsCount(c, before, t);
      NextKeepsCount(c, run[|run| - 2], run[|run| - 1], t, Exceeded(before, t));
    }
  }

  /**
   A call gives up, with no response, when it comes to retry after exactly `retry` exceeded deadlines, and
   otherwise makes another attempt; there are never more, and without a limit it never gives up.
   */
  lemma {:induction false} GivesUpIff(c: Config, run: seq<State>, t: nat)
    requires IsRun(c, run) && t < |run[|run| - 1].calls| && run[|run| - 1].calls[t].pc.Retrying?
    ensures c.retry >= 0 ==> Exceeded(run, t) <= c.retry
    ensures var s, step := run[|run| - 1], OfCall(t, Local(Attempt));
      && Enabled(c, s, step)
      && (Apply(c, s, step).calls[t].pc == Returned(NoResponse) <==> Exceeded(run, t) == c.retry)
      && (Apply(c, s, step).calls[t].pc == WantSend(Exceeded(run, t)) <==> Exceeded(run, t) != c.retry)
  {
    RunKeepsCount(c, run, t);
    RunIsSafe(c, run, |run| - 1);
  }
}
