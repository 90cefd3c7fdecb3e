/**
 What the messages that go through the dispatcher satisfy in every interleaving:
 each attempt sees replies to its own transaction, in arrival order, and a call
 that succeeds returns the first of them that its matcher accepts.
 */
module DispatcherDelivery {
  import opened Wire
  import opened Dispatcher
  import opened DispatcherSafety

  ghost function Delivered(x: Entry): seq<nat> {
    x.taken + x.buf
  }

  /** Messages reach an entry in arrival order, each at most once, and all are replies to its transaction. */
  ghost predicate DeliveryInv(s: State, x: Entry) {
    var d := Delivered(x);
    && (forall i :: 0 <= i < |d| ==> d[i] < |s.arrivals| && s.arrivals[d[i]].xid == x.xid)
    && (forall i, j :: 0 <= i < j < |d| ==> d[i] < d[j])
    && (s.loop.Carries() ==> forall i :: 0 <= i < |d| ==> d[i] < s.loop.msg)
  }

  ghost predicate Rejected(s: State, t: nat, msgs: seq<nat>)
    requires t < |s.calls|
  {
    forall i :: 0 <= i < |msgs| ==> msgs[i] < |s.arrivals| && s.arrivals[msgs[i]] !in s.calls[t].accepts
  }

  /** `m` is the one message of attempt `e` that the matcher accepted, and the last that was looked at. */
  ghost predicate FirstAccepted(s: State, t: nat, e: nat, m: nat) {
    && t < |s.calls| && e < |s.entries| && s.entries[e].owner == t && m < |s.arrivals|
    && s.entries[e].xid == s.calls[t].xid
    && var taken := s.entries[e].taken;
    && |taken| > 0 && taken[|taken| - 1] == m
    && s.arrivals[m] in s.calls[t].accepts
    && Rejected(s, t, taken[..|taken| - 1])
  }

  function OutcomeOf(pc: CallPc): Option<Outcome> {
    if pc.Cancelling? || pc.WantCancel? || pc.InCancel? || pc.Returned? then Some(pc.out) else None
  }

  ghost predicate MatchInv(s: State, t: nat)
    requires t < |s.calls|
  {
    var pc := s.calls[t].pc;
    && (pc.Writing? || pc.Receiving? ==> pc.e < |s.entries| && Rejected(s, t, s.entries[pc.e].taken))
    && (OutcomeOf(pc).Some? && OutcomeOf(pc).value.Response? ==>
          FirstAccepted(s, t, OutcomeOf(pc).value.entry, OutcomeOf(pc).value.msg)
          && (HasEntry(pc) ==> pc.e == OutcomeOf(pc).value.entry))
  }

  ghost predicate MsgInv(c: Config, s: State) {
    && (forall m :: 0 <= m < |s.arrivals| ==> Relevant(c, s.arrivals[m]))
    && (s.loop.Carries() ==> s.loop.msg < |s.arrivals|)
    && (forall e :: 0 <= e < |s.entries| ==> DeliveryInv(s, s.entries[e]))
    && (forall t :: 0 <= t < |s.calls| ==> MatchInv(s, t))
  }

  /** A program counter that claims no more about messages than `pc` did. */
  ghost predicate ClaimsLess(pc: CallPc, pc': CallPc) {
    && (pc'.Writing? || pc'.Receiving? ==> (pc.Writing? || pc.Receiving?) && pc'.e == pc.e)
    && (OutcomeOf(pc').Some? && OutcomeOf(pc').value.Response? ==>
          OutcomeOf(pc) == OutcomeOf(pc') && (HasEntry(pc') ==> HasEntry(pc) && pc'.e == pc.e))
  }

  predicate SameMessages(x: Entry, x': Entry) {
    x'.xid == x.xid && x'.owner == x.owner && x'.taken == x.taken && x'.buf == x.buf
  }

  lemma {:induction false} QuietStepKeeps(c: Config, s: State, s': State)
    requires MsgInv(c, s) && s'.arrivals == s.arrivals
    requires s'.loop.Carries() ==> s.loop.Carries() && s'.loop.msg == s.loop.msg
    requires |s'.entries| == |s.entries|
      && forall e :: 0 <= e < |s.entries| ==> SameMessages(s.entries[e], s'.entries[e])
    requires |s'.calls| == |s.calls|
      && forall t :: 0 <= t < |s.calls| ==>
           s'.calls[t] == s.calls[t].(pc := s'.calls[t].pc) && ClaimsLess(s.calls[t].pc, s'.calls[t].pc)
    ensures MsgInv(c, s')
  {
    forall e | 0 <= e < |s'.entries|
      ensures DeliveryInv(s', s'.entries[e])
    {
      assert DeliveryInv(s, s.entries[e]) && SameMessages(s.entries[e], s'.entries[e]);
    }
    forall t | 0 <= t < |s'.calls|
      ensures MatchInv(s', t)
    {
      assert MatchInv(s, t) && ClaimsLess(s.calls[t].pc, s'.calls[t].pc);
    }
  }

  /** The owner of `e` is the only one whose claims mention `e`, so taking a message disturbs nobody else. */
  lemma {:induction false} TakeKeepsOthers(c: Config, s: State, t: nat, e: nat, m: nat, buf: seq<nat>,
                                           pc: CallPc, u: nat)
    requires ChanInv(s) && MsgInv(c, s) && t < |s.calls| && e < |s.entries| && s.calls[t].pc.OnEntry(e)
    requires u < |s.calls| && u != t
    ensures var x := s.entries[e];
      MatchInv(Goto(s.(entries := s.entries[e := x.(taken := x.taken + [m], buf := buf)]), t, pc), u)
  {
    assert Attached(s, t, e);
    assert MatchInv(s, u);
    if HasEntry(s.calls[u].pc) {
      assert Attached(s, u, s.calls[u].pc.e);
    }
  }

  lemma {:induction false} TakeKeepsMsgs(c: Config, s: State, t: nat, e: nat, m: nat, buf: seq<nat>)
    requires ChanInv(s) && MsgInv(c, s) && t < |s.calls| && s.calls[t].pc.Receiving? && s.calls[t].pc.e == e
    requires e < |s.entries| && m < |s.arrivals|
    requires DeliveryInv(s, s.entries[e].(taken := s.entries[e].taken + [m], buf := buf))
    ensures MsgInv(c, TakeMsg(s, t, e, m, buf))
  {
    var x := s.entries[e];
    var s' := TakeMsg(s, t, e, m, buf);
    assert Attached(s, t, e);
    assert MatchInv(s, t);
    forall u | 0 <= u < |s'.calls|
      ensures MatchInv(s', u)
    {
      if u != t {
        TakeKeepsOthers(c, s, t, e, m, buf, Judge(s, t, e, m), u);
      } else {
        assert (x.taken + [m])[..|x.taken|] == x.taken;
      }
    }
    forall f | 0 <= f < |s'.entries|
      ensures DeliveryInv(s', s'.entries[f])
    {
      assert DeliveryInv(s, s.entries[f]);
    }
  }

  lemma {:induction false} ReceiveKeepsMsgs(c: Config, s: State, t: nat)
    requires ChanInv(s) && MsgInv(c, s) && t < |s.calls| && CallEnabled(s, t, Receive)
    ensures MsgInv(c, DoReceive(s, t))
  {
    var pc := s.calls[t].pc;
    var x := s.entries[pc.e];
    if x.buf == [] {
      QuietStepKeeps(c, s, Goto(s, t, JudgeNil(s.calls[t])));
    } else {
      assert DeliveryInv(s, x);
      assert Delivered(x.(taken := x.taken + [x.buf[0]], buf := x.buf[1..])) == Delivered(x);
      TakeKeepsMsgs(c, s, t, pc.e, x.buf[0], x.buf[1..]);
    }
  }

  /** Once the loop has let go of its message, that message may be the newest of entry `e`. */
  lemma {:induction false} AppendKeepsOrder(c: Config, s: State, x': Entry)
    requires PendingInv(s) && MsgInv(c, s) && LoopOnEntry(s)
    requires var x := s.entries[s.loop.e]; x'.xid == x.xid && Delivered(x') == Delivered(x) + [s.loop.msg]
    ensures DeliveryInv(s.(loop := Unlocking), x')
  {
    assert DeliveryInv(s, s.entries[s.loop.e]);
  }

  lemma {:induction false} SendKeepsMsgs(c: Config, s: State)
    requires ChanInv(s) && MsgInv(c, s) && LoopOnEntry(s)
    ensures MsgInv(c, DoSend(s))
  {
    SelectedIsOpen(s);
    var x := s.entries[s.loop.e];
    var x' := x.(buf := x.buf + [s.loop.msg]);
    assert Delivered(x') == Delivered(x) + [s.loop.msg];
    AppendKeepsOrder(c, s, x');
    QuietStepKeeps(c, s, s.(loop := Unlocking));
    BufferKeepsMsgs(c, s.(loop := Unlocking), s.loop.e, x');
  }

  /** Another buffer, with its messages in order, is nobody's claim. */
  lemma {:induction false} BufferKeepsMsgs(c: Config, s: State, e: nat, x: Entry)
    requires MsgInv(c, s) && e < |s.entries| && x == s.entries[e].(buf := x.buf) && DeliveryInv(s, x)
    ensures MsgInv(c, s.(entries := s.entries[e := x]))
  {
    var s' := s.(entries := s.entries[e := x]);
    forall f | 0 <= f < |s'.entries|
      ensures DeliveryInv(s', s'.entries[f])
    {
      assert DeliveryInv(s, s.entries[f]);
    }
    forall t | 0 <= t < |s'.calls|
      ensures MatchInv(s', t)
    {
      assert MatchInv(s, t);
    }
  }

  lemma {:induction false} HandoffKeepsMsgs(c: Config, s: State, t: nat)
    requires ChanInv(s) && MsgInv(c, s) && LoopEnabled(c, s, Handoff(t))
    ensures MsgInv(c, DoHandoff(s, t))
  {
    var x := s.entries[s.loop.e];
    var x' := x.(taken := x.taken + [s.loop.msg], buf := []);
    assert Delivered(x') == Delivered(x) + [s.loop.msg];
    AppendKeepsOrder(c, s, x');
    LeaveSelectKeeps(s);
    QuietStepKeeps(c, s, s.(loop := Unlocking));
    TakeKeepsMsgs(c, s.(loop := Unlocking), t, s.loop.e, s.loop.msg, []);
    HandoffIsTake(s, t);
  }

  lemma {:induction false} HandoffIsTake(s: State, t: nat)
    requires LoopOnEntry(s) && t < |s.calls| && s.calls[t].pc.Receiving?
    ensures DoHandoff(s, t) == TakeMsg(s.(loop := Unlocking), t, s.loop.e, s.loop.msg, [])
  {
  }

  lemma {:induction false} EnrolKeepsMsgs(c: Config, s: State, t: nat)
    requires MsgInv(c, s) && t < |s.calls| && s.calls[t].pc.InSend?
    ensures MsgInv(c, Enrol(s, t))
  {
    var s' := Enrol(s, t);
    forall f | 0 <= f < |s.entries|
      ensures DeliveryInv(s', s'.entries[f])
    {
      assert DeliveryInv(s, s.entries[f]);
    }
    forall u | 0 <= u < |s'.calls|
      ensures MatchInv(s', u)
    {
      assert MatchInv(s, u);
    }
  }

  lemma {:induction false} ArriveKeepsMsgs(c: Config, s: State, env: EnvStep)
    requires MsgInv(c, s) && (env.Arrive? ==> s.loop.Reading?)
    ensures MsgInv(c, ApplyEnv(c, s, env))
  {
    match env
    case Arrive(m) => MessageKeepsMsgs(c, s, m);
    case Begin(xid, accepts, onNil) => CallAddedKeepsMsgs(c, s, Call(xid, accepts, onNil, Retrying(0)));
    case BeginClose => QuietStepKeeps(c, s, s.(closers := s.closers + [Swapping]));
  }

  lemma {:induction false} CallAddedKeepsMsgs(c: Config, s: State, call: Call)
    requires MsgInv(c, s) && call.pc.Retrying?
    ensures MsgInv(c, s.(calls := s.calls + [call]))
  {
    var s' := s.(calls := s.calls + [call]);
    forall f | 0 <= f < |s'.entries|
      ensures DeliveryInv(s', s'.entries[f])
    {
      assert DeliveryInv(s, s.entries[f]);
    }
    forall u | 0 <= u < |s.calls|
      ensures MatchInv(s', u)
    {
      assert MatchInv(s, u);
    }
  }

  lemma {:induction false} MessageKeepsMsgs(c: Config, s: State, m: Msg)
    requires MsgInv(c, s) && s.loop.Reading?
    ensures MsgInv(c, ApplyEnv(c, s, Arrive(m)))
  {
    var s' := ApplyEnv(c, s, Arrive(m));
    forall f | 0 <= f < |s'.entries|
      ensures DeliveryInv(s', s'.entries[f])
    {
      assert DeliveryInv(s, s.entries[f]);
    }
    forall u | 0 <= u < |s.calls|
      ensures MatchInv(s', u)
    {
      assert MatchInv(s, u);
    }
  }

  lemma {:induction false} MoveKeepsMsgs(c: Config, s: State, t: nat, pc: CallPc)
    requires MsgInv(c, s) && t < |s.calls| && ClaimsLess(s.calls[t].pc, pc)
    ensures MsgInv(c, Goto(s, t, pc))
  {
    QuietStepKeeps(c, s, Goto(s, t, pc));
  }

  lemma {:induction false} AcquireKeepsMsgs(c: Config, s: State, t: nat)
    requires MsgInv(c, s) && t < |s.calls| && CallEnabled(s, t, Acquire)
    ensures MsgInv(c, DoAcquire(s, t))
  {
    QuietStepKeeps(c, s, DoAcquire(s, t));
  }

  lemma {:induction false} RegisterKeepsMsgs(c: Config, s: State, t: nat)
    requires MsgInv(c, s) && t < |s.calls| && CallEnabled(s, t, Register)
    ensures MsgInv(c, DoRegister(s, t))
  {
    if s.calls[t].xid in s.pending {
      QuietStepKeeps(c, s, DoRegister(s, t));
    } else {
      EnrolKeepsMsgs(c, s, t);
    }
  }

  lemma {:induction false} CloseEntryDoneKeepsMsgs(c: Config, s: State, t: nat)
    requires MsgInv(c, s) && t < |s.calls| && CallEnabled(s, t, CloseEntryDone)
    ensures MsgInv(c, DoCloseEntryDone(s, t))
  {
    QuietStepKeeps(c, s, DoCloseEntryDone(s, t));
  }

  lemma {:induction false} CancelKeepsMsgs(c: Config, s: State, t: nat)
    requires MsgInv(c, s) && t < |s.calls| && CallEnabled(s, t, Cancel)
    ensures MsgInv(c, DoCancel(s, t))
  {
    QuietStepKeeps(c, s, DoCancel(s, t));
  }

  lemma {:induction false} CallKeepsMsgs(c: Config, s: State, t: nat, call: CallStep)
    requires ChanInv(s) && MsgInv(c, s) && t < |s.calls| && CallEnabled(s, t, call)
    ensures MsgInv(c, ApplyCall(c, s, t, call))
  {
    match call
    case Local(move) => MoveKeepsMsgs(c, s, t, MoveTo(c, s, s.calls[t].pc, move));
    case Acquire => AcquireKeepsMsgs(c, s, t);
    case Register => RegisterKeepsMsgs(c, s, t);
    case Receive => ReceiveKeepsMsgs(c, s, t);
    case CloseEntryDone => CloseEntryDoneKeepsMsgs(c, s, t);
    case Cancel => CancelKeepsMsgs(c, s, t);
  }

  lemma {:induction false} SeesDoneKeepsMsgs(c: Config, s: State)
    requires MsgInv(c, s) && LoopOnEntry(s)
    ensures MsgInv(c, DoSeesDone(s))
  {
    QuietStepKeeps(c, s, DoSeesDone(s));
  }

  lemma {:induction false} LookupKeepsMsgs(c: Config, s: State)
    requires MsgInv(c, s) && s.loop.Locked? && s.loop.msg < |s.arrivals|
    ensures MsgInv(c, DoLookup(s))
  {
    QuietStepKeeps(c, s, DoLookup(s));
  }

  lemma {:induction false} LoopKeepsMsgs(c: Config, s: State, act: LoopStep)
    requires ChanInv(s) && MsgInv(c, s) && LoopEnabled(c, s, act)
    ensures MsgInv(c, ApplyLoop(c, s, act))
  {
    match act
    case Handoff(t) => HandoffKeepsMsgs(c, s, t);
    case LoopSends => SendKeepsMsgs(c, s);
    case LoopSeesDone => SeesDoneKeepsMsgs(c, s);
    case LoopLookup => LookupKeepsMsgs(c, s);
    case ReadFails => QuietStepKeeps(c, s, s.(loop := Exited));
    case LoopLock => QuietStepKeeps(c, s, s.(lock := Some(LoopHolds), loop := Locked(s.loop.msg)));
    case LoopUnlock => QuietStepKeeps(c, s, s.(lock := None, loop := Reading));
  }

  lemma {:induction false} StepKeepsMsgs(c: Config, s: State, step: Step)
    requires Safe(s) && MsgInv(c, s) && Enabled(c, s, step)
    ensures MsgInv(c, Apply(c, s, step))
  {
    match step
    case Env(env) => ArriveKeepsMsgs(c, s, env);
    case Loop(act) => LoopKeepsMsgs(c, s, act);
    case OfCall(t, call) => CallKeepsMsgs(c, s, t, call);
    case OfClose(k) => QuietStepKeeps(c, s, ApplyClose(s, k));
  }

  lemma {:induction false} RunDelivers(c: Config, run: seq<State>, i: nat)
    requires IsRun(c, run) && i < |run|
    ensures MsgInv(c, run[i])
  {
    if i > 0 {
      RunDelivers(c, run, i - 1);
      RunIsSafe(c, run, i - 1);
      assert Next(c, run[i - 1], run[i]);
      var step :| Enabled(c, run[i - 1], step) && run[i] == Apply(c, run[i - 1], step);
      StepKeepsMsgs(c, run[i - 1], step);
    }
  }

  /**
   A call that returns a message returns the first, in arrival order among those delivered to that
   attempt, that the matcher accepts. It is a BootReply for the call's transaction and, when the client
   has a hardware address, for that address.
   */
  lemma {:induction false} FirstMatch(c: Config, run: seq<State>, i: nat, t: nat)
    requires IsRun(c, run) && i < |run| && t < |run[i].calls|
    requires run[i].calls[t].pc.Returned? && run[i].calls[t].pc.out.Response?
    ensures var s, call := run[i], run[i].calls[t];
      var e, m := call.pc.out.entry, call.pc.out.msg;
      && e < |s.entries| && s.entries[e].owner == t && m < |s.arrivals|
      && s.arrivals[m].opcode == OPCODE_BOOT_REPLY && s.arrivals[m].xid == call.xid
      && (c.hwAddr.Some? ==> s.arrivals[m].hwAddr == c.hwAddr.value)
      && var d := Delivered(s.entries[e]);
      && (forall j, k :: 0 <= j < k < |d| ==> d[j] < d[k])
      && (exists k :: 0 <= k < |d| && d[k] == m && s.arrivals[m] in call.accepts
           && forall j :: 0 <= j < k ==> d[j] < |s.arrivals| && s.arrivals[d[j]] !in call.accepts)
  {
    RunDelivers(c, run, i);
    var s := run[i];
    var out := s.calls[t].pc.out;
    assert MatchInv(s, t);
    assert FirstAccepted(s, t, out.entry, out.msg);
    var x := s.entries[out.entry];
    assert DeliveryInv(s, x);
    var d, k := Delivered(x), |x.taken| - 1;
    assert d[k] == out.msg;
    forall j | 0 <= j < k
      ensures d[j] < |s.arrivals| && s.arrivals[d[j]] !in s.calls[t].accepts
    {
      assert d[j] == x.taken[..k][j];
    }
  }

  lemma {:induction false} ReceiveMovesNoMessage(s: State, t: nat, e: nat)
    requires t < |s.calls| && CallEnabled(s, t, Receive) && e < |s.entries|
    ensures var s' := DoReceive(s, t); e < |s'.entries| && Delivered(s'.entries[e]) == Delivered(s.entries[e])
  {
    if e == s.calls[t].pc.e && s.entries[e].buf != [] {
      var x := s.entries[e];
      assert Delivered(x.(taken := x.taken + [x.buf[0]], buf := x.buf[1..])) == Delivered(x);
    }
  }

  lemma {:induction false} DropMovesNoMessage(s: State, x: Xid, e: nat)
    requires (x in s.pending ==> s.pending[x] < |s.entries|) && e < |s.entries|
    ensures Delivered(Drop(s, x).entries[e]) == Delivered(s.entries[e])
  {
  }

  lemma {:induction false} CallMovesNoMessage(c: Config, s: State, t: nat, call: CallStep, e: nat)
    requires t < |s.calls| && CallEnabled(s, t, call) && e < |s.entries|
    ensures var s' := ApplyCall(c, s, t, call); e < |s'.entries| && Delivered(s'.entries[e]) == Delivered(s.entries[e])
  {
    match call
    case Local(_) =>
    case Acquire =>
    case Register =>
    case Receive => ReceiveMovesNoMessage(s, t, e);
    case CloseEntryDone =>
    case Cancel => DropMovesNoMessage(s, s.calls[t].xid, e);
  }

  /**
   Messages are conserved: a step changes what entry `e` was sent only when the loop leaves its `select`
   on `e`, and then either the loop's message was appended, or the owner had asked for the entry to be
   dropped and it was.
   */
  lemma {:induction false} StepAccountsForMessages(c: Config, s: State, step: Step, e: nat)
    requires Safe(s) && Enabled(c, s, step) && e < |s.entries|
    ensures var s' := Apply(c, s, step);
      && e < |s'.entries|
      && (if s.loop.Selecting? && s.loop.e == e && s'.loop != s.loop then
            || Delivered(s'.entries[e]) == Delivered(s.entries[e]) + [s.loop.msg]
            || (s.entries[e].done && !s'.entries[e].open && s'.entries[e].xid !in s'.pending
                && Delivered(s'.entries[e]) == Delivered(s.entries[e]))
          else Delivered(s'.entries[e]) == Delivered(s.entries[e]))
  {
    if step.OfCall? {
      CallMovesNoMessage(c, s, step.t, step.call, e);
    } else if step.Loop? {
      LoopAccountsForMessages(c, s, step.act, e);
    }
  }

  ghost predicate Accounted(s: State, s': State, e: nat)
    requires e < |s.entries|
  {
    && e < |s'.entries|
    && (if s.loop.Selecting? && s.loop.e == e then
          || Delivered(s'.entries[e]) == Delivered(s.entries[e]) + [s.loop.msg]
          || (s.entries[e].done && !s'.entries[e].open && s'.entries[e].xid !in s'.pending
              && Delivered(s'.entries[e]) == Delivered(s.entries[e]))
        else Delivered(s'.entries[e]) == Delivered(s.entries[e]))
  }

  lemma {:induction false} SeesDoneAccounts(s: State, e: nat)
    requires PendingInv(s) && LoopOnEntry(s) && s.entries[s.loop.e].done && e < |s.entries|
    ensures Accounted(s, DoSeesDone(s), e)
  {
  }

  lemma {:induction false} SendAccounts(s: State, e: nat)
    requires PendingInv(s) && LoopOnEntry(s) && e < |s.entries|
    ensures Accounted(s, DoSend(s), e)
  {
    SelectedIsOpen(s);
    var x := s.entries[s.loop.e];
    assert Delivered(x.(buf := x.buf + [s.loop.msg])) == Delivered(x) + [s.loop.msg];
  }

  lemma {:induction false} HandoffAccounts(s: State, t: nat, e: nat)
    requires LoopOnEntry(s) && t < |s.calls| && s.calls[t].pc.Receiving? && s.entries[s.loop.e].buf == []
    requires e < |s.entries|
    ensures Accounted(s, DoHandoff(s, t), e)
  {
    var x := s.entries[s.loop.e];
    assert Delivered(x.(taken := x.taken + [s.loop.msg], buf := [])) == Delivered(x) + [s.loop.msg];
  }

  lemma {:induction false} LoopAccountsForMessages(c: Config, s: State, act: LoopStep, e: nat)
    requires Safe(s) && LoopEnabled(c, s, act) && e < |s.entries|
    ensures Accounted(s, ApplyLoop(c, s, act), e)
  {
    match act
    case LoopSeesDone => SeesDoneAccounts(s, e);
    case LoopSends => SendAccounts(s, e);
    case Handoff(t) => HandoffAccounts(s, t, e);
    case _ =>
  }
}
