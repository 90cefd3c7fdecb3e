/**
 That calls get what they wait for: an outcome can always be returned, a message that the matcher accepts
 becomes the result, and an arrival goes to the call that has its transaction registered. The steps
 are those of the program's own goroutines, without timers, contexts or failed writes.
 */
module DispatcherReturn {
  import opened Wire
  import opened Dispatcher
  import opened DispatcherSafety
  import opened DispatcherDelivery
  import opened DispatcherProgress
  import opened DispatcherOutcome

  ghost predicate ProperNext(c: Config, s: State, s': State) {
    exists step :: Proper(s, step) && Enabled(c, s, step) && s' == Apply(c, s, step)
  }

  /** A way from `s`, by proper steps. */
  ghost predicate Way(c: Config, s: State, path: seq<State>) {
    |path| > 0 && path[0] == s && forall i :: 0 < i < |path| ==> ProperNext(c, path[i - 1], path[i])
  }

  lemma {:induction false} WayFrom(c: Config, s: State, step: Step, path: seq<State>)
    requires Proper(s, step) && Enabled(c, s, step) && Way(c, Apply(c, s, step), path)
    ensures Way(c, s, [s] + path)
  {
    var path' := [s] + path;
    assert ProperNext(c, s, path[0]);
    forall i | 0 < i < |path'|
      ensures ProperNext(c, path'[i - 1], path'[i])
    {
      if i > 1 {
        assert ProperNext(c, path[i - 2], path[i - 1]);
      }
    }
  }

  lemma {:induction false} WayOn(c: Config, s: State, a: seq<State>, b: seq<State>)
    requires Way(c, s, a) && Way(c, a[|a| - 1], b)
    ensures Way(c, s, a + b[1..]) && (a + b[1..])[|a + b[1..]| - 1] == b[|b| - 1]
  {
    var path := a + b[1..];
    forall i | 0 < i < |path|
      ensures ProperNext(c, path[i - 1], path[i])
    {
      if i < |a| {
        assert ProperNext(c, a[i - 1], a[i]);
      } else {
        var j := i - |a| + 1;
        assert path[i] == b[j] && path[i - 1] == b[j - 1];
        assert ProperNext(c, b[j - 1], b[j]);
      }
    }
  }

  lemma {:induction false} ReleaseIsWay(c: Config, p: Parties, s: State, path: seq<State>)
    requires Releases(c, p, s, path)
    ensures Way(c, s, path)
  {
    forall i | 0 < i < |path|
      ensures ProperNext(c, path[i - 1], path[i])
    {
      assert NextBy(c, p, path[i - 1], path[i]);
    }
  }

  lemma {:induction false} NextIsSound(c: Config, s: State, s': State)
    requires Sound(c, s) && ProperNext(c, s, s')
    ensures Sound(c, s') && Next(c, s, s')
  {
    var step :| Proper(s, step) && Enabled(c, s, step) && s' == Apply(c, s, step);
    StepKeepsSound(c, s, step);
  }

  /** The state is sound, and the outcome is still there. */
  ghost predicate Keeps(c: Config, s: State, t: nat, out: Outcome, far: nat) {
    Sound(c, s) && Within(s, t, out, far)
  }

  lemma {:induction false} NextKeeps(c: Config, s: State, s': State, t: nat, out: Outcome, far: nat)
    requires ProperNext(c, s, s') && Keeps(c, s, t, out, far) && out != DeadlineExceeded
    ensures Keeps(c, s', t, out, far)
  {
    NextIsSound(c, s, s');
    NextKeepsOutcome(c, s, s', t, out, far);
  }

  lemma {:induction false} StaysKept(c: Config, path: seq<State>, j: nat, t: nat, out: Outcome, far: nat)
    requires j < |path| && Keeps(c, path[0], t, out, far)
    requires forall i :: 0 < i < |path| && Keeps(c, path[i - 1], t, out, far) ==> Keeps(c, path[i], t, out, far)
    ensures Keeps(c, path[j], t, out, far)
  {
    if j > 0 {
      StaysKept(c, path, j - 1, t, out, far);
    }
  }

  lemma {:induction false} WayKeeps(c: Config, s: State, path: seq<State>, t: nat, out: Outcome, far: nat)
    requires Way(c, s, path) && Keeps(c, s, t, out, far) && out != DeadlineExceeded
    ensures Keeps(c, path[|path| - 1], t, out, far)
  {
    forall i | 0 < i < |path| && Keeps(c, path[i - 1], t, out, far)
      ensures Keeps(c, path[i], t, out, far)
    {
      NextKeeps(c, path[i - 1], path[i], t, out, far);
    }
    StaysKept(c, path, |path| - 1, t, out, far);
  }

  ghost predicate Returns(s: State, t: nat, out: Outcome) {
    t < |s.calls| && s.calls[t].pc == Returned(out)
  }

  lemma {:induction false} FreeLock(c: Config, s: State, t: nat, out: Outcome, far: nat) returns (path: seq<State>)
    requires Keeps(c, s, t, out, far) && out != DeadlineExceeded
    ensures Way(c, s, path) && Keeps(c, path[|path| - 1], t, out, far) && path[|path| - 1].lock.None?
  {
    path := ReleaseLock(c, s);
    ReleaseIsWay(c, PartiesOf(s), s, path);
    WayKeeps(c, s, path, t, out, far);
  }

  /** The call gets one step nearer to returning, when the lock is not in its way. */
  lemma {:induction false} StepNearer(c: Config, s: State, t: nat, out: Outcome, far: nat) returns (path: seq<State>)
    requires Keeps(c, s, t, out, far) && out != DeadlineExceeded && !s.calls[t].pc.Returned?
    requires s.calls[t].pc.WantCancel? ==> s.lock.None?
    ensures far > 0 && Way(c, s, path) && Keeps(c, path[|path| - 1], t, out, far - 1)
  {
    var pc := s.calls[t].pc;
    var step := OfCall(t, if pc.Cancelling? then CloseEntryDone else if pc.WantCancel? then Acquire else Cancel);
    NearerToReturn(c, s, t, step, out, far);
    path := [Apply(c, s, step)];
    WayFrom(c, s, step, path);
    path := [s] + path;
  }

  lemma {:induction false} OneNearer(c: Config, s: State, t: nat, out: Outcome, far: nat) returns (path: seq<State>)
    requires Keeps(c, s, t, out, far) && out != DeadlineExceeded && !s.calls[t].pc.Returned?
    ensures far > 0 && Way(c, s, path)
    ensures Keeps(c, path[|path| - 1], t, out, far - 1) || Returns(path[|path| - 1], t, out)
  {
    if s.calls[t].pc.WantCancel? && s.lock.Some? {
      path := FreeLock(c, s, t, out, far);
      var s' := path[|path| - 1];
      if !s'.calls[t].pc.Returned? {
        var next := StepNearer(c, s', t, out, far);
        WayOn(c, s, path, next);
        path := path + next[1..];
      }
    } else {
      path := StepNearer(c, s, t, out, far);
    }
  }

  /** Whatever the other goroutines are doing, a call that has its outcome can return it. */
  lemma {:induction false} OutcomeIsReturned(c: Config, s: State, t: nat, out: Outcome, far: nat)
    returns (path: seq<State>)
    requires Keeps(c, s, t, out, far) && out != DeadlineExceeded
    ensures Way(c, s, path) && Returns(path[|path| - 1], t, out)
    decreases far
  {
    path := [s];
    if !Returns(s, t, out) {
      path := OneNearer(c, s, t, out, far);
      var s' := path[|path| - 1];
      if !Returns(s', t, out) {
        var rest := OutcomeIsReturned(c, s', t, out, far - 1);
        WayOn(c, s, path, rest);
        path := path + rest[1..];
      }
    }
  }

  lemma {:induction false} NearerToReturn(c: Config, s: State, t: nat, step: Step, out: Outcome, far: nat)
    requires Sound(c, s) && Within(s, t, out, far) && out != DeadlineExceeded && !s.calls[t].pc.Returned?
    requires s.calls[t].pc.WantCancel? ==> s.lock.None?
    requires var pc := s.calls[t].pc;
      step == OfCall(t, if pc.Cancelling? then CloseEntryDone else if pc.WantCancel? then Acquire else Cancel)
    ensures Proper(s, step) && Enabled(c, s, step) && far > 0
    ensures Sound(c, Apply(c, s, step)) && Within(Apply(c, s, step), t, out, far - 1)
  {
    assert Attached(s, t, s.calls[t].pc.e);
    StepKeepsSound(c, s, step);
    CallLeavesOthers(c, s, t, step.call, t);
  }

  // Registering.

  /** A call that may make another attempt, with its transaction ID free, comes to wait on a new channel. */
  lemma {:induction false} AttemptWaits(c: Config, s: State, t: nat) returns (path: seq<State>)
    requires !s.panicked && t < |s.calls| && s.calls[t].pc.Retrying? && (c.retry < 0 || s.calls[t].pc.i < c.retry)
    requires s.lock.None? && !s.connClosed && s.calls[t].xid !in s.pending
    ensures Way(c, s, path)
    ensures var x, e := s.calls[t].xid, |s.entries|;
      path[|path| - 1] == s.(entries := s.entries + [Entry(x, t, false, true, [], [])], pending := s.pending[x := e],
                             calls := s.calls[t := s.calls[t].(pc := Receiving(s.calls[t].pc.i, e))])
  {
    var s1 := Apply(c, s, OfCall(t, Local(Attempt)));
    var s2 := Apply(c, s1, OfCall(t, Acquire));
    path := RegisterWaits(c, s2, t);
    WayFrom(c, s1, OfCall(t, Acquire), path);
    path := [s1] + path;
    WayFrom(c, s, OfCall(t, Local(Attempt)), path);
    path := [s] + path;
  }

  lemma {:induction false} RegisterWaits(c: Config, s: State, t: nat) returns (path: seq<State>)
    requires !s.panicked && t < |s.calls| && s.calls[t].pc.InSend? && !s.connClosed && s.calls[t].xid !in s.pending
    ensures Way(c, s, path)
    ensures var x, e := s.calls[t].xid, |s.entries|;
      path[|path| - 1] == s.(entries := s.entries + [Entry(x, t, false, true, [], [])], pending := s.pending[x := e],
                             calls := s.calls[t := s.calls[t].(pc := Receiving(s.calls[t].pc.i, e))], lock := None)
  {
    var s1 := Apply(c, s, OfCall(t, Register));
    path := [Apply(c, s1, OfCall(t, Local(WriteOk)))];
    WayFrom(c, s1, OfCall(t, Local(WriteOk)), path);
    path := [s1] + path;
    WayFrom(c, s, OfCall(t, Register), path);
    path := [s] + path;
  }

  // Messages in the buffer.

  /** Call `t` waits on its channel `e`, and the matcher rejects the first `k` messages in it. */
  ghost predicate WaitsOn(s: State, t: nat, e: nat, k: nat) {
    && t < |s.calls| && s.calls[t].pc.Receiving? && s.calls[t].pc.e == e && e < |s.entries|
    && k <= |s.entries[e].buf| && Rejected(s, t, s.entries[e].buf[..k])
  }

  lemma {:induction false} TakeRejected(c: Config, s: State, t: nat, e: nat, k: nat)
    requires Sound(c, s) && WaitsOn(s, t, e, k) && k > 0
    ensures var step := OfCall(t, Receive);
      && Proper(s, step) && Enabled(c, s, step) && Sound(c, Apply(c, s, step))
      && WaitsOn(Apply(c, s, step), t, e, k - 1)
      && Apply(c, s, step).entries[e].buf == s.entries[e].buf[1..]
      && Apply(c, s, step) == s.(entries := Apply(c, s, step).entries)
      && Apply(c, s, step).entries[e].open == s.entries[e].open
  {
    var buf, step := s.entries[e].buf, OfCall(t, Receive);
    assert buf[..k][0] == buf[0];
    BufferedIsReceivable(c, s, t);
    StepKeepsSound(c, s, step);
    assert buf[1..][..k - 1] == buf[..k][1..];
    assert s.calls[t := s.calls[t].(pc := s.calls[t].pc)] == s.calls;
  }

  /** The first message in the buffer that the matcher accepts is the one returned. */
  lemma {:induction false} BufferedIsReturned(c: Config, s: State, t: nat, e: nat, k: nat) returns (path: seq<State>)
    requires Sound(c, s) && WaitsOn(s, t, e, k) && k < |s.entries[e].buf|
    requires s.entries[e].buf[k] < |s.arrivals| && s.arrivals[s.entries[e].buf[k]] in s.calls[t].accepts
    ensures Way(c, s, path) && Returns(path[|path| - 1], t, Response(e, s.entries[e].buf[k]))
    decreases k
  {
    var step := OfCall(t, Receive);
    if k == 0 {
      BufferedIsReceivable(c, s, t);
      StepKeepsSound(c, s, step);
      path := OutcomeIsReturned(c, Apply(c, s, step), t, Response(e, s.entries[e].buf[0]), 3);
    } else {
      TakeRejected(c, s, t, e, k);
      path := BufferedIsReturned(c, Apply(c, s, step), t, e, k - 1);
    }
    WayFrom(c, s, step, path);
    path := [s] + path;
  }

  /** In every reachable state. */
  lemma {:induction false} AcceptedIsReturned(c: Config, run: seq<State>, i: nat, t: nat, k: nat)
    returns (path: seq<State>)
    requires IsRun(c, run) && i < |run| && t < |run[i].calls| && run[i].calls[t].pc.Receiving?
    requires var e := run[i].calls[t].pc.e; WaitsOn(run[i], t, e, k) && k < |run[i].entries[e].buf|
    requires var m := run[i].entries[run[i].calls[t].pc.e].buf[k];
      m < |run[i].arrivals| && run[i].arrivals[m] in run[i].calls[t].accepts
    ensures var e := run[i].calls[t].pc.e;
      Way(c, run[i], path) && Returns(path[|path| - 1], t, Response(e, run[i].entries[e].buf[k]))
  {
    RunIsSound(c, run, i);
    path := BufferedIsReturned(c, run[i], t, run[i].calls[t].pc.e, k);
  }

  // Messages that arrive.

  /** A reply for transaction `x`, on its way to whoever has it registered. */
  ghost predicate InHand(s: State, x: Xid) {
    s.loop.WantLock? && s.lock.None? && s.loop.msg < |s.arrivals| && s.arrivals[s.loop.msg].xid == x
  }

  lemma {:induction false} LoopLocks(c: Config, s: State)
    requires Sound(c, s) && s.loop.WantLock? && s.lock.None?
    ensures Enabled(c, s, Loop(LoopLock)) && Sound(c, Apply(c, s, Loop(LoopLock)))
    ensures Apply(c, s, Loop(LoopLock)) == s.(lock := Some(LoopHolds), loop := Locked(s.loop.msg))
  {
    StepKeepsSound(c, s, Loop(LoopLock));
  }

  lemma {:induction false} LoopLooksUp(c: Config, s: State, e: nat)
    requires Sound(c, s) && e < |s.entries| && s.entries[e].open
    requires s.loop.Locked? && s.loop.msg < |s.arrivals| && s.arrivals[s.loop.msg].xid == s.entries[e].xid
    ensures Enabled(c, s, Loop(LoopLookup)) && Sound(c, Apply(c, s, Loop(LoopLookup)))
    ensures Apply(c, s, Loop(LoopLookup)) == s.(loop := Selecting(s.loop.msg, e))
  {
    StepKeepsSound(c, s, Loop(LoopLookup));
  }

  /** The loop takes the lock and finds the entry under the message's transaction ID. */
  lemma {:induction false} LoopFindsEntry(c: Config, s: State, e: nat) returns (s': State, path: seq<State>)
    requires Sound(c, s) && e < |s.entries| && s.entries[e].open && InHand(s, s.entries[e].xid)
    ensures Way(c, s, path) && path[|path| - 1] == s' && Sound(c, s')
    ensures s' == s.(lock := Some(LoopHolds), loop := Selecting(s.loop.msg, e))
  {
    LoopLocks(c, s);
    var s1 := Apply(c, s, Loop(LoopLock));
    LoopLooksUp(c, s1, e);
    s' := Apply(c, s1, Loop(LoopLookup));
    WayFrom(c, s1, Loop(LoopLookup), [s']);
    WayFrom(c, s, Loop(LoopLock), [s1] + [s']);
    path := [s] + ([s1] + [s']);
  }

  lemma {:induction false} HandedIsReturned(c: Config, s: State, t: nat, e: nat) returns (path: seq<State>)
    requires Sound(c, s) && s.loop.Selecting? && s.loop.e == e && e < |s.entries| && s.loop.msg < |s.arrivals|
    requires WaitsOn(s, t, e, 0) && s.entries[e].buf == [] && s.entries[e].open
    requires s.arrivals[s.loop.msg] in s.calls[t].accepts
    ensures Way(c, s, path) && Returns(path[|path| - 1], t, Response(e, s.loop.msg))
  {
    var step := Loop(Handoff(t));
    StepKeepsSound(c, s, step);
    path := OutcomeIsReturned(c, Apply(c, s, step), t, Response(e, s.loop.msg), 3);
    WayFrom(c, s, step, path);
    path := [s] + path;
  }

  /** The message goes to the call that waits for it, behind whatever that call has to reject first. */
  lemma {:induction false} InHandIsReturned(c: Config, s: State, t: nat, e: nat) returns (path: seq<State>)
    requires Sound(c, s) && e < |s.entries| && WaitsOn(s, t, e, |s.entries[e].buf|) && s.entries[e].open
    requires InHand(s, s.calls[t].xid) && s.arrivals[s.loop.msg] in s.calls[t].accepts
    ensures Way(c, s, path) && Returns(path[|path| - 1], t, Response(e, s.loop.msg))
    decreases |s.entries[e].buf|
  {
    var n := |s.entries[e].buf|;
    if n > 0 {
      var step := OfCall(t, Receive);
      TakeRejected(c, s, t, e, n);
      path := InHandIsReturned(c, Apply(c, s, step), t, e);
      WayFrom(c, s, step, path);
      path := [s] + path;
    } else {
      path := DrainedIsReturned(c, s, t, e);
    }
  }

  lemma {:induction false} DrainedIsReturned(c: Config, s: State, t: nat, e: nat) returns (path: seq<State>)
    requires Sound(c, s) && e < |s.entries| && WaitsOn(s, t, e, 0) && s.entries[e].buf == [] && s.entries[e].open
    requires InHand(s, s.calls[t].xid) && s.arrivals[s.loop.msg] in s.calls[t].accepts
    ensures Way(c, s, path) && Returns(path[|path| - 1], t, Response(e, s.loop.msg))
  {
    assert Attached(s, t, e);
    var s1, found := LoopFindsEntry(c, s, e);
    path := HandedIsReturned(c, s1, t, e);
    WayOn(c, s, found, path);
    path := found + path[1..];
  }

  /** A reply for the client that the receive loop reads. */
  ghost predicate ForClient(c: Config, m: Msg) {
    m.opcode == 2 && (c.hwAddr.None? || m.hwAddr == c.hwAddr.value)
  }

  /**
   In every reachable state with a free lock and the receive loop reading: when a reply arrives for the
   transaction of a call that waits, has only messages to reject before it, and accepts it, the call
   can return it. An arrival that is no such reply changes nothing.
   */
  lemma {:induction false} ArrivalIsReturned(c: Config, run: seq<State>, i: nat, t: nat, m: Msg) returns (path: seq<State>)
    requires IsRun(c, run) && i < |run| && run[i].loop.Reading? && !run[i].connClosed && run[i].lock.None?
    requires t < |run[i].calls| && run[i].calls[t].pc.Receiving? && run[i].calls[t].pc.e < |run[i].entries|
    requires var x := run[i].entries[run[i].calls[t].pc.e]; x.open && Rejected(run[i], t, x.buf)
    requires m.xid == run[i].calls[t].xid && m in run[i].calls[t].accepts
    ensures Enabled(c, run[i], Env(Arrive(m)))
    ensures ForClient(c, m) ==> Way(c, Apply(c, run[i], Env(Arrive(m))), path)
    ensures ForClient(c, m) ==> Returns(path[|path| - 1], t, Response(run[i].calls[t].pc.e, |run[i].arrivals|))
    ensures !ForClient(c, m) ==> Apply(c, run[i], Env(Arrive(m))) == run[i]
  {
    RunIsSound(c, run, i);
    path := [];
    if ForClient(c, m) {
      ArrivalIsInHand(c, run[i], m);
      path := InHandIsReturned(c, Apply(c, run[i], Env(Arrive(m))), t, run[i].calls[t].pc.e);
    }
  }

  lemma {:induction false} ArrivalIsInHand(c: Config, s: State, m: Msg)
    requires Sound(c, s) && s.loop.Reading? && !s.connClosed && s.lock.None? && ForClient(c, m)
    ensures Enabled(c, s, Env(Arrive(m))) && Sound(c, Apply(c, s, Env(Arrive(m))))
    ensures var s' := Apply(c, s, Env(Arrive(m)));
      && s' == s.(arrivals := s.arrivals + [m], loop := WantLock(|s.arrivals|)) && InHand(s', m.xid)
      && forall t, e :: 0 <= t < |s.calls| && 0 <= e < |s.entries| && Rejected(s, t, s.entries[e].buf) ==>
           Rejected(s', t, s'.entries[e].buf[..|s'.entries[e].buf|])
  {
    StepKeepsSound(c, s, Env(Arrive(m)));
  }

  /** With room in the channel, whatever its owner does, the loop can put the message last in it and go on reading. */
  lemma {:induction false} InHandIsBuffered(c: Config, s: State, e: nat) returns (path: seq<State>)
    requires Sound(c, s) && e < |s.entries| && s.entries[e].open && InHand(s, s.entries[e].xid)
    requires |s.entries[e].buf| < c.bufferCap
    ensures Way(c, s, path)
    ensures path[|path| - 1] == s.(loop := Reading, entries := s.entries[e :=
              s.entries[e].(buf := s.entries[e].buf + [s.loop.msg])])
  {
    var s1, found := LoopFindsEntry(c, s, e);
    path := SelectedIsBuffered(c, s1, e);
    WayOn(c, s, found, path);
    path := found + path[1..];
  }

  lemma {:induction false} SelectedIsBuffered(c: Config, s: State, e: nat) returns (path: seq<State>)
    requires !s.panicked && s.loop.Selecting? && s.loop.e == e && e < |s.entries| && s.loop.msg < |s.arrivals|
    requires s.entries[e].open && |s.entries[e].buf| < c.bufferCap
    ensures Way(c, s, path)
    ensures path[|path| - 1] == s.(lock := None, loop := Reading, entries := s.entries[e :=
              s.entries[e].(buf := s.entries[e].buf + [s.loop.msg])])
  {
    var s1 := Apply(c, s, Loop(LoopSends));
    path := [Apply(c, s1, Loop(LoopUnlock))];
    WayFrom(c, s1, Loop(LoopUnlock), path);
    path := [s1] + path;
    WayFrom(c, s, Loop(LoopSends), path);
    path := [s] + path;
  }

  // Close.

  /** Whoever went past the swap is still at it, or the connection and `done` are closed and the loop has exited. */
  ghost predicate Stopping(s: State) {
    && (s.closed ==> Stopped(s) || exists k :: 0 <= k < |s.closers| && AtIt(s.closers[k]))
    && (!s.closed ==> forall k :: 0 <= k < |s.closers| ==> s.closers[k].Swapping?)
  }

  predicate AtIt(pc: ClosePc) {
    pc.ClosingConn? || pc.ClosingDone? || pc.Waiting?
  }

  ghost predicate SomeReturned(s: State) {
    exists k :: 0 <= k < |s.closers| && s.closers[k].CloseReturned?
  }

  ghost predicate NoneAtIt(s: State) {
    forall k :: 0 <= k < |s.closers| ==> !AtIt(s.closers[k])
  }

  predicate Stopped(s: State) {
    s.connClosed && s.done && s.loop.Exited?
  }

  lemma {:induction false} CloserKeepsStopping(s: State, k: nat)
    requires Safe(s) && Stopping(s) && k < |s.closers| && s.closers[k] != CloseReturned
    requires s.closers[k].Waiting? ==> s.loop.Exited?
    ensures Stopping(ApplyClose(s, k))
  {
    var s' := ApplyClose(s, k);
    assert s'.closers == s.closers[k := s'.closers[k]];
    if AtIt(s'.closers[k]) {
    } else if !Stopped(s) {
      var j :| 0 <= j < |s.closers| && AtIt(s.closers[j]);
      assert AtIt(s'.closers[j]) || j == k;
    }
  }

  lemma {:induction false} StepKeepsStopping(c: Config, s: State, step: Step)
    requires Safe(s) && Stopping(s) && Enabled(c, s, step)
    ensures Stopping(Apply(c, s, step))
  {
    match step
    case OfClose(k) => CloserKeepsStopping(s, k);
    case Loop(act) =>
    case OfCall(t, call) =>
    case Env(env) =>
      if !Stopped(s) && s.closed {
        var j :| 0 <= j < |s.closers| && AtIt(s.closers[j]);
        assert AtIt(ApplyEnv(c, s, env).closers[j]);
      }
  }

  /** When a `Close` has returned and none is at work any more, everything is closed and the loop has exited. */
  lemma {:induction false} CloseStops(c: Config, run: seq<State>, i: nat)
    requires IsRun(c, run) && i < |run|
    ensures Stopping(run[i])
    ensures SomeReturned(run[i]) && NoneAtIt(run[i]) ==> Stopped(run[i])
  {
    if i > 0 {
      CloseStops(c, run, i - 1);
      RunIsSafe(c, run, i - 1);
      assert Next(c, run[i - 1], run[i]);
      var step :| Enabled(c, run[i - 1], step) && run[i] == Apply(c, run[i - 1], step);
      StepKeepsStopping(c, run[i - 1], step);
    }
  }
}
