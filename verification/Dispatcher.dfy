/**
 The transaction dispatcher of the DHCPv4 client: one receive loop, any number of
 `SendAndRead` calls and any number of `Close` calls, which share a mutex, a map
 from transaction ID to a pair of channels, a connection and a `done` channel.

 Every goroutine is a program counter; `Apply` performs one atomic step of one of
 them, and a run is any sequence of enabled steps. What Go's runtime would turn
 into a panic (closing a closed channel, sending on one) sets `panicked`, so that
 its absence is something to prove; a panic of a caller's matcher is an outcome of
 that call. Timers, contexts, the network and the moments
 at which calls begin are steps that may happen whenever their guard allows.

 Messages are named by their position in `arrivals`, the order in which the loop
 read them; the channels carry those positions, as the source's carry pointers.
 */
module Dispatcher {
  import opened Wire

  type Xid = nat

  const OPCODE_BOOT_REPLY: byte := 2

  datatype Msg = Msg(opcode: byte, xid: Xid, hwAddr: Bytes, rest: Bytes)

  datatype Config = Config(hwAddr: Option<Bytes>, bufferCap: nat, retry: int)

  /**
   How one attempt, and then the call, ends. `Response` names the attempt and the message.
   `MatcherPanic` is a panic of the caller's own matcher: the deferred `cancel` still runs,
   and what recovers from it, if anything does, is further up than `SendAndRead`.
   */
  datatype Outcome =
    | Response(entry: nat, msg: nat)
    | NilResponse
    | MatcherPanic
    | DeadlineExceeded
    | NoResponse
    | ContextDone
    | WriteFailed
    | IdInUse

  /** Where a `SendAndRead` call is; `i` counts the retries made, `e` is the attempt's entry. */
  datatype CallPc =
    | Retrying(i: nat)
    | WantSend(i: nat)
    | InSend(i: nat)
    | Writing(i: nat, e: nat)
    | Receiving(i: nat, e: nat)
    | Cancelling(i: nat, e: nat, out: Outcome)
    | WantCancel(i: nat, e: nat, out: Outcome)
    | InCancel(i: nat, e: nat, out: Outcome)
    | Returned(out: Outcome)
  {
    predicate OnEntry(entry: nat) {
      (Writing? || Receiving? || Cancelling? || WantCancel? || InCancel?) && e == entry
    }

    /** The attempt has not yet asked for its entry to be dropped. */
    predicate Awaiting(entry: nat) {
      (Writing? || Receiving? || Cancelling?) && e == entry
    }

    predicate HoldsLock() {
      InSend? || InCancel?
    }
  }

  /** What a matcher makes of nil, which a closed channel yields. A missing matcher accepts it. */
  datatype NilVerdict = AcceptsNil | RejectsNil | PanicsOnNil

  /** `accepts` and `onNil` are the matcher; a missing matcher accepts everything. */
  datatype Call = Call(xid: Xid, accepts: iset<Msg>, onNil: NilVerdict, pc: CallPc)

  /** A `pendingCh` and what went through its `ch`: messages taken by the owner, then those buffered. */
  datatype Entry = Entry(xid: Xid, owner: nat, done: bool, open: bool, taken: seq<nat>, buf: seq<nat>)

  datatype LoopPc =
    | Reading
    | WantLock(msg: nat)
    | Locked(msg: nat)
    | Selecting(msg: nat, e: nat)
    | Unlocking
    | Exited
  {
    predicate HoldsLock() {
      Locked? || Selecting? || Unlocking?
    }

    predicate Carries() {
      WantLock? || Locked? || Selecting?
    }
  }

  datatype ClosePc = Swapping | ClosingConn | ClosingDone | Waiting | CloseReturned

  datatype Holder = LoopHolds | CallHolds(t: nat)

  datatype State = State(
    arrivals: seq<Msg>,
    entries: seq<Entry>,
    pending: map<Xid, nat>,
    lock: Option<Holder>,
    loop: LoopPc,
    calls: seq<Call>,
    closers: seq<ClosePc>,
    closed: bool,
    connClosed: bool,
    done: bool,
    panicked: bool)

  /** The network, and calls being made: new work from outside. */
  datatype EnvStep = Arrive(m: Msg) | Begin(xid: Xid, accepts: iset<Msg>, onNil: NilVerdict) | BeginClose

  /** The receive loop; `Handoff` is a send that meets the waiting receiver `t`. */
  datatype LoopStep = ReadFails | LoopLock | LoopLookup | LoopSeesDone | LoopSends | Handoff(t: nat) | LoopUnlock

  /** Steps of a `SendAndRead` call that only move its program counter. */
  datatype Move = Attempt | WriteOk | WriteFails | SeesClosed | TimesOut | ContextEnds

  /** One `SendAndRead` call. */
  datatype CallStep = Local(move: Move) | Acquire | Register | Receive | CloseEntryDone | Cancel

  datatype Step = Env(env: EnvStep) | Loop(act: LoopStep) | OfCall(t: nat, call: CallStep) | OfClose(k: nat)

  const INITIAL := State([], [], map[], None, Reading, [], [], false, false, false, false)

  /** The checks the receive loop makes before it looks the transaction up. */
  predicate Relevant(c: Config, m: Msg) {
    m.opcode == OPCODE_BOOT_REPLY && (c.hwAddr.Some? ==> c.hwAddr.value == m.hwAddr)
  }

  ghost predicate LoopOnEntry(s: State) {
    s.loop.Selecting? && s.loop.e < |s.entries| && s.loop.msg < |s.arrivals|
  }

  ghost predicate LoopEnabled(c: Config, s: State, act: LoopStep) {
    match act
    case ReadFails => s.loop.Reading?
    case LoopLock => s.loop.WantLock? && s.lock.None?
    case LoopLookup => s.loop.Locked? && s.loop.msg < |s.arrivals|
    case LoopSeesDone => LoopOnEntry(s) && s.entries[s.loop.e].done
    case LoopSends => LoopOnEntry(s) && (!s.entries[s.loop.e].open || |s.entries[s.loop.e].buf| < c.bufferCap)
    case Handoff(t) =>
      LoopOnEntry(s) && t < |s.calls| && s.calls[t].pc.Receiving? && s.calls[t].pc.e == s.loop.e
      && s.entries[s.loop.e].open && s.entries[s.loop.e].buf == []
    case LoopUnlock => s.loop.Unlocking?
  }

  ghost predicate MoveEnabled(s: State, pc: CallPc, move: Move) {
    match move
    case Attempt => pc.Retrying?
    case WriteOk => pc.Writing? && !s.connClosed
    case WriteFails => pc.Writing?
    case SeesClosed => pc.Receiving? && s.done
    case TimesOut => pc.Receiving?
    case ContextEnds => pc.Receiving?
  }

  ghost predicate CallEnabled(s: State, t: nat, call: CallStep)
    requires t < |s.calls|
  {
    var pc := s.calls[t].pc;
    match call
    case Local(move) => MoveEnabled(s, pc, move)
    case Acquire => (pc.WantSend? || pc.WantCancel?) && s.lock.None?
    case Register => pc.InSend?
    case Receive =>
      pc.Receiving? && pc.e < |s.entries|
      && var x := s.entries[pc.e];
      if x.buf == [] then !x.open else x.buf[0] < |s.arrivals|
    case CloseEntryDone => pc.Cancelling? && pc.e < |s.entries|
    case Cancel => pc.InCancel? && (s.calls[t].xid in s.pending ==> s.pending[s.calls[t].xid] < |s.entries|)
  }

  ghost predicate Enabled(c: Config, s: State, step: Step) {
    !s.panicked &&
    match step
    case Env(env) => env.Arrive? ==> s.loop.Reading? && !s.connClosed
    case Loop(act) => LoopEnabled(c, s, act)
    case OfCall(t, call) => t < |s.calls| && CallEnabled(s, t, call)
    case OfClose(k) =>
      k < |s.closers| && s.closers[k] != CloseReturned && (s.closers[k].Waiting? ==> s.loop.Exited?)
  }

  /** What `Close` works on is left alone. */
  predicate SameClose(s: State, s': State) {
    s'.closers == s.closers && s'.closed == s.closed && s'.connClosed == s.connClosed && s'.done == s.done
  }

  /** What a call does not touch: the loop, its messages, and what `Close` works on. */
  predicate SameOutside(s: State, s': State) {
    s'.arrivals == s.arrivals && s'.loop == s.loop && SameClose(s, s')
  }

  ghost function Goto(s: State, t: nat, pc: CallPc): (s': State)
    requires t < |s.calls|
    ensures SameOutside(s, s')
  {
    s.(calls := s.calls[t := s.calls[t].(pc := pc)])
  }

  /** `close(ch)` of entry `e`: a panic when it is closed already. */
  ghost function CloseCh(s: State, e: nat): (s': State)
    requires e < |s.entries|
    ensures SameOutside(s, s')
  {
    if s.entries[e].open then s.(entries := s.entries[e := s.entries[e].(open := false)])
    else s.(panicked := true)
  }

  /** The matcher's verdict on message `m`, taken from entry `e` by its owner `t`. */
  ghost function Judge(s: State, t: nat, e: nat, m: nat): CallPc
    requires t < |s.calls| && s.calls[t].pc.Receiving? && m < |s.arrivals|
  {
    if s.arrivals[m] in s.calls[t].accepts then Cancelling(s.calls[t].pc.i, e, Response(e, m)) else s.calls[t].pc
  }

  /** The matcher's verdict on nil. Rejecting it leads back to the same `select`. */
  function JudgeNil(call: Call): CallPc
    requires call.pc.Receiving?
  {
    match call.onNil
    case AcceptsNil => Cancelling(call.pc.i, call.pc.e, NilResponse)
    case RejectsNil => call.pc
    case PanicsOnNil => Cancelling(call.pc.i, call.pc.e, MatcherPanic)
  }

  /** The owner of `e` takes message `m` off the channel, which leaves `buf` in it. */
  ghost function TakeMsg(s: State, t: nat, e: nat, m: nat, buf: seq<nat>): (s': State)
    requires t < |s.calls| && s.calls[t].pc.Receiving? && e < |s.entries| && m < |s.arrivals|
    ensures SameOutside(s, s')
  {
    var x := s.entries[e];
    Goto(s.(entries := s.entries[e := x.(taken := x.taken + [m], buf := buf)]), t, Judge(s, t, e, m))
  }

  ghost function ApplyEnv(c: Config, s: State, env: EnvStep): State {
    match env
    case Arrive(m) =>
      if Relevant(c, m) then s.(arrivals := s.arrivals + [m], loop := WantLock(|s.arrivals|)) else s
    case Begin(xid, accepts, onNil) => s.(calls := s.calls + [Call(xid, accepts, onNil, Retrying(0))])
    case BeginClose => s.(closers := s.closers + [Swapping])
  }

  ghost function DoLookup(s: State): State
    requires s.loop.Locked? && s.loop.msg < |s.arrivals|
  {
    var x := s.arrivals[s.loop.msg].xid;
    s.(loop := if x in s.pending then Selecting(s.loop.msg, s.pending[x]) else Unlocking)
  }

  /** The `done` case of the `select`: `close(p.ch)` and `delete`, as `cancel` does. */
  ghost function DoSeesDone(s: State): (s': State)
    requires LoopOnEntry(s)
    ensures SameClose(s, s')
  {
    CloseCh(s.(loop := Unlocking), s.loop.e).(pending := s.pending - {s.arrivals[s.loop.msg].xid})
  }

  /** The send case, with room in the channel. */
  ghost function DoSend(s: State): State
    requires LoopOnEntry(s)
  {
    var x := s.entries[s.loop.e];
    if x.open
    then s.(entries := s.entries[s.loop.e := x.(buf := x.buf + [s.loop.msg])], loop := Unlocking)
    else s.(panicked := true)
  }

  ghost function DoHandoff(s: State, t: nat): (s': State)
    requires LoopOnEntry(s) && t < |s.calls| && s.calls[t].pc.Receiving?
    ensures SameClose(s, s')
  {
    TakeMsg(s, t, s.loop.e, s.loop.msg, []).(loop := Unlocking)
  }

  ghost function ApplyLoop(c: Config, s: State, act: LoopStep): (s': State)
    requires LoopEnabled(c, s, act)
    ensures SameClose(s, s')
  {
    match act
    case ReadFails => s.(loop := Exited)
    case LoopLock => s.(lock := Some(LoopHolds), loop := Locked(s.loop.msg))
    case LoopLookup => DoLookup(s)
    case LoopSeesDone => DoSeesDone(s)
    case LoopSends => DoSend(s)
    case Handoff(t) => DoHandoff(s, t)
    case LoopUnlock => s.(lock := None, loop := Reading)
  }

  ghost function MoveTo(c: Config, s: State, pc: CallPc, move: Move): CallPc
    requires MoveEnabled(s, pc, move)
  {
    match move
    case Attempt => if pc.i < c.retry || c.retry < 0 then WantSend(pc.i) else Returned(NoResponse)
    case WriteOk => Receiving(pc.i, pc.e)
    case WriteFails => Cancelling(pc.i, pc.e, WriteFailed)
    case SeesClosed => Cancelling(pc.i, pc.e, NoResponse)
    case TimesOut => Cancelling(pc.i, pc.e, DeadlineExceeded)
    case ContextEnds => Cancelling(pc.i, pc.e, ContextDone)
  }

  ghost function DoAcquire(s: State, t: nat): (s': State)
    requires t < |s.calls| && CallEnabled(s, t, Acquire)
    ensures SameOutside(s, s')
  {
    var pc := s.calls[t].pc;
    Goto(s, t, if pc.WantSend? then InSend(pc.i) else InCancel(pc.i, pc.e, pc.out)).(lock := Some(CallHolds(t)))
  }

  /** `send` when the transaction ID is free: a new pair of channels goes into the map. */
  ghost function Enrol(s: State, t: nat): (s': State)
    requires t < |s.calls| && s.calls[t].pc.InSend?
    ensures SameOutside(s, s')
  {
    var x := s.calls[t].xid;
    Goto(s, t, Writing(s.calls[t].pc.i, |s.entries|)).(
      entries := s.entries + [Entry(x, t, false, true, [], [])],
      pending := s.pending[x := |s.entries|],
      lock := None)
  }

  /** The body of `send` under the lock, and the unlock. */
  ghost function DoRegister(s: State, t: nat): (s': State)
    requires t < |s.calls| && CallEnabled(s, t, Register)
    ensures SameOutside(s, s')
  {
    if s.calls[t].xid in s.pending then Goto(s, t, Returned(IdInUse)).(lock := None) else Enrol(s, t)
  }

  /** A receive from a closed and drained channel yields nil, which goes to the matcher like a message. */
  ghost function DoReceive(s: State, t: nat): (s': State)
    requires t < |s.calls| && CallEnabled(s, t, Receive)
    ensures SameOutside(s, s')
  {
    var pc := s.calls[t].pc;
    var x := s.entries[pc.e];
    if x.buf == [] then Goto(s, t, JudgeNil(s.calls[t]))
    else TakeMsg(s, t, pc.e, x.buf[0], x.buf[1..])
  }

  ghost function DoCloseEntryDone(s: State, t: nat): (s': State)
    requires t < |s.calls| && CallEnabled(s, t, CloseEntryDone)
    ensures SameOutside(s, s')
  {
    var pc := s.calls[t].pc;
    if s.entries[pc.e].done then s.(panicked := true)
    else Goto(s, t, WantCancel(pc.i, pc.e, pc.out)).(entries := s.entries[pc.e := s.entries[pc.e].(done := true)])
  }

  /** `close(p.ch)` and `delete` for the entry pending under `x`, if there is one. */
  ghost function Drop(s: State, x: Xid): (s': State)
    requires x in s.pending ==> s.pending[x] < |s.entries|
    ensures SameOutside(s, s') && s'.calls == s.calls && s'.lock == s.lock && |s'.entries| == |s.entries|
  {
    if x in s.pending then CloseCh(s, s.pending[x]).(pending := s.pending - {x}) else s
  }

  /** `retryFn`: an exceeded deadline means another attempt, anything else is the call's result. */
  function AfterAttempt(pc: CallPc): CallPc
    requires pc.InCancel?
  {
    if pc.out.DeadlineExceeded? then Retrying(pc.i + 1) else Returned(pc.out)
  }

  /** The body of `cancel` under the lock, the unlock, and what `retryFn` makes of the outcome. */
  ghost function DoCancel(s: State, t: nat): (s': State)
    requires t < |s.calls| && CallEnabled(s, t, Cancel)
    ensures SameOutside(s, s')
  {
    Goto(Drop(s, s.calls[t].xid), t, AfterAttempt(s.calls[t].pc)).(lock := None)
  }

  ghost function ApplyCall(c: Config, s: State, t: nat, call: CallStep): (s': State)
    requires t < |s.calls| && CallEnabled(s, t, call)
    ensures SameOutside(s, s')
  {
    match call
    case Local(move) => Goto(s, t, MoveTo(c, s, s.calls[t].pc, move))
    case Acquire => DoAcquire(s, t)
    case Register => DoRegister(s, t)
    case Receive => DoReceive(s, t)
    case CloseEntryDone => DoCloseEntryDone(s, t)
    case Cancel => DoCancel(s, t)
  }

  /** The compare-and-swap that lets one `Close` through. */
  ghost function DoSwap(s: State, k: nat): State
    requires k < |s.closers|
  {
    if s.closed then s.(closers := s.closers[k := CloseReturned])
    else s.(closers := s.closers[k := ClosingConn], closed := true)
  }

  ghost function DoCloseDone(s: State, k: nat): State
    requires k < |s.closers|
  {
    if s.done then s.(panicked := true) else s.(closers := s.closers[k := Waiting], done := true)
  }

  /** What the channels depend on is left alone. */
  predicate SameChannels(s: State, s': State) {
    && s'.arrivals == s.arrivals && s'.entries == s.entries && s'.pending == s.pending
    && s'.lock == s.lock && s'.loop == s.loop && s'.calls == s.calls
  }

  ghost function ApplyClose(s: State, k: nat): (s': State)
    requires k < |s.closers| && s.closers[k] != CloseReturned
    ensures SameChannels(s, s')
  {
    match s.closers[k]
    case Swapping => DoSwap(s, k)
    case ClosingConn => s.(closers := s.closers[k := ClosingDone], connClosed := true)
    case ClosingDone => DoCloseDone(s, k)
    case Waiting => s.(closers := s.closers[k := CloseReturned])
  }

  ghost function Apply(c: Config, s: State, step: Step): State
    requires Enabled(c, s, step)
  {
    match step
    case Env(env) => ApplyEnv(c, s, env)
    case Loop(act) => ApplyLoop(c, s, act)
    case OfCall(t, call) => ApplyCall(c, s, t, call)
    case OfClose(k) => ApplyClose(s, k)
  }

  /** A run: consecutive states, each one enabled step after the one before. */
  ghost predicate IsRun(c: Config, run: seq<State>) {
    |run| > 0 && run[0] == INITIAL && IsPath(c, run)
  }

  ghost predicate IsPath(c: Config, path: seq<State>) {
    forall i :: 0 < i < |path| ==> Next(c, path[i - 1], path[i])
  }

  ghost predicate Next(c: Config, s: State, s': State) {
    exists step :: Enabled(c, s, step) && s' == Apply(c, s, step)
  }
}
