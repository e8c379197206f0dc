/** The multi-threaded RPC client: any number of concurrent `call`s, one reader thread, one shared stream.

    Every call, the reader and every closer is a thread; a `Step` is one atomic action of one of them. What the code
    does under one lock is one step; what it does without a lock, or across two accesses, is several. The drain of
    `finish` may come any time after the swap of `closed` that owes it, and `Close` may come at any time, which allows
    every schedule the code has. */
module BackgroundRpc {
  import opened Bytes
  import opened JsonModel
  import opened Options
  import opened Sequences

  const MAX_LINE: nat := 4 * 1024 * 1024
  const MAX_PENDING: nat := 64
  const MAX_WRITE: nat := 16 * 1024
  const NEWLINE: Byte := 10
  const MAX_ID: nat := 0xFFFF_FFFF_FFFF_FFFF

  /** What a response line makes of a call. */
  datatype Answer =
    | Returned(value: Json)
    | Failed(error: Json)
    | Neither

  /** What a call finds in its reply channel. */
  datatype Outcome =
    | Reply(msgId: nat, answer: Answer)  // from a line that carried an id
    | Attributed(answer: Answer)         // from an error line whose id was null
    | Refused                            // the failure sent by `finish`

  datatype Delivery = Delivery(id: nat, outcome: Outcome)

  datatype Phase =
    | Fresh                // has an id and a frame
    | Registering          // holds the pending lock and has seen `closed` unset
    | Queued               // registered; about to look at `closed` and the writer lock
    | Trying               // has seen `closed` unset; about to try the writer lock
    | Writing(at: nat)     // holds the writer lock; `at` bytes of its frame are out
    | Cleared(at: nat)     // the same, having seen `closed` unset since its last write
    | Broken(at: nat)      // the same, after a write error; about to call `finish`
    | Stopping(at: nat)    // the same, having set or seen `closed`; about to release the lock
    | Waiting              // its frame is out, the lock is released
    | Leaving              // about to drop its pending entry
    | Done

  datatype State = State(
    nextId: nat,
    frames: map<nat, seq<Byte>>,   // the line each call writes
    phase: map<nat, Phase>,
    closed: bool,
    drained: bool,
    reading: bool,
    registrar: Option<nat>,        // the call inside the registration section of the pending lock
    registered: set<nat>,          // every call that ever entered `pending`
    pending: set<nat>,
    inFlight: Option<Delivery>,    // taken from `pending` by the reader, not yet sent
    sent: seq<Delivery>,           // every send to a reply channel, in order
    received: map<nat, Outcome>,   // what each `call` returned from its channel
    writer: Option<nat>,           // the holder of the writer lock
    poisoned: bool,                // the writer lock was released by a panic
    wire: seq<Byte>)

  datatype Step =
    | Start(frame: seq<Byte>)
    | EnterPending(id: nat)
    | Register(id: nat)
    | SeeOpen(id: nat)
    | TakeWriter(id: nat)
    | Recheck(id: nat)
    | Write(id: nat, n: nat)
    | FailWrite(id: nat, n: nat)
    | Finish(id: nat)              // a call gives up: deadline, cancellation, write error, poisoned lock
    | Panic(id: nat)               // the caller's cancellation callback unwinds
    | Release(id: nat)
    | Receive(id: nat, outcome: Outcome)
    | Withdraw(id: nat)
    | Close                        // `close`, `drop`, or the end of the reader
    | Drain(order: seq<nat>)
    | Dispatch(line: Option<Json>)  // a line the reader has read, `None` where it is not JSON
    | Send

  ghost predicate IsFrame(frame: seq<Byte>) {
    && 0 < |frame|
    && frame[|frame| - 1] == NEWLINE
    && forall i :: 0 <= i < |frame| - 1 ==> frame[i] != NEWLINE
  }

  ghost predicate Init(s: State) {
    s == State(s.nextId, map[], map[], false, false, true, None, {}, {}, None, [], map[], None, false, [])
  }

  ghost predicate Is(s: State, id: nat) {
    id in s.phase && id in s.frames
  }

  function Go(s: State, id: nat, phase: Phase): State {
    s.(phase := s.phase[id := phase])
  }

  function Offset(phase: Phase): nat {
    match phase
    case Writing(at) => at
    case Cleared(at) => at
    case Broken(at) => at
    case Stopping(at) => at
    case _ => 0
  }

  predicate Holds(phase: Phase) {
    phase.Writing? || phase.Cleared? || phase.Broken? || phase.Stopping?
  }

  /** The stream accepts `n` more bytes of a frame. */
  ghost function Emit(s: State, id: nat, at: nat, n: nat): State
    requires id in s.frames && at + n <= |s.frames[id]|
  {
    s.(wire := s.wire + s.frames[id][at..at + n])
  }

  // Each step is a guard `Can...` and an effect `Do...`.

  function DoStart(s: State, frame: seq<Byte>): State {
    var t := s.(nextId := s.nextId + 1);
    if |frame| - 1 > MAX_LINE then t
    else t.(frames := s.frames[s.nextId := frame], phase := s.phase[s.nextId := Fresh])
  }

  ghost predicate CanEnter(s: State, id: nat) {
    Is(s, id) && s.phase[id].Fresh? && s.registrar.None?
  }

  function DoEnter(s: State, id: nat): State {
    if s.closed then Go(s, id, Done) else Go(s, id, Registering).(registrar := Some(id))
  }

  ghost predicate CanRegister(s: State, id: nat) {
    Is(s, id) && s.phase[id].Registering?
  }

  function DoRegister(s: State, id: nat): State {
    if |s.pending| >= MAX_PENDING then Go(s, id, Done).(registrar := None)
    else Go(s, id, Queued).(registrar := None, pending := s.pending + {id}, registered := s.registered + {id})
  }

  ghost predicate CanSeeOpen(s: State, id: nat) {
    Is(s, id) && s.phase[id].Queued?
  }

  function DoSeeOpen(s: State, id: nat): State {
    Go(s, id, if s.closed then Leaving else Trying)
  }

  ghost predicate CanTakeWriter(s: State, id: nat) {
    Is(s, id) && s.phase[id].Trying? && !s.poisoned
  }

  function DoTakeWriter(s: State, id: nat): State {
    if s.writer.Some? then Go(s, id, Queued) else Go(s, id, Writing(0)).(writer := Some(id))
  }

  ghost predicate CanRecheck(s: State, id: nat) {
    Is(s, id) && s.phase[id].Writing? && s.phase[id].at < |s.frames[id]|
  }

  ghost function DoRecheck(s: State, id: nat): State
    requires CanRecheck(s, id)
  {
    Go(s, id, if s.closed then Stopping(s.phase[id].at) else Cleared(s.phase[id].at))
  }

  ghost predicate CanWrite(s: State, id: nat, n: nat) {
    Is(s, id) && s.phase[id].Cleared? && n <= MAX_WRITE && s.phase[id].at + n <= |s.frames[id]|
  }

  /** `n` is 0 for an interrupted or timed-out write. */
  ghost function DoWrite(s: State, id: nat, n: nat): State
    requires CanWrite(s, id, n)
  {
    Emit(Go(s, id, Writing(s.phase[id].at + n)), id, s.phase[id].at, n)
  }

  /** A write fails after transferring an unknown number of bytes. */
  ghost function DoFailWrite(s: State, id: nat, n: nat): State
    requires CanWrite(s, id, n)
  {
    Emit(Go(s, id, Broken(s.phase[id].at + n)), id, s.phase[id].at, n)
  }

  ghost predicate CanFinish(s: State, id: nat) {
    Is(s, id) &&
    match s.phase[id]
    case Queued => true
    case Trying => s.poisoned
    case Writing(at) => at < |s.frames[id]|
    case Broken(_) => true
    case Waiting => true
    case _ => false
  }

  ghost function DoFinish(s: State, id: nat): State
    requires CanFinish(s, id)
  {
    Go(s, id, if Holds(s.phase[id]) then Stopping(Offset(s.phase[id])) else Leaving).(closed := true)
  }

  ghost predicate CanPanic(s: State, id: nat) {
    Is(s, id) && (s.phase[id].Queued? || s.phase[id].Waiting?
                  || (s.phase[id].Writing? && s.phase[id].at < |s.frames[id]|))
  }

  ghost function DoPanic(s: State, id: nat): State
    requires CanPanic(s, id)
  {
    if s.phase[id].Writing? then Go(s, id, Leaving).(writer := None, poisoned := true) else Go(s, id, Leaving)
  }

  ghost predicate CanRelease(s: State, id: nat) {
    Is(s, id) && (s.phase[id].Stopping? || s.phase[id] == Writing(|s.frames[id]|))
  }

  ghost function DoRelease(s: State, id: nat): State
    requires CanRelease(s, id)
  {
    Go(s, id, if s.phase[id].Stopping? then Leaving else Waiting).(writer := None)
  }

  ghost predicate CanReceive(s: State, id: nat, outcome: Outcome) {
    Is(s, id) && s.phase[id].Waiting? && Delivery(id, outcome) in s.sent
  }

  function DoReceive(s: State, id: nat, outcome: Outcome): State {
    Go(s, id, Leaving).(received := s.received[id := outcome])
  }

  ghost predicate CanWithdraw(s: State, id: nat) {
    Is(s, id) && s.phase[id].Leaving? && s.registrar.None?
  }

  function DoWithdraw(s: State, id: nat): State {
    Go(s, id, Done).(pending := s.pending - {id})
  }

  ghost predicate CanDrain(s: State, order: seq<nat>) {
    s.closed && !s.drained && s.registrar.None? && Distinct(order) && (forall id :: id in order <==> id in s.pending)
  }

  ghost function DoDrain(s: State, order: seq<nat>): State {
    s.(drained := true, pending := {}, sent := s.sent + Refusals(order))
  }

  ghost function Refusals(order: seq<nat>): (ds: seq<Delivery>)
    ensures |ds| == |order|
    ensures forall i :: 0 <= i < |ds| ==> ds[i] == Delivery(order[i], Refused)
  {
    seq(|order|, i requires 0 <= i < |order| => Delivery(order[i], Refused))
  }

  ghost predicate CanDispatch(s: State) {
    s.reading && s.registrar.None? && s.inFlight.None?
  }

  function AnswerOf(msg: Json): Answer {
    if Get(msg, "error").Some? then Failed(Get(msg, "error").value)
    else if Get(msg, "result").Some? then Returned(Get(msg, "result").value)
    else Neither
  }

  function DoTake(s: State, id: nat, outcome: Outcome): State {
    s.(pending := s.pending - {id}, inFlight := Some(Delivery(id, outcome)))
  }

  /** `background_dispatch` up to the release of the pending lock; the reader ends on a line it cannot attribute. */
  ghost function DoDispatch(s: State, line: Option<Json>): State {
    match line
    case None => s.(reading := false)
    case Some(msg) =>
      match Get(msg, "id")
      case None => s  // at most a notification
      case Some(Null) =>
        if |s.pending| != 1 || Get(msg, "error").None? then s.(reading := false)
        else
          var id :| id in s.pending;
          DoTake(s, id, Attributed(AnswerOf(msg)))
      case Some(Int(n)) =>
        if !(0 <= n <= MAX_ID) then s.(reading := false)
        else if n in s.pending then DoTake(s, n, Reply(n, AnswerOf(msg)))
        else s
      case Some(_) => s.(reading := false)
  }

  ghost function DoSend(s: State): State
    requires s.inFlight.Some?
  {
    s.(inFlight := None, sent := s.sent + [s.inFlight.value])
  }

  ghost predicate Enabled(s: State, step: Step) {
    match step
    case Start(frame) => IsFrame(frame)
    case EnterPending(id) => CanEnter(s, id)
    case Register(id) => CanRegister(s, id)
    case SeeOpen(id) => CanSeeOpen(s, id)
    case TakeWriter(id) => CanTakeWriter(s, id)
    case Recheck(id) => CanRecheck(s, id)
    case Write(id, n) => CanWrite(s, id, n)
    case FailWrite(id, n) => CanWrite(s, id, n)
    case Finish(id) => CanFinish(s, id)
    case Panic(id) => CanPanic(s, id)
    case Release(id) => CanRelease(s, id)
    case Receive(id, outcome) => CanReceive(s, id, outcome)
    case Withdraw(id) => CanWithdraw(s, id)
    case Close => true
    case Drain(order) => CanDrain(s, order)
    case Dispatch(_) => CanDispatch(s)
    case Send => s.inFlight.Some?
  }

  ghost function Apply(s: State, step: Step): State
    requires Enabled(s, step)
  {
    match step
    case Start(frame) => DoStart(s, frame)
    case EnterPending(id) => DoEnter(s, id)
    case Register(id) => DoRegister(s, id)
    case SeeOpen(id) => DoSeeOpen(s, id)
    case TakeWriter(id) => DoTakeWriter(s, id)
    case Recheck(id) => DoRecheck(s, id)
    case Write(id, n) => DoWrite(s, id, n)
    case FailWrite(id, n) => DoFailWrite(s, id, n)
    case Finish(id) => DoFinish(s, id)
    case Panic(id) => DoPanic(s, id)
    case Release(id) => DoRelease(s, id)
    case Receive(id, outcome) => DoReceive(s, id, outcome)
    case Withdraw(id) => DoWithdraw(s, id)
    case Close => s.(closed := true)
    case Drain(order) => DoDrain(s, order)
    case Dispatch(line) => DoDispatch(s, line)
    case Send => DoSend(s)
  }

  /** A schedule from the first state: `run[i + 1]` comes from `run[i]` by `steps[i]`. */
  ghost predicate IsRun(run: seq<State>, steps: seq<Step>) {
    && |run| == |steps| + 1
    && Init(run[0])
    && forall i :: 0 <= i < |steps| ==> Enabled(run[i], steps[i]) && run[i + 1] == Apply(run[i], steps[i])
  }

  // ----- who holds what -------------------------------------------------------------------------------------------

  ghost predicate CallOk(s: State, id: nat)
    requires Is(s, id)
  {
    var p := s.phase[id];
    && id < s.nextId
    && IsFrame(s.frames[id])
    && Offset(p) <= |s.frames[id]|
    && (p.Cleared? ==> p.at < |s.frames[id]|)
    && (Holds(p) <==> s.writer == Some(id))
    && (p.Registering? <==> s.registrar == Some(id))
    && (p.Stopping? ==> s.closed)
    && (p.Fresh? || p.Registering? ==> id !in s.registered)
    && (id in s.registered || p.Fresh? || p.Registering? || p.Done?)
  }

  ghost predicate InvLocks(s: State) {
    && s.phase.Keys == s.frames.Keys
    && (forall id :: id in s.phase ==> CallOk(s, id))
    && (s.writer.Some? ==> s.writer.value in s.phase && !s.poisoned)
    && (s.registrar.Some? ==> s.registrar.value in s.phase)
    && s.registered <= s.phase.Keys
    && (s.drained ==> s.closed && s.registrar.None?)
  }

  /** `t` differs from `s`, as far as locks and phases go, in the call `id` alone. */
  ghost predicate Moves(s: State, t: State, id: nat) {
    && Is(s, id)
    && t.nextId == s.nextId && t.frames == s.frames
    && id in t.phase && t.phase == s.phase[id := t.phase[id]]
    && (s.closed ==> t.closed) && t.drained == s.drained
    && (t.registered == s.registered || t.registered == s.registered + {id})
    && (|| t.writer == s.writer
        || ((s.writer == None || s.writer == Some(id)) && (t.writer == None || t.writer == Some(id))))
    && (t.registrar == s.registrar
        || ((s.registrar == None || s.registrar == Some(id)) && (t.registrar == None || t.registrar == Some(id))))
    && (t.writer.Some? ==> !t.poisoned) && (t.drained ==> t.registrar.None?)
  }

  lemma LocksMove(s: State, t: State, id: nat)
    requires InvLocks(s) && Moves(s, t, id) && CallOk(t, id)
    ensures InvLocks(t)
  {
    forall i | i in t.phase ensures CallOk(t, i) {
      assert CallOk(s, i);
    }
  }

  /** `t` has the locks and phases of `s`. */
  ghost predicate SameLocks(s: State, t: State) {
    && t.nextId == s.nextId && t.frames == s.frames && t.phase == s.phase && t.registered == s.registered
    && t.writer == s.writer && t.registrar == s.registrar && t.poisoned == s.poisoned
    && (s.closed ==> t.closed) && (t.drained ==> t.closed && t.registrar.None?)
  }

  lemma LocksSame(s: State, t: State)
    requires InvLocks(s) && SameLocks(s, t)
    ensures InvLocks(t)
  {
    forall i | i in t.phase ensures CallOk(t, i) {
      assert CallOk(s, i);
    }
  }

  // ----- answers --------------------------------------------------------------------------------------------------

  ghost predicate Answered(s: State, id: nat) {
    (exists o :: Delivery(id, o) in s.sent) || (s.inFlight.Some? && s.inFlight.value.id == id)
  }

  ghost predicate Honest(d: Delivery) {
    d.outcome.Reply? ==> d.outcome.msgId == d.id
  }

  lemma AnswersGrow(s: State, t: State)
    requires s.sent <= t.sent
    requires s.inFlight.Some? ==> t.inFlight == s.inFlight || s.inFlight.value in t.sent
    ensures forall id :: Answered(s, id) ==> Answered(t, id)
  {
    forall id | Answered(s, id) ensures Answered(t, id) {
      if o :| Delivery(id, o) in s.sent { assert Delivery(id, o) in t.sent; }
    }
  }

  /** A reply channel is written at most once, and only after its entry has left `pending`. */
  ghost predicate InvSends(s: State) {
    && (forall i, j :: 0 <= i < j < |s.sent| ==> s.sent[i].id != s.sent[j].id)
    && (forall d :: d in s.sent ==> d.id !in s.pending && d.id in s.registered && Honest(d))
    && (s.inFlight.Some? ==>
          && s.inFlight.value.id !in s.pending && s.inFlight.value.id in s.registered && Honest(s.inFlight.value)
          && forall d :: d in s.sent ==> d.id != s.inFlight.value.id)
    && (forall id :: id in s.received ==> Delivery(id, s.received[id]) in s.sent)
  }

  /** A registered call is pending, answered or gone. */
  ghost predicate InvPending(s: State) {
    && |s.pending| <= MAX_PENDING
    && s.pending <= s.registered
    && (s.drained ==> s.pending == {})
    && (forall id :: id in s.registered && id in s.phase && !s.phase[id].Done? ==> id in s.pending || Answered(s, id))
  }

  ghost predicate InvDesk(s: State) {
    InvSends(s) && InvPending(s)
  }

  /** `t` has the pending map and the reply channels of `s`, and no call left `Done`. */
  ghost predicate SameDesk(s: State, t: State) {
    && t.pending == s.pending && t.sent == s.sent && t.inFlight == s.inFlight
    && t.received == s.received && t.registered == s.registered && t.drained == s.drained
    && forall id :: id in s.registered && id in t.phase && !t.phase[id].Done? ==> id in s.phase && !s.phase[id].Done?
  }

  lemma DeskSame(s: State, t: State)
    requires InvDesk(s) && SameDesk(s, t)
    ensures InvDesk(t)
  {
    forall id | id in t.registered && id in t.phase && !t.phase[id].Done? ensures id in t.pending || Answered(t, id) {
      assert id in s.pending || Answered(s, id);
      if o :| Delivery(id, o) in s.sent { assert Delivery(id, o) in t.sent; }
    }
  }

  // ----- the wire -------------------------------------------------------------------------------------------------

  /** The frames of the calls `ids`, one after another. */
  ghost function Frames(frames: map<nat, seq<Byte>>, ids: seq<nat>): seq<Byte>
    requires forall id :: id in ids ==> id in frames
  {
    if ids == [] then [] else Frames(frames, ids[..|ids| - 1]) + frames[ids[|ids| - 1]]
  }

  lemma {:induction false} FramesGrow(frames: map<nat, seq<Byte>>, more: map<nat, seq<Byte>>, ids: seq<nat>)
    requires forall id :: id in ids ==> id in frames
    requires forall id :: id in frames ==> id in more && more[id] == frames[id]
    ensures Frames(more, ids) == Frames(frames, ids)
  {
    if ids != [] {
      FramesGrow(frames, more, ids[..|ids| - 1]);
    }
  }

  lemma {:induction false} FramesEnd(frames: map<nat, seq<Byte>>, ids: seq<nat>)
    requires forall id :: id in ids ==> id in frames && IsFrame(frames[id])
    ensures var bytes := Frames(frames, ids); bytes == [] || bytes[|bytes| - 1] == NEWLINE
  {
  }

  /** A call whose frame is wholly out. */
  ghost predicate Out(s: State, id: nat) {
    && Is(s, id) && id in s.registered
    && (s.phase[id].Waiting? || s.phase[id].Leaving? || s.phase[id].Done?
        || (Holds(s.phase[id]) && Offset(s.phase[id]) == |s.frames[id]|))
  }

  /** A call that waits for its reply, or has one. */
  ghost predicate Sent(s: State, id: nat) {
    (id in s.phase && s.phase[id].Waiting?) || id in s.received
  }

  /** `tail` is a non-empty proper prefix of the frame of one registered call outside `whole`. */
  ghost predicate IsStub(s: State, whole: seq<nat>, tail: seq<Byte>) {
    exists id :: id in s.frames && id in s.registered && id !in whole && 0 < |tail| < |s.frames[id]|
              && tail == s.frames[id][..|tail|]
  }

  /** The tail after the whole frames is the holder's progress, or nothing, or the stub of a call that gave up. */
  ghost predicate TailOk(s: State, whole: seq<nat>, tail: seq<Byte>) {
    if && s.writer.Some? && s.writer.value in s.phase && s.writer.value in s.frames
       && Offset(s.phase[s.writer.value]) > 0 then
      var id := s.writer.value;
      var at := Offset(s.phase[id]);
      if at < |s.frames[id]| then tail == s.frames[id][..at] && id !in whole else tail == [] && id in whole
    else
      && (tail != [] ==> (s.closed || s.poisoned) && IsStub(s, whole, tail))
      && (s.writer.Some? && s.writer.value in s.phase && s.phase[s.writer.value].Cleared? ==> tail == [])
  }

  ghost predicate WireOk(s: State, whole: seq<nat>) {
    && Distinct(whole)
    && (forall id :: id in whole ==> Out(s, id))
    && (forall id :: Sent(s, id) ==> id in whole)
    && var bytes := Frames(s.frames, whole);
    && bytes <= s.wire
    && TailOk(s, whole, s.wire[|bytes|..])
  }

  /** Wire, frames and writer lock are as in `s`; phases move only outside the lock and never back from `Out`. */
  ghost predicate SameWire(s: State, t: State) {
    && t.wire == s.wire && t.frames == s.frames && s.registered <= t.registered
    && t.writer == s.writer && t.poisoned == s.poisoned && (s.closed ==> t.closed)
    && s.phase.Keys == t.phase.Keys
    && (forall id :: Sent(t, id) ==> Sent(s, id))
    && forall id :: id in s.phase ==>
         t.phase[id] == s.phase[id]
         || (!Holds(s.phase[id]) && !Holds(t.phase[id]) && (Out(s, id) ==> Out(t, id)))
  }

  lemma WireSame(s: State, t: State, whole: seq<nat>)
    requires InvLocks(s) && WireOk(s, whole) && SameWire(s, t)
    ensures WireOk(t, whole)
  {
    var tail := s.wire[|Frames(s.frames, whole)|..];
    if s.writer.Some? { assert CallOk(s, s.writer.value); }
    if IsStub(s, whole, tail) { assert IsStub(t, whole, tail); }
    assert TailOk(t, whole, tail);
  }

  /** The invariant of every reachable state; `whole` lists the calls whose frames are out, in order. */
  ghost predicate Inv(s: State, whole: seq<nat>) {
    InvLocks(s) && InvDesk(s) && WireOk(s, whole)
  }

  lemma SameAll(s: State, t: State, whole: seq<nat>)
    requires Inv(s, whole) && InvLocks(t) && InvDesk(t) && SameWire(s, t)
    ensures Inv(t, whole)
  {
    WireSame(s, t, whole);
  }

  // ----- every step keeps the invariant ---------------------------------------------------------------------------

  /** `t` is `s` with one more call, which has written nothing. */
  ghost predicate Adds(s: State, t: State) {
    exists frame :: IsFrame(frame) && t == s.(nextId := s.nextId + 1,
      frames := s.frames[s.nextId := frame], phase := s.phase[s.nextId := Fresh])
  }

  lemma NewId(s: State)
    requires InvLocks(s)
    ensures s.nextId !in s.phase && s.nextId !in s.frames && s.nextId !in s.registered
    ensures s.writer != Some(s.nextId) && s.registrar != Some(s.nextId)
  {
    forall id | id in s.phase ensures id < s.nextId { assert CallOk(s, id); }
  }

  lemma LocksAdd(s: State, t: State)
    requires InvLocks(s) && Adds(s, t)
    ensures InvLocks(t)
  {
    NewId(s);
    forall i | i in t.phase ensures CallOk(t, i) {
      if i in s.phase { assert CallOk(s, i); }
    }
  }

  lemma WireAdd(s: State, t: State, whole: seq<nat>)
    requires InvLocks(s) && WireOk(s, whole) && Adds(s, t)
    ensures WireOk(t, whole)
  {
    NewId(s);
    FramesGrow(s.frames, t.frames, whole);
    var tail := s.wire[|Frames(s.frames, whole)|..];
    assert forall i :: i in whole ==> Out(s, i) && Out(t, i);
    if IsStub(s, whole, tail) {
      var i :| i in s.frames && i in s.registered && i !in whole
               && 0 < |tail| < |s.frames[i]| && tail == s.frames[i][..|tail|];
      assert t.frames[i] == s.frames[i];
      assert IsStub(t, whole, tail);
    }
    assert TailOk(t, whole, tail);
  }

  lemma SpendId(s: State, whole: seq<nat>)
    requires Inv(s, whole)
    ensures Inv(s.(nextId := s.nextId + 1), whole)
  {
    var t := s.(nextId := s.nextId + 1);
    forall i | i in t.phase ensures CallOk(t, i) { assert CallOk(s, i); }
    DeskSame(s, t);
    WireSame(s, t, whole);
  }

  lemma AddKeeps(s: State, t: State, whole: seq<nat>)
    requires Inv(s, whole) && Adds(s, t)
    ensures Inv(t, whole)
  {
    NewId(s);
    LocksAdd(s, t);
    DeskSame(s, t);
    WireAdd(s, t, whole);
  }

  lemma StartKeeps(s: State, frame: seq<Byte>, whole: seq<nat>)
    requires Inv(s, whole) && IsFrame(frame)
    ensures Inv(DoStart(s, frame), whole)
  {
    if |frame| - 1 > MAX_LINE {
      SpendId(s, whole);
    } else {
      AddKeeps(s, DoStart(s, frame), whole);
    }
  }

  lemma CloseKeeps(s: State, whole: seq<nat>)
    requires Inv(s, whole)
    ensures Inv(s.(closed := true), whole)
  {
    var t := s.(closed := true);
    LocksSame(s, t);
    DeskSame(s, t);
    SameAll(s, t, whole);
  }

  lemma SendDesk(s: State)
    requires InvDesk(s) && s.inFlight.Some?
    ensures InvDesk(DoSend(s))
  {
    var t := DoSend(s);
    assert t.sent[|s.sent|] == s.inFlight.value;
    AnswersGrow(s, t);
  }

  lemma SendKeeps(s: State, whole: seq<nat>)
    requires Inv(s, whole) && s.inFlight.Some?
    ensures Inv(DoSend(s), whole)
  {
    LocksSame(s, DoSend(s));
    SendDesk(s);
    SameAll(s, DoSend(s), whole);
  }

  lemma DrainKeeps(s: State, order: seq<nat>, whole: seq<nat>)
    requires Inv(s, whole) && CanDrain(s, order)
    ensures Inv(DoDrain(s, order), whole)
  {
    var t := DoDrain(s, order);
    LocksSame(s, t);
    forall id | id in s.pending ensures Answered(t, id) {
      var i :| 0 <= i < |order| && order[i] == id;
      assert t.sent[|s.sent| + i] == Delivery(id, Refused);
    }
    AnswersGrow(s, t);
    SameAll(s, t, whole);
  }

  /** `t` is `s` after the reader has taken `d` out of `pending`. */
  ghost predicate Takes(s: State, t: State, d: Delivery) {
    d.id in s.pending && s.inFlight.None? && Honest(d) && t == s.(pending := s.pending - {d.id}, inFlight := Some(d))
  }

  lemma DeskTake(s: State, t: State, d: Delivery)
    requires InvDesk(s) && Takes(s, t, d)
    ensures InvDesk(t)
  {
    AnswersGrow(s, t);
    assert |t.pending| <= |s.pending| by { CardinalityLess(s.pending, d.id); }
  }

  lemma CardinalityLess(xs: set<nat>, x: nat)
    requires x in xs
    ensures |xs - {x}| == |xs| - 1
  {
  }

  lemma TakeCases(s: State, line: Option<Json>)
    requires s.inFlight.None?
    ensures var t := DoDispatch(s, line);
            || t == s
            || t == s.(reading := false)
            || (t.inFlight.Some? && Takes(s, t, t.inFlight.value))
  {
    if line.Some? && Get(line.value, "id") == Some(Null) {
      assert |s.pending| == 1 ==> exists id :: id in s.pending;
    }
  }

  lemma DispatchKeeps(s: State, line: Option<Json>, whole: seq<nat>)
    requires Inv(s, whole) && CanDispatch(s)
    ensures Inv(DoDispatch(s, line), whole)
  {
    var t := DoDispatch(s, line);
    TakeCases(s, line);
    LocksSame(s, t);
    if t.inFlight.Some? {
      DeskTake(s, t, t.inFlight.value);
    } else {
      DeskSame(s, t);
    }
    SameAll(s, t, whole);
  }

  /** A call that holds no lock, or only the registration section, moves to a phase without the writer lock; the
      pending map and the reply channels stay. */
  ghost predicate CallerMoves(s: State, t: State, id: nat) {
    && Is(s, id) && id in t.phase
    && t == Go(s, id, t.phase[id]).(registrar := t.registrar, closed := t.closed)
    && !Holds(s.phase[id]) && !Holds(t.phase[id])
    && (s.closed ==> t.closed)
    && (t.registrar == s.registrar
        || ((s.registrar == None || s.registrar == Some(id)) && (t.registrar == None || t.registrar == Some(id))))
    && (t.phase[id].Registering? <==> t.registrar == Some(id))
    && (t.drained ==> t.registrar.None?)
    && !t.phase[id].Fresh? && (t.phase[id].Registering? ==> s.phase[id].Fresh?)
    && (s.phase[id].Fresh? || s.phase[id].Registering? ==> t.phase[id].Registering? || t.phase[id].Done?)
    && (s.phase[id].Done? ==> t.phase[id].Done?)
    && (t.phase[id].Waiting? ==> s.phase[id].Waiting?)
    && (s.phase[id].Waiting? || s.phase[id].Leaving? ==>
          t.phase[id].Waiting? || t.phase[id].Leaving? || t.phase[id].Done?)
  }

  /** A phase outside the writer lock moves; what `Out` and `Sent` say of the call survives. */
  lemma OutsideMove(s: State, t: State, id: nat)
    requires Is(s, id) && id in t.phase && t.phase == s.phase[id := t.phase[id]]
    requires t.wire == s.wire && t.frames == s.frames && s.registered <= t.registered && t.received == s.received
    requires t.writer == s.writer && t.poisoned == s.poisoned && (s.closed ==> t.closed)
    requires !Holds(s.phase[id]) && !Holds(t.phase[id]) && (t.phase[id].Waiting? ==> s.phase[id].Waiting?)
    requires s.phase[id].Waiting? || s.phase[id].Leaving? || s.phase[id].Done? ==>
               t.phase[id].Waiting? || t.phase[id].Leaving? || t.phase[id].Done?
    ensures SameWire(s, t)
  {
  }

  lemma CallerKeeps(s: State, t: State, id: nat, whole: seq<nat>)
    requires Inv(s, whole) && CallerMoves(s, t, id)
    ensures Inv(t, whole)
  {
    CallerLocks(s, t, id);
    DeskSame(s, t);
    OutsideMove(s, t, id);
    WireSame(s, t, whole);
  }

  lemma CallerLocks(s: State, t: State, id: nat)
    requires InvLocks(s) && CallerMoves(s, t, id)
    ensures InvLocks(t)
  {
    assert CallOk(s, id);
    LocksMove(s, t, id);
  }

  lemma EnterKeeps(s: State, id: nat, whole: seq<nat>)
    requires Inv(s, whole) && CanEnter(s, id)
    ensures Inv(DoEnter(s, id), whole)
  {
    assert CallOk(s, id);
    CallerKeeps(s, DoEnter(s, id), id, whole);
  }

  lemma RegisterDesk(s: State, t: State, id: nat)
    requires InvDesk(s) && id !in s.registered && !s.drained && |s.pending| < MAX_PENDING
    requires id in t.phase && t.phase == s.phase[id := t.phase[id]]
    requires t.pending == s.pending + {id} && t.registered == s.registered + {id}
    requires t.sent == s.sent && t.inFlight == s.inFlight && t.received == s.received && t.drained == s.drained
    ensures InvDesk(t)
  {
    AnswersGrow(s, t);
  }

  lemma Registers(s: State, t: State, id: nat, whole: seq<nat>)
    requires Inv(s, whole) && Is(s, id) && s.phase[id].Registering? && |s.pending| < MAX_PENDING
    requires t == Go(s, id, Queued).(registrar := None, pending := s.pending + {id}, registered := s.registered + {id})
    ensures Inv(t, whole)
  {
    assert CallOk(s, id);
    LocksMove(s, t, id);
    RegisterDesk(s, t, id);
    OutsideMove(s, t, id);
    WireSame(s, t, whole);
  }

  lemma RegisterKeeps(s: State, id: nat, whole: seq<nat>)
    requires Inv(s, whole) && CanRegister(s, id)
    ensures Inv(DoRegister(s, id), whole)
  {
    assert CallOk(s, id);
    if |s.pending| >= MAX_PENDING {
      CallerKeeps(s, DoRegister(s, id), id, whole);
    } else {
      Registers(s, DoRegister(s, id), id, whole);
    }
  }

  lemma SeeOpenKeeps(s: State, id: nat, whole: seq<nat>)
    requires Inv(s, whole) && CanSeeOpen(s, id)
    ensures Inv(DoSeeOpen(s, id), whole)
  {
    assert CallOk(s, id);
    CallerKeeps(s, DoSeeOpen(s, id), id, whole);
  }

  lemma ReceiveDesk(s: State, id: nat, outcome: Outcome)
    requires InvDesk(s) && CanReceive(s, id, outcome)
    ensures InvDesk(DoReceive(s, id, outcome))
  {
    AnswersGrow(s, DoReceive(s, id, outcome));
  }

  lemma ReceiveWire(s: State, id: nat, outcome: Outcome, whole: seq<nat>)
    requires InvLocks(s) && WireOk(s, whole) && CanReceive(s, id, outcome)
    ensures WireOk(DoReceive(s, id, outcome), whole)
  {
    var t := DoReceive(s, id, outcome);
    assert Sent(s, id);
    assert SameWire(s, t);
    WireSame(s, t, whole);
  }

  lemma ReceiveKeeps(s: State, id: nat, outcome: Outcome, whole: seq<nat>)
    requires Inv(s, whole) && CanReceive(s, id, outcome)
    ensures Inv(DoReceive(s, id, outcome), whole)
  {
    assert CallOk(s, id);
    LocksMove(s, DoReceive(s, id, outcome), id);
    ReceiveDesk(s, id, outcome);
    ReceiveWire(s, id, outcome, whole);
  }

  lemma WithdrawDesk(s: State, id: nat)
    requires InvDesk(s)
    ensures InvDesk(DoWithdraw(s, id))
  {
    AnswersGrow(s, DoWithdraw(s, id));
    if id in s.pending { CardinalityLess(s.pending, id); } else { assert s.pending - {id} == s.pending; }
  }

  lemma WithdrawKeeps(s: State, id: nat, whole: seq<nat>)
    requires Inv(s, whole) && CanWithdraw(s, id)
    ensures Inv(DoWithdraw(s, id), whole)
  {
    assert CallOk(s, id);
    LocksMove(s, DoWithdraw(s, id), id);
    WithdrawDesk(s, id);
    OutsideMove(s, DoWithdraw(s, id), id);
    WireSame(s, DoWithdraw(s, id), whole);
  }

  // Steps under the writer lock.

  /** The phase of `id` moves, and with it perhaps the writer lock; the wire stays. */
  ghost predicate HolderStep(s: State, t: State, id: nat) {
    && InvLocks(s) && InvLocks(t)
    && Is(s, id) && id in t.phase && t.phase == s.phase[id := t.phase[id]]
    && t.frames == s.frames && t.wire == s.wire && t.registered == s.registered && t.received == s.received
    && (s.closed ==> t.closed) && (s.poisoned ==> t.poisoned)
  }

  lemma HolderTakes(s: State, t: State, id: nat, whole: seq<nat>)
    requires WireOk(s, whole) && HolderStep(s, t, id)
    requires s.phase[id].Trying? && t.phase[id] == Writing(0)
    ensures WireOk(t, whole)
  {
    assert CallOk(s, id) && CallOk(t, id);
    var tail := s.wire[|Frames(s.frames, whole)|..];
    if s.writer.Some? { assert CallOk(s, s.writer.value); }
    if IsStub(s, whole, tail) { assert IsStub(t, whole, tail); }
    assert forall i :: i in whole ==> Out(s, i) && Out(t, i);
    assert TailOk(t, whole, tail);
  }

  lemma HolderStays(s: State, t: State, id: nat, whole: seq<nat>)
    requires WireOk(s, whole) && HolderStep(s, t, id)
    requires Holds(s.phase[id]) && Holds(t.phase[id]) && Offset(s.phase[id]) == Offset(t.phase[id])
    requires t.phase[id].Cleared? ==> !s.closed
    ensures WireOk(t, whole)
  {
    assert CallOk(s, id) && CallOk(t, id);
    var tail := s.wire[|Frames(s.frames, whole)|..];
    if IsStub(s, whole, tail) { assert IsStub(t, whole, tail); }
    assert forall i :: i in whole ==> Out(s, i) && Out(t, i);
    assert TailOk(t, whole, tail);
  }

  lemma HolderLeaves(s: State, t: State, id: nat, whole: seq<nat>)
    requires WireOk(s, whole) && HolderStep(s, t, id)
    requires Holds(s.phase[id]) && t.writer.None?
    requires if Offset(s.phase[id]) == |s.frames[id]| then t.phase[id].Leaving? || t.phase[id].Waiting?
             else t.phase[id].Leaving? && (t.closed || t.poisoned)
    ensures WireOk(t, whole)
  {
    assert CallOk(s, id) && CallOk(t, id);
    var tail := s.wire[|Frames(s.frames, whole)|..];
    if IsStub(s, whole, tail) { assert IsStub(t, whole, tail); }
    assert forall i :: i in whole ==> Out(s, i) && Out(t, i);
    if 0 < Offset(s.phase[id]) < |s.frames[id]| {
      assert IsStub(t, whole, tail);
    }
    assert TailOk(t, whole, tail);
  }

  lemma TakesWriter(s: State, t: State, id: nat, whole: seq<nat>)
    requires Inv(s, whole) && CanTakeWriter(s, id) && s.writer.None?
    requires t == Go(s, id, Writing(0)).(writer := Some(id))
    ensures Inv(t, whole)
  {
    assert CallOk(s, id);
    LocksMove(s, t, id);
    DeskSame(s, t);
    HolderTakes(s, t, id, whole);
  }

  lemma TakeWriterKeeps(s: State, id: nat, whole: seq<nat>)
    requires Inv(s, whole) && CanTakeWriter(s, id)
    ensures Inv(DoTakeWriter(s, id), whole)
  {
    assert CallOk(s, id);
    if s.writer.Some? {
      CallerKeeps(s, DoTakeWriter(s, id), id, whole);
    } else {
      TakesWriter(s, DoTakeWriter(s, id), id, whole);
    }
  }

  /** The holder moves to another phase under the lock at the same offset. */
  lemma HolderKeeps(s: State, t: State, id: nat, phase: Phase, whole: seq<nat>)
    requires Inv(s, whole) && Is(s, id) && Holds(s.phase[id]) && Holds(phase) && Offset(phase) == Offset(s.phase[id])
    requires t == Go(s, id, phase).(closed := t.closed) && (s.closed ==> t.closed)
    requires phase.Stopping? ==> t.closed
    requires phase.Cleared? ==> !s.closed && phase.at < |s.frames[id]|
    ensures Inv(t, whole)
  {
    assert CallOk(s, id);
    LocksMove(s, t, id);
    DeskSame(s, t);
    HolderStays(s, t, id, whole);
  }

  lemma RecheckKeeps(s: State, id: nat, whole: seq<nat>)
    requires Inv(s, whole) && CanRecheck(s, id)
    ensures Inv(DoRecheck(s, id), whole)
  {
    var at := s.phase[id].at;
    HolderKeeps(s, DoRecheck(s, id), id, if s.closed then Stopping(at) else Cleared(at), whole);
  }

  lemma FinishKeeps(s: State, id: nat, whole: seq<nat>)
    requires Inv(s, whole) && CanFinish(s, id)
    ensures Inv(DoFinish(s, id), whole)
  {
    assert CallOk(s, id);
    if Holds(s.phase[id]) {
      HolderKeeps(s, DoFinish(s, id), id, Stopping(Offset(s.phase[id])), whole);
    } else {
      CallerKeeps(s, DoFinish(s, id), id, whole);
    }
  }

  /** The holder releases the lock, by a panic or at its end. */
  lemma HolderExits(s: State, t: State, id: nat, whole: seq<nat>)
    requires Inv(s, whole) && Is(s, id) && Holds(s.phase[id]) && id in t.phase
    requires t == Go(s, id, t.phase[id]).(writer := None, poisoned := t.poisoned)
    requires t.phase[id].Leaving? || t.phase[id].Waiting?
    requires Offset(s.phase[id]) != |s.frames[id]| ==> t.phase[id].Leaving? && (s.closed || t.poisoned)
    ensures Inv(t, whole)
  {
    assert CallOk(s, id);
    LocksMove(s, t, id);
    DeskSame(s, t);
    HolderLeaves(s, t, id, whole);
  }

  lemma PanicKeeps(s: State, id: nat, whole: seq<nat>)
    requires Inv(s, whole) && CanPanic(s, id)
    ensures Inv(DoPanic(s, id), whole)
  {
    assert CallOk(s, id);
    if s.phase[id].Writing? {
      HolderExits(s, DoPanic(s, id), id, whole);
    } else {
      CallerKeeps(s, DoPanic(s, id), id, whole);
    }
  }

  lemma ReleaseKeeps(s: State, id: nat, whole: seq<nat>)
    requires Inv(s, whole) && CanRelease(s, id)
    ensures Inv(DoRelease(s, id), whole)
  {
    assert CallOk(s, id);
    HolderExits(s, DoRelease(s, id), id, whole);
  }

  /** The holder `id`, which has seen `closed` unset, puts `n` more bytes of its frame on the wire. */
  ghost predicate Puts(s: State, t: State, id: nat, n: nat) {
    && Is(s, id) && s.phase[id].Cleared? && s.writer == Some(id)
    && s.phase[id].at < |s.frames[id]| && s.phase[id].at + n <= |s.frames[id]|
    && id in t.phase && (t.phase[id].Writing? || t.phase[id].Broken?) && Offset(t.phase[id]) == s.phase[id].at + n
    && t.phase == s.phase[id := t.phase[id]]
    && t == s.(phase := t.phase, wire := s.wire + s.frames[id][s.phase[id].at..s.phase[id].at + n])
  }

  /** The whole frames after the holder `id` has put out `n` more bytes. */
  ghost function Grown(s: State, id: nat, n: nat, whole: seq<nat>): seq<nat>
    requires Is(s, id)
  {
    if Offset(s.phase[id]) + n == |s.frames[id]| then whole + [id] else whole
  }

  /** Nothing but the holder's phase and the wire is different. */
  lemma PutsKeeps(s: State, t: State, id: nat, n: nat, whole: seq<nat>)
    requires WireOk(s, whole) && Puts(s, t, id, n)
    ensures forall i :: i in whole ==> i in s.frames && (i != id ==> Out(t, i))
    ensures forall i :: Sent(t, i) ==> i in whole
    ensures Offset(t.phase[id]) == |s.frames[id]| && id in s.registered ==> Out(t, id)
  {
    hide TailOk, IsStub, Frames;
    assert forall i :: i in whole ==> Out(s, i);
    assert forall i :: Sent(t, i) ==> Sent(s, i);
  }

  /** Where the holder stands: its progress is the tail, and it is none of the whole frames. */
  lemma PutsFrom(s: State, t: State, id: nat, n: nat, whole: seq<nat>)
    requires InvLocks(s) && WireOk(s, whole) && Puts(s, t, id, n)
    ensures id in s.registered && id !in whole && (forall i :: i in whole ==> i in s.frames)
    ensures s.wire == Frames(s.frames, whole) + s.frames[id][..s.phase[id].at]
    ensures t.wire == Frames(s.frames, whole) + s.frames[id][..s.phase[id].at + n]
  {
    hide Frames, IsStub;
    assert CallOk(s, id);
    var frame, at := s.frames[id], s.phase[id].at;
    assert forall i :: i in whole ==> Out(s, i);
    var bytes := Frames(s.frames, whole);
    var tail := s.wire[|bytes|..];
    assert TailOk(s, whole, tail);
    assert s.wire == bytes + tail && tail == frame[..at];
    assert frame[..at] + frame[at..at + n] == frame[..at + n];
  }

  lemma FramesSnoc(frames: map<nat, seq<Byte>>, ids: seq<nat>, id: nat)
    requires id in frames && forall i :: i in ids ==> i in frames
    ensures Frames(frames, ids + [id]) == Frames(frames, ids) + frames[id]
  {
    assert (ids + [id])[..|ids|] == ids;
  }

  lemma WirePuts(s: State, t: State, id: nat, n: nat, whole: seq<nat>)
    requires InvLocks(s) && WireOk(s, whole) && Puts(s, t, id, n)
    ensures WireOk(t, Grown(s, id, n, whole))
  {
    hide Frames, IsStub, Out, Sent;
    PutsKeeps(s, t, id, n, whole);
    PutsFrom(s, t, id, n, whole);
    var frame, at := s.frames[id], s.phase[id].at;
    var bytes := Frames(s.frames, whole);
    if at + n < |frame| {
      assert t.wire[|bytes|..] == frame[..at + n];
      assert TailOk(t, whole, frame[..at + n]);
    } else {
      FramesSnoc(s.frames, whole, id);
      assert t.wire == bytes + frame;
      assert t.wire[|bytes + frame|..] == [];
      assert TailOk(t, whole + [id], []);
    }
  }

  lemma HolderWrites(s: State, t: State, id: nat, n: nat, whole: seq<nat>)
    requires Inv(s, whole) && Puts(s, t, id, n)
    ensures Inv(t, Grown(s, id, n, whole))
  {
    assert CallOk(s, id);
    LocksMove(s, t, id);
    DeskSame(s, t);
    WirePuts(s, t, id, n, whole);
  }

  lemma WritesKeep(s: State, id: nat, n: nat, whole: seq<nat>, failed: bool)
    requires Inv(s, whole) && CanWrite(s, id, n)
    ensures Inv(if failed then DoFailWrite(s, id, n) else DoWrite(s, id, n), Grown(s, id, n, whole))
  {
    assert CallOk(s, id);
    HolderWrites(s, if failed then DoFailWrite(s, id, n) else DoWrite(s, id, n), id, n, whole);
  }

  lemma StepKeeps(s: State, step: Step, whole: seq<nat>) returns (whole': seq<nat>)
    requires Inv(s, whole) && Enabled(s, step)
    ensures Inv(Apply(s, step), whole')
  {
    whole' := whole;
    match step {
      case Start(frame) => StartKeeps(s, frame, whole);
      case EnterPending(id) => EnterKeeps(s, id, whole);
      case Register(id) => RegisterKeeps(s, id, whole);
      case SeeOpen(id) => SeeOpenKeeps(s, id, whole);
      case TakeWriter(id) => TakeWriterKeeps(s, id, whole);
      case Recheck(id) => RecheckKeeps(s, id, whole);
      case Write(id, n) =>
        WritesKeep(s, id, n, whole, false);
        whole' := Grown(s, id, n, whole);
      case FailWrite(id, n) =>
        WritesKeep(s, id, n, whole, true);
        whole' := Grown(s, id, n, whole);
      case Finish(id) => FinishKeeps(s, id, whole);
      case Panic(id) => PanicKeeps(s, id, whole);
      case Release(id) => ReleaseKeeps(s, id, whole);
      case Receive(id, outcome) => ReceiveKeeps(s, id, outcome, whole);
      case Withdraw(id) => WithdrawKeeps(s, id, whole);
      case Close => CloseKeeps(s, whole);
      case Drain(order) => DrainKeeps(s, order, whole);
      case Dispatch(line) => DispatchKeeps(s, line, whole);
      case Send => SendKeeps(s, whole);
    }
  }

  lemma {:induction false} RunKeeps(run: seq<State>, steps: seq<Step>, i: nat) returns (whole: seq<nat>)
    requires IsRun(run, steps) && i < |run|
    ensures Inv(run[i], whole)
  {
    if i == 0 {
      whole := [];
      assert Frames(run[0].frames, whole) == [];
    } else {
      whole := RunKeeps(run, steps, i - 1);
      whole := StepKeeps(run[i - 1], steps[i - 1], whole);
    }
  }

  // ----- the wire, over every schedule ----------------------------------------------------------------------------

  /** `bytes` is whole frames of distinct calls, then a proper prefix of the frame of one more call, or nothing. */
  ghost predicate FramesThenStub(s: State, bytes: seq<Byte>) {
    exists whole: seq<nat>, tail ::
      && Distinct(whole) && (forall id :: id in whole ==> id in s.frames && id in s.registered)
      && (forall id :: Sent(s, id) ==> id in whole)
      && bytes == Frames(s.frames, whole) + tail
      && (tail == [] || IsStub(s, whole, tail))
  }

  /** What the server can have read at any moment; a call that waits for its reply, or got one, is among the whole
      frames. */
  lemma WireIntegrity(run: seq<State>, steps: seq<Step>, i: nat)
    requires IsRun(run, steps) && i < |run|
    ensures FramesThenStub(run[i], run[i].wire)
  {
    var s := run[i];
    var whole := RunKeeps(run, steps, i);
    WireReads(s, whole);
  }

  lemma WireReads(s: State, whole: seq<nat>)
    requires InvLocks(s) && WireOk(s, whole)
    ensures FramesThenStub(s, s.wire)
  {
    var bytes := Frames(s.frames, whole);
    var tail := s.wire[|bytes|..];
    assert s.wire == bytes + tail;
    if s.writer.Some? {
      assert CallOk(s, s.writer.value);
      if 0 < Offset(s.phase[s.writer.value]) < |s.frames[s.writer.value]| { assert IsStub(s, whole, tail); }
    }
  }

  /** The wire ends inside a frame and no call holds the writer lock any more. */
  ghost predicate Truncated(s: State) {
    s.writer.None? && s.wire != [] && s.wire[|s.wire| - 1] != NEWLINE
  }

  /** The wire ends with a stub that is not the holder's own. */
  ghost predicate Dead(s: State) {
    && (s.writer.Some? ==> s.writer.value in s.phase && !s.phase[s.writer.value].Cleared?
                           && Offset(s.phase[s.writer.value]) == 0)
    && (s.closed || s.poisoned)
  }

  lemma TruncatedIsDead(s: State, whole: seq<nat>)
    requires Inv(s, whole) && Truncated(s)
    ensures Dead(s)
  {
    var bytes := Frames(s.frames, whole);
    assert forall id :: id in whole ==> CallOk(s, id);
    FramesEnd(s.frames, whole);
    var tail := s.wire[|bytes|..];
    assert s.wire == bytes + tail;
  }

  /** What no step undoes: the drain, the stub at the end of a dead wire, and, but for `Register`, the calls that ever
      registered. */
  ghost predicate Keeps(s: State, t: State) {
    && (s.drained ==> t.drained)
    && (s.drained ==> t.registered == s.registered)
    && (Dead(s) ==> Dead(t) && t.wire == s.wire)
  }

  lemma ReaderFrame(s: State, line: Option<Json>, order: seq<nat>)
    ensures Keeps(s, s.(closed := true)) && Keeps(s, DoDrain(s, order))
    ensures s.inFlight.None? ==> Keeps(s, DoDispatch(s, line))
    ensures s.inFlight.Some? ==> Keeps(s, DoSend(s))
  {
    if s.inFlight.None? { TakeCases(s, line); }
  }

  lemma StartFrame(s: State, frame: seq<Byte>)
    requires InvLocks(s)
    ensures Keeps(s, DoStart(s, frame))
  {
    NewId(s);
  }

  lemma EntryFrame(s: State, id: nat)
    requires InvLocks(s)
    ensures CanEnter(s, id) ==> Keeps(s, DoEnter(s, id))
    ensures CanRegister(s, id) ==> Keeps(s, DoRegister(s, id))
  {
    assert Is(s, id) ==> CallOk(s, id);
    if s.writer.Some? { assert CallOk(s, s.writer.value); }
  }

  lemma CallerFrame(s: State, id: nat, outcome: Outcome)
    requires InvLocks(s)
    ensures CanSeeOpen(s, id) ==> Keeps(s, DoSeeOpen(s, id))
    ensures CanReceive(s, id, outcome) ==> Keeps(s, DoReceive(s, id, outcome))
    ensures CanWithdraw(s, id) ==> Keeps(s, DoWithdraw(s, id))
  {
    if s.writer.Some? { assert CallOk(s, s.writer.value); }
  }

  lemma HolderFrame(s: State, id: nat, n: nat)
    requires InvLocks(s)
    ensures CanTakeWriter(s, id) ==> Keeps(s, DoTakeWriter(s, id))
    ensures CanRecheck(s, id) ==> Keeps(s, DoRecheck(s, id))
    ensures CanWrite(s, id, n) ==> Keeps(s, DoWrite(s, id, n)) && Keeps(s, DoFailWrite(s, id, n))
  {
    if s.writer.Some? { assert CallOk(s, s.writer.value); }
    assert Is(s, id) ==> CallOk(s, id);
  }

  lemma ExitFrame(s: State, id: nat)
    requires InvLocks(s)
    ensures CanFinish(s, id) ==> Keeps(s, DoFinish(s, id))
    ensures CanPanic(s, id) ==> Keeps(s, DoPanic(s, id))
    ensures CanRelease(s, id) ==> Keeps(s, DoRelease(s, id))
  {
    if s.writer.Some? { assert CallOk(s, s.writer.value); }
  }

  lemma StepFrame(s: State, step: Step)
    requires InvLocks(s) && Enabled(s, step)
    ensures Keeps(s, Apply(s, step))
  {
    match step {
      case Start(frame) => StartFrame(s, frame);
      case EnterPending(id) => EntryFrame(s, id);
      case Register(id) => EntryFrame(s, id);
      case SeeOpen(id) => CallerFrame(s, id, Refused);
      case Receive(id, outcome) => CallerFrame(s, id, outcome);
      case Withdraw(id) => CallerFrame(s, id, Refused);
      case TakeWriter(id) => HolderFrame(s, id, 0);
      case Recheck(id) => HolderFrame(s, id, 0);
      case Write(id, n) => HolderFrame(s, id, n);
      case FailWrite(id, n) => HolderFrame(s, id, n);
      case Finish(id) => ExitFrame(s, id);
      case Panic(id) => ExitFrame(s, id);
      case Release(id) => ExitFrame(s, id);
      case Close => ReaderFrame(s, None, []);
      case Drain(order) => ReaderFrame(s, None, order);
      case Dispatch(line) => ReaderFrame(s, line, []);
      case Send => ReaderFrame(s, None, []);
    }
  }

  lemma {:induction false} RunFrame(run: seq<State>, steps: seq<Step>, i: nat, j: nat)
    requires IsRun(run, steps) && i <= j < |run|
    ensures Keeps(run[i], run[j])
  {
    if i < j {
      RunFrame(run, steps, i, j - 1);
      var _ := RunKeeps(run, steps, j - 1);
      StepFrame(run[j - 1], steps[j - 1]);
    }
  }

  /** No byte ever follows a truncated frame. */
  lemma NothingAfterTruncation(run: seq<State>, steps: seq<Step>, i: nat, j: nat)
    requires IsRun(run, steps) && i <= j < |run| && Truncated(run[i])
    ensures run[j].wire == run[i].wire
  {
    var whole := RunKeeps(run, steps, i);
    TruncatedIsDead(run[i], whole);
    RunFrame(run, steps, i, j);
  }

  // ----- replies, over every schedule -----------------------------------------------------------------------------

  /** Once `finish` has drained the map nothing is registered again, and every call that ever registered has been
      sent an outcome, is about to be sent the one the reader holds, or has withdrawn itself. */
  lemma NoOrphans(run: seq<State>, steps: seq<Step>, i: nat, j: nat)
    requires IsRun(run, steps) && i <= j < |run| && run[i].drained
    ensures run[j].pending == {} && run[j].registered == run[i].registered
    ensures forall id :: id in run[j].registered && id in run[j].phase ==>
              run[j].phase[id].Done? || Answered(run[j], id)
  {
    RunFrame(run, steps, i, j);
    var _ := RunKeeps(run, steps, j);
  }

  /** `msg` answers a call with `answer`: with its error, if it has one, or else with its result. */
  ghost predicate Says(msg: Json, answer: Answer) {
    && msg.Obj?
    && match answer
       case Failed(error) => "error" in msg.fields && error == msg.fields["error"]
       case Returned(value) => "error" !in msg.fields && "result" in msg.fields && value == msg.fields["result"]
       case Neither => "error" !in msg.fields && "result" !in msg.fields
  }

  /** `d` says what the line says: its own answer to the call it names, or its error to a call it does not name. */
  ghost predicate Reads(line: Option<Json>, d: Delivery) {
    && line.Some? && line.value.Obj? && "id" in line.value.fields
    && match d.outcome
       case Reply(id, answer) => id == d.id && line.value.fields["id"] == Int(id) && Says(line.value, answer)
       case Attributed(answer) =>
         line.value.fields["id"] == Null && "error" in line.value.fields && Says(line.value, answer)
       case Refused => false
  }

  /** The reader has taken the call of `d` out of `pending` for the line of step `k`. */
  ghost predicate ReadAt(run: seq<State>, steps: seq<Step>, k: nat, d: Delivery)
    requires |run| == |steps| + 1
  {
    k < |steps| && steps[k].Dispatch? && Reads(steps[k].line, d) && d.id in run[k].pending
    && run[k + 1].inFlight == Some(d)
  }

  /** `d` is in the reader's hands or in its channel. */
  ghost predicate Given(s: State, d: Delivery) {
    s.inFlight == Some(d) || d in s.sent
  }

  lemma TakenIsRead(s: State, line: Option<Json>)
    requires CanDispatch(s)
    ensures var t := DoDispatch(s, line);
            t.sent == s.sent && t.drained == s.drained
            && (t.inFlight.Some? ==> t.inFlight.value.id in s.pending && Reads(line, t.inFlight.value))
  {
    TakeCases(s, line);
  }

  ghost predicate SameGiven(s: State, t: State) {
    t.sent == s.sent && t.inFlight == s.inFlight
  }

  lemma EntriesGiveNothing(s: State, id: nat, frame: seq<Byte>)
    ensures SameGiven(s, DoStart(s, frame)) && SameGiven(s, DoEnter(s, id)) && SameGiven(s, DoRegister(s, id))
  {
  }

  lemma CallersGiveNothing(s: State, id: nat, outcome: Outcome)
    ensures SameGiven(s, DoSeeOpen(s, id)) && SameGiven(s, DoReceive(s, id, outcome)) && SameGiven(s, DoWithdraw(s, id))
    ensures SameGiven(s, DoTakeWriter(s, id))
  {
  }

  lemma HoldersGiveNothing(s: State, id: nat, n: nat)
    ensures CanRecheck(s, id) ==> SameGiven(s, DoRecheck(s, id))
    ensures CanWrite(s, id, n) ==> SameGiven(s, DoWrite(s, id, n)) && SameGiven(s, DoFailWrite(s, id, n))
    ensures CanFinish(s, id) ==> SameGiven(s, DoFinish(s, id))
    ensures CanPanic(s, id) ==> SameGiven(s, DoPanic(s, id))
    ensures CanRelease(s, id) ==> SameGiven(s, DoRelease(s, id))
  {
  }

  /** Nothing but the reader and the drain has to do with deliveries. */
  lemma OthersGiveNothing(s: State, step: Step)
    requires Enabled(s, step) && !step.Dispatch? && !step.Send? && !step.Drain?
    ensures SameGiven(s, Apply(s, step))
  {
    hide DoStart, DoEnter, DoRegister, DoSeeOpen, DoReceive, DoWithdraw, DoTakeWriter;
    hide DoRecheck, DoWrite, DoFailWrite, DoFinish, DoPanic, DoRelease;
    match step {
      case Start(frame) => EntriesGiveNothing(s, 0, frame);
      case EnterPending(id) => EntriesGiveNothing(s, id, []);
      case Register(id) => EntriesGiveNothing(s, id, []);
      case SeeOpen(id) => CallersGiveNothing(s, id, Refused);
      case TakeWriter(id) => CallersGiveNothing(s, id, Refused);
      case Receive(id, outcome) => CallersGiveNothing(s, id, outcome);
      case Withdraw(id) => CallersGiveNothing(s, id, Refused);
      case Recheck(id) => HoldersGiveNothing(s, id, 0);
      case Write(id, n) => HoldersGiveNothing(s, id, n);
      case FailWrite(id, n) => HoldersGiveNothing(s, id, n);
      case Finish(id) => HoldersGiveNothing(s, id, 0);
      case Panic(id) => HoldersGiveNothing(s, id, 0);
      case Release(id) => HoldersGiveNothing(s, id, 0);
      case Close =>
    }
  }

  /** A step keeps every delivery, and a send puts it into its channel. */
  lemma StepGives(s: State, step: Step, d: Delivery)
    requires Enabled(s, step) && Given(s, d)
    ensures Given(Apply(s, step), d)
    ensures d in s.sent || step.Send? ==> d in Apply(s, step).sent
  {
    match step {
      case Dispatch(line) => TakenIsRead(s, line);
      case Send => assert DoSend(s).sent[|s.sent|] == s.inFlight.value;
      case Drain(order) =>
      case _ => OthersGiveNothing(s, step);
    }
  }

  /** A delivery that a step has brought about. */
  lemma GivenBy(s: State, step: Step, d: Delivery)
    requires Enabled(s, step) && Given(Apply(s, step), d) && !Given(s, d)
    ensures if d.outcome.Refused? then Apply(s, step).drained
            else step.Dispatch? && Reads(step.line, d) && d.id in s.pending && Apply(s, step).inFlight == Some(d)
  {
    match step {
      case Dispatch(line) => TakenIsRead(s, line);
      case Send =>
      case Drain(order) =>
      case _ => OthersGiveNothing(s, step);
    }
  }

  /** No call is told anything the server did not say: a reply, in its channel, returned or on its way there, is what
      an earlier line says, and that line named this call, or it had an error and named none. Each comes from a line of
      its own. A refusal comes from the drain alone. */
  lemma {:induction false} RepliesAreRead(run: seq<State>, steps: seq<Step>, i: nat, d: Delivery)
    requires IsRun(run, steps) && i < |run|
    requires Given(run[i], d) || (d.id in run[i].received && run[i].received[d.id] == d.outcome)
    ensures if d.outcome.Refused? then run[i].drained else exists k: nat :: k < i && ReadAt(run, steps, k, d)
  {
    var _ := RunKeeps(run, steps, i);
    assert Given(run[i], d);
    GivenIsRead(run, steps, i, d);
  }

  lemma {:induction false} GivenIsRead(run: seq<State>, steps: seq<Step>, i: nat, d: Delivery)
    requires IsRun(run, steps) && i < |run| && Given(run[i], d)
    ensures if d.outcome.Refused? then run[i].drained else exists k: nat :: k < i && ReadAt(run, steps, k, d)
  {
    hide Enabled, Apply, Reads, Keeps;
    if i > 0 {
      var s, step := run[i - 1], steps[i - 1];
      if Given(s, d) {
        GivenIsRead(run, steps, i - 1, d);
        if s.drained { DrainStays(run, steps, i - 1); }
      } else {
        GivenBy(s, step, d);
        assert !d.outcome.Refused? ==> ReadAt(run, steps, i - 1, d);
      }
    }
  }

  lemma DrainStays(run: seq<State>, steps: seq<Step>, i: nat)
    requires IsRun(run, steps) && i < |steps| && run[i].drained
    ensures run[i + 1].drained
  {
    RunFrame(run, steps, i, i + 1);
  }

  /** Each call is sent at most one outcome, what a call returns was sent to it and is what an earlier line says of this
      call, or the refusal of the drain, and the pending map is bounded. */
  lemma RepliesNeverCross(run: seq<State>, steps: seq<Step>, i: nat)
    requires IsRun(run, steps) && i < |run|
    ensures forall d, e :: d in run[i].sent && e in run[i].sent && d.id == e.id ==> d == e
    ensures forall j, k :: 0 <= j < k < |run[i].sent| ==> run[i].sent[j].id != run[i].sent[k].id
    ensures forall id :: id in run[i].received ==>
              var d := Delivery(id, run[i].received[id]);
              d in run[i].sent && Honest(d)
              && if d.outcome.Refused? then run[i].drained else exists k: nat :: k < i && ReadAt(run, steps, k, d)
    ensures |run[i].pending| <= MAX_PENDING
  {
    var _ := RunKeeps(run, steps, i);
    forall id | id in run[i].received
      ensures var d := Delivery(id, run[i].received[id]);
              if d.outcome.Refused? then run[i].drained else exists k: nat :: k < i && ReadAt(run, steps, k, d)
    {
      RepliesAreRead(run, steps, i, Delivery(id, run[i].received[id]));
    }
  }

  /** What the reader does with a line: a response to a pending call takes that call, and no other, out of the map and
      is given to it; one to a call that is not pending is dropped, as is a line without an id; an error for nobody
      goes to the only pending call; any other id, or a line that is not JSON, ends the reader. */
  lemma LineIsDispatched(run: seq<State>, steps: seq<Step>, i: nat)
    requires IsRun(run, steps) && i < |steps| && steps[i].Dispatch?
    ensures var (s, t, line) := (run[i], run[i + 1], steps[i].line);
            && t.sent == s.sent && t.received == s.received && t.closed == s.closed && t.phase == s.phase
            && (if line.Some? && line.value.Obj? && "id" in line.value.fields then
                  match line.value.fields["id"]
                  case Int(n) =>
                    if 0 <= n <= MAX_ID then
                      t.reading && t.pending == s.pending - {n}
                      && if n in s.pending then
                           exists a :: Says(line.value, a) && t.inFlight == Some(Delivery(n, Reply(n, a)))
                         else t.inFlight.None?
                    else !t.reading && t.pending == s.pending && t.inFlight.None?
                  case Null =>
                    if "error" in line.value.fields && exists id :: s.pending == {id} then
                      var id :| s.pending == {id};
                      t.reading && t.pending == {}
                      && t.inFlight == Some(Delivery(id, Attributed(Failed(line.value.fields["error"]))))
                    else !t.reading && t.pending == s.pending && t.inFlight.None?
                  case _ => !t.reading && t.pending == s.pending && t.inFlight.None?
                else t.reading == line.Some? && t.pending == s.pending && t.inFlight.None?)
  {
    var s, line := run[i], steps[i].line;
    if line.Some? && line.value.Obj? && "id" in line.value.fields {
      assert Says(line.value, AnswerOf(line.value));
      if line.value.fields["id"].Null? {
        OnlyOne(s.pending);
      }
    }
  }

  lemma OnlyOne(xs: set<nat>)
    ensures |xs| == 1 <==> exists x :: xs == {x}
  {
    if |xs| == 1 {
      var x :| x in xs;
      CardinalityLess(xs, x);
      assert xs == {x};
    }
  }

  /** What the reader has taken for a call stays with it: until the send in the reader's hands, then in the channel. */
  lemma {:induction false} GivenStays(run: seq<State>, steps: seq<Step>, i: nat, j: nat, d: Delivery)
    requires IsRun(run, steps) && i <= j < |run| && Given(run[i], d)
    ensures Given(run[j], d)
    ensures (exists k :: i <= k < j && steps[k].Send?) ==> d in run[j].sent
  {
    if i < j {
      hide Enabled, Apply, Given;
      GivenStays(run, steps, i, j - 1, d);
      StepGives(run[j - 1], steps[j - 1], d);
    }
  }

  /** An error line without an id is attributed only when no other call can still be waiting unanswered. */
  lemma AttributionIsUnique(run: seq<State>, steps: seq<Step>, i: nat, id: nat, other: nat, answer: Answer)
    requires IsRun(run, steps) && i < |steps| && steps[i].Dispatch?
    requires run[i + 1].inFlight == Some(Delivery(id, Attributed(answer))) && other != id
    requires other in run[i].registered && other in run[i].phase && !run[i].phase[other].Done?
    ensures Answered(run[i], other)
  {
    var _ := RunKeeps(run, steps, i);
    var s := run[i];
    TakeCases(s, steps[i].line);
    if other in s.pending {
      assert {other, id} <= s.pending;
      SubsetSize({other, id}, s.pending);
    }
  }

  lemma {:induction false} SubsetSize(a: set<nat>, b: set<nat>)
    requires a <= b
    ensures |a| <= |b|
  {
    if a != {} {
      var x :| x in a;
      SubsetSize(a - {x}, b - {x});
    }
  }
}
