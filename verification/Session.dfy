/** One helper session: the reader loop, the op goroutine, the two mutexes and the
    idle timer, as atomic steps between lock operations
    (internal/helper/server.go:153-373). Requests arrive from any client at all.

    Messages are numbered in the order they are read; that serial number, not the
    client's request ID, identifies a request here. */
module Session {
  import opened Arith
  import opened Outside

  datatype Handshake = Matches | Mismatch | BadParams

  datatype Op = Ping(h: Handshake) | Cancel | Work(takesImage: bool)

  datatype Request = Request(id: nat, op: Op)

  datatype Message = Malformed(fds: seq<Fd>) | Line(req: Request, fds: seq<Fd>)

  datatype Code = Success | Busy | InvalidRequest | VersionMismatch | OpError

  datatype Kind = Progress | Terminal(code: Code)

  /** A response on the wire; serial is the request it answers. Malformed input is
      answered with the empty ID, written 0 here. */
  datatype Response = Response(id: nat, kind: Kind, serial: nat)

  /** The reader goroutine: serve's loop with handle inlined. */
  datatype Reader =
    | Waiting
    | Got(m: Message)
    | Decoding(m: Message)
    | Handling(req: Request, src: Option<Fd>)
    | Replying(resp: Response, close: bool, src: Option<Fd>)
    | Rearming
    | Closing
    | Draining
    | Returned

  /** An op goroutine, from the moment it is marked in flight. */
  datatype Phase = Running | Finished(code: Code) | Locked(code: Code) | Cleared(code: Code) | Written

  datatype Worker = Worker(req: Request, image: Option<Fd>, phase: Phase)

  datatype Event =
    | Handshook
    | Started(serial: nat)
    | RunReturned(serial: nat)
    | CancelledOp(op: nat, canceller: nat)
    | Wrote(serial: nat, kind: Kind, byOp: bool)

  datatype State = State(
    reader: Reader,
    received: nat,
    inflight: Option<nat>,
    handshake: bool,
    armed: bool,
    fired: bool,
    wmu: Option<nat>,
    workers: map<nat, Worker>,
    open: bool,
    log: seq<Event>,
    out: seq<Response>,
    delivered: seq<Fd>,
    closed: seq<Fd>)

  function Init(): State {
    State(Waiting, 0, None, false, true, false, None, map[], true, [], [], [], [])
  }

  datatype Action =
    | Receive(m: Message)
    | ReceiveFails
    | StopTimer
    | DecodeMalformed
    | DecodeLine
    | HandlePing
    | HandleUnready
    | HandleCancel
    | HandleBusy
    | HandleStart
    | Reply
    | Rearm
    | CloseDown
    | Return
    | OpProgress(serial: nat)
    | OpReturns(serial: nat, code: Code)
    | OpLock(serial: nat)
    | OpClear(serial: nat)
    | OpWrite(serial: nat)
    | OpRetire(serial: nat)
    | TimerFires
    | ConnBreaks

  function Held(src: Option<Fd>): seq<Fd> {
    if src.Some? then [src.value] else []
  }

  predicate InPhase(s: State, k: nat, p: Phase) {
    k in s.workers && s.workers[k].phase == p
  }

  /** The worker is inside the region in which sess.inflight is its cancel. */
  predicate InFlight(p: Phase) {
    p.Running? || p.Finished? || p.Locked?
  }

  /** Whether handle goes past its handshake check. */
  predicate Ready(s: State) {
    s.reader.Handling? && !s.reader.req.op.Ping? && s.handshake
  }

  /** Whether a step can be taken; the branches of handle exclude one another. */
  predicate Enabled(s: State, a: Action) {
    match a
    case Receive(_) => s.reader.Waiting?
    case ReceiveFails => s.reader.Waiting?
    case StopTimer => s.reader.Got?
    case DecodeMalformed => s.reader.Decoding? && s.reader.m.Malformed? && s.received > 0
    case DecodeLine => s.reader.Decoding? && s.reader.m.Line?
    case HandlePing => s.reader.Handling? && s.reader.req.op.Ping? && s.received > 0
    case HandleUnready => s.reader.Handling? && !s.reader.req.op.Ping? && !s.handshake && s.received > 0
    case HandleCancel => Ready(s) && s.reader.req.op.Cancel? && s.received > 0
    case HandleBusy => Ready(s) && s.reader.req.op.Work? && s.inflight.Some? && s.received > 0
    case HandleStart => Ready(s) && s.reader.req.op.Work? && s.inflight.None? && s.received > 0
    case Reply => s.reader.Replying? && s.wmu.None?
    case Rearm => s.reader.Rearming?
    case CloseDown => s.reader.Closing?
    case Return => s.reader.Draining? && s.workers == map[]
    case OpProgress(k) => InPhase(s, k, Running) && s.wmu.None?
    case OpReturns(k, _) => InPhase(s, k, Running)
    case OpLock(k) => k in s.workers && s.workers[k].phase.Finished? && s.wmu.None?
    case OpClear(k) => k in s.workers && s.workers[k].phase.Locked?
    case OpWrite(k) => k in s.workers && s.workers[k].phase.Cleared?
    case OpRetire(k) => InPhase(s, k, Written)
    case TimerFires => s.armed
    case ConnBreaks => true
  }

  /** writeLocked: a write to a closed connection is only logged as a failure. */
  function Write(s: State, k: nat, id: nat, kind: Kind, byOp: bool): State {
    s.(log := s.log + [Wrote(k, kind, byOp)],
       out := if s.open then s.out + [Response(id, kind, k)] else s.out)
  }

  function SetPhase(s: State, k: nat, p: Phase): State
    requires k in s.workers
  {
    s.(workers := s.workers[k := s.workers[k].(phase := p)])
  }

  /** Only write_image keeps a descriptor; handle closes any other at once. */
  function Kept(r: Reader): Option<Fd>
    requires r.Handling?
  {
    if r.req.op.Work? && r.req.op.takesImage then r.src else None
  }

  function Dropped(r: Reader): seq<Fd>
    requires r.Handling?
  {
    if r.req.op.Work? && r.req.op.takesImage then [] else Held(r.src)
  }

  /** The reader answers the request it handles, keeping a descriptor until it has. */
  function Answer(s: State, code: Code, close: bool): State
    requires s.reader.Handling? && s.received > 0
  {
    s.(reader := Replying(Response(s.reader.req.id, Terminal(code), s.received - 1), close, Kept(s.reader)),
       closed := s.closed + Dropped(s.reader))
  }

  function PingCode(h: Handshake): Code {
    match h
    case Matches => Success
    case Mismatch => VersionMismatch
    case BadParams => InvalidRequest
  }

  predicate HandleStep(a: Action) {
    a.HandlePing? || a.HandleUnready? || a.HandleCancel? || a.HandleBusy? || a.HandleStart?
  }

  predicate OpStep(a: Action) {
    a.OpProgress? || a.OpReturns? || a.OpLock? || a.OpClear? || a.OpWrite? || a.OpRetire?
  }

  /** The reader, the timer and the connection, outside handle. */
  function ReaderStep(s: State, a: Action): State
    requires Enabled(s, a) && !HandleStep(a) && !OpStep(a)
  {
    match a
    case Receive(m) => s.(reader := Got(m), received := s.received + 1, delivered := s.delivered + m.fds)
    case ReceiveFails => s.(reader := Closing)
    case StopTimer => s.(reader := Decoding(s.reader.m), armed := false)
    case DecodeMalformed =>
      s.(closed := s.closed + s.reader.m.fds,
         reader := Replying(Response(0, Terminal(InvalidRequest), s.received - 1), true, None))
    case DecodeLine =>
      // takeFile keeps the first descriptor and closes the rest.
      var fds := s.reader.m.fds;
      s.(closed := s.closed + fds[if fds == [] then 0 else 1..],
         reader := Handling(s.reader.m.req, if fds == [] then None else Some(fds[0])))
    case Reply =>
      var r := s.reader;
      Write(s, r.resp.serial, r.resp.id, r.resp.kind, false).(
        reader := if r.close then Closing else Rearming, closed := s.closed + Held(r.src))
    case Rearm => s.(reader := Waiting, armed := s.armed || s.inflight.None?)
    case CloseDown => s.(reader := Draining, open := false)
    case Return => s.(reader := Returned, armed := false)
    case TimerFires =>
      // The callback's own close comes later, as a ConnBreaks.
      s.(armed := false, fired := true)
    case ConnBreaks => s.(open := false)
  }

  /** handle's branches, up to the response it goes on to write. */
  function Handle(s: State, a: Action): State
    requires Enabled(s, a) && HandleStep(a)
  {
    match a
    case HandlePing =>
      var h := s.reader.req.op.h;
      var ok := h.Matches?;
      Answer(s, PingCode(h), !ok).(
        handshake := s.handshake || ok, log := if ok then s.log + [Handshook] else s.log)
    case HandleUnready => Answer(s, InvalidRequest, true)
    case HandleCancel =>
      Answer(s, Success, false).(
        log := if s.inflight.Some? then s.log + [CancelledOp(s.inflight.value, s.received - 1)] else s.log)
    case HandleBusy => Answer(s, Busy, false)
    case HandleStart =>
      s.(inflight := Some(s.received - 1), armed := false, reader := Rearming,
         log := s.log + [Started(s.received - 1)],
         workers := s.workers[s.received - 1 := Worker(s.reader.req, Kept(s.reader), Running)],
         closed := s.closed + Dropped(s.reader))
  }

  /** The op goroutine; OpLock to OpWrite is the region under both mutexes. */
  function WorkerStep(s: State, a: Action): State
    requires Enabled(s, a) && OpStep(a)
  {
    match a
    case OpProgress(k) => Write(s, k, s.workers[k].req.id, Progress, true)
    case OpReturns(k, code) => SetPhase(s, k, Finished(code)).(log := s.log + [RunReturned(k)])
    case OpLock(k) => SetPhase(s, k, Locked(s.workers[k].phase.code)).(wmu := Some(k))
    case OpClear(k) => SetPhase(s, k, Cleared(s.workers[k].phase.code)).(inflight := None, armed := true)
    case OpWrite(k) =>
      Write(SetPhase(s, k, Written), k, s.workers[k].req.id, Terminal(s.workers[k].phase.code), true).(wmu := None)
    case OpRetire(k) => s.(workers := s.workers - {k}, closed := s.closed + Held(s.workers[k].image))
  }

  function Apply(s: State, a: Action): State
    requires Enabled(s, a)
  {
    if HandleStep(a) then Handle(s, a) else if OpStep(a) then WorkerStep(s, a) else ReaderStep(s, a)
  }

  // ---- what every step keeps

  /** Who is in flight, and who holds the write lock. */
  ghost predicate Control(s: State) {
    && (s.reader.Got? || s.reader.Decoding? || s.reader.Handling? || s.reader.Replying? ==> s.received > 0)
    && (s.reader.Replying? ==> s.reader.resp.serial == s.received - 1 && s.reader.resp.kind.Terminal?)
    && (forall k | k in s.workers :: k < s.received)
    && (forall k | k in s.workers :: InFlight(s.workers[k].phase) <==> s.inflight == Some(k))
    && (s.inflight.Some? ==> s.inflight.value in s.workers)
    && (forall k | k in s.workers :: (s.workers[k].phase.Locked? || s.workers[k].phase.Cleared?) <==> s.wmu == Some(k))
    && (s.wmu.Some? ==> s.wmu.value in s.workers)
    && (forall k | k in s.workers && s.workers[k].phase.Cleared? :: s.inflight.Some? ==> k < s.inflight.value)
    && (forall k | k in s.workers && k == s.received - 1 ::
          !s.reader.Got? && !s.reader.Decoding? && !s.reader.Handling? && !s.reader.Replying?)
    && (s.reader.Returned? ==> s.workers == map[])
  }

  /** The two-sided idle rule. */
  ghost predicate Idle(s: State) {
    && (s.inflight.Some? ==> !s.armed)
    && (s.reader.Waiting? && s.inflight.None? ==> s.armed || s.fired)
  }

  /** Descriptors delivered with a message and not closed yet. */
  ghost function ReaderHolds(r: Reader): seq<Fd> {
    match r
    case Got(m) => m.fds
    case Decoding(m) => m.fds
    case Handling(_, src) => Held(src)
    case Replying(_, _, src) => Held(src)
    case _ => []
  }

  function Times(fds: seq<Fd>, fd: Fd): nat {
    if fds == [] then 0 else Times(fds[..|fds| - 1], fd) + if fds[|fds| - 1] == fd then 1 else 0
  }

  /** How often the op goroutines with serials below n have descriptor fd open. */
  ghost function OpsHold(workers: map<nat, Worker>, n: nat, fd: Fd): nat {
    if n == 0 then 0
    else OpsHold(workers, n - 1, fd) + if n - 1 in workers then Times(Held(workers[n - 1].image), fd) else 0
  }

  /** Every descriptor delivered is closed or still held, and never both. */
  ghost predicate ConservedAt(s: State, fd: Fd) {
    Times(s.delivered, fd) ==
    Times(s.closed, fd) + Times(ReaderHolds(s.reader), fd) + OpsHold(s.workers, s.received, fd)
  }

  ghost predicate Conserved(s: State) {
    forall fd: Fd :: ConservedAt(s, fd)
  }

  function Answers(log: seq<Event>, k: nat): nat {
    if log == [] then 0
    else Answers(log[..|log| - 1], k) +
         var e := log[|log| - 1];
         if e.Wrote? && e.serial == k && e.kind.Terminal? then 1 else 0
  }

  predicate Reading(r: Reader) {
    r.Got? || r.Decoding? || r.Handling? || r.Replying?
  }

  /** Message k has been read but its terminal response has not been written. */
  predicate Unanswered(s: State, k: nat) {
    || (k + 1 == s.received && Reading(s.reader))
    || (k in s.workers && !s.workers[k].phase.Written?)
  }

  ghost predicate OneAnswer(s: State) {
    forall k: nat :: Answers(s.log, k) == if k < s.received && !Unanswered(s, k) then 1 else 0
  }

  predicate WrittenByOp(e: Event) {
    e.Wrote? && e.byOp
  }

  /** What ops write is in the order the ops were read, and nothing follows an op's
      terminal response but the writes of later ops. */
  ghost predicate OpsInOrder(log: seq<Event>) {
    forall i, j | 0 <= i < j < |log| && WrittenByOp(log[i]) && WrittenByOp(log[j]) ::
      log[i].serial <= log[j].serial && (log[i].kind.Terminal? ==> log[i].serial < log[j].serial)
  }

  ghost predicate MayStillWrite(s: State) {
    && (forall i | 0 <= i < |s.log| && WrittenByOp(s.log[i]) ::
          s.log[i].serial + 1 < s.received || (s.log[i].serial + 1 == s.received && !Reading(s.reader)))
    && forall k, i | k in s.workers && !s.workers[k].phase.Written? && 0 <= i < |s.log| && WrittenByOp(s.log[i]) ::
      s.log[i].serial < k || (s.log[i].serial == k && s.log[i].kind.Progress?)
  }

  ghost predicate ReturnedAfter(log: seq<Event>, i: nat, k: nat) {
    exists m :: i < m < |log| && log[m] == RunReturned(k)
  }

  /** Between two starts of run the first has returned; and a matching ping comes
      before any start. */
  ghost predicate RunsApart(log: seq<Event>) {
    forall i, j | 0 <= i < j < |log| && log[i].Started? && log[j].Started? ::
      ReturnedAfter(log[..j], i, log[i].serial)
  }

  ghost predicate Shaken(log: seq<Event>) {
    exists i :: 0 <= i < |log| && log[i].Handshook?
  }

  ghost predicate PingFirst(log: seq<Event>) {
    forall j | 0 <= j < |log| && log[j].Started? :: Shaken(log[..j])
  }

  ghost predicate RunsTracked(s: State) {
    && (s.handshake ==> Shaken(s.log))
    && (s.inflight.Some? ==> s.handshake)
    && (forall i | 0 <= i < |s.log| && s.log[i].Started? ::
          InPhase(s, s.log[i].serial, Running) || ReturnedAfter(s.log, i, s.log[i].serial))
  }

  ghost predicate Inv(s: State) {
    && Control(s) && Idle(s) && Conserved(s) && OneAnswer(s)
    && OpsInOrder(s.log) && MayStillWrite(s) && RunsApart(s.log) && PingFirst(s.log) && RunsTracked(s)
  }

  // ---- each step keeps the invariant

  lemma ControlHandle(s: State, a: Action)
    requires Control(s) && Enabled(s, a) && HandleStep(a)
    ensures Control(Apply(s, a))
  {
    hide ReaderStep, WorkerStep;
  }

  lemma ControlOpRuns(s: State, a: Action)
    requires Control(s) && Enabled(s, a) && (a.OpProgress? || a.OpReturns? || a.OpLock?)
    ensures Control(Apply(s, a))
  {
    hide ReaderStep, Handle;
  }

  lemma ControlOpClear(s: State, k: nat)
    requires Control(s) && Enabled(s, OpClear(k))
    ensures Control(Apply(s, OpClear(k)))
  {
    hide ReaderStep, Handle;
  }

  lemma ControlOpWrite(s: State, k: nat)
    requires Control(s) && Enabled(s, OpWrite(k))
    ensures Control(Apply(s, OpWrite(k)))
  {
    hide ReaderStep, Handle;
  }

  lemma ControlOpRetire(s: State, k: nat)
    requires Control(s) && Enabled(s, OpRetire(k))
    ensures Control(Apply(s, OpRetire(k)))
  {
    hide ReaderStep, Handle;
  }

  lemma ControlReader(s: State, a: Action)
    requires Control(s) && Enabled(s, a) && !HandleStep(a) && !OpStep(a)
    ensures Control(Apply(s, a))
  {
    hide Handle, WorkerStep;
  }

  lemma ControlKept(s: State, a: Action)
    requires Control(s) && Enabled(s, a)
    ensures Control(Apply(s, a))
  {
    hide Control, Apply, Enabled;
    if HandleStep(a) {
      ControlHandle(s, a);
    } else if a.OpProgress? || a.OpReturns? || a.OpLock? {
      ControlOpRuns(s, a);
    } else if a.OpClear? {
      ControlOpClear(s, a.serial);
    } else if a.OpWrite? {
      ControlOpWrite(s, a.serial);
    } else if a.OpRetire? {
      ControlOpRetire(s, a.serial);
    } else {
      ControlReader(s, a);
    }
  }

  lemma IdleHandle(s: State, a: Action)
    requires Idle(s) && Enabled(s, a) && HandleStep(a)
    ensures Idle(Apply(s, a))
  {
    hide ReaderStep, WorkerStep;
  }

  lemma IdleOp(s: State, a: Action)
    requires Control(s) && Idle(s) && Enabled(s, a) && OpStep(a)
    ensures Idle(Apply(s, a))
  {
    hide ReaderStep, Handle;
  }

  lemma IdleReader(s: State, a: Action)
    requires Idle(s) && Enabled(s, a) && !HandleStep(a) && !OpStep(a)
    ensures Idle(Apply(s, a))
  {
    hide Handle, WorkerStep;
  }

  lemma IdleKept(s: State, a: Action)
    requires Control(s) && Idle(s) && Enabled(s, a)
    ensures Idle(Apply(s, a))
  {
    hide Control, Idle, Apply, Enabled;
    if HandleStep(a) {
      IdleHandle(s, a);
    } else if OpStep(a) {
      IdleOp(s, a);
    } else {
      IdleReader(s, a);
    }
  }

  lemma {:induction false} OpsHoldSame(v: map<nat, Worker>, w: map<nat, Worker>, n: nat, fd: Fd)
    requires forall k: nat | k < n :: (k in v <==> k in w) && (k in v ==> v[k].image == w[k].image)
    ensures OpsHold(v, n, fd) == OpsHold(w, n, fd)
  {
    if n > 0 {
      OpsHoldSame(v, w, n - 1, fd);
    }
  }

  lemma {:induction false} OpsHoldRemove(v: map<nat, Worker>, k: nat, n: nat, fd: Fd)
    requires k in v && k < n
    ensures OpsHold(v, n, fd) == OpsHold(v - {k}, n, fd) + Times(Held(v[k].image), fd)
  {
    if k == n - 1 {
      OpsHoldSame(v, v - {k}, n - 1, fd);
    } else {
      OpsHoldRemove(v, k, n - 1, fd);
    }
  }

  lemma OpsHoldAdd(v: map<nat, Worker>, n: nat, w: Worker, fd: Fd)
    requires n !in v
    ensures OpsHold(v[n := w], n + 1, fd) == OpsHold(v, n + 1, fd) + Times(Held(w.image), fd)
  {
    OpsHoldSame(v, v[n := w], n, fd);
  }

  lemma OpsHoldNew(s: State, fd: Fd)
    requires Control(s)
    ensures OpsHold(s.workers, s.received + 1, fd) == OpsHold(s.workers, s.received, fd)
  {
  }

  lemma {:induction false} TimesAppend(a: seq<Fd>, b: seq<Fd>, fd: Fd)
    ensures Times(a + b, fd) == Times(a, fd) + Times(b, fd)
  {
    if b == [] {
      assert a + b == a;
    } else {
      var c := b[..|b| - 1];
      assert (a + b)[..|a + b| - 1] == a + c;
      TimesAppend(a, c, fd);
    }
  }

  lemma TimesNone(fd: Fd)
    ensures Times([], fd) == 0
  {
  }

  lemma ConservedRetire(s: State, k: nat, fd: Fd)
    requires Control(s) && ConservedAt(s, fd) && Enabled(s, OpRetire(k))
    ensures ConservedAt(Apply(s, OpRetire(k)), fd)
  {
    hide ReaderStep, Handle, OpsHold, Times;
    OpsHoldRemove(s.workers, k, s.received, fd);
    TimesAppend(s.closed, Held(s.workers[k].image), fd);
  }

  predicate SameReader(s: State, t: State) {
    t.delivered == s.delivered && t.closed == s.closed && t.reader == s.reader && t.received == s.received
  }

  lemma OpRunKeepsReader(s: State, a: Action)
    requires Enabled(s, a) && (a.OpProgress? || a.OpReturns? || a.OpLock?)
    ensures SameReader(s, Apply(s, a))
  {
    hide ReaderStep, Handle;
  }

  lemma OpEndKeepsReader(s: State, a: Action)
    requires Enabled(s, a) && (a.OpClear? || a.OpWrite?)
    ensures SameReader(s, Apply(s, a))
  {
    hide ReaderStep, Handle;
  }

  lemma OpKeepsReader(s: State, a: Action)
    requires Enabled(s, a) && OpStep(a) && !a.OpRetire?
    ensures SameReader(s, Apply(s, a))
  {
    hide Apply, Enabled;
    if a.OpClear? || a.OpWrite? {
      OpEndKeepsReader(s, a);
    } else {
      OpRunKeepsReader(s, a);
    }
  }

  /** Until it retires, an op goroutine keeps its descriptor. */
  lemma OpKeepsImage(s: State, a: Action)
    requires Enabled(s, a) && OpStep(a) && !a.OpRetire?
    ensures var t := Apply(s, a);
            && a.serial in s.workers && a.serial in t.workers
            && t.workers == s.workers[a.serial := t.workers[a.serial]]
            && t.workers[a.serial].image == s.workers[a.serial].image
  {
    hide ReaderStep, Handle;
    assert s.workers == s.workers[a.serial := s.workers[a.serial]];
  }

  lemma ConservedOp(s: State, a: Action, fd: Fd)
    requires Control(s) && ConservedAt(s, fd) && Enabled(s, a) && OpStep(a)
    ensures ConservedAt(Apply(s, a), fd)
  {
    hide Apply, Enabled, Control, OpsHold, Times;
    if a.OpRetire? {
      ConservedRetire(s, a.serial, fd);
    } else {
      OpKeepsReader(s, a);
      OpKeepsImage(s, a);
      OpsHoldSame(s.workers, Apply(s, a).workers, s.received, fd);
    }
  }

  lemma ConservedStart(s: State, fd: Fd)
    requires Control(s) && ConservedAt(s, fd) && Enabled(s, HandleStart)
    ensures ConservedAt(Apply(s, HandleStart), fd)
  {
    hide ReaderStep, WorkerStep, OpsHold, Times, Control;
    StartKeepsImages(s);
    OpsHoldAdd(s.workers, s.received - 1, Worker(s.reader.req, Kept(s.reader), Running), fd);
    TimesAppend(s.closed, Dropped(s.reader), fd);
    TimesNone(fd);
  }

  lemma ConservedHandle(s: State, a: Action, fd: Fd)
    requires Control(s) && ConservedAt(s, fd) && Enabled(s, a) && HandleStep(a)
    ensures ConservedAt(Apply(s, a), fd)
  {
    hide ReaderStep, WorkerStep, OpsHold, Times, Control;
    if a.HandleStart? {
      ConservedStart(s, fd);
    } else {
      TimesAppend(s.closed, Dropped(s.reader), fd);
      TimesNone(fd);
    }
  }

  lemma StartKeepsImages(s: State)
    requires Control(s) && s.reader.Handling?
    ensures s.received > 0 && s.received - 1 !in s.workers
  {
  }

  /** takeFile keeps the first descriptor of a line and closes the rest. */
  lemma ConservedDecode(s: State, a: Action, fd: Fd)
    requires ConservedAt(s, fd) && Enabled(s, a) && (a.DecodeMalformed? || a.DecodeLine?)
    ensures ConservedAt(Apply(s, a), fd)
  {
    hide Handle, WorkerStep, OpsHold, Times;
    TimesNone(fd);
    var fds := s.reader.m.fds;
    if a.DecodeMalformed? {
      TimesAppend(s.closed, fds, fd);
    } else if fds == [] {
      assert s.closed + fds[0..] == s.closed;
    } else {
      TimesAppend(s.closed, fds[1..], fd);
      TimesAppend([fds[0]], fds[1..], fd);
      assert fds == [fds[0]] + fds[1..];
    }
  }

  lemma ConservedReader(s: State, a: Action, fd: Fd)
    requires Control(s) && ConservedAt(s, fd) && Enabled(s, a) && !HandleStep(a) && !OpStep(a)
    requires !a.DecodeMalformed? && !a.DecodeLine?
    ensures ConservedAt(Apply(s, a), fd)
  {
    hide Handle, WorkerStep, OpsHold, Times;
    if a.Receive? {
      OpsHoldNew(s, fd);
      TimesAppend(s.delivered, a.m.fds, fd);
    } else if a.Reply? {
      TimesAppend(s.closed, Held(s.reader.src), fd);
    }
    TimesNone(fd);
  }

  lemma ConservedKept(s: State, a: Action)
    requires Control(s) && Conserved(s) && Enabled(s, a)
    ensures Conserved(Apply(s, a))
  {
    hide Control, ConservedAt, Apply, Enabled;
    forall fd: Fd
      ensures ConservedAt(Apply(s, a), fd)
    {
      if HandleStep(a) {
        ConservedHandle(s, a, fd);
      } else if OpStep(a) {
        ConservedOp(s, a, fd);
      } else if a.DecodeMalformed? || a.DecodeLine? {
        ConservedDecode(s, a, fd);
      } else {
        ConservedReader(s, a, fd);
      }
    }
  }

  /** What a step records. */
  function EventOf(s: State, a: Action): Option<Event>
    requires Enabled(s, a)
  {
    match a
    case HandlePing => if s.reader.req.op.h.Matches? then Some(Handshook) else None
    case HandleCancel =>
      if s.inflight.Some? then Some(CancelledOp(s.inflight.value, s.received - 1)) else None
    case HandleStart => Some(Started(s.received - 1))
    case Reply => Some(Wrote(s.reader.resp.serial, s.reader.resp.kind, false))
    case OpProgress(k) => Some(Wrote(k, Progress, true))
    case OpReturns(k, _) => Some(RunReturned(k))
    case OpWrite(k) => Some(Wrote(k, Terminal(s.workers[k].phase.code), true))
    case _ => None
  }

  ghost predicate Logs(s: State, e: Option<Event>, t: State) {
    t.log == if e.Some? then s.log + [e.value] else s.log
  }

  lemma HandleLogs(s: State, a: Action)
    requires Enabled(s, a) && HandleStep(a)
    ensures Logs(s, EventOf(s, a), Apply(s, a))
  {
    hide ReaderStep, WorkerStep;
  }

  lemma OpLogs(s: State, a: Action)
    requires Enabled(s, a) && OpStep(a)
    ensures Logs(s, EventOf(s, a), Apply(s, a))
  {
    hide ReaderStep, Handle;
  }

  lemma ReaderLogs(s: State, a: Action)
    requires Enabled(s, a) && !HandleStep(a) && !OpStep(a)
    ensures Logs(s, EventOf(s, a), Apply(s, a))
  {
    hide Handle, WorkerStep;
  }

  lemma StepLogs(s: State, a: Action)
    requires Enabled(s, a)
    ensures Apply(s, a).log == if EventOf(s, a).Some? then s.log + [EventOf(s, a).value] else s.log
  {
    hide Apply, Enabled, EventOf;
    if HandleStep(a) {
      HandleLogs(s, a);
    } else if OpStep(a) {
      OpLogs(s, a);
    } else {
      ReaderLogs(s, a);
    }
  }

  lemma AnswersAppend(log: seq<Event>, e: Event, k: nat)
    ensures Answers(log + [e], k) ==
            Answers(log, k) + if e.Wrote? && e.serial == k && e.kind.Terminal? then 1 else 0
  {
    assert (log + [e])[..|log|] == log;
  }

  /** The response a step completes, if any. */
  function Completes(s: State, a: Action): Option<nat>
    requires Enabled(s, a)
  {
    match a
    case Reply => Some(s.reader.resp.serial)
    case OpWrite(k) => Some(k)
    case _ => None
  }

  lemma AnswersStep(s: State, a: Action, k: nat)
    requires Control(s) && Enabled(s, a)
    ensures Answers(Apply(s, a).log, k) == Answers(s.log, k) + if Completes(s, a) == Some(k) then 1 else 0
  {
    hide Answers, Apply;
    StepLogs(s, a);
    if EventOf(s, a).Some? {
      AnswersAppend(s.log, EventOf(s, a).value, k);
    }
  }

  lemma UnansweredOp(s: State, a: Action, k: nat)
    requires Control(s) && Enabled(s, a) && OpStep(a)
    ensures var t := Apply(s, a);
            Completes(s, a) == Some(k) ==> k < s.received <= t.received && Unanswered(s, k) && !Unanswered(t, k)
    ensures var t := Apply(s, a);
            Completes(s, a) != Some(k) ==>
              (k < s.received && !Unanswered(s, k) <==> k < t.received && !Unanswered(t, k))
  {
    hide Handle, ReaderStep;
  }

  lemma UnansweredHandle(s: State, a: Action, k: nat)
    requires Control(s) && Enabled(s, a) && HandleStep(a)
    ensures var t := Apply(s, a);
            k < s.received && !Unanswered(s, k) <==> k < t.received && !Unanswered(t, k)
  {
    hide WorkerStep, ReaderStep;
  }

  lemma UnansweredReader(s: State, a: Action, k: nat)
    requires Control(s) && Enabled(s, a) && !HandleStep(a) && !OpStep(a)
    ensures var t := Apply(s, a);
            Completes(s, a) == Some(k) ==> k < s.received <= t.received && Unanswered(s, k) && !Unanswered(t, k)
    ensures var t := Apply(s, a);
            Completes(s, a) != Some(k) ==>
              (k < s.received && !Unanswered(s, k) <==> k < t.received && !Unanswered(t, k))
  {
    hide WorkerStep, Handle;
  }

  lemma UnansweredStep(s: State, a: Action, k: nat)
    requires Control(s) && Enabled(s, a)
    ensures var t := Apply(s, a);
            Completes(s, a) == Some(k) ==> k < s.received <= t.received && Unanswered(s, k) && !Unanswered(t, k)
    ensures var t := Apply(s, a);
            Completes(s, a) != Some(k) ==>
              (k < s.received && !Unanswered(s, k) <==> k < t.received && !Unanswered(t, k))
  {
    hide Apply, Enabled, Control, Unanswered;
    if HandleStep(a) {
      UnansweredHandle(s, a, k);
    } else if OpStep(a) {
      UnansweredOp(s, a, k);
    } else {
      UnansweredReader(s, a, k);
    }
  }

  lemma OneAnswerKept(s: State, a: Action)
    requires Control(s) && OneAnswer(s) && Enabled(s, a)
    ensures OneAnswer(Apply(s, a))
  {
    hide Answers, Control, Enabled, Unanswered, Apply;
    var t := Apply(s, a);
    forall k: nat
      ensures Answers(t.log, k) == if k < t.received && !Unanswered(t, k) then 1 else 0
    {
      AnswersStep(s, a, k);
      UnansweredStep(s, a, k);
      assert Answers(s.log, k) == if k < s.received && !Unanswered(s, k) then 1 else 0;
    }
  }

  lemma OpsInOrderKept(s: State, a: Action)
    requires Control(s) && OpsInOrder(s.log) && MayStillWrite(s) && Enabled(s, a)
    ensures OpsInOrder(Apply(s, a).log)
  {
    var e := LogGrowsBy(s, a);
    if e.Some? && WrittenByOp(e.value) {
      assert a.serial in s.workers && !s.workers[a.serial].phase.Written?;
    }
    hide Apply, Enabled, Control;
  }

  lemma MayStillWriteWrite(s: State, a: Action)
    requires Control(s) && MayStillWrite(s) && Enabled(s, a) && (a.OpProgress? || a.OpWrite?)
    ensures MayStillWrite(Apply(s, a))
  {
    hide ReaderStep, Handle;
  }

  lemma MayStillWriteOp(s: State, a: Action)
    requires Control(s) && MayStillWrite(s) && Enabled(s, a) && OpStep(a)
    ensures MayStillWrite(Apply(s, a))
  {
    hide ReaderStep, Handle, Control;
    if a.OpProgress? || a.OpWrite? {
      MayStillWriteWrite(s, a);
    }
  }

  lemma MayStillWriteHandle(s: State, a: Action)
    requires Control(s) && MayStillWrite(s) && Enabled(s, a) && HandleStep(a)
    ensures MayStillWrite(Apply(s, a))
  {
    hide ReaderStep, WorkerStep;
  }

  lemma MayStillWriteReader(s: State, a: Action)
    requires Control(s) && MayStillWrite(s) && Enabled(s, a) && !HandleStep(a) && !OpStep(a)
    ensures MayStillWrite(Apply(s, a))
  {
    hide Handle, WorkerStep;
  }

  lemma MayStillWriteKept(s: State, a: Action)
    requires Control(s) && MayStillWrite(s) && Enabled(s, a)
    ensures MayStillWrite(Apply(s, a))
  {
    hide Control, MayStillWrite, Apply, Enabled;
    if HandleStep(a) {
      MayStillWriteHandle(s, a);
    } else if OpStep(a) {
      MayStillWriteOp(s, a);
    } else {
      MayStillWriteReader(s, a);
    }
  }

  lemma ReturnedAfterAppend(log: seq<Event>, e: Event, i: nat, k: nat)
    requires ReturnedAfter(log, i, k)
    ensures ReturnedAfter(log + [e], i, k)
  {
    var m :| i < m < |log| && log[m] == RunReturned(k);
    assert (log + [e])[m] == RunReturned(k);
  }

  /** Appending a start needs every earlier run to have returned. */
  lemma RunsApartAppend(log: seq<Event>, e: Event)
    requires RunsApart(log) && PingFirst(log)
    requires e.Started? ==> Shaken(log)
    requires e.Started? ==> forall i | 0 <= i < |log| && log[i].Started? :: ReturnedAfter(log, i, log[i].serial)
    ensures RunsApart(log + [e]) && PingFirst(log + [e])
  {
    var t := log + [e];
    forall i, j | 0 <= i < j < |t| && t[i].Started? && t[j].Started?
      ensures ReturnedAfter(t[..j], i, t[i].serial)
    {
      assert t[..j] == log[..j];
      if j == |log| {
        assert log[..j] == log;
      }
    }
    forall j | 0 <= j < |t| && t[j].Started?
      ensures Shaken(t[..j])
    {
      assert t[..j] == log[..j];
      if j == |log| {
        assert log[..j] == log;
      }
    }
  }

  lemma RunsTrackedKept(s: State, a: Action)
    requires Control(s) && RunsTracked(s) && Enabled(s, a)
    ensures RunsTracked(Apply(s, a))
  {
    var t := Apply(s, a);
    ShakenKept(s, a);
    forall i | 0 <= i < |t.log| && t.log[i].Started?
      ensures InPhase(t, t.log[i].serial, Running) || ReturnedAfter(t.log, i, t.log[i].serial)
    {
      StartedTracked(s, a, i);
    }
  }

  lemma LogGrows(s: State, a: Action) returns (e: Option<Event>)
    requires Enabled(s, a)
    ensures Apply(s, a).log == if e.Some? then s.log + [e.value] else s.log
    ensures (e.Some? && e.value.Started?) <==> a.HandleStart?
    ensures a.HandleStart? ==> e == Some(Started(s.received - 1))
    ensures a.OpReturns? ==> e == Some(RunReturned(a.serial))
    ensures e == Some(Handshook) <==> a.HandlePing? && s.reader.req.op.h.Matches?
  {
    hide Apply;
    StepLogs(s, a);
    e := EventOf(s, a);
  }

  /** Which step records which event. */
  predicate Records(s: State, a: Action, e: Event) {
    match e
    case Handshook => a.HandlePing?
    case Started(k) => a.HandleStart? && k + 1 == s.received
    case RunReturned(k) => a.OpReturns? && k == a.serial
    case CancelledOp(op, c) => a.HandleCancel? && s.inflight == Some(op) && c + 1 == s.received
    case Wrote(k, kind, byOp) =>
      if byOp then (a.OpProgress? || a.OpWrite?) && k == a.serial
      else a.Reply? && s.reader.Replying? && kind == s.reader.resp.kind
  }

  lemma LogGrowsBy(s: State, a: Action) returns (e: Option<Event>)
    requires Enabled(s, a)
    ensures Apply(s, a).log == if e.Some? then s.log + [e.value] else s.log
    ensures e.Some? ==> Records(s, a, e.value)
  {
    hide Apply;
    StepLogs(s, a);
    e := EventOf(s, a);
  }

  lemma ShakenKept(s: State, a: Action)
    requires Control(s) && RunsTracked(s) && Enabled(s, a)
    ensures Apply(s, a).handshake ==> Shaken(Apply(s, a).log)
    ensures Apply(s, a).inflight.Some? ==> Apply(s, a).handshake
  {
    hide ReturnedAfter, Apply, Enabled;
    var t := Apply(s, a);
    var e := LogGrows(s, a);
    HandshakeStep(s, a);
    if e == Some(Handshook) {
      assert t.log[|s.log|].Handshook?;
    } else if s.handshake {
      var i :| 0 <= i < |s.log| && s.log[i].Handshook?;
      assert t.log[i].Handshook?;
    }
  }

  /** Only a matching ping shakes hands, and nothing starts without. */
  lemma HandshakeStep(s: State, a: Action)
    requires Enabled(s, a)
    ensures Apply(s, a).handshake <==> s.handshake || (a.HandlePing? && s.reader.req.op.h.Matches?)
    ensures Apply(s, a).inflight.Some? ==> s.inflight.Some? || (s.handshake && a.HandleStart?)
  {
    if HandleStep(a) {
      HandshakeHandle(s, a);
    }
  }

  lemma HandshakeHandle(s: State, a: Action)
    requires Enabled(s, a) && HandleStep(a)
    ensures Apply(s, a).handshake <==> s.handshake || (a.HandlePing? && s.reader.req.op.h.Matches?)
    ensures Apply(s, a).inflight.Some? ==> s.inflight.Some? || (s.handshake && a.HandleStart?)
  {
    hide ReaderStep, WorkerStep;
  }

  lemma RunningUntilReturned(s: State, a: Action, k: nat)
    requires Control(s) && Enabled(s, a) && InPhase(s, k, Running)
    ensures InPhase(Apply(s, a), k, Running) || (a.OpReturns? && a.serial == k)
  {
  }

  lemma StartRuns(s: State, a: Action)
    requires Enabled(s, a) && a.HandleStart?
    ensures InPhase(Apply(s, a), s.received - 1, Running)
  {
  }

  lemma StartedTracked(s: State, a: Action, i: nat)
    requires Control(s) && RunsTracked(s) && Enabled(s, a)
    requires i < |Apply(s, a).log| && Apply(s, a).log[i].Started?
    ensures var t := Apply(s, a);
            InPhase(t, t.log[i].serial, Running) || ReturnedAfter(t.log, i, t.log[i].serial)
  {
    hide Shaken, Apply, Enabled, Control, InPhase;
    var t := Apply(s, a);
    var e := LogGrows(s, a);
    if i < |s.log| {
      var k := s.log[i].serial;
      if ReturnedAfter(s.log, i, k) {
        if e.Some? {
          ReturnedAfterAppend(s.log, e.value, i, k);
        }
      } else {
        RunningUntilReturned(s, a, k);
        if a.OpReturns? && a.serial == k {
          assert t.log[|s.log|] == RunReturned(k);
        }
      }
    } else {
      StartRuns(s, a);
    }
  }

  lemma RunsApartKept(s: State, a: Action)
    requires Control(s) && RunsTracked(s) && RunsApart(s.log) && PingFirst(s.log) && Enabled(s, a)
    ensures RunsApart(Apply(s, a).log) && PingFirst(Apply(s, a).log)
  {
    hide Apply, ReturnedAfter, RunsApart, PingFirst, Shaken;
    var e := LogGrows(s, a);
    if e.Some? {
      RunsApartAppend(s.log, e.value);
    }
  }

  lemma InvInit()
    ensures Inv(Init())
  {
  }

  lemma InvKept(s: State, a: Action)
    requires Inv(s) && Enabled(s, a)
    ensures Inv(Apply(s, a))
  {
    hide Control, Idle, Conserved, OneAnswer, OpsInOrder, MayStillWrite, RunsApart, PingFirst, RunsTracked, Apply;
    hide Enabled;
    ControlKept(s, a);
    IdleKept(s, a);
    ConservedKept(s, a);
    OneAnswerKept(s, a);
    OpsInOrderKept(s, a);
    MayStillWriteKept(s, a);
    RunsApartKept(s, a);
    RunsTrackedKept(s, a);
  }

  // ---- all runs

  /** A run of one session: run[i + 1] follows from run[i] by steps[i]. */
  ghost predicate IsRun(run: seq<State>, steps: seq<Action>) {
    && |run| == |steps| + 1
    && run[0] == Init()
    && forall i | 0 <= i < |steps| :: Enabled(run[i], steps[i]) && run[i + 1] == Apply(run[i], steps[i])
  }

  lemma {:induction false} RunKeepsInv(run: seq<State>, steps: seq<Action>, n: nat)
    requires IsRun(run, steps) && n < |run|
    ensures Inv(run[n])
  {
    hide Inv, Apply, Enabled, Init;
    if n == 0 {
      InvInit();
    } else {
      RunKeepsInv(run, steps, n - 1);
      InvKept(run[n - 1], steps[n - 1]);
    }
  }

  /** Two executions of run never overlap, and none comes before a matching ping. */
  lemma RunsNeverOverlap(run: seq<State>, steps: seq<Action>, n: nat, i: nat, j: nat)
    requires IsRun(run, steps) && n < |run|
    requires i < j < |run[n].log| && run[n].log[i].Started? && run[n].log[j].Started?
    ensures exists m :: i < m < j && run[n].log[m] == RunReturned(run[n].log[i].serial)
    ensures exists h :: 0 <= h < i && run[n].log[h].Handshook?
  {
    hide Apply, Enabled, Control, Idle, Conserved, OneAnswer, OpsInOrder, MayStillWrite, RunsTracked;
    RunKeepsInv(run, steps, n);
    var log := run[n].log;
    assert ReturnedAfter(log[..j], i, log[i].serial);
    var m :| i < m < |log[..j]| && log[..j][m] == RunReturned(log[i].serial);
    assert log[m] == RunReturned(log[i].serial);
    assert Shaken(log[..i]);
    var h :| 0 <= h < |log[..i]| && log[..i][h].Handshook?;
    assert log[h].Handshook?;
  }

  /** No message is answered twice, and one still unanswered is being handled or run. */
  lemma AnsweredOnce(run: seq<State>, steps: seq<Action>, n: nat, k: nat)
    requires IsRun(run, steps) && n < |run|
    ensures Answers(run[n].log, k) == if k < run[n].received && !Unanswered(run[n], k) then 1 else 0
  {
    hide Apply, Enabled, Control, Idle, Conserved, OpsInOrder, MayStillWrite, RunsTracked, RunsApart, PingFirst;
    RunKeepsInv(run, steps, n);
  }

  /** Once serve has returned, no op runs, every message read was answered exactly
      once, and every descriptor delivered was closed exactly as often. */
  lemma ReturnedIsClean(run: seq<State>, steps: seq<Action>, n: nat)
    requires IsRun(run, steps) && n < |run| && run[n].reader.Returned?
    ensures run[n].workers == map[]
    ensures forall i | 0 <= i < |run[n].log| && run[n].log[i].Started? ::
      exists m :: i < m < |run[n].log| && run[n].log[m] == RunReturned(run[n].log[i].serial)
    ensures forall k: nat :: Answers(run[n].log, k) == if k < run[n].received then 1 else 0
    ensures forall fd: Fd :: Times(run[n].delivered, fd) == Times(run[n].closed, fd)
  {
    hide Apply, Enabled, Idle, OpsInOrder, MayStillWrite, RunsApart, PingFirst, Times, OpsHold, Answers;
    RunKeepsInv(run, steps, n);
    var s := run[n];
    forall fd: Fd
      ensures Times(s.delivered, fd) == Times(s.closed, fd)
    {
      assert ConservedAt(s, fd);
      NoneHeld(s.received, fd);
      TimesNone(fd);
    }
    forall i | 0 <= i < |s.log| && s.log[i].Started?
      ensures exists m :: i < m < |s.log| && s.log[m] == RunReturned(s.log[i].serial)
    {
      assert ReturnedAfter(s.log, i, s.log[i].serial);
    }
  }

  lemma {:induction false} NoneHeld(n: nat, fd: Fd)
    ensures OpsHold(map[], n, fd) == 0
  {
    if n > 0 {
      NoneHeld(n - 1, fd);
    }
  }

  /** Whatever an op writes comes before its terminal response, and that before
      anything a later op writes. */
  lemma TerminalIsLast(run: seq<State>, steps: seq<Action>, n: nat, i: nat, j: nat)
    requires IsRun(run, steps) && n < |run|
    requires i < j < |run[n].log| && run[n].log[i].Wrote? && run[n].log[j].Wrote?
    requires run[n].log[i].byOp && run[n].log[j].byOp
    ensures run[n].log[i].serial <= run[n].log[j].serial
    ensures run[n].log[i].kind.Terminal? ==> run[n].log[i].serial < run[n].log[j].serial
  {
    hide Apply, Enabled, Control, Idle, Conserved, OneAnswer, MayStillWrite, RunsTracked, RunsApart, PingFirst;
    RunKeepsInv(run, steps, n);
  }

  /** While an op is in flight the timer is not armed; while the reader waits for
      input with nothing in flight it is armed or has already fired. */
  lemma IdleBothWays(run: seq<State>, steps: seq<Action>, n: nat)
    requires IsRun(run, steps) && n < |run|
    ensures run[n].inflight.Some? ==> !run[n].armed
    ensures run[n].reader.Waiting? && run[n].inflight.None? ==> run[n].armed || run[n].fired
  {
    hide Apply, Enabled, Control, Conserved, OneAnswer, OpsInOrder, MayStillWrite, RunsTracked, RunsApart, PingFirst;
    RunKeepsInv(run, steps, n);
  }
}
