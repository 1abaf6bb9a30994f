/** The client (internal/priv/client.go:107-262) and one helper session joined by two
    FIFO wires. Callers start operations one at a time; keepalive pings may come at any
    moment. Every step between two lock operations, sends or receives is one action. */
module Product {
  import opened Arith
  import Codes
  import S = Session

  /** A request line in send order; forOp names the operation whose do sent it as its
      cancel, and is not on the wire. */
  datatype Sent = Sent(id: nat, op: S.Op, forOp: Option<nat>)

  datatype Outcome = Answered(code: S.Code) | ConnLost | Unsent | PingGone | GaveUp

  datatype Phase =
    | New
    | Registered
    | Awaiting
    | Cancelling(cancelId: nat)
    | Closing
    | Leaving(why: Outcome)
    | Left(why: Outcome)

  /** One call of do: its channel, how often that was closed, and where its request
      stands in send order. */
  datatype Call = Call(
    op: S.Op, phase: Phase, cancelled: bool, chan: seq<S.Response>, closes: nat, serial: Option<nat>)

  datatype Loop = Reading | Got(resp: S.Response) | Delivering(resp: S.Response) | Failing | Ending | Over

  datatype State = State(
    sess: S.State,
    sent: seq<Sent>,
    calls: map<nat, Call>,
    pending: set<nat>,
    readErr: bool,
    loop: Loop,
    nextId: nat,
    read: nat,
    connOpen: bool)

  const CHAN_CAPACITY := 64

  function Init(): State {
    State(S.Init(), [], map[], {}, false, Reading, 0, 0, true)
  }

  datatype Action =
    | Helper(a: S.Action)
    | Begin(op: S.Op)
    | Register(id: nat)
    | SendSucceeds(id: nat)
    | SendFails(id: nat)
    | TakeResponse(id: nat)
    | SeeClosed(id: nat)
    | CtxEnds(id: nat)
    | CancelSent(id: nat)
    | CancelLost(id: nat)
    | GraceEnds(id: nat)
    | SeeDone(id: nat)
    | Leave(id: nat)
    | ReadResponse
    | ReadFails
    | Lookup
    | Deliver
    | Fail
    | LoopReturns
    | CloseConn

  predicate Active(c: Call) {
    !c.phase.Left?
  }

  /** Between its registration and its return. */
  predicate Waits(c: Call) {
    !c.phase.Left? && !c.phase.New?
  }

  /** The discipline of the callers: a new operation only when no other is active. */
  predicate MayBegin(s: State, op: S.Op) {
    op.Ping? || forall id | id in s.calls :: s.calls[id].op.Ping? || !Active(s.calls[id])
  }

  predicate InPhase(s: State, id: nat, p: Phase) {
    id in s.calls && s.calls[id].phase == p
  }

  predicate Enabled(s: State, a: Action) {
    match a
    case Helper(b) =>
      S.Enabled(s.sess, b) &&
      (b.Receive? ==>
         && s.sess.received < |s.sent|
         && b.m.Line?
         && b.m.req == S.Request(s.sent[s.sess.received].id, s.sent[s.sess.received].op))
    case Begin(op) => MayBegin(s, op)
    case Register(id) => InPhase(s, id, New)
    case SendSucceeds(id) => InPhase(s, id, Registered) && s.connOpen
    case SendFails(id) => InPhase(s, id, Registered)
    case TakeResponse(id) => InPhase(s, id, Awaiting) && s.calls[id].chan != []
    case SeeClosed(id) => InPhase(s, id, Awaiting) && s.calls[id].chan == [] && s.calls[id].closes > 0
    case CtxEnds(id) => InPhase(s, id, Awaiting) && !s.calls[id].cancelled
    case CancelSent(id) => id in s.calls && s.calls[id].phase.Cancelling? && s.connOpen
    case CancelLost(id) => id in s.calls && s.calls[id].phase.Cancelling?
    case GraceEnds(id) => InPhase(s, id, Awaiting) && s.calls[id].cancelled
    case SeeDone(id) => InPhase(s, id, Closing) && s.loop.Over?
    case Leave(id) => id in s.calls && s.calls[id].phase.Leaving?
    case ReadResponse => s.loop.Reading? && s.read < |s.sess.out|
    case ReadFails => s.loop.Reading?
    case Lookup => s.loop.Got?
    case Deliver =>
      s.loop.Delivering? && s.loop.resp.id in s.calls && |s.calls[s.loop.resp.id].chan| < CHAN_CAPACITY
    case Fail => s.loop.Failing?
    case LoopReturns => s.loop.Ending?
    case CloseConn => true
  }

  function SetPhase(s: State, id: nat, p: Phase): State
    requires id in s.calls
  {
    s.(calls := s.calls[id := s.calls[id].(phase := p)])
  }

  /** do up to its wait, and the sending of its cancel. */
  function SendStep(s: State, a: Action): State
    requires Enabled(s, a) && Sending(a)
  {
    match a
    case Begin(op) =>
      s.(nextId := s.nextId + 1, calls := s.calls[s.nextId + 1 := Call(op, New, false, [], 0, None)])
    case Register(id) =>
      if s.readErr then SetPhase(s, id, Left(ConnLost))
      else SetPhase(s, id, Registered).(pending := s.pending + {id})
    case SendSucceeds(id) =>
      s.(sent := s.sent + [Sent(id, s.calls[id].op, None)],
         calls := s.calls[id := s.calls[id].(phase := Awaiting, serial := Some(|s.sent|))])
    case SendFails(id) => SetPhase(s, id, Leaving(Unsent))
    case CancelSent(id) =>
      SetPhase(s, id, Awaiting).(sent := s.sent + [Sent(s.calls[id].phase.cancelId, S.Cancel, Some(id))])
    case CancelLost(id) => SetPhase(s, id, Awaiting)
  }

  /** do while it waits, and its return. */
  function WaitStep(s: State, a: Action): State
    requires Enabled(s, a) && WaitingStep(a)
  {
    match a
    case TakeResponse(id) =>
      var c := s.calls[id];
      var phase := if c.chan[0].kind.Terminal? then Leaving(Answered(c.chan[0].kind.code)) else Awaiting;
      s.(calls := s.calls[id := c.(chan := c.chan[1..], phase := phase)])
    case SeeClosed(id) => SetPhase(s, id, Leaving(ConnLost))
    case CtxEnds(id) =>
      var c := s.calls[id];
      if c.op.Ping? then SetPhase(s, id, Leaving(PingGone))
      else if c.op.Cancel? then s.(calls := s.calls[id := c.(cancelled := true)])
      else
        s.(nextId := s.nextId + 1,
           calls := s.calls[id := c.(cancelled := true, phase := Cancelling(s.nextId + 1))])
    case GraceEnds(id) => SetPhase(s, id, Closing).(connOpen := false)
    case SeeDone(id) => SetPhase(s, id, Leaving(GaveUp))
    case Leave(id) => SetPhase(s, id, Left(s.calls[id].phase.why)).(pending := s.pending - {id})
  }

  /** readLoop and fail. */
  function LoopStep(s: State, a: Action): State
    requires Enabled(s, a) && !DoStep(a) && !a.Helper?
  {
    match a
    case ReadResponse => s.(loop := Got(s.sess.out[s.read]), read := s.read + 1)
    case ReadFails => s.(loop := Failing)
    case Lookup =>
      var r := s.loop.resp;
      if r.id == 0 then s.(loop := if r.kind.Terminal? && !r.kind.code.Success? then Failing else Reading)
      else s.(loop := if r.id in s.pending then Delivering(r) else Reading)
    case Deliver =>
      var r := s.loop.resp;
      var c := s.calls[r.id];
      s.(loop := Reading, calls := s.calls[r.id := c.(chan := c.chan + [r])])
    case Fail =>
      s.(loop := Ending, readErr := true, pending := {},
         calls := map id | id in s.calls ::
           if id in s.pending then s.calls[id].(closes := s.calls[id].closes + 1) else s.calls[id])
    case LoopReturns => s.(loop := Over)
    case CloseConn => s.(connOpen := false)
  }

  predicate Sending(a: Action) {
    a.Begin? || a.Register? || a.SendSucceeds? || a.SendFails? || a.CancelSent? || a.CancelLost?
  }

  predicate WaitingStep(a: Action) {
    a.TakeResponse? || a.SeeClosed? || a.CtxEnds? || a.GraceEnds? || a.SeeDone? || a.Leave?
  }

  /** The body of do and of sendCancel. */
  predicate DoStep(a: Action) {
    Sending(a) || WaitingStep(a)
  }

  function Apply(s: State, a: Action): State
    requires Enabled(s, a)
  {
    if a.Helper? then s.(sess := S.Apply(s.sess, a.a))
    else if Sending(a) then SendStep(s, a)
    else if WaitingStep(a) then WaitStep(s, a)
    else LoopStep(s, a)
  }

  // ---- the helper's side of the wire

  /** Request k was read and its terminal response written. */
  predicate Settled(sess: S.State, k: nat) {
    k < sess.received && !S.Unanswered(sess, k)
  }

  predicate Genuine(sess: S.State, sent: seq<Sent>, r: S.Response) {
    && r in sess.out
    && r.serial < |sent|
    && sent[r.serial].id == r.id
    && (r.kind.Terminal? ==> Settled(sess, r.serial))
  }

  /** What the reader is at work on is the last message it has read. */
  ghost predicate ReaderLinked(t: S.State, sent: seq<Sent>) {
    && t.received <= |sent|
    && (t.reader.Got? || t.reader.Decoding? ==>
          && t.received > 0
          && t.reader.m.Line?
          && t.reader.m.req == S.Request(sent[t.received - 1].id, sent[t.received - 1].op))
    && (t.reader.Handling? ==>
          && t.received > 0
          && t.reader.req == S.Request(sent[t.received - 1].id, sent[t.received - 1].op))
    && (t.reader.Replying? ==>
          && t.received > 0
          && t.reader.resp.serial == t.received - 1
          && t.reader.resp.id == sent[t.received - 1].id
          && t.reader.resp.kind != S.Terminal(S.Busy))
  }

  ghost predicate WorkersLinked(t: S.State, sent: seq<Sent>) {
    forall k | k in t.workers ::
      k < |sent| && t.workers[k].req == S.Request(sent[k].id, sent[k].op) && sent[k].op.Work?
  }

  /** What the session holds is what the client sent, in order. */
  ghost predicate Linked(sess: S.State, sent: seq<Sent>) {
    && ReaderLinked(sess, sent)
    && WorkersLinked(sess, sent)
    && (forall i | 0 <= i < |sess.out| :: Genuine(sess, sent, sess.out[i]))
  }

  /** The call on whose behalf a message was sent. */
  function Owner(m: Sent): nat {
    if m.forOp.Some? then m.forOp.value else m.id
  }

  /** When a message other than a ping was sent, every earlier operation of any other
      call had been settled. */
  ghost predicate OneAtATime(sess: S.State, sent: seq<Sent>) {
    forall k, j | 0 <= k < j < |sent| && sent[k].op.Work? && !sent[j].op.Ping? && Owner(sent[j]) != sent[k].id ::
      Settled(sess, k)
  }

  ghost predicate LogClean(log: seq<S.Event>, sent: seq<Sent>) {
    forall i | 0 <= i < |log| :: CleanEvent(log[i], sent)
  }

  /** A cancel only ever hits the operation it was sent for, and no one is refused busy. */
  predicate CleanEvent(e: S.Event, sent: seq<Sent>) {
    match e
    case CancelledOp(op, canceller) =>
      && op < |sent| && sent[op].op.Work?
      && canceller < |sent| && sent[canceller].op.Cancel?
      && sent[op].id == Owner(sent[canceller])
    case Wrote(_, kind, byOp) => byOp || kind != S.Terminal(S.Busy)
    case _ => true
  }

  lemma SettledStays(sess: S.State, a: S.Action, k: nat)
    requires S.Control(sess) && S.Enabled(sess, a) && Settled(sess, k)
    ensures Settled(S.Apply(sess, a), k)
  {
    S.UnansweredStep(sess, a, k);
  }

  /** The request in flight is not settled, and came before the one being handled. */
  lemma InFlightEarlier(sess: S.State)
    requires S.Control(sess) && sess.inflight.Some? && sess.reader.Handling?
    ensures sess.inflight.value + 1 < sess.received && !Settled(sess, sess.inflight.value)
  {
  }

  /** Operations are sent by their own call, each once. */
  ghost predicate Distinct(sent: seq<Sent>) {
    && (forall k | 0 <= k < |sent| && sent[k].forOp.Some? :: sent[k].op.Cancel?)
    && (forall k, j | 0 <= k < j < |sent| && sent[k].forOp.None? && sent[j].forOp.None? :: sent[k].id != sent[j].id)
  }

  predicate Delivers(a: S.Action, sess: S.State, sent: seq<Sent>) {
    a.Receive? ==>
      && sess.received < |sent|
      && a.m.Line?
      && a.m.req == S.Request(sent[sess.received].id, sent[sess.received].op)
  }

  /** A request that finds an operation in flight is not an operation itself. */
  lemma NoBusyHere(sess: S.State, sent: seq<Sent>)
    requires S.Control(sess) && Linked(sess, sent) && Distinct(sent) && OneAtATime(sess, sent)
    requires sess.reader.Handling? && sess.inflight.Some? && !sess.reader.req.op.Ping?
    ensures !sess.reader.req.op.Work?
    ensures sent[sess.inflight.value].op.Work?
    ensures sent[sess.inflight.value].id == Owner(sent[sess.received - 1])
  {
    InFlightEarlier(sess);
    var k, j := sess.inflight.value, sess.received - 1;
    assert k in sess.workers;
    assert sent[k].op.Work?;
  }

  lemma GenuineStays(sess: S.State, a: S.Action, sent: seq<Sent>, r: S.Response)
    requires S.Control(sess) && S.Enabled(sess, a) && Genuine(sess, sent, r)
    ensures Genuine(S.Apply(sess, a), sent, r)
  {
    hide S.Apply, S.Enabled, S.Control, Settled;
    OutStays(sess, a);
    assert r in S.Apply(sess, a).out;
    if r.kind.Terminal? {
      SettledStays(sess, a, r.serial);
    }
  }

  /** What is on the wire stays there. */
  lemma OutStays(sess: S.State, a: S.Action)
    requires S.Enabled(sess, a)
    ensures sess.out <= S.Apply(sess, a).out
  {
    hide S.Apply, S.Enabled;
    if S.HandleStep(a) {
      OutAfterHandle(sess, a);
    } else if S.OpStep(a) {
      OutAfterOp(sess, a);
    } else {
      OutAfterReader(sess, a);
    }
  }

  lemma OutAfterHandle(sess: S.State, a: S.Action)
    requires S.Enabled(sess, a) && S.HandleStep(a)
    ensures S.Apply(sess, a).out == sess.out
  {
    hide S.ReaderStep, S.WorkerStep;
  }

  lemma OutAfterReader(sess: S.State, a: S.Action)
    requires S.Enabled(sess, a) && !S.HandleStep(a) && !S.OpStep(a)
    ensures S.Apply(sess, a).out == sess.out ||
            (a.Reply? && S.Apply(sess, a).out == sess.out + [sess.reader.resp])
  {
    hide S.Handle, S.WorkerStep;
  }

  lemma OutAfterOp(sess: S.State, a: S.Action)
    requires S.Enabled(sess, a) && S.OpStep(a)
    ensures S.Apply(sess, a).out == sess.out ||
            (a.OpProgress? && S.Apply(sess, a).out ==
               sess.out + [S.Response(sess.workers[a.serial].req.id, S.Progress, a.serial)]) ||
            (a.OpWrite? && S.Apply(sess, a).out ==
               sess.out + [S.Response(sess.workers[a.serial].req.id,
                                      S.Terminal(sess.workers[a.serial].phase.code), a.serial)])
  {
    hide S.Handle, S.ReaderStep;
  }

  lemma OutGrows(sess: S.State, a: S.Action, sent: seq<Sent>)
    requires S.Control(sess) && Linked(sess, sent) && S.Enabled(sess, a)
    ensures var t := S.Apply(sess, a);
            && |sess.out| <= |t.out| <= |sess.out| + 1
            && t.out[..|sess.out|] == sess.out
            && (|t.out| > |sess.out| ==> Genuine(t, sent, t.out[|sess.out|]))
  {
    hide S.Apply, S.Control, Settled;
    if S.HandleStep(a) {
      OutAfterHandle(sess, a);
    } else if S.OpStep(a) {
      OutAfterOp(sess, a);
      if a.OpWrite? {
        WriteSettles(sess, a);
      }
    } else {
      OutAfterReader(sess, a);
      if a.Reply? {
        ReplySettles(sess, a);
      }
    }
  }

  lemma WriteSettles(sess: S.State, a: S.Action)
    requires S.Control(sess) && S.Enabled(sess, a) && a.OpWrite?
    ensures Settled(S.Apply(sess, a), a.serial)
  {
    hide S.Apply, S.Enabled;
    S.UnansweredStep(sess, a, a.serial);
  }

  lemma ReplySettles(sess: S.State, a: S.Action)
    requires S.Control(sess) && S.Enabled(sess, a) && a.Reply?
    ensures Settled(S.Apply(sess, a), sess.reader.resp.serial)
  {
    hide S.Apply;
    S.UnansweredStep(sess, a, sess.reader.resp.serial);
  }

  lemma LinkedHandle(sess: S.State, a: S.Action, sent: seq<Sent>)
    requires S.Control(sess) && Linked(sess, sent) && Distinct(sent) && OneAtATime(sess, sent)
    requires S.Enabled(sess, a) && S.HandleStep(a)
    ensures ReaderLinked(S.Apply(sess, a), sent) && WorkersLinked(S.Apply(sess, a), sent)
  {
    hide S.ReaderStep, S.WorkerStep, Genuine, OneAtATime, Distinct;
    if a.HandleBusy? {
      NoBusyHere(sess, sent);
    }
    hide S.Control;
  }

  lemma LinkedOp(sess: S.State, a: S.Action, sent: seq<Sent>)
    requires ReaderLinked(sess, sent) && WorkersLinked(sess, sent) && S.Enabled(sess, a) && S.OpStep(a)
    ensures ReaderLinked(S.Apply(sess, a), sent) && WorkersLinked(S.Apply(sess, a), sent)
  {
    hide S.Handle, S.ReaderStep;
  }

  lemma LinkedReader(sess: S.State, a: S.Action, sent: seq<Sent>)
    requires S.Control(sess) && ReaderLinked(sess, sent) && WorkersLinked(sess, sent) && Delivers(a, sess, sent)
    requires S.Enabled(sess, a) && !S.HandleStep(a) && !S.OpStep(a)
    ensures ReaderLinked(S.Apply(sess, a), sent) && WorkersLinked(S.Apply(sess, a), sent)
  {
    hide S.Handle, S.WorkerStep;
  }

  lemma LinkedKept(sess: S.State, a: S.Action, sent: seq<Sent>)
    requires S.Control(sess) && Linked(sess, sent) && Distinct(sent) && OneAtATime(sess, sent)
    requires S.Enabled(sess, a) && Delivers(a, sess, sent)
    ensures Linked(S.Apply(sess, a), sent)
  {
    hide Genuine, S.Control, S.Apply, S.Enabled;
    var t := S.Apply(sess, a);
    if S.HandleStep(a) {
      LinkedHandle(sess, a, sent);
    } else if S.OpStep(a) {
      LinkedOp(sess, a, sent);
    } else {
      LinkedReader(sess, a, sent);
    }
    OutGrows(sess, a, sent);
    forall i | 0 <= i < |t.out|
      ensures Genuine(t, sent, t.out[i])
    {
      if i < |sess.out| {
        assert t.out[i] == t.out[..|sess.out|][i];
        GenuineStays(sess, a, sent, sess.out[i]);
      }
    }
  }

  lemma OneAtATimeStays(sess: S.State, a: S.Action, sent: seq<Sent>)
    requires S.Control(sess) && S.Enabled(sess, a) && OneAtATime(sess, sent)
    ensures OneAtATime(S.Apply(sess, a), sent)
  {
    hide S.Control, S.Apply, S.Enabled, Settled;
    forall k, j | 0 <= k < j < |sent| && sent[k].op.Work? && !sent[j].op.Ping? && Owner(sent[j]) != sent[k].id
      ensures Settled(S.Apply(sess, a), k)
    {
      assert Settled(sess, k);
      SettledStays(sess, a, k);
    }
  }

  lemma LogCleanKept(sess: S.State, a: S.Action, sent: seq<Sent>)
    requires S.Control(sess) && Linked(sess, sent) && Distinct(sent) && OneAtATime(sess, sent)
    requires S.Enabled(sess, a) && LogClean(sess.log, sent)
    ensures LogClean(S.Apply(sess, a).log, sent)
  {
    var e := S.LogGrowsBy(sess, a);
    if a.HandleCancel? && sess.inflight.Some? {
      NoBusyHere(sess, sent);
    }
    hide Genuine, OneAtATime, Distinct, S.Control, S.Apply;
  }

  // ---- the client's side

  predicate Gone(p: Phase) {
    p.Leaving? || p.Left?
  }

  /** The terminal response to request k, with code c, has been written. */
  ghost predicate OnWire(sess: S.State, k: nat, c: S.Code) {
    exists r :: r in sess.out && r.serial == k && r.kind == S.Terminal(c)
  }

  lemma OnWireStays(sess: S.State, a: S.Action, k: nat, c: S.Code)
    requires S.Enabled(sess, a) && OnWire(sess, k, c)
    ensures OnWire(S.Apply(sess, a), k, c)
  {
    hide S.Apply, S.Enabled;
    OutStays(sess, a);
    var r :| r in sess.out && r.serial == k && r.kind == S.Terminal(c);
    assert r in S.Apply(sess, a).out;
  }

  /** What holds of one call: its place in send order, its channel, and that it is gone
      only when its operation is settled or the client is broken. */
  ghost predicate CallOk(s: State, id: nat)
    requires id in s.calls
  {
    var c := s.calls[id];
    && 0 < id <= s.nextId
    && (c.serial.Some? ==> c.serial.value < |s.sent| && s.sent[c.serial.value] == Sent(id, c.op, None))
    && (c.phase.New? ==> c.chan == [] && c.closes == 0)
    && (c.phase.New? || c.phase.Registered? ==> c.serial.None?)
    && (c.phase.Awaiting? || c.phase.Cancelling? || c.phase.Closing? ==> c.serial.Some?)
    && (c.phase.Cancelling? ==> c.op.Work? && 0 < c.phase.cancelId <= s.nextId && c.phase.cancelId !in s.calls)
    && (Gone(c.phase) && c.serial.None? ==> c.phase.why.Unsent? || s.readErr)
    && (Gone(c.phase) && c.serial.Some? && c.op.Work? ==> Settled(s.sess, c.serial.value) || s.readErr)
    && (Gone(c.phase) && c.phase.why.Answered? ==> c.serial.Some? && OnWire(s.sess, c.serial.value, c.phase.why.code))
    && c.closes <= (if s.readErr then 1 else 0)
    && (id in s.pending ==> Waits(c) && c.closes == 0)
    && forall r | r in c.chan :: r.id == id && Genuine(s.sess, s.sent, r)
  }

  ghost predicate SentOk(s: State, k: nat)
    requires k < |s.sent|
  {
    var m := s.sent[k];
    && 0 < m.id <= s.nextId
    && (m.forOp.None? ==> m.id in s.calls && s.calls[m.id].serial == Some(k) && s.calls[m.id].op == m.op)
    && (m.forOp.Some? ==> m.op.Cancel? && m.id !in s.calls)
  }

  ghost predicate LoopOk(s: State) {
    && (s.loop.Got? || s.loop.Delivering? ==> Genuine(s.sess, s.sent, s.loop.resp))
    && (s.loop.Delivering? ==> s.loop.resp.id in s.calls)
    && s.read <= |s.sess.out|
    && (s.readErr <==> s.loop.Ending? || s.loop.Over?)
    && s.pending <= s.calls.Keys
  }

  ghost predicate Client(s: State) {
    && (forall id | id in s.calls :: CallOk(s, id))
    && (forall k | 0 <= k < |s.sent| :: SentOk(s, k))
    && LoopOk(s)
  }

  /** At most one operation is active, and while one waits, all others are settled. */
  ghost predicate Alone(s: State) {
    && (forall i, j | i in s.calls && j in s.calls && !s.calls[i].op.Ping? && !s.calls[j].op.Ping? ::
          Active(s.calls[i]) && Active(s.calls[j]) ==> i == j)
    && (forall i, k | i in s.calls && !s.calls[i].op.Ping? && Waits(s.calls[i]) && 0 <= k < |s.sent|
                      && s.sent[k].op.Work? && s.sent[k].id != i :: Settled(s.sess, k))
  }

  ghost predicate Inv(s: State) {
    && S.Inv(s.sess)
    && Linked(s.sess, s.sent)
    && OneAtATime(s.sess, s.sent)
    && LogClean(s.sess.log, s.sent)
    && Client(s)
    && Alone(s)
  }

  lemma SentDistinct(s: State)
    requires Client(s)
    ensures Distinct(s.sent)
  {
    hide CallOk, LoopOk;
    forall k | 0 <= k < |s.sent| && s.sent[k].forOp.Some?
      ensures s.sent[k].op.Cancel?
    {
      assert SentOk(s, k);
    }
    forall k, j | 0 <= k < j < |s.sent| && s.sent[k].forOp.None? && s.sent[j].forOp.None?
      ensures s.sent[k].id != s.sent[j].id
    {
      assert SentOk(s, k) && SentOk(s, j);
    }
  }

  /** Later sends change nothing about a response already on its way. */
  lemma GenuineAfterSend(sess: S.State, sent: seq<Sent>, m: Sent, r: S.Response)
    requires Genuine(sess, sent, r)
    ensures Genuine(sess, sent + [m], r)
  {
  }

  /** A terminal response taken by its own call settles that call's operation. */
  lemma TakenSettles(s: State, id: nat)
    requires Client(s) && id in s.calls && s.calls[id].serial.Some? && s.calls[id].chan != []
    requires s.calls[id].chan[0].kind.Terminal?
    ensures Settled(s.sess, s.calls[id].serial.value)
    ensures OnWire(s.sess, s.calls[id].serial.value, s.calls[id].chan[0].kind.code)
  {
    hide LoopOk, Settled;
    var r := s.calls[id].chan[0];
    assert CallOk(s, id);
    assert r in s.calls[id].chan;
    assert SentOk(s, r.serial);
  }

  lemma IdsUsed(s: State)
    requires Client(s)
    ensures forall id | id in s.calls :: 0 < id <= s.nextId
  {
    hide LoopOk, SentOk;
    forall id | id in s.calls
      ensures 0 < id <= s.nextId
    {
      assert CallOk(s, id);
    }
  }

  /** The call a step of do belongs to. */
  function Caller(s: State, a: Action): nat
    requires DoStep(a)
  {
    if a.Begin? then s.nextId + 1 else a.id
  }

  /** What a step of do, other than its beginning, leaves alone or moves. */
  ghost predicate Moved(s: State, a: Action, t: State)
    requires DoStep(a) && !a.Begin?
  {
    && t.sess == s.sess && t.readErr == s.readErr && t.loop == s.loop && t.read == s.read
    && s.nextId <= t.nextId <= s.nextId + 1
    && (t.sent == s.sent || exists m :: t.sent == s.sent + [m])
    && (t.sent == s.sent || a.SendSucceeds? || a.CancelSent?)
    && a.id in s.calls && a.id in t.calls && t.calls == s.calls[a.id := t.calls[a.id]]
    && t.pending <= s.pending + {a.id} && s.pending <= t.pending + {a.id}
    && var c, d := s.calls[a.id], t.calls[a.id];
       && d.op == c.op && Active(c)
       && (d.serial == c.serial || c.phase.Registered?)
       && (Waits(d) ==> Waits(c) || !s.readErr)
  }

  lemma SendMoves(s: State, a: Action)
    requires Enabled(s, a) && Sending(a) && !a.Begin?
    ensures Moved(s, a, Apply(s, a))
  {
    hide WaitStep, LoopStep, S.Apply;
  }

  lemma WaitMoves(s: State, a: Action)
    requires Enabled(s, a) && WaitingStep(a)
    ensures Moved(s, a, Apply(s, a))
  {
    hide SendStep, LoopStep, S.Apply;
  }

  lemma DoMoves(s: State, a: Action)
    requires Enabled(s, a) && DoStep(a) && !a.Begin?
    ensures Moved(s, a, Apply(s, a))
  {
    hide Moved, Apply, Enabled;
    if Sending(a) {
      SendMoves(s, a);
    } else {
      WaitMoves(s, a);
    }
  }

  lemma BeginIs(s: State, a: Action)
    requires Enabled(s, a) && a.Begin?
    ensures Apply(s, a) ==
            s.(nextId := s.nextId + 1, calls := s.calls[s.nextId + 1 := Call(a.op, New, false, [], 0, None)])
  {
    hide WaitStep, LoopStep, S.Apply;
  }

  /** What a step of do leaves alone. */
  lemma DoFrame(s: State, a: Action)
    requires Enabled(s, a) && DoStep(a)
    ensures var t := Apply(s, a);
            && t.sess == s.sess && t.readErr == s.readErr && t.loop == s.loop && t.read == s.read
            && s.nextId <= t.nextId <= s.nextId + 1
            && (t.sent == s.sent || exists m :: t.sent == s.sent + [m])
            && Caller(s, a) in t.calls
            && t.pending <= s.pending + {Caller(s, a)}
            && (forall id | id in t.calls && id != Caller(s, a) :: id in s.calls)
            && (forall id | id in s.calls && id != Caller(s, a) ::
                  id in t.calls && t.calls[id] == s.calls[id] && (id in t.pending <==> id in s.pending))
            && (a.Begin? ==> t.nextId == s.nextId + 1)
            && (!a.Begin? ==> Caller(s, a) in s.calls)
  {
    hide Apply, Enabled;
    if a.Begin? {
      BeginIs(s, a);
    } else {
      DoMoves(s, a);
    }
  }

  lemma CallUntouched(s: State, a: Action, id: nat)
    requires Client(s) && Enabled(s, a) && DoStep(a) && id in s.calls && id != Caller(s, a)
    ensures id in Apply(s, a).calls && CallOk(Apply(s, a), id)
  {
    hide Settled, Apply, LoopOk, SentOk, Enabled, SendStep, WaitStep;
    DoFrame(s, a);
    IdsUsed(s);
    var t := Apply(s, a);
    assert CallOk(s, id);
    forall r | r in s.calls[id].chan
      ensures Genuine(s.sess, t.sent, r)
    {
      if t.sent != s.sent {
        var m :| t.sent == s.sent + [m];
        GenuineAfterSend(s.sess, s.sent, m, r);
      }
    }
  }

  lemma CallAfterSend(s: State, a: Action)
    requires Client(s) && Enabled(s, a) && (a.SendSucceeds? || a.CancelSent?)
    ensures CallOk(Apply(s, a), a.id)
  {
    hide Settled, LoopStep, WaitStep, SentOk, S.Apply;
    var t := Apply(s, a);
    assert CallOk(s, a.id);
    forall r | r in s.calls[a.id].chan
      ensures Genuine(s.sess, t.sent, r)
    {
      GenuineAfterSend(s.sess, s.sent, t.sent[|s.sent|], r);
    }
  }

  lemma CallAfterTake(s: State, a: Action)
    requires Client(s) && Enabled(s, a) && a.TakeResponse?
    ensures CallOk(Apply(s, a), a.id)
  {
    hide Settled, LoopStep, SendStep, SentOk, Genuine, LoopOk, S.Apply;
    var c, t := s.calls[a.id], Apply(s, a);
    assert CallOk(s, a.id);
    if c.chan[0].kind.Terminal? {
      TakenSettles(s, a.id);
    }
    assert t.calls[a.id].chan == c.chan[1..];
    assert forall r | r in t.calls[a.id].chan :: r in c.chan;
  }

  lemma CallAfterCtx(s: State, a: Action)
    requires Client(s) && Enabled(s, a) && a.CtxEnds?
    ensures CallOk(Apply(s, a), a.id)
  {
    hide Settled, LoopStep, SendStep, SentOk, Genuine, LoopOk, S.Apply;
    assert CallOk(s, a.id);
    IdsUsed(s);
  }

  /** Steps that neither begin, send, receive nor give up. */
  predicate Quiet(a: Action) {
    DoStep(a) && !a.Begin? && !a.SendSucceeds? && !a.CancelSent? && !a.TakeResponse? && !a.CtxEnds?
  }

  lemma CallAfterQuietSend(s: State, a: Action)
    requires Client(s) && Enabled(s, a) && Quiet(a) && Sending(a)
    ensures CallOk(Apply(s, a), a.id)
  {
    hide Settled, LoopStep, WaitStep, SentOk, Genuine, S.Apply;
    assert CallOk(s, a.id);
  }

  lemma CallAfterQuietWait(s: State, a: Action)
    requires Client(s) && Enabled(s, a) && Quiet(a) && WaitingStep(a)
    ensures CallOk(Apply(s, a), a.id)
  {
    hide Settled, LoopStep, SendStep, SentOk, Genuine, S.Apply;
    assert CallOk(s, a.id);
  }

  lemma CallAfterQuiet(s: State, a: Action)
    requires Client(s) && Enabled(s, a) && Quiet(a)
    ensures CallOk(Apply(s, a), a.id)
  {
    hide Apply, Enabled, Client, CallOk;
    if Sending(a) {
      CallAfterQuietSend(s, a);
    } else {
      CallAfterQuietWait(s, a);
    }
  }

  lemma CallAfterBegin(s: State, a: Action)
    requires Client(s) && Enabled(s, a) && a.Begin?
    ensures CallOk(Apply(s, a), s.nextId + 1)
  {
    hide Settled, LoopStep, WaitStep, SentOk, Genuine, S.Apply;
    IdsUsed(s);
  }

  lemma CallsAfterDo(s: State, a: Action)
    requires Client(s) && Enabled(s, a) && DoStep(a)
    ensures forall id | id in Apply(s, a).calls :: CallOk(Apply(s, a), id)
  {
    hide CallOk, SentOk, LoopOk, Enabled, Apply;
    DoFrame(s, a);
    forall id | id in Apply(s, a).calls
      ensures CallOk(Apply(s, a), id)
    {
      if id != Caller(s, a) {
        CallUntouched(s, a, id);
      } else if a.Begin? {
        CallAfterBegin(s, a);
      } else if a.SendSucceeds? || a.CancelSent? {
        CallAfterSend(s, a);
      } else if a.TakeResponse? {
        CallAfterTake(s, a);
      } else if a.CtxEnds? {
        CallAfterCtx(s, a);
      } else {
        CallAfterQuiet(s, a);
      }
    }
  }

  lemma SerialStays(s: State, a: Action, id: nat)
    requires Enabled(s, a) && DoStep(a) && id in s.calls && s.calls[id].serial.Some? && CallOk(s, id)
    ensures var t := Apply(s, a);
            id in t.calls && t.calls[id].serial == s.calls[id].serial && t.calls[id].op == s.calls[id].op
    ensures a.Begin? ==> id != Caller(s, a)
  {
    hide Settled, Genuine, Apply, Enabled;
    if a.Begin? {
      BeginIs(s, a);
    } else {
      DoMoves(s, a);
    }
  }

  /** The message a step of do puts on the wire. */
  lemma MessageSent(s: State, a: Action) returns (m: Option<Sent>)
    requires Client(s) && Enabled(s, a) && DoStep(a)
    ensures Apply(s, a).sent == if m.Some? then s.sent + [m.value] else s.sent
    ensures m.Some? ==>
      && a.id in s.calls
      && Waits(s.calls[a.id])
      && Owner(m.value) == a.id
      && (m.value.op.Work? ==> m.value.id == a.id)
      && (!m.value.op.Ping? ==> !s.calls[a.id].op.Ping?)
      && SentOk(Apply(s, a), |s.sent|)
  {
    hide Settled, Genuine, LoopStep, WaitStep, LoopOk, S.Apply;
    if a.SendSucceeds? {
      assert CallOk(s, a.id);
      m := Some(Sent(a.id, s.calls[a.id].op, None));
    } else if a.CancelSent? {
      assert CallOk(s, a.id);
      m := Some(Sent(s.calls[a.id].phase.cancelId, S.Cancel, Some(a.id)));
    } else {
      SendsNothing(s, a);
      m := None;
    }
  }

  lemma SendsNothing(s: State, a: Action)
    requires Enabled(s, a) && DoStep(a) && !a.SendSucceeds? && !a.CancelSent?
    ensures Apply(s, a).sent == s.sent
  {
    hide Apply, Enabled;
    if a.Begin? {
      BeginIs(s, a);
    } else {
      DoMoves(s, a);
    }
  }

  lemma SentAfterDo(s: State, a: Action)
    requires Client(s) && Enabled(s, a) && DoStep(a)
    ensures forall k | 0 <= k < |Apply(s, a).sent| :: SentOk(Apply(s, a), k)
  {
    hide Settled, Genuine, LoopStep, LoopOk, Apply, CallOk, Enabled;
    var t := Apply(s, a);
    var m := MessageSent(s, a);
    DoFrame(s, a);
    forall k | 0 <= k < |t.sent|
      ensures SentOk(t, k)
    {
      if k < |s.sent| {
        assert SentOk(s, k);
        if s.sent[k].forOp.None? {
          SerialStays(s, a, s.sent[k].id);
        }
      }
    }
  }

  lemma LoopAfterDo(s: State, a: Action)
    requires Client(s) && Enabled(s, a) && DoStep(a)
    ensures LoopOk(Apply(s, a))
  {
    hide Settled, LoopStep, SentOk, Apply, SendStep, WaitStep, CallOk, Enabled;
    var t := Apply(s, a);
    var m := MessageSent(s, a);
    DoFrame(s, a);
    if m.Some? && (s.loop.Got? || s.loop.Delivering?) {
      GenuineAfterSend(s.sess, s.sent, m.value, s.loop.resp);
    }
  }

  // ---- the response loop's and the helper's steps keep the client's side

  lemma CallAfterDeliver(s: State, a: Action, id: nat)
    requires Client(s) && Enabled(s, a) && a.Deliver? && id in Apply(s, a).calls
    ensures CallOk(Apply(s, a), id)
  {
    hide Settled, SendStep, WaitStep, Genuine;
    assert CallOk(s, id);
    if id == s.loop.resp.id {
      assert SentOk(s, s.loop.resp.serial) by { GenuineSent(s.sess, s.sent, s.loop.resp); }
      GenuineSent(s.sess, s.sent, s.loop.resp);
      assert Apply(s, a).calls[id].chan == s.calls[id].chan + [s.loop.resp];
    }
  }

  lemma GenuineSent(sess: S.State, sent: seq<Sent>, r: S.Response)
    requires Genuine(sess, sent, r)
    ensures r.serial < |sent| && sent[r.serial].id == r.id
  {
  }

  lemma CallAfterLoop(s: State, a: Action, id: nat)
    requires Client(s) && Enabled(s, a) && !DoStep(a) && !a.Helper? && id in Apply(s, a).calls
    ensures CallOk(Apply(s, a), id)
  {
    hide Settled, SendStep, WaitStep, Genuine, SentOk;
    if a.Deliver? {
      CallAfterDeliver(s, a, id);
    } else {
      assert CallOk(s, id);
    }
  }

  lemma SentAfterLoop(s: State, a: Action, k: nat)
    requires Client(s) && Enabled(s, a) && !DoStep(a) && !a.Helper? && k < |s.sent|
    ensures Apply(s, a).sent == s.sent && SentOk(Apply(s, a), k)
  {
    hide Settled, SendStep, WaitStep, CallOk, Genuine;
    assert SentOk(s, k);
  }

  lemma LoopAfterLoop(s: State, a: Action)
    requires Client(s) && Linked(s.sess, s.sent) && Enabled(s, a) && !DoStep(a) && !a.Helper?
    ensures LoopOk(Apply(s, a))
  {
    hide Settled, SendStep, WaitStep, CallOk, SentOk, Genuine;
  }

  lemma CallAfterHelper(s: State, a: Action, id: nat)
    requires Client(s) && S.Control(s.sess) && Enabled(s, a) && a.Helper? && id in s.calls
    ensures id in Apply(s, a).calls && CallOk(Apply(s, a), id)
  {
    hide Settled, Genuine, SendStep, WaitStep, LoopStep, SentOk, LoopOk, S.Control, S.Apply, S.Enabled;
    assert CallOk(s, id);
    var c := s.calls[id];
    if c.serial.Some? && Settled(s.sess, c.serial.value) {
      SettledStays(s.sess, a.a, c.serial.value);
    }
    if Gone(c.phase) && c.phase.why.Answered? {
      OnWireStays(s.sess, a.a, c.serial.value, c.phase.why.code);
    }
    forall r | r in c.chan
      ensures Genuine(Apply(s, a).sess, s.sent, r)
    {
      GenuineStays(s.sess, a.a, s.sent, r);
    }
  }

  lemma LoopAfterHelper(s: State, a: Action)
    requires Client(s) && S.Control(s.sess) && Linked(s.sess, s.sent) && Enabled(s, a) && a.Helper?
    ensures LoopOk(Apply(s, a))
  {
    hide Settled, Genuine, SendStep, WaitStep, LoopStep, SentOk, CallOk, S.Control, S.Apply, S.Enabled;
    OutGrows(s.sess, a.a, s.sent);
    if s.loop.Got? || s.loop.Delivering? {
      GenuineStays(s.sess, a.a, s.sent, s.loop.resp);
    }
  }

  lemma ClientKept(s: State, a: Action)
    requires Client(s) && S.Control(s.sess) && Linked(s.sess, s.sent) && Enabled(s, a)
    ensures Client(Apply(s, a))
  {
    hide Settled, Genuine, SentOk, LoopOk, CallOk, S.Control, S.Enabled, S.Apply, SendStep, WaitStep;
    var t := Apply(s, a);
    if DoStep(a) {
      CallsAfterDo(s, a);
      SentAfterDo(s, a);
      LoopAfterDo(s, a);
    } else if a.Helper? {
      forall id | id in t.calls
        ensures CallOk(t, id)
      {
        CallAfterHelper(s, a, id);
      }
      forall k | 0 <= k < |t.sent|
        ensures SentOk(t, k)
      {
        assert SentOk(s, k);
        assert SentOk(t, k) by { hide *; HelperKeepsSent(s, a, k); }
      }
      LoopAfterHelper(s, a);
    } else {
      forall id | id in t.calls
        ensures CallOk(t, id)
      {
        CallAfterLoop(s, a, id);
      }
      forall k | 0 <= k < |t.sent|
        ensures SentOk(t, k)
      {
        SentAfterLoop(s, a, k);
      }
      LoopAfterLoop(s, a);
    }
  }

  lemma HelperKeepsSent(s: State, a: Action, k: nat)
    requires Enabled(s, a) && a.Helper? && k < |s.sent| && SentOk(s, k)
    ensures SentOk(Apply(s, a), k)
  {
    hide S.Apply, S.Enabled;
  }

  // ---- one operation at a time

  /** An operation whose call has returned is settled, unless the client is broken. */
  lemma ReturnedIsSettled(s: State, k: nat)
    requires Client(s) && k < |s.sent| && s.sent[k].op.Work? && !s.readErr
    requires s.sent[k].id in s.calls ==> !Active(s.calls[s.sent[k].id])
    ensures Settled(s.sess, k)
  {
    hide Settled, Genuine, LoopOk;
    assert SentOk(s, k);
    assert CallOk(s, s.sent[k].id);
  }

  /** A call is active after a step of its own only if it was before, or has just begun. */
  lemma ActiveBefore(s: State, a: Action, i: nat)
    requires Enabled(s, a) && DoStep(a) && i in Apply(s, a).calls
    requires !Apply(s, a).calls[i].op.Ping? && Active(Apply(s, a).calls[i])
    ensures i in s.calls && !a.Begin? ==> !s.calls[i].op.Ping? && Active(s.calls[i])
    ensures i !in s.calls ==> a.Begin? && i == s.nextId + 1 && !a.op.Ping?
    ensures a.Begin? && i in s.calls && i != s.nextId + 1 ==> !s.calls[i].op.Ping? && Active(s.calls[i])
  {
    hide Apply, Enabled;
    if a.Begin? {
      BeginIs(s, a);
    } else {
      DoMoves(s, a);
    }
  }

  lemma OnlyOneActive(s: State, a: Action)
    requires Client(s) && Alone(s) && Enabled(s, a) && DoStep(a)
    ensures forall i, j | i in Apply(s, a).calls && j in Apply(s, a).calls
                          && !Apply(s, a).calls[i].op.Ping? && !Apply(s, a).calls[j].op.Ping? ::
      Active(Apply(s, a).calls[i]) && Active(Apply(s, a).calls[j]) ==> i == j
  {
    IdsUsed(s);
    var t := Apply(s, a);
    hide Settled, Genuine, LoopOk, CallOk, SentOk, Apply, Active;
    forall i, j | i in t.calls && j in t.calls && !t.calls[i].op.Ping? && !t.calls[j].op.Ping?
                  && Active(t.calls[i]) && Active(t.calls[j])
      ensures i == j
    {
      ActiveBefore(s, a, i);
      ActiveBefore(s, a, j);
    }
  }

  /** A call that waits after a step of its own waited before or has just registered. */
  lemma WaitsBefore(s: State, a: Action, i: nat)
    requires Client(s) && Enabled(s, a) && DoStep(a)
    requires i in Apply(s, a).calls && !Apply(s, a).calls[i].op.Ping? && Waits(Apply(s, a).calls[i])
    ensures i in s.calls && !s.calls[i].op.Ping? && Active(s.calls[i])
    ensures Waits(s.calls[i]) || !s.readErr
  {
    hide Settled, Genuine, LoopOk, CallOk, SentOk, Apply, Enabled;
    if a.Begin? {
      BeginIs(s, a);
    } else {
      DoMoves(s, a);
    }
  }

  lemma OthersSettled(s: State, a: Action, i: nat, k: nat)
    requires Client(s) && Alone(s) && Enabled(s, a) && DoStep(a)
    requires i in Apply(s, a).calls && !Apply(s, a).calls[i].op.Ping? && Waits(Apply(s, a).calls[i])
    requires k < |Apply(s, a).sent| && Apply(s, a).sent[k].op.Work? && Apply(s, a).sent[k].id != i
    ensures Settled(s.sess, k)
  {
    hide Settled, Genuine, LoopOk, CallOk, Apply, Enabled;
    WaitsBefore(s, a, i);
    var m := MessageSent(s, a);
    if k < |s.sent| {
      assert SentOk(s, k);
      if !Waits(s.calls[i]) {
        ReturnedIsSettled(s, k);
      }
    }
  }

  lemma AloneAfterDo(s: State, a: Action)
    requires Client(s) && Alone(s) && Enabled(s, a) && DoStep(a)
    ensures Alone(Apply(s, a))
  {
    hide Settled, Genuine, LoopOk, CallOk, SentOk, Apply, Enabled, Client;
    var t := Apply(s, a);
    DoFrame(s, a);
    OnlyOneActive(s, a);
    forall i, k | i in t.calls && !t.calls[i].op.Ping? && Waits(t.calls[i]) && 0 <= k < |t.sent|
                  && t.sent[k].op.Work? && t.sent[k].id != i
      ensures Settled(t.sess, k)
    {
      OthersSettled(s, a, i, k);
    }
  }

  lemma OrderAfterDo(s: State, a: Action)
    requires Client(s) && Alone(s) && OneAtATime(s.sess, s.sent) && Enabled(s, a) && DoStep(a)
    ensures OneAtATime(s.sess, Apply(s, a).sent)
  {
    hide Settled, Genuine, LoopOk, CallOk, SentOk, Apply, Enabled;
    var m := MessageSent(s, a);
  }

  lemma LinkedAfterSend(sess: S.State, sent: seq<Sent>, m: Sent)
    requires Linked(sess, sent)
    ensures Linked(sess, sent + [m])
  {
    hide Genuine;
    var longer := sent + [m];
    forall i | 0 <= i < |sess.out|
      ensures Genuine(sess, longer, sess.out[i])
    {
      GenuineAfterSend(sess, sent, m, sess.out[i]);
    }
  }

  lemma LogCleanAfterSend(log: seq<S.Event>, sent: seq<Sent>, m: Sent)
    requires LogClean(log, sent)
    ensures LogClean(log, sent + [m])
  {
    forall i | 0 <= i < |log|
      ensures CleanEvent(log[i], sent + [m])
    {
      assert CleanEvent(log[i], sent);
    }
  }

  lemma InvAfterDo(s: State, a: Action)
    requires Inv(s) && Enabled(s, a) && DoStep(a)
    ensures Inv(Apply(s, a))
  {
    hide S.Inv, Linked, OneAtATime, LogClean, Client, Alone, Apply, Enabled;
    assert S.Control(s.sess) by { SessionControl(s.sess); }
    DoFrame(s, a);
    ClientKept(s, a);
    AloneAfterDo(s, a);
    OrderAfterDo(s, a);
    var m := MessageSent(s, a);
    if m.Some? {
      LinkedAfterSend(s.sess, s.sent, m.value);
      LogCleanAfterSend(s.sess.log, s.sent, m.value);
    }
  }

  lemma SessionControl(sess: S.State)
    requires S.Inv(sess)
    ensures S.Control(sess)
  {
    hide S.Control;
  }

  lemma AloneAfterOther(s: State, a: Action)
    requires S.Control(s.sess) && Alone(s) && Enabled(s, a) && !DoStep(a)
    ensures Alone(Apply(s, a))
  {
    hide S.Control, S.Apply, S.Enabled, Settled, SendStep, WaitStep;
    var t := Apply(s, a);
    assert t.sent == s.sent;
    forall i, k | i in t.calls && !t.calls[i].op.Ping? && Waits(t.calls[i]) && 0 <= k < |t.sent|
                  && t.sent[k].op.Work? && t.sent[k].id != i
      ensures Settled(t.sess, k)
    {
      assert Settled(s.sess, k);
      if a.Helper? {
        SettledStays(s.sess, a.a, k);
      }
    }
  }

  lemma InvAfterHelper(s: State, a: Action)
    requires Inv(s) && Enabled(s, a) && a.Helper?
    ensures Inv(Apply(s, a))
  {
    SessionControl(s.sess);
    SentDistinct(s);
    hide S.Inv, Linked, OneAtATime, LogClean, Client, Alone, S.Control, S.Apply, S.Enabled, SendStep, WaitStep;
    hide LoopStep, Distinct;
    S.InvKept(s.sess, a.a);
    LinkedKept(s.sess, a.a, s.sent);
    OneAtATimeStays(s.sess, a.a, s.sent);
    LogCleanKept(s.sess, a.a, s.sent);
    ClientKept(s, a);
    AloneAfterOther(s, a);
  }

  lemma InvKept(s: State, a: Action)
    requires Inv(s) && Enabled(s, a)
    ensures Inv(Apply(s, a))
  {
    if DoStep(a) {
      InvAfterDo(s, a);
    } else if a.Helper? {
      InvAfterHelper(s, a);
    } else {
      SessionControl(s.sess);
      hide S.Inv, Linked, OneAtATime, LogClean, Client, Alone, S.Control, SendStep, WaitStep;
      ClientKept(s, a);
      AloneAfterOther(s, a);
    }
  }

  lemma InvInit()
    ensures Inv(Init())
  {
    S.InvInit();
    hide S.Inv;
  }

  // ---- all runs

  ghost predicate IsRun(run: seq<State>, steps: seq<Action>) {
    && |run| == |steps| + 1
    && run[0] == Init()
    && forall i | 0 <= i < |steps| :: Enabled(run[i], steps[i]) && run[i + 1] == Apply(run[i], steps[i])
  }

  lemma {:induction false} RunKeepsInv(run: seq<State>, steps: seq<Action>, n: nat)
    requires IsRun(run, steps) && n < |run|
    ensures Inv(run[n])
  {
    hide Inv, Apply, Enabled, Init;
    if n == 0 {
      InvInit();
    } else {
      RunKeepsInv(run, steps, n - 1);
      InvKept(run[n - 1], steps[n - 1]);
    }
  }

  /** The cancel that do sends for its operation never cancels any other. */
  lemma CancelHitsItsOwn(run: seq<State>, steps: seq<Action>, n: nat, i: nat)
    requires IsRun(run, steps) && n < |run|
    requires i < |run[n].sess.log| && run[n].sess.log[i].CancelledOp?
    ensures var e := run[n].sess.log[i];
            && e.op < |run[n].sent| && e.canceller < |run[n].sent|
            && run[n].sent[e.canceller].forOp == Some(run[n].sent[e.op].id)
  {
    hide Apply, Enabled, S.Inv, Linked, Alone, LoopOk, CallOk;
    RunKeepsInv(run, steps, n);
    var s, e := run[n], run[n].sess.log[i];
    assert CleanEvent(e, s.sent);
    SentDistinct(s);
  }

  /** No request is refused because another operation is in flight. */
  lemma NeverBusy(run: seq<State>, steps: seq<Action>, n: nat, i: nat)
    requires IsRun(run, steps) && n < |run|
    requires i < |run[n].sess.log| && run[n].sess.log[i].Wrote? && !run[n].sess.log[i].byOp
    ensures run[n].sess.log[i].kind != S.Terminal(S.Busy)
  {
    hide Apply, Enabled, S.Inv, Linked, Alone, Client;
    RunKeepsInv(run, steps, n);
    assert CleanEvent(run[n].sess.log[i], run[n].sent);
  }

  /** Once do has returned for an operation it sent, or is about to, that operation's
      run has returned or never started, unless the client is broken. */
  lemma ReturnsAfterRun(run: seq<State>, steps: seq<Action>, n: nat, id: nat, i: nat)
    requires IsRun(run, steps) && n < |run|
    requires id in run[n].calls && Gone(run[n].calls[id].phase)
    requires run[n].calls[id].serial.Some? && run[n].calls[id].op.Work? && !run[n].readErr
    requires i < |run[n].sess.log| && run[n].sess.log[i] == S.Started(run[n].calls[id].serial.value)
    ensures exists m :: i < m < |run[n].sess.log| && run[n].sess.log[m] == S.RunReturned(run[n].calls[id].serial.value)
  {
    hide Apply, Enabled, Linked, Alone, SentOk, LoopOk, LogClean, Genuine;
    hide S.Control, S.Idle, S.Conserved, S.OneAnswer, S.OpsInOrder, S.MayStillWrite, S.RunsApart, S.PingFirst;
    RunKeepsInv(run, steps, n);
    assert CallOk(run[n], id);
    assert S.ReturnedAfter(run[n].sess.log, i, run[n].sess.log[i].serial);
  }

  predicate Concerns(e: S.Event, k: nat) {
    e == S.Started(k) || e == S.RunReturned(k) || (e.Wrote? && e.serial == k && e.byOp)
  }

  lemma SettledIsQuiet(s: State, a: Action, k: nat)
    requires Inv(s) && Enabled(s, a) && Settled(s.sess, k)
    ensures Settled(Apply(s, a).sess, k)
    ensures |s.sess.log| <= |Apply(s, a).sess.log|
    ensures forall i | |s.sess.log| <= i < |Apply(s, a).sess.log| :: !Concerns(Apply(s, a).sess.log[i], k)
  {
    hide Inv, SendStep, WaitStep, LoopStep, S.Apply, Settled, DoStep;
    assert S.Control(s.sess) by { InvControl(s); }
    if a.Helper? {
      SettledStays(s.sess, a.a, k);
      var e := S.LogGrowsBy(s.sess, a.a);
      if e.Some? {
        SettledUnrecorded(s.sess, a.a, e.value, k);
      }
    } else {
      OnlyHelperLogs(s, a);
    }
  }

  lemma InvControl(s: State)
    requires Inv(s)
    ensures S.Control(s.sess)
  {
    hide S.Control, Linked, OneAtATime, LogClean, Client, Alone;
  }

  lemma OnlyHelperLogs(s: State, a: Action)
    requires Enabled(s, a) && !a.Helper?
    ensures Apply(s, a).sess == s.sess
  {
    hide SendStep, WaitStep, S.Apply, S.Enabled;
    if DoStep(a) {
      DoFrame(s, a);
    }
  }

  lemma SettledUnrecorded(sess: S.State, a: S.Action, e: S.Event, k: nat)
    requires S.Control(sess) && S.Enabled(sess, a) && S.Records(sess, a, e) && Settled(sess, k)
    ensures !Concerns(e, k)
  {
  }

  /** From then on the helper neither starts, ends nor writes for that operation: the
      caller has not returned while the helper still works for it. */
  lemma {:induction false} NothingAfterReturn(run: seq<State>, steps: seq<Action>, n: nat, m: nat, id: nat)
    requires IsRun(run, steps) && n <= m < |run|
    requires id in run[n].calls && Gone(run[n].calls[id].phase)
    requires run[n].calls[id].serial.Some? && run[n].calls[id].op.Work? && !run[n].readErr
    ensures Settled(run[m].sess, run[n].calls[id].serial.value)
    ensures |run[n].sess.log| <= |run[m].sess.log|
    ensures forall i | |run[n].sess.log| <= i < |run[m].sess.log| ::
      !Concerns(run[m].sess.log[i], run[n].calls[id].serial.value)
  {
    hide Apply, Enabled, Settled, Concerns;
    RunKeepsInv(run, steps, n);
    assert CallOk(run[n], id);
    if n < m {
      hide Inv;
      var k := run[n].calls[id].serial.value;
      NothingAfterReturn(run, steps, n, m - 1, id);
      RunKeepsInv(run, steps, m - 1);
      SettledIsQuiet(run[m - 1], steps[m - 1], k);
      LogPrefix(run[m - 1], steps[m - 1]);
    }
  }

  lemma LogPrefix(s: State, a: Action)
    requires Enabled(s, a)
    ensures |s.sess.log| <= |Apply(s, a).sess.log|
    ensures forall i | 0 <= i < |s.sess.log| :: Apply(s, a).sess.log[i] == s.sess.log[i]
  {
    if a.Helper? {
      hide SendStep, WaitStep, LoopStep, S.Apply, S.Enabled;
      var e := S.LogGrows(s.sess, a.a);
    } else if DoStep(a) {
      hide LoopStep;
      DoFrame(s, a);
    }
  }

  /** A response is in nobody's channel but that of the call whose request it answers;
      a channel is closed at most once, and is open whenever the loop sends on it. */
  lemma OnlyItsOwnResponses(run: seq<State>, steps: seq<Action>, n: nat, id: nat)
    requires IsRun(run, steps) && n < |run| && id in run[n].calls
    ensures forall r | r in run[n].calls[id].chan ::
      r.id == id && r.serial < |run[n].sent| && run[n].calls[id].serial == Some(r.serial)
    ensures run[n].calls[id].closes <= 1
    ensures run[n].loop.Delivering? ==>
      run[n].loop.resp.id in run[n].calls && run[n].calls[run[n].loop.resp.id].closes == 0
  {
    hide Apply, Enabled, S.Inv, Linked, Alone, OneAtATime, LogClean, Settled;
    RunKeepsInv(run, steps, n);
    var s := run[n];
    assert CallOk(s, id);
    forall r | r in s.calls[id].chan
      ensures s.calls[id].serial == Some(r.serial)
    {
      assert SentOk(s, r.serial);
    }
    if s.loop.Delivering? {
      assert CallOk(s, s.loop.resp.id);
    }
  }

  // ---- what do answers

  /** The helper's own steps of a run. */
  ghost function HelperSteps(steps: seq<Action>): seq<S.Action> {
    if steps == [] then [] else
      var a := steps[|steps| - 1];
      HelperSteps(steps[..|steps| - 1]) + if a.Helper? then [a.a] else []
  }

  lemma {:induction false} HelperStepsIn(steps: seq<Action>, b: S.Action)
    requires b in HelperSteps(steps)
    ensures Helper(b) in steps
  {
    var rest, a := steps[..|steps| - 1], steps[|steps| - 1];
    if b in HelperSteps(rest) {
      HelperStepsIn(rest, b);
    } else {
      assert a == Helper(b);
    }
  }

  /** The messages the helper has read are those sent, in order. */
  ghost predicate AsSent(ms: seq<S.Message>, sent: seq<Sent>) {
    |ms| <= |sent| &&
    forall k | 0 <= k < |ms| :: ms[k].Line? && ms[k].req == S.Request(sent[k].id, sent[k].op)
  }

  /** On the helper's side every run is one of its own. */
  lemma {:induction false} HelperRun(run: seq<State>, steps: seq<Action>, n: nat) returns (own: seq<S.State>)
    requires IsRun(run, steps) && n < |run|
    ensures S.IsRun(own, HelperSteps(steps[..n])) && own[|own| - 1] == run[n].sess
    ensures AsSent(Codes.MessagesOf(HelperSteps(steps[..n])), run[n].sent)
  {
    hide Apply, Enabled, S.Apply, S.Enabled, S.Init, Codes.MessagesOf, AsSent;
    if n == 0 {
      own := [S.Init()];
      assert steps[..0] == [];
      StartsEmpty(run[0].sent);
    } else {
      var before, a := run[n - 1], steps[n - 1];
      own := HelperRun(run, steps, n - 1);
      Codes.MessagesAreRead(own, HelperSteps(steps[..n - 1]), |own| - 1);
      var ss := HelperSteps(steps[..n - 1]);
      assert ss[..|own| - 1] == ss;
      assert steps[..n][..n - 1] == steps[..n - 1];
      if a.Helper? {
        HelperIs(before, a);
        Codes.MessagesAppend(ss, a.a);
        ReceivedAsSent(Codes.MessagesOf(ss), before, a);
        own := own + [S.Apply(before.sess, a.a)];
      } else {
        OnlyHelperLogs(before, a);
        SentGrows(before, a);
        AsSentGrows(Codes.MessagesOf(ss), before.sent, run[n].sent);
        assert ss + [] == ss;
      }
    }
  }

  lemma StartsEmpty(sent: seq<Sent>)
    ensures HelperSteps([]) == [] && Codes.MessagesOf([]) == [] && AsSent([], sent)
  {
  }

  lemma HelperIs(s: State, a: Action)
    requires Enabled(s, a) && a.Helper?
    ensures Apply(s, a) == s.(sess := S.Apply(s.sess, a.a)) && S.Enabled(s.sess, a.a)
  {
    hide S.Apply, S.Enabled;
  }

  lemma ReceivedAsSent(ms: seq<S.Message>, s: State, a: Action)
    requires AsSent(ms, s.sent) && |ms| == s.sess.received && Enabled(s, a) && a.Helper?
    ensures AsSent(ms + if a.a.Receive? then [a.a.m] else [], s.sent)
  {
    hide S.Enabled;
    assert ms + [] == ms;
  }

  lemma AsSentGrows(ms: seq<S.Message>, sent: seq<Sent>, more: seq<Sent>)
    requires AsSent(ms, sent) && sent <= more
    ensures AsSent(ms, more)
  {
    assert forall k | 0 <= k < |ms| :: sent[k] == more[k];
  }

  lemma SentGrows(s: State, a: Action)
    requires Enabled(s, a)
    ensures s.sent <= Apply(s, a).sent
  {
    if DoStep(a) {
      hide Apply, Enabled;
      DoFrame(s, a);
    } else {
      hide SendStep, WaitStep, S.Apply, S.Enabled;
    }
  }

  /** What do returns as the answer is the terminal code of its own request: for an operation
      what its run returned, unless the request came before any matching ping; for a ping
      what its protocol deserves; for a cancel success. */
  lemma AnswerIsItsOwn(run: seq<State>, steps: seq<Action>, n: nat, id: nat)
    requires IsRun(run, steps) && n < |run|
    requires id in run[n].calls && run[n].calls[id].phase.Left? && run[n].calls[id].phase.why.Answered?
    ensures var call, c := run[n].calls[id], run[n].calls[id].phase.why.code;
            && call.serial.Some?
            && (S.Wrote(call.serial.value, S.Terminal(c), true) in run[n].sess.log
                || S.Wrote(call.serial.value, S.Terminal(c), false) in run[n].sess.log)
            && (call.op.Work? ==> Helper(S.OpReturns(call.serial.value, c)) in steps[..n] || c == S.InvalidRequest)
            && (call.op.Ping? ==>
                  match call.op.h
                  case Matches => c == S.Success
                  case Mismatch => c == S.VersionMismatch
                  case BadParams => c == S.InvalidRequest)
            && (call.op.Cancel? ==> c == S.Success || c == S.InvalidRequest)
  {
    hide Apply, Enabled, S.Inv, Linked, Alone, OneAtATime, LogClean, Settled, SentOk, LoopOk, Codes.MessagesOf;
    hide HelperSteps;
    RunKeepsInv(run, steps, n);
    var s := run[n];
    var call, c := s.calls[id], s.calls[id].phase.why.code;
    assert CallOk(s, id);
    var k := call.serial.value;
    var r :| r in s.sess.out && r.serial == k && r.kind == S.Terminal(c);
    var own := HelperRun(run, steps, n);
    AnsweredBy(run, steps, n, own, HelperSteps(steps[..n]), k, c, r);
  }

  lemma AnsweredBy(
    run: seq<State>, steps: seq<Action>, n: nat, own: seq<S.State>, ss: seq<S.Action>, k: nat, c: S.Code,
    r: S.Response)
    requires IsRun(run, steps) && n < |run| && S.IsRun(own, ss) && ss == HelperSteps(steps[..n])
    requires own[|own| - 1] == run[n].sess && AsSent(Codes.MessagesOf(ss), run[n].sent)
    requires r in run[n].sess.out && r.serial == k && r.kind == S.Terminal(c) && k < |run[n].sent|
    ensures var op := run[n].sent[k].op;
            && (S.Wrote(k, S.Terminal(c), true) in run[n].sess.log
                || S.Wrote(k, S.Terminal(c), false) in run[n].sess.log)
            && (op.Work? ==> Helper(S.OpReturns(k, c)) in steps[..n] || c == S.InvalidRequest)
            && (op.Ping? ==>
                  match op.h
                  case Matches => c == S.Success
                  case Mismatch => c == S.VersionMismatch
                  case BadParams => c == S.InvalidRequest)
            && (op.Cancel? ==> c == S.Success || c == S.InvalidRequest)
  {
    hide Apply, Enabled, HelperSteps, Codes.MessagesOf, S.Apply, S.Enabled;
    var m, log := |own| - 1, run[n].sess.log;
    assert ss[..m] == ss;
    Codes.WireAnswers(own, ss, m, r);
    if S.Wrote(k, S.Terminal(c), true) in log {
      var j :| 0 <= j < m && ss[j] == S.OpReturns(k, c);
      HelperStepsIn(steps[..n], S.OpReturns(k, c));
      Codes.OpWorks(own, ss, m, k, c);
    } else {
      var i :| 0 <= i < |log| && log[i] == S.Wrote(k, S.Terminal(c), false);
      Codes.InlineAnswers(own, ss, m, i, k, c);
      NeverBusy(run, steps, n, i);
    }
  }

  // ---- why an unbroken client is needed

  /** The steps of a run lead to s. */
  ghost predicate Leads(run: seq<State>, steps: seq<Action>, s: State) {
    IsRun(run, steps) && run[|run| - 1] == s
  }

  lemma Extend(run: seq<State>, steps: seq<Action>, s: State, a: Action)
    returns (more: seq<State>, done: seq<Action>, t: State)
    requires Leads(run, steps, s) && Enabled(s, a)
    ensures Leads(more, done, t) && t == Apply(s, a)
    ensures done == steps + [a] && |more| == |run| + 1 && more[..|run|] == run
  {
    hide Apply, Enabled, Init;
    t := Apply(s, a);
    more, done := run + [t], steps + [a];
    forall i | 0 <= i < |done|
      ensures Enabled(more[i], done[i]) && more[i + 1] == Apply(more[i], done[i])
    {
      if i < |steps| {
        assert more[i] == run[i] && more[i + 1] == run[i + 1] && done[i] == steps[i];
      }
    }
  }

  /** A fresh client whose call id waits for the answer to what it sent first. */
  ghost predicate Waiting(s: State, id: nat, op: S.Op) {
    && InPhase(s, id, Awaiting) && s.calls[id].op == op && s.calls[id].serial == Some(|s.sent| - 1)
    && !s.calls[id].cancelled && s.nextId == id
    && s.sent != [] && s.sent[|s.sent| - 1] == Sent(id, op, None)
    && (forall i | i in s.calls :: (i != id ==> s.calls[i].op.Ping?) && i <= s.nextId)
    && !s.readErr && s.loop.Reading? && s.connOpen
  }

  predicate Undisturbed(s: State) {
    && !s.readErr && s.loop.Reading? && s.connOpen
    && (forall i | i in s.calls :: s.calls[i].op.Ping? && i <= s.nextId)
  }

  lemma StartCall(run: seq<State>, steps: seq<Action>, s: State, op: S.Op)
    returns (more: seq<State>, done: seq<Action>, t: State)
    requires Leads(run, steps, s) && Undisturbed(s)
    ensures Leads(more, done, t) && Waiting(t, s.nextId + 1, op)
    ensures t.sess == s.sess && |t.sent| == |s.sent| + 1
    ensures t.read == s.read && t.pending == s.pending + {s.nextId + 1} && t.calls[s.nextId + 1].chan == []
    ensures forall i | i in s.calls :: i in t.calls && t.calls[i] == s.calls[i]
  {
    hide Leads, S.Apply, LoopStep;
    more, done, t := Extend(run, steps, s, Begin(op));
    more, done, t := Extend(more, done, t, Register(s.nextId + 1));
    more, done, t := Extend(more, done, t, SendSucceeds(s.nextId + 1));
  }

  /** Steps of the helper change nothing on the client's side. */
  lemma HelperStep(run: seq<State>, steps: seq<Action>, s: State, a: S.Action)
    returns (more: seq<State>, done: seq<Action>, t: State)
    requires Leads(run, steps, s) && Enabled(s, Helper(a))
    ensures Leads(more, done, t) && t == s.(sess := S.Apply(s.sess, a))
  {
    hide Leads, S.Apply, S.Enabled;
    more, done, t := Extend(run, steps, s, Helper(a));
  }

  /** The helper reads the client's last message and is about to handle it. */
  lemma ReadLast(run: seq<State>, steps: seq<Action>, s: State) returns (more: seq<State>, done: seq<Action>, t: State)
    requires Leads(run, steps, s) && s.sess.reader.Waiting? && s.sess.received + 1 == |s.sent|
    ensures Leads(more, done, t)
    ensures var m := s.sent[|s.sent| - 1];
            t == s.(sess := t.sess) && t.sess.reader == S.Handling(S.Request(m.id, m.op), None)
    ensures t.sess == s.sess.(received := |s.sent|, reader := t.sess.reader, armed := t.sess.armed,
                              closed := t.sess.closed, delivered := t.sess.delivered)
  {
    hide Leads, S.Handle, S.WorkerStep;
    var m := s.sent[|s.sent| - 1];
    more, done, t := HelperStep(run, steps, s, S.Receive(S.Line(S.Request(m.id, m.op), [])));
    more, done, t := HelperStep(more, done, t, S.StopTimer);
    more, done, t := HelperStep(more, done, t, S.DecodeLine);
  }

  /** The answer to the ping is on its way to call 1. */
  predicate Greeted(s: State) {
    && s.read == 0 && s.sess.out == [S.Response(1, S.Terminal(S.Success), 0)] && s.sess.open
    && 1 in s.calls && s.calls[1].chan == [] && 1 in s.pending
  }

  lemma Greet() returns (run: seq<State>, steps: seq<Action>, s: State)
    ensures Leads(run, steps, s) && Undisturbed(s)
    ensures s.sess.reader.Waiting? && s.sess.received == 1 == |s.sent| == s.nextId && s.sess.handshake
    ensures s.sess.inflight.None? && s.sess.wmu.None? && S.RunReturned(1) !in s.sess.log
    ensures Greeted(s)
  {
    run, steps, s := [Init()], [], Init();
    assert Leads(run, steps, s);
    hide Leads, S.Apply, S.Enabled;
    run, steps, s := StartCall(run, steps, s, S.Ping(S.Matches));
    run, steps, s := ReadLast(run, steps, s);
    run, steps, s := ShakeHands(run, steps, s);
  }

  lemma ShakeHands(run: seq<State>, steps: seq<Action>, s: State)
    returns (more: seq<State>, done: seq<Action>, t: State)
    requires Leads(run, steps, s) && s.sess.reader == S.Handling(S.Request(1, S.Ping(S.Matches)), None)
    requires s.sess.received == 1 && s.sess.inflight.None? && s.sess.wmu.None? && s.sess.log == []
    requires s.sess.open && s.sess.out == []
    ensures Leads(more, done, t) && t == s.(sess := t.sess)
    ensures t.sess.reader.Waiting? && t.sess.received == 1 && t.sess.handshake
    ensures t.sess.inflight.None? && t.sess.wmu.None? && S.RunReturned(1) !in t.sess.log
    ensures t.sess.open && t.sess.out == [S.Response(1, S.Terminal(S.Success), 0)]
  {
    hide Leads, S.ReaderStep, S.WorkerStep;
    more, done, t := HelperStep(run, steps, s, S.HandlePing);
    more, done, t := AnswerPing(more, done, t);
  }

  lemma AnswerPing(run: seq<State>, steps: seq<Action>, s: State)
    returns (more: seq<State>, done: seq<Action>, t: State)
    requires Leads(run, steps, s) && s.sess.reader.Replying? && !s.sess.reader.close && s.sess.wmu.None?
    requires s.sess.log == [S.Handshook] && s.sess.open && s.sess.out == []
    ensures Leads(more, done, t) && t == s.(sess := t.sess)
    ensures t.sess.reader.Waiting? && t.sess.received == s.sess.received && t.sess.handshake == s.sess.handshake
    ensures t.sess.inflight == s.sess.inflight && t.sess.wmu.None? && S.RunReturned(1) !in t.sess.log
    ensures t.sess.open && t.sess.out == [s.sess.reader.resp]
  {
    hide Leads, S.Handle, S.WorkerStep;
    more, done, t := HelperStep(run, steps, s, S.Reply);
    more, done, t := HelperStep(more, done, t, S.Rearm);
  }

  /** The operation of call 2 runs. */
  predicate AtWork(sess: S.State) {
    && S.InPhase(sess, 1, S.Running) && sess.wmu.None?
    && S.Started(1) in sess.log && S.RunReturned(1) !in sess.log
  }

  lemma StartWork() returns (run: seq<State>, steps: seq<Action>, s: State)
    ensures Leads(run, steps, s) && AtWork(s.sess) && Waiting(s, 2, S.Work(false)) && s.calls[2].serial == Some(1)
    ensures Greeted(s) && 2 in s.pending && s.calls[2].chan == [] && s.sess.workers[1].req.id == 2
  {
    hide Leads, S.ReaderStep, S.WorkerStep;
    run, steps, s := Greet();
    run, steps, s := StartCall(run, steps, s, S.Work(false));
    run, steps, s := ReadLast(run, steps, s);
    var log := s.sess.log;
    run, steps, s := HelperStep(run, steps, s, S.HandleStart);
    assert s.sess.log == log + [S.Started(1)];
  }

  /** The caller cancels, the grace period ends, and do returns. */
  lemma GiveUp(run: seq<State>, steps: seq<Action>, s: State)
    returns (more: seq<State>, done: seq<Action>, t: State)
    requires Leads(run, steps, s) && Waiting(s, 2, S.Work(false)) && s.calls[2].serial == Some(1)
    ensures Leads(more, done, t) && GraceEnds(2) in done && t.sess == s.sess
    ensures t.readErr && 2 in t.calls && t.calls[2].phase == Left(GaveUp)
    ensures t.calls[2].op == S.Work(false) && t.calls[2].serial == Some(1)
  {
    hide Leads, S.Apply, LoopStep;
    more, done, t := CancelAndClose(run, steps, s);
    var sofar := done;
    more, done, t := LoopEnds(more, done, t);
    more, done, t := Extend(more, done, t, SeeDone(2));
    more, done, t := Extend(more, done, t, Leave(2));
    assert GraceEnds(2) in sofar;
  }

  lemma CancelAndClose(run: seq<State>, steps: seq<Action>, s: State)
    returns (more: seq<State>, done: seq<Action>, t: State)
    requires Leads(run, steps, s) && Waiting(s, 2, S.Work(false)) && s.calls[2].serial == Some(1)
    ensures Leads(more, done, t) && GraceEnds(2) in done && t.sess == s.sess && t.loop == s.loop
    ensures 2 in t.calls && t.calls[2] == s.calls[2].(phase := Closing, cancelled := true)
  {
    hide Leads, S.Apply, LoopStep;
    more, done, t := Extend(run, steps, s, CtxEnds(2));
    more, done, t := Extend(more, done, t, CancelLost(2));
    more, done, t := Extend(more, done, t, GraceEnds(2));
  }

  lemma LoopEnds(run: seq<State>, steps: seq<Action>, s: State)
    returns (more: seq<State>, done: seq<Action>, t: State)
    requires Leads(run, steps, s) && s.loop.Reading? && 2 in s.calls
    ensures Leads(more, done, t) && t.sess == s.sess && t.loop.Over? && t.readErr && steps <= done
    ensures 2 in t.calls && t.calls[2] == s.calls[2].(closes := t.calls[2].closes)
  {
    hide Leads, S.Apply, SendStep, WaitStep;
    more, done, t := Extend(run, steps, s, ReadFails);
    more, done, t := Extend(more, done, t, Fail);
    more, done, t := Extend(more, done, t, LoopReturns);
  }

  /** On a broken client the caller can return while its operation still runs and writes:
      a run in which the grace period ends, and the helper goes on afterwards. */
  lemma GraceReturnsEarly() returns (run: seq<State>, steps: seq<Action>, n: nat)
    ensures IsRun(run, steps) && n + 2 == |run| && GraceEnds(2) in steps
    ensures var s := run[n];
            && 2 in s.calls && s.calls[2].op.Work? && s.calls[2].serial == Some(1)
            && s.calls[2].phase == Left(GaveUp) && s.readErr
            && S.Started(1) in s.sess.log && S.RunReturned(1) !in s.sess.log
            && run[n + 1].sess.log == s.sess.log + [S.Wrote(1, S.Progress, true)]
  {
    hide S.Handle, S.ReaderStep, SendStep, WaitStep, LoopStep;
    var s, t;
    run, steps, s := StartWork();
    run, steps, s := GiveUp(run, steps, s);
    n := |run| - 1;
    run, steps, t := Extend(run, steps, s, Helper(S.OpProgress(1)));
    assert run[n] == run[..n + 1][n];
  }
}
