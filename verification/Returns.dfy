/** Why a call of do returns, and when it can (internal/priv/client.go:107-262). */
module Returns {
  import opened Arith
  import Codes
  import S = Session
  import opened Product

  // ---- what is kept about each call

  /** Between registration and the decision to return. */
  predicate Listens(c: Call) {
    Waits(c) && !c.phase.Leaving?
  }

  /** Each outcome has its reason in the steps so far. */
  ghost predicate HasReason(s: State, steps: seq<Action>, id: nat)
    requires id in s.calls
  {
    var c := s.calls[id];
    Gone(c.phase) ==>
      match c.phase.why
      case Answered(_) => true
      case ConnLost => s.readErr
      case Unsent => c.serial.None? && SendFails(id) in steps
      case PingGone => c.op.Ping? && CtxEnds(id) in steps
      case GaveUp => c.cancelled && GraceEnds(id) in steps && !s.connOpen && s.readErr
  }

  ghost predicate CallTraced(s: State, steps: seq<Action>, id: nat)
    requires id in s.calls
  {
    var c := s.calls[id];
    && (c.cancelled ==> CtxEnds(id) in steps && !c.op.Ping?)
    && (c.phase.Cancelling? ==> c.cancelled)
    && (c.cancelled && c.op.Work? ==> c.phase.Cancelling? || CancelSent(id) in steps || CancelLost(id) in steps)
    && (c.phase.Closing? ==> c.cancelled && !s.connOpen && GraceEnds(id) in steps)
    && (!s.readErr && Waits(c) ==> id in s.pending)
    && (s.readErr && Waits(c) ==> c.closes == 1)
    && HasReason(s, steps, id)
  }

  ghost predicate CallsTraced(s: State, steps: seq<Action>) {
    forall id | id in s.calls :: CallTraced(s, steps, id)
  }

  /** A cancel is sent at most once for an operation, and only after its caller gave up. */
  ghost predicate CancelsOnce(s: State) {
    && (forall k | 0 <= k < |s.sent| && s.sent[k].forOp.Some? ::
          && s.sent[k].forOp.value in s.calls
          && s.calls[s.sent[k].forOp.value].cancelled && s.calls[s.sent[k].forOp.value].op.Work?
          && !s.calls[s.sent[k].forOp.value].phase.Cancelling?)
    && (forall j, k | 0 <= j < k < |s.sent| && s.sent[j].forOp.Some? && s.sent[k].forOp.Some? ::
          s.sent[j].forOp != s.sent[k].forOp)
  }

  // ---- what is kept about the responses

  /** A refusal that the helper writes before any request has an ID. */
  predicate Refuses(r: S.Response) {
    r.id == 0 && r.kind.Terminal? && !r.kind.code.Success?
  }

  predicate Stopped(l: Loop) {
    l.Failing? || l.Ending? || l.Over?
  }

  /** How many responses the loop has looked up, and how many it is through with. */
  function LookedUp(s: State): int {
    if s.loop.Got? then s.read - 1 else s.read
  }

  function Handed(s: State): int {
    if s.loop.Got? || s.loop.Delivering? then s.read - 1 else s.read
  }

  ghost predicate LoopTraced(s: State, steps: seq<Action>) {
    && s.read <= |s.sess.out|
    && (s.loop.Got? || s.loop.Delivering? ==> s.read > 0 && s.sess.out[s.read - 1] == s.loop.resp)
    && (forall i | 0 <= i < LookedUp(s) && Refuses(s.sess.out[i]) :: Stopped(s.loop))
    && (Stopped(s.loop) ==> ReadFails in steps || exists i :: 0 <= i < s.read && Refuses(s.sess.out[i]))
  }

  /** The answer to a call that still listens is in its channel, or about to be. */
  ghost predicate Heard(s: State) {
    !s.readErr && s.read <= |s.sess.out| ==>
      forall i | 0 <= i < LookedUp(s) && s.sess.out[i].kind.Terminal? && s.sess.out[i].id in s.calls
                 && Listens(s.calls[s.sess.out[i].id]) ::
        s.sess.out[i] in s.calls[s.sess.out[i].id].chan || (s.loop.Delivering? && i == s.read - 1)
  }

  /** Nothing follows a terminal response to the same request, and only operations make
      progress. */
  ghost predicate OutOrdered(s: State) {
    && (forall i, j | 0 <= i < j < |s.sess.out| && s.sess.out[i].serial == s.sess.out[j].serial ::
          !s.sess.out[i].kind.Terminal?)
    && (forall r | r in s.sess.out && r.kind.Progress? :: r.serial < |s.sent| && s.sent[r.serial].op.Work?)
  }

  /** What is in channels, or was taken from them, has been read before. */
  ghost predicate WasRead(s: State, r: S.Response) {
    exists i :: 0 <= i < Handed(s) && i < |s.sess.out| && s.sess.out[i] == r
  }

  ghost predicate AnswerWasRead(s: State, k: nat) {
    exists i :: 0 <= i < Handed(s) && i < |s.sess.out| && s.sess.out[i].serial == k && s.sess.out[i].kind.Terminal?
  }

  ghost predicate ChanTraced(s: State, id: nat)
    requires id in s.calls
  {
    var c := s.calls[id];
    && (forall r | r in c.chan :: WasRead(s, r))
    && (!c.op.Work? ==> |c.chan| <= 1)
    && (Gone(c.phase) && c.phase.why.Answered? ==> c.serial.Some? && AnswerWasRead(s, c.serial.value))
  }

  ghost predicate ChansTraced(s: State) {
    forall id | id in s.calls :: ChanTraced(s, id)
  }

  ghost predicate Tidy(s: State, steps: seq<Action>) {
    && CallsTraced(s, steps) && CancelsOnce(s) && LoopTraced(s, steps) && Heard(s) && OutOrdered(s)
    && ChansTraced(s)
  }

  // ---- steps of do

  lemma StepsGrow(steps: seq<Action>, a: Action)
    ensures forall x | x in steps :: x in steps + [a]
    ensures a in steps + [a]
  {
    assert (steps + [a])[|steps|] == a;
  }

  lemma ConnSend(s: State, a: Action)
    requires Enabled(s, a) && Sending(a)
    ensures Apply(s, a).connOpen == s.connOpen
  {
    hide WaitStep, LoopStep, S.Apply;
  }

  lemma ConnWait(s: State, a: Action)
    requires Enabled(s, a) && WaitingStep(a)
    ensures Apply(s, a).connOpen ==> s.connOpen
  {
    hide SendStep, LoopStep, S.Apply;
  }

  lemma ConnStays(s: State, a: Action)
    requires Enabled(s, a) && DoStep(a)
    ensures Apply(s, a).connOpen ==> s.connOpen
  {
    hide Enabled, Apply;
    if Sending(a) {
      ConnSend(s, a);
    } else {
      ConnWait(s, a);
    }
  }

  lemma OwnCallSend(s: State, a: Action, steps: seq<Action>)
    requires Client(s) && CallsTraced(s, steps) && Enabled(s, a) && Sending(a)
    ensures Caller(s, a) in Apply(s, a).calls && CallTraced(Apply(s, a), steps + [a], Caller(s, a))
  {
    StepsGrow(steps, a);
    if a.Begin? {
      BeginIs(s, a);
    } else {
      assert a.id in s.calls by { DoMoves(s, a); }
      assert CallOk(s, a.id) && CallTraced(s, steps, a.id);
      LoopIsOk(s);
      if a.Register? || a.SendFails? {
        OwnCallRegisters(s, a, steps);
      } else {
        OwnCallSends(s, a, steps);
      }
    }
  }

  lemma OwnCallRegisters(s: State, a: Action, steps: seq<Action>)
    requires Enabled(s, a) && (a.Register? || a.SendFails?)
    requires CallOk(s, a.id) && CallTraced(s, steps, a.id) && LoopOk(s)
    requires a in steps + [a] && forall x | x in steps :: x in steps + [a]
    ensures a.id in Apply(s, a).calls && CallTraced(Apply(s, a), steps + [a], a.id)
  {
    hide WaitStep, LoopStep, S.Apply, Settled, Genuine;
  }

  lemma OwnCallSends(s: State, a: Action, steps: seq<Action>)
    requires Enabled(s, a) && (a.SendSucceeds? || a.CancelSent? || a.CancelLost?)
    requires CallOk(s, a.id) && CallTraced(s, steps, a.id) && LoopOk(s)
    requires a in steps + [a] && forall x | x in steps :: x in steps + [a]
    ensures a.id in Apply(s, a).calls && CallTraced(Apply(s, a), steps + [a], a.id)
  {
    hide WaitStep, LoopStep, S.Apply, Settled, Genuine;
  }

  lemma OwnCallWait(s: State, a: Action, steps: seq<Action>)
    requires Client(s) && CallsTraced(s, steps) && Enabled(s, a) && WaitingStep(a)
    ensures a.id in Apply(s, a).calls && CallTraced(Apply(s, a), steps + [a], a.id)
  {
    StepsGrow(steps, a);
    assert CallOk(s, a.id) && CallTraced(s, steps, a.id);
    hide Apply, Enabled, CallOk, CallTraced, Client, CallsTraced;
    assert LoopOk(s) by { LoopIsOk(s); }
    if a.TakeResponse? || a.SeeClosed? || a.CtxEnds? {
      OwnCallHears(s, a, steps);
    } else {
      OwnCallEnds(s, a, steps);
    }
  }

  lemma LoopIsOk(s: State)
    requires Client(s)
    ensures LoopOk(s)
  {
  }

  lemma OwnCallHears(s: State, a: Action, steps: seq<Action>)
    requires Enabled(s, a) && (a.TakeResponse? || a.SeeClosed? || a.CtxEnds?)
    requires CallOk(s, a.id) && CallTraced(s, steps, a.id) && LoopOk(s)
    requires a in steps + [a] && forall x | x in steps :: x in steps + [a]
    ensures a.id in Apply(s, a).calls && CallTraced(Apply(s, a), steps + [a], a.id)
  {
    hide SendStep, LoopStep, S.Apply, Settled, Genuine;
  }

  lemma OwnCallEnds(s: State, a: Action, steps: seq<Action>)
    requires Enabled(s, a) && (a.GraceEnds? || a.SeeDone? || a.Leave?)
    requires CallOk(s, a.id) && CallTraced(s, steps, a.id) && LoopOk(s)
    requires a in steps + [a] && forall x | x in steps :: x in steps + [a]
    ensures a.id in Apply(s, a).calls && CallTraced(Apply(s, a), steps + [a], a.id)
  {
    hide SendStep, LoopStep, S.Apply, Settled, Genuine;
  }

  lemma CallsTracedDo(s: State, a: Action, steps: seq<Action>)
    requires Client(s) && CallsTraced(s, steps) && Enabled(s, a) && DoStep(a)
    ensures CallsTraced(Apply(s, a), steps + [a])
  {
    hide Apply, Enabled, CallOk, SentOk, LoopOk, CallsTraced;
    var t := Apply(s, a);
    DoFrame(s, a);
    ConnStays(s, a);
    StepsGrow(steps, a);
    if Sending(a) {
      OwnCallSend(s, a, steps);
    } else {
      OwnCallWait(s, a, steps);
    }
    AllTraced(s, t, a, steps);
  }

  lemma AllTraced(s: State, t: State, a: Action, steps: seq<Action>)
    requires CallsTraced(s, steps) && DoStep(a) && t.readErr == s.readErr && (t.connOpen ==> s.connOpen)
    requires forall x | x in steps :: x in steps + [a]
    requires Caller(s, a) in t.calls && CallTraced(t, steps + [a], Caller(s, a))
    requires forall id | id in t.calls && id != Caller(s, a) ::
               id in s.calls && t.calls[id] == s.calls[id] && (id in t.pending <==> id in s.pending)
    ensures CallsTraced(t, steps + [a])
  {
    forall id | id in t.calls
      ensures CallTraced(t, steps + [a], id)
    {
      if id != Caller(s, a) {
        assert CallTraced(s, steps, id);
      }
    }
  }

  lemma CancelsSend(s: State, a: Action, steps: seq<Action>)
    requires Client(s) && CallsTraced(s, steps) && CancelsOnce(s) && Enabled(s, a) && Sending(a)
    ensures CancelsOnce(Apply(s, a))
  {
    if a.CancelSent? {
      CancelsSent(s, a, steps);
    } else if a.Begin? {
      IdsUsed(s);
      BeginIs(s, a);
    } else {
      OthersSend(s, a);
    }
  }

  lemma CancelsSent(s: State, a: Action, steps: seq<Action>)
    requires Client(s) && CallsTraced(s, steps) && CancelsOnce(s) && Enabled(s, a) && a.CancelSent?
    ensures CancelsOnce(Apply(s, a))
  {
    hide WaitStep, LoopStep, S.Apply, Settled, Genuine, SentOk;
    assert CallOk(s, a.id) && CallTraced(s, steps, a.id);
  }

  lemma OthersSend(s: State, a: Action)
    requires CancelsOnce(s) && Enabled(s, a) && Sending(a) && !a.CancelSent? && !a.Begin?
    ensures CancelsOnce(Apply(s, a))
  {
    hide WaitStep, LoopStep, S.Apply;
  }

  lemma CancelsWait(s: State, a: Action)
    requires CancelsOnce(s) && Enabled(s, a) && WaitingStep(a)
    ensures CancelsOnce(Apply(s, a))
  {
    hide Enabled, Apply, CancelsOnce;
    if a.TakeResponse? || a.CtxEnds? {
      CancelsHear(s, a);
    } else {
      CancelsEnd(s, a);
    }
  }

  lemma CancelsHear(s: State, a: Action)
    requires CancelsOnce(s) && Enabled(s, a) && (a.TakeResponse? || a.CtxEnds?)
    ensures CancelsOnce(Apply(s, a))
  {
    hide SendStep, LoopStep, S.Apply;
  }

  lemma CancelsEnd(s: State, a: Action)
    requires CancelsOnce(s) && Enabled(s, a) && WaitingStep(a) && !a.TakeResponse? && !a.CtxEnds?
    ensures CancelsOnce(Apply(s, a))
  {
    hide SendStep, LoopStep, S.Apply;
  }

  lemma CancelsDo(s: State, a: Action, steps: seq<Action>)
    requires Client(s) && CallsTraced(s, steps) && CancelsOnce(s) && Enabled(s, a) && DoStep(a)
    ensures CancelsOnce(Apply(s, a))
  {
    hide Apply, Enabled, Client, CallsTraced, CancelsOnce;
    if Sending(a) {
      CancelsSend(s, a, steps);
    } else {
      CancelsWait(s, a);
    }
  }

  lemma LoopDo(s: State, a: Action, steps: seq<Action>)
    requires LoopTraced(s, steps) && Enabled(s, a) && DoStep(a)
    ensures LoopTraced(Apply(s, a), steps + [a])
  {
    hide Apply, Enabled;
    DoFrame(s, a);
    StepsGrow(steps, a);
  }

  /** A response answers a request that its call has sent. */
  lemma AnswersSent(s: State, r: S.Response)
    requires Client(s) && Genuine(s.sess, s.sent, r) && r.id in s.calls
    ensures s.calls[r.id].serial == Some(r.serial) && s.sent[r.serial].op == s.calls[r.id].op
    ensures !s.calls[r.id].phase.New? && !s.calls[r.id].phase.Registered?
  {
    hide Settled, LoopOk;
    assert SentOk(s, r.serial);
    assert CallOk(s, r.id);
  }

  lemma HeardSend(s: State, a: Action)
    requires Client(s) && Linked(s.sess, s.sent) && Heard(s) && Enabled(s, a) && Sending(a)
    ensures Heard(Apply(s, a))
  {
    hide WaitStep, LoopStep, S.Apply, Genuine, ReaderLinked, WorkersLinked, Settled, CallOk, SentOk;
    var t := Apply(s, a);
    if a.Begin? {
      IdsUsed(s);
    }
    forall i | !t.readErr && t.read <= |t.sess.out| && 0 <= i < LookedUp(t) && t.sess.out[i].kind.Terminal?
               && t.sess.out[i].id in t.calls && Listens(t.calls[t.sess.out[i].id])
      ensures t.sess.out[i] in t.calls[t.sess.out[i].id].chan || (t.loop.Delivering? && i == t.read - 1)
    {
      var r := s.sess.out[i];
      assert Genuine(s.sess, s.sent, r);
      if r.id in s.calls {
        AnswersSent(s, r);
      }
    }
  }

  lemma HeardWait(s: State, a: Action)
    requires Heard(s) && Enabled(s, a) && WaitingStep(a)
    ensures Heard(Apply(s, a))
  {
    if a.TakeResponse? {
      HeardTake(s, a);
    } else {
      HeardQuiet(s, a);
    }
  }

  lemma HeardTake(s: State, a: Action)
    requires Heard(s) && Enabled(s, a) && a.TakeResponse?
    ensures Heard(Apply(s, a))
  {
    hide SendStep, LoopStep, S.Apply;
    var c := s.calls[a.id];
    assert c.chan == [c.chan[0]] + c.chan[1..];
  }

  lemma HeardQuiet(s: State, a: Action)
    requires Heard(s) && Enabled(s, a) && WaitingStep(a) && !a.TakeResponse?
    ensures Heard(Apply(s, a))
  {
    hide SendStep, LoopStep, S.Apply;
  }

  lemma HeardDo(s: State, a: Action)
    requires Client(s) && Linked(s.sess, s.sent) && Heard(s) && Enabled(s, a) && DoStep(a)
    ensures Heard(Apply(s, a))
  {
    hide Apply, Enabled, Client, Linked, Heard;
    if Sending(a) {
      HeardSend(s, a);
    } else {
      HeardWait(s, a);
    }
  }

  lemma OutDo(s: State, a: Action)
    requires OutOrdered(s) && Enabled(s, a) && DoStep(a)
    ensures OutOrdered(Apply(s, a))
  {
    hide Apply, Enabled;
    DoFrame(s, a);
  }

  lemma OwnChanSend(s: State, a: Action)
    requires Client(s) && ChansTraced(s) && Enabled(s, a) && Sending(a)
    ensures Caller(s, a) in Apply(s, a).calls && ChanTraced(Apply(s, a), Caller(s, a))
  {
    hide Apply, Enabled, Client, ChanTraced;
    if a.Begin? {
      BeginIs(s, a);
      NewChan(Apply(s, a), s.nextId + 1);
    } else {
      DoMoves(s, a);
      assert ChanTraced(s, a.id);
      DoFrame(s, a);
      SameReads(s, Apply(s, a));
      OwnChanSends(s, a);
    }
  }

  lemma NewChan(t: State, id: nat)
    requires id in t.calls && t.calls[id].phase.New? && t.calls[id].chan == []
    ensures ChanTraced(t, id)
  {
  }

  lemma OwnChanSends(s: State, a: Action)
    requires Enabled(s, a) && Sending(a) && !a.Begin? && a.id in s.calls && ChanTraced(s, a.id)
    requires forall r | WasRead(s, r) :: WasRead(Apply(s, a), r)
    requires forall k | AnswerWasRead(s, k) :: AnswerWasRead(Apply(s, a), k)
    ensures a.id in Apply(s, a).calls && ChanTraced(Apply(s, a), a.id)
  {
    hide WaitStep, LoopStep, S.Apply, WasRead, AnswerWasRead;
  }

  lemma SameReads(s: State, t: State)
    requires t.sess == s.sess && t.loop == s.loop && t.read == s.read
    ensures forall r | WasRead(s, r) :: WasRead(t, r)
    ensures forall k | AnswerWasRead(s, k) :: AnswerWasRead(t, k)
  {
  }

  lemma OwnChanWait(s: State, a: Action)
    requires Client(s) && ChansTraced(s) && Enabled(s, a) && WaitingStep(a)
    ensures a.id in Apply(s, a).calls && ChanTraced(Apply(s, a), a.id)
  {
    hide Apply, Enabled, WasRead, AnswerWasRead, Client;
    var t := Apply(s, a);
    assert a.id in s.calls by { DoFrame(s, a); }
    assert ChanTraced(s, a.id);
    WaitKeepsReads(s, a);
    SameReads(s, t);
    if a.TakeResponse? {
      OwnChanTakes(s, a);
    } else {
      OwnChanKept(s, a);
    }
  }

  lemma OwnChanKept(s: State, a: Action)
    requires Enabled(s, a) && WaitingStep(a) && !a.TakeResponse? && ChanTraced(s, a.id)
    requires forall r | WasRead(s, r) :: WasRead(Apply(s, a), r)
    requires forall k | AnswerWasRead(s, k) :: AnswerWasRead(Apply(s, a), k)
    ensures a.id in Apply(s, a).calls && ChanTraced(Apply(s, a), a.id)
  {
    hide SendStep, LoopStep, S.Apply, WasRead, AnswerWasRead;
  }

  lemma OwnChanTakes(s: State, a: Action)
    requires Client(s) && Enabled(s, a) && a.TakeResponse? && ChanTraced(s, a.id)
    requires forall r | WasRead(s, r) :: WasRead(Apply(s, a), r)
    requires forall k | AnswerWasRead(s, k) :: AnswerWasRead(Apply(s, a), k)
    ensures a.id in Apply(s, a).calls && ChanTraced(Apply(s, a), a.id)
  {
    hide SendStep, LoopStep, S.Apply, Settled, SentOk, WasRead, AnswerWasRead, Genuine;
    assert CallOk(s, a.id);
    var c := s.calls[a.id];
    var r := c.chan[0];
    assert r in c.chan;
    AnswersSent(s, r);
    if r.kind.Terminal? {
      ReadAnswer(s, r);
    }
    assert forall x | x in c.chan[1..] :: x in c.chan;
  }

  lemma WaitKeepsReads(s: State, a: Action)
    requires Enabled(s, a) && WaitingStep(a)
    ensures var t := Apply(s, a); t.sess == s.sess && t.loop == s.loop && t.read == s.read
  {
    hide Apply, Enabled;
    DoFrame(s, a);
  }

  lemma ReadAnswer(s: State, r: S.Response)
    requires WasRead(s, r) && r.kind.Terminal?
    ensures AnswerWasRead(s, r.serial)
  {
  }

  lemma ChansDo(s: State, a: Action)
    requires Client(s) && ChansTraced(s) && Enabled(s, a) && DoStep(a)
    ensures ChansTraced(Apply(s, a))
  {
    hide Apply, Enabled, WasRead, AnswerWasRead, Client;
    var t := Apply(s, a);
    DoFrame(s, a);
    SameReads(s, t);
    if Sending(a) {
      OwnChanSend(s, a);
    } else {
      OwnChanWait(s, a);
    }
    forall id | id in t.calls
      ensures ChanTraced(t, id)
    {
      if id != Caller(s, a) {
        assert ChanTraced(s, id);
      }
    }
  }

  lemma TidyDo(s: State, a: Action, steps: seq<Action>)
    requires Inv(s) && Tidy(s, steps) && Enabled(s, a) && DoStep(a)
    ensures Tidy(Apply(s, a), steps + [a])
  {
    hide Apply, Enabled, S.Inv, Linked, OneAtATime, LogClean, Client, Alone;
    hide CallsTraced, CancelsOnce, LoopTraced, Heard, OutOrdered, ChansTraced;
    CallsTracedDo(s, a, steps);
    CancelsDo(s, a, steps);
    LoopDo(s, a, steps);
    HeardDo(s, a);
    OutDo(s, a);
    ChansDo(s, a);
  }

  // ---- steps of the helper

  /** What goes out answers a request that has no terminal response yet. */
  lemma SendsUnanswered(sess: S.State, a: S.Action)
    requires S.Control(sess) && S.Enabled(sess, a) && Codes.Sends(sess, a).Some?
    ensures S.Unanswered(sess, Codes.Sends(sess, a).value.serial)
    ensures Codes.Sends(sess, a).value.kind.Progress? ==> Codes.Sends(sess, a).value.serial in sess.workers
  {
  }

  lemma OutGrowsBy(sess: S.State, a: S.Action)
    requires S.Enabled(sess, a)
    ensures sess.out <= S.Apply(sess, a).out
  {
    hide S.Apply, S.Enabled, Codes.Sends;
    Codes.StepSends(sess, a);
  }

  lemma OutHelper(s: State, a: S.Action)
    requires S.Control(s.sess) && Linked(s.sess, s.sent) && OutOrdered(s) && S.Enabled(s.sess, a)
    ensures OutOrdered(s.(sess := S.Apply(s.sess, a)))
  {
    hide S.Apply, S.Enabled, S.Control, S.Unanswered, ReaderLinked, Codes.Sends;
    Codes.StepSends(s.sess, a);
    var out := S.Apply(s.sess, a).out;
    assert out[..|s.sess.out|] == s.sess.out;
    if Codes.Sends(s.sess, a).Some? {
      SendsUnanswered(s.sess, a);
      forall i, j | 0 <= i < j < |out| && out[i].serial == out[j].serial
        ensures !out[i].kind.Terminal?
      {
        assert out[i] == s.sess.out[i];
        if j < |s.sess.out| {
          assert out[j] == s.sess.out[j];
        } else {
          assert Genuine(s.sess, s.sent, s.sess.out[i]);
        }
      }
    }
  }

  /** Nothing changes for the client. */
  lemma TidyHelper(s: State, a: Action, steps: seq<Action>)
    requires Inv(s) && Tidy(s, steps) && Enabled(s, a) && a.Helper?
    ensures Tidy(Apply(s, a), steps + [a])
  {
    InvControl(s);
    HelperIs(s, a);
    hide Apply, Enabled, S.Inv, Linked, OneAtATime, LogClean, Client, Alone, S.Apply, S.Enabled, S.Control;
    hide CallTraced, Heard, OutOrdered, ChansTraced, LoopTraced;
    OutGrowsBy(s.sess, a.a);
    OutHelper(s, a.a);
    StepsGrow(steps, a);
    CallsHelper(s, Apply(s, a), a, steps);
    ReadsHelper(s, Apply(s, a), a, steps);
    ChansHelper(s, Apply(s, a));
  }

  lemma CallsHelper(s: State, t: State, a: Action, steps: seq<Action>)
    requires CallsTraced(s, steps) && t == s.(sess := t.sess) && forall x | x in steps :: x in steps + [a]
    ensures CallsTraced(t, steps + [a])
  {
    forall id | id in t.calls
      ensures CallTraced(t, steps + [a], id)
    {
      assert CallTraced(s, steps, id);
    }
  }

  lemma ReadsHelper(s: State, t: State, a: Action, steps: seq<Action>)
    requires LoopTraced(s, steps) && Heard(s) && t == s.(sess := t.sess) && s.sess.out <= t.sess.out
    requires forall x | x in steps :: x in steps + [a]
    ensures LoopTraced(t, steps + [a]) && Heard(t)
  {
    assert forall i | 0 <= i < |s.sess.out| :: t.sess.out[i] == s.sess.out[i];
    if exists i :: 0 <= i < s.read && Refuses(s.sess.out[i]) {
      var i :| 0 <= i < s.read && Refuses(s.sess.out[i]);
      assert Refuses(t.sess.out[i]);
    }
  }

  lemma ReadsStay(s: State, t: State)
    requires s.sess.out <= t.sess.out && Handed(s) <= Handed(t)
    ensures forall r | WasRead(s, r) :: WasRead(t, r)
    ensures forall k | AnswerWasRead(s, k) :: AnswerWasRead(t, k)
  {
    forall r | WasRead(s, r)
      ensures WasRead(t, r)
    {
      var i :| 0 <= i < Handed(s) && i < |s.sess.out| && s.sess.out[i] == r;
      assert t.sess.out[i] == r;
    }
    forall k | AnswerWasRead(s, k)
      ensures AnswerWasRead(t, k)
    {
      var i :| 0 <= i < Handed(s) && i < |s.sess.out| && s.sess.out[i].serial == k && s.sess.out[i].kind.Terminal?;
      assert t.sess.out[i] == s.sess.out[i];
    }
  }

  lemma ChansHelper(s: State, t: State)
    requires ChansTraced(s) && t == s.(sess := t.sess) && s.sess.out <= t.sess.out
    ensures ChansTraced(t)
  {
    ReadsStay(s, t);
    hide WasRead, AnswerWasRead;
    forall id | id in t.calls
      ensures ChanTraced(t, id)
    {
      assert ChanTraced(s, id);
    }
  }

  // ---- steps of the read loop

  lemma CallsLoop(s: State, a: Action, steps: seq<Action>)
    requires Client(s) && CallsTraced(s, steps) && Enabled(s, a) && !DoStep(a) && !a.Helper?
    ensures CallsTraced(Apply(s, a), steps + [a])
  {
    hide CallOk, SentOk, CallTraced, Apply, Enabled;
    StepsGrow(steps, a);
    LoopKeepsCalls(s, a);
    var t := Apply(s, a);
    forall id | id in t.calls
      ensures CallTraced(t, steps + [a], id)
    {
      assert CallTraced(s, steps, id) && CallOk(s, id);
      if a.Fail? {
        FailTraced(s, a, steps, id);
      } else {
        ReadTraced(s, a, steps, id);
      }
    }
  }

  lemma LoopKeepsCalls(s: State, a: Action)
    requires LoopOk(s) && Enabled(s, a) && !DoStep(a) && !a.Helper?
    ensures Apply(s, a).calls.Keys == s.calls.Keys
  {
    hide SendStep, WaitStep, S.Apply, S.Enabled, Genuine;
  }

  lemma FailTraced(s: State, a: Action, steps: seq<Action>, id: nat)
    requires LoopOk(s) && id in s.calls && CallOk(s, id) && CallTraced(s, steps, id) && Enabled(s, a) && a.Fail?
    requires forall x | x in steps :: x in steps + [a]
    ensures id in Apply(s, a).calls && CallTraced(Apply(s, a), steps + [a], id)
  {
    hide SendStep, WaitStep, S.Apply, S.Enabled, Genuine, Settled;
  }

  lemma ReadTraced(s: State, a: Action, steps: seq<Action>, id: nat)
    requires LoopOk(s) && id in s.calls && CallTraced(s, steps, id)
    requires Enabled(s, a) && !DoStep(a) && !a.Helper? && !a.Fail?
    requires forall x | x in steps :: x in steps + [a]
    ensures id in Apply(s, a).calls && CallTraced(Apply(s, a), steps + [a], id)
  {
    hide SendStep, WaitStep, S.Apply, S.Enabled, Genuine;
  }

  lemma CancelsLoop(s: State, a: Action)
    requires CancelsOnce(s) && Enabled(s, a) && !DoStep(a) && !a.Helper?
    ensures CancelsOnce(Apply(s, a))
  {
    hide SendStep, WaitStep, S.Apply, S.Enabled;
  }

  lemma LoopLoop(s: State, a: Action, steps: seq<Action>)
    requires Client(s) && LoopTraced(s, steps) && Enabled(s, a) && !DoStep(a) && !a.Helper?
    ensures LoopTraced(Apply(s, a), steps + [a])
  {
    hide SendStep, WaitStep, S.Apply, S.Enabled, CallOk, SentOk, Genuine;
    StepsGrow(steps, a);
    if a.Lookup? && Refuses(s.loop.resp) {
      assert Refuses(s.sess.out[s.read - 1]);
    }
  }

  lemma HeardLoop(s: State, a: Action, steps: seq<Action>)
    requires Client(s) && CallsTraced(s, steps) && LoopTraced(s, steps) && Heard(s)
    requires Enabled(s, a) && !DoStep(a) && !a.Helper?
    ensures Heard(Apply(s, a))
  {
    hide SendStep, WaitStep, S.Apply, S.Enabled, CallOk, SentOk, Genuine, Settled;
    IdsUsed(s);
    var t := Apply(s, a);
    if a.Lookup? && s.loop.resp.id in s.calls {
      assert CallTraced(s, steps, s.loop.resp.id);
    }
  }

  lemma OutLoop(s: State, a: Action)
    requires OutOrdered(s) && Enabled(s, a) && !DoStep(a) && !a.Helper?
    ensures OutOrdered(Apply(s, a))
  {
    hide SendStep, WaitStep, S.Apply, S.Enabled;
  }

  lemma LoopReads(s: State, a: Action, steps: seq<Action>)
    requires LoopTraced(s, steps) && Enabled(s, a) && !DoStep(a) && !a.Helper?
    ensures var t := Apply(s, a); t.sess == s.sess && Handed(s) <= Handed(t)
    ensures a.Deliver? ==> WasRead(Apply(s, a), s.loop.resp)
  {
    hide SendStep, WaitStep, S.Apply, S.Enabled;
  }

  /** A call that is not an operation has one response to wait for. */
  lemma InlineOnce(s: State, steps: seq<Action>)
    requires Client(s) && ChansTraced(s) && OutOrdered(s) && LoopTraced(s, steps) && s.loop.Delivering?
    ensures !s.calls[s.loop.resp.id].op.Work? ==> s.calls[s.loop.resp.id].chan == []
  {
    hide SentOk, Settled, Genuine;
    var id := s.loop.resp.id;
    var c := s.calls[id];
    if !c.op.Work? && c.chan != [] {
      var r := c.chan[0];
      assert r in c.chan;
      assert CallOk(s, id) && ChanTraced(s, id);
      AnswersSent(s, r);
      AnswersSent(s, s.loop.resp);
      assert false;
    }
  }

  lemma ChansLoop(s: State, a: Action, steps: seq<Action>)
    requires Client(s) && ChansTraced(s) && OutOrdered(s) && LoopTraced(s, steps)
    requires Enabled(s, a) && !DoStep(a) && !a.Helper?
    ensures ChansTraced(Apply(s, a))
  {
    hide SendStep, WaitStep, S.Apply, S.Enabled, CallOk, SentOk, Genuine, Settled, WasRead, AnswerWasRead;
    var t := Apply(s, a);
    LoopReads(s, a, steps);
    ReadsStay(s, t);
    if a.Deliver? {
      InlineOnce(s, steps);
    }
    forall id | id in t.calls
      ensures ChanTraced(t, id)
    {
      assert ChanTraced(s, id);
    }
  }

  lemma TidyLoop(s: State, a: Action, steps: seq<Action>)
    requires Inv(s) && Tidy(s, steps) && Enabled(s, a) && !DoStep(a) && !a.Helper?
    ensures Tidy(Apply(s, a), steps + [a])
  {
    hide Apply, Enabled, S.Inv, Linked, OneAtATime, LogClean, Client, Alone;
    hide CallsTraced, CancelsOnce, LoopTraced, Heard, OutOrdered, ChansTraced;
    CallsLoop(s, a, steps);
    CancelsLoop(s, a);
    LoopLoop(s, a, steps);
    HeardLoop(s, a, steps);
    OutLoop(s, a);
    ChansLoop(s, a, steps);
  }

  lemma TidyKept(s: State, a: Action, steps: seq<Action>)
    requires Inv(s) && Tidy(s, steps) && Enabled(s, a)
    ensures Tidy(Apply(s, a), steps + [a])
  {
    hide Apply, Enabled, Inv, Tidy;
    if DoStep(a) {
      TidyDo(s, a, steps);
    } else if a.Helper? {
      TidyHelper(s, a, steps);
    } else {
      TidyLoop(s, a, steps);
    }
  }

  lemma TidyInit()
    ensures Tidy(Init(), [])
  {
  }

  lemma {:induction false} RunTidy(run: seq<State>, steps: seq<Action>, n: nat)
    requires IsRun(run, steps) && n < |run|
    ensures Tidy(run[n], steps[..n])
  {
    hide Tidy, Apply, Enabled, Init, Inv;
    if n == 0 {
      TidyInit();
      assert steps[..0] == [];
    } else {
      RunTidy(run, steps, n - 1);
      RunKeepsInv(run, steps, n - 1);
      TidyKept(run[n - 1], steps[n - 1], steps[..n - 1]);
      assert steps[..n] == steps[..n - 1] + [steps[n - 1]];
    }
  }

  // ---- all runs

  /** Why a call has returned. An answer apart, for which there is AnswerIsItsOwn: the
      connection is lost, and the client knows; the request was never sent; a ping was given up;
      or the caller gave up and the helper did not answer in time, and then the connection has
      been closed and the client is known to be broken. */
  lemma WhyReturned(run: seq<State>, steps: seq<Action>, n: nat, id: nat)
    requires IsRun(run, steps) && n < |run| && id in run[n].calls && run[n].calls[id].phase.Left?
    ensures var s, c := run[n], run[n].calls[id];
            match c.phase.why
            case Answered(_) => true
            case ConnLost => s.readErr
            case Unsent => SendFails(id) in steps[..n] && forall k | 0 <= k < |s.sent| :: s.sent[k].id != id
            case PingGone => c.op.Ping? && CtxEnds(id) in steps[..n]
            case GaveUp =>
              !c.op.Ping? && CtxEnds(id) in steps[..n] && GraceEnds(id) in steps[..n] && s.readErr && !s.connOpen
  {
    hide Apply, Enabled, S.Inv, Linked, Alone, OneAtATime, LogClean, CallOk, LoopOk;
    hide CancelsOnce, LoopTraced, Heard, OutOrdered, ChansTraced;
    RunKeepsInv(run, steps, n);
    RunTidy(run, steps, n);
    var s := run[n];
    assert CallTraced(s, steps[..n], id);
    if s.calls[id].phase.why.Unsent? {
      forall k | 0 <= k < |s.sent|
        ensures s.sent[k].id != id
      {
        assert SentOk(s, k);
      }
    }
  }

  /** A caller that gives up on an operation has its cancel sent, once, or the sending fails;
      nobody else has a cancel sent. */
  lemma CancelSentOnce(run: seq<State>, steps: seq<Action>, n: nat)
    requires IsRun(run, steps) && n < |run|
    ensures var s := run[n];
            && (forall k | 0 <= k < |s.sent| && s.sent[k].forOp.Some? ::
                  && s.sent[k].op.Cancel? && CtxEnds(s.sent[k].forOp.value) in steps[..n]
                  && s.sent[k].forOp.value in s.calls && s.calls[s.sent[k].forOp.value].op.Work?)
            && (forall j, k | 0 <= j < k < |s.sent| && s.sent[j].forOp.Some? && s.sent[k].forOp.Some? ::
                  s.sent[j].forOp.value != s.sent[k].forOp.value)
            && (forall id | id in s.calls && s.calls[id].cancelled && s.calls[id].op.Work? ::
                  s.calls[id].phase.Cancelling? || CancelSent(id) in steps[..n] || CancelLost(id) in steps[..n])
  {
    hide Apply, Enabled, S.Inv, Linked, Alone, OneAtATime, LogClean, CallOk, LoopOk;
    hide LoopTraced, Heard, OutOrdered, ChansTraced, HasReason;
    RunKeepsInv(run, steps, n);
    RunTidy(run, steps, n);
    var s := run[n];
    forall k | 0 <= k < |s.sent| && s.sent[k].forOp.Some?
      ensures s.sent[k].op.Cancel? && CtxEnds(s.sent[k].forOp.value) in steps[..n]
    {
      assert SentOk(s, k) && CallTraced(s, steps[..n], s.sent[k].forOp.value);
    }
    forall id | id in s.calls && s.calls[id].cancelled && s.calls[id].op.Work?
      ensures s.calls[id].phase.Cancelling? || CancelSent(id) in steps[..n] || CancelLost(id) in steps[..n]
    {
      assert CallTraced(s, steps[..n], id);
    }
  }

  /** Once the client is broken nobody waits in vain: every waiting call's channel has been
      closed, once, and the call can see so and leave. */
  lemma NobodyForgotten(run: seq<State>, steps: seq<Action>, n: nat, id: nat)
    requires IsRun(run, steps) && n < |run| && id in run[n].calls && run[n].readErr
    requires Waits(run[n].calls[id])
    ensures run[n].calls[id].closes == 1
    ensures run[n].calls[id].phase.Awaiting? && run[n].calls[id].chan == [] ==>
              && Enabled(run[n], SeeClosed(id))
              && var t := Apply(run[n], SeeClosed(id)); id in t.calls && t.calls[id].phase == Leaving(ConnLost)
  {
    hide S.Apply, S.Enabled, CancelsOnce, LoopTraced, Heard, OutOrdered, ChansTraced, SendStep, LoopStep;
    RunTidy(run, steps, n);
    assert CallTraced(run[n], steps[..n], id);
  }

  /** The loop ends on a failing read or on a refusal of the connection, and a refusal ends it. */
  lemma LoopEndsFor(run: seq<State>, steps: seq<Action>, n: nat)
    requires IsRun(run, steps) && n < |run|
    ensures var s := run[n];
            var over := s.loop.Failing? || s.loop.Ending? || s.loop.Over?;
            var seen := if s.loop.Got? then s.read - 1 else s.read;
            && s.read <= |s.sess.out|
            && (forall i | 0 <= i < seen ::
                  var r := s.sess.out[i]; r.id == 0 && r.kind.Terminal? && r.kind.code != S.Success ==> over)
            && (over ==> ReadFails in steps[..n] || exists i :: 0 <= i < s.read && Refuses(s.sess.out[i]))
  {
    hide Apply, Enabled, CallsTraced, CancelsOnce, Heard, OutOrdered, ChansTraced;
    RunTidy(run, steps, n);
    var s := run[n];
    forall i | 0 <= i < LookedUp(s) && s.sess.out[i].id == 0 && s.sess.out[i].kind.Terminal?
               && s.sess.out[i].kind.code != S.Success
      ensures Stopped(s.loop)
    {
      assert Refuses(s.sess.out[i]);
    }
  }

  /** No answer is lost: the terminal response to a call that still listens, once looked up, is
      in its channel or about to be put there. */
  lemma NoAnswerLost(run: seq<State>, steps: seq<Action>, n: nat, i: nat)
    requires IsRun(run, steps) && n < |run| && !run[n].readErr
    requires i < if run[n].loop.Got? then run[n].read - 1 else run[n].read
    ensures var s := run[n];
            && i < |s.sess.out|
            && var r := s.sess.out[i];
            r.kind.Terminal? && r.id in s.calls && Waits(s.calls[r.id]) && !s.calls[r.id].phase.Leaving? ==>
              r in s.calls[r.id].chan || (s.loop.Delivering? && s.loop.resp == r)
  {
    hide Apply, Enabled, CallsTraced, CancelsOnce, OutOrdered, ChansTraced;
    RunTidy(run, steps, n);
  }

  // ---- whether a call can return

  /** The caller has given up and waits for the loop to end, while the loop wants to put
      another response into the caller's own channel, which is full. */
  ghost predicate Hung(s: State, id: nat) {
    && InPhase(s, id, Closing) && (s.loop.Got? || s.loop.Delivering?) && s.loop.resp.id == id
    && |s.calls[id].chan| >= 64
  }

  lemma HungDo(s: State, a: Action, id: nat)
    requires Client(s) && Hung(s, id) && Enabled(s, a) && DoStep(a)
    ensures Hung(Apply(s, a), id)
  {
    hide S.Apply, LoopStep, Settled, Genuine, SentOk;
    assert CallOk(s, id);
    DoFrame(s, a);
    if !a.Begin? {
      assert a.id != id;
    }
  }

  lemma HungLoop(s: State, a: Action, steps: seq<Action>, id: nat)
    requires Client(s) && CallsTraced(s, steps) && Hung(s, id) && Enabled(s, a) && !DoStep(a)
    ensures Hung(Apply(s, a), id)
  {
    hide S.Apply, S.Enabled, SendStep, WaitStep, Settled, Genuine, SentOk;
    assert CallOk(s, id) && CallTraced(s, steps, id);
  }

  lemma HungStays(s: State, a: Action, steps: seq<Action>, id: nat)
    requires Inv(s) && Tidy(s, steps) && Hung(s, id) && Enabled(s, a)
    ensures Hung(Apply(s, a), id)
  {
    hide Apply, Enabled, Hung, S.Inv, Linked, OneAtATime, LogClean, Client, Alone;
    hide CallsTraced, CancelsOnce, LoopTraced, Heard, OutOrdered, ChansTraced;
    if DoStep(a) {
      HungDo(s, a, id);
    } else {
      HungLoop(s, a, steps, id);
    }
  }

  /** Such a call never returns, whatever anyone does. */
  lemma {:induction false} HungForever(run: seq<State>, steps: seq<Action>, n: nat, m: nat, id: nat)
    requires IsRun(run, steps) && n <= m < |run| && Hung(run[n], id)
    ensures Hung(run[m], id)
    decreases m
  {
    hide Apply, Enabled, Inv, Tidy, Hung;
    if n < m {
      HungForever(run, steps, n, m - 1, id);
      RunKeepsInv(run, steps, m - 1);
      RunTidy(run, steps, m - 1);
      HungStays(run[m - 1], steps[m - 1], steps[..m - 1], id);
    }
  }

  /** Nothing more comes for an operation whose call has decided to return. */
  lemma GoneHearsNothing(s: State, steps: seq<Action>)
    requires Client(s) && Tidy(s, steps) && s.loop.Delivering?
    requires s.loop.resp.id in s.calls && s.calls[s.loop.resp.id].op.Work?
    ensures !Gone(s.calls[s.loop.resp.id].phase)
  {
    hide Settled, Genuine, SentOk, Heard, CancelsOnce;
    var x := s.loop.resp.id;
    var c := s.calls[x];
    AnswersSent(s, s.loop.resp);
    assert CallTraced(s, steps, x) && ChanTraced(s, x);
  }

  /** While a caller that has given up waits, anyone else's channel has room. */
  lemma OthersHaveRoom(s: State, steps: seq<Action>, id: nat)
    requires Client(s) && Alone(s) && Tidy(s, steps) && InPhase(s, id, Closing) && s.loop.Delivering?
    requires s.loop.resp.id != id
    ensures s.loop.resp.id in s.calls && |s.calls[s.loop.resp.id].chan| < 64
  {
    hide Settled, Genuine, SentOk, Heard, CancelsOnce;
    var x := s.loop.resp.id;
    assert ChanTraced(s, x) && CallTraced(s, steps, id);
    if |s.calls[x].chan| >= 64 {
      GoneHearsNothing(s, steps);
    }
  }

  /** What the client does by itself: no new call, and no step of the helper. */
  predicate Own(a: Action) {
    !a.Helper? && !a.Begin?
  }

  /** A run that goes on from another, by the client's own steps. */
  ghost predicate GoesOn(run: seq<State>, steps: seq<Action>, more: seq<State>, done: seq<Action>, t: State) {
    && Leads(more, done, t) && run <= more && steps <= done
    && forall i | |steps| <= i < |done| :: Own(done[i])
  }

  lemma Step(run: seq<State>, steps: seq<Action>, s: State, a: Action)
    returns (more: seq<State>, done: seq<Action>, t: State)
    requires Leads(run, steps, s) && Enabled(s, a) && Own(a)
    ensures GoesOn(run, steps, more, done, t) && t == Apply(s, a)
  {
    hide Apply, Enabled, IsRun;
    more, done, t := Extend(run, steps, s, a);
  }

  lemma {:induction false} Onwards(
    run: seq<State>, steps: seq<Action>, more: seq<State>, done: seq<Action>, s: State,
    last: seq<State>, all: seq<Action>, t: State)
    requires GoesOn(run, steps, more, done, s) && GoesOn(more, done, last, all, t)
    ensures GoesOn(run, steps, last, all, t)
  {
    hide Leads;
    forall i | |steps| <= i < |all|
      ensures Own(all[i])
    {
      if i < |done| {
        assert all[i] == done[i];
      }
    }
  }

  /** Facts about the state that a run leads to. */
  lemma Known(run: seq<State>, steps: seq<Action>, s: State)
    requires Leads(run, steps, s)
    ensures Inv(s) && Tidy(s, steps)
  {
    hide Inv, Tidy, Apply, Enabled;
    RunKeepsInv(run, steps, |steps|);
    RunTidy(run, steps, |steps|);
    assert steps[..|steps|] == steps;
  }

  // ---- the loop ends once the connection is closed

  /** How far the loop is from its end. */
  function LoopRank(l: Loop): nat {
    match l
    case Got(_) => 5
    case Delivering(_) => 4
    case Reading => 3
    case Failing => 2
    case Ending => 1
    case Over => 0
  }

  function LoopNext(l: Loop): Action {
    match l
    case Got(_) => Lookup
    case Delivering(_) => Deliver
    case Reading => ReadFails
    case Failing => Fail
    case Ending => LoopReturns
    case Over => CloseConn
  }

  lemma LoopAdvances(s: State, id: nat)
    requires LoopOk(s) && InPhase(s, id, Closing) && !s.loop.Over?
    requires s.loop.Delivering? ==> s.loop.resp.id in s.calls && |s.calls[s.loop.resp.id].chan| < 64
    ensures Enabled(s, LoopNext(s.loop))
    ensures var t := Apply(s, LoopNext(s.loop));
            && InPhase(t, id, Closing) && LoopRank(t.loop) < LoopRank(s.loop)
            && ((t.loop.Got? || t.loop.Delivering?) ==> s.loop.Got? && t.loop.resp == s.loop.resp)
            && t.calls.Keys == s.calls.Keys
            && (s.loop.Got? ==> t.calls == s.calls)
  {
    hide SendStep, WaitStep, S.Apply, S.Enabled, Genuine;
  }

  lemma LoopHasRoom(s: State, steps: seq<Action>, id: nat)
    requires Inv(s) && Tidy(s, steps) && InPhase(s, id, Closing) && !Hung(s, id) && s.loop.Delivering?
    ensures s.loop.resp.id in s.calls && |s.calls[s.loop.resp.id].chan| < 64
  {
    hide S.Inv, Linked, OneAtATime, LogClean, CallOk, SentOk, Genuine, Settled;
    hide CallsTraced, CancelsOnce, LoopTraced, Heard, OutOrdered, ChansTraced, Tidy, Alone;
    if s.loop.resp.id != id {
      OthersHaveRoom(s, steps, id);
    }
  }

  lemma LoopStays(s: State)
    requires Inv(s)
    ensures LoopOk(s)
  {
    hide S.Inv, Linked, OneAtATime, LogClean, CallOk, SentOk, Alone;
  }

  lemma {:induction false} EndLoop(run: seq<State>, steps: seq<Action>, s: State, id: nat)
    returns (more: seq<State>, done: seq<Action>, t: State)
    requires Leads(run, steps, s) && InPhase(s, id, Closing) && !Hung(s, id)
    ensures GoesOn(run, steps, more, done, t) && InPhase(t, id, Closing) && t.loop.Over?
    decreases LoopRank(s.loop)
  {
    hide Leads, Apply, Enabled, Inv, Tidy, LoopRank;
    Known(run, steps, s);
    if s.loop.Over? {
      more, done, t := run, steps, s;
    } else {
      LoopStays(s);
      if s.loop.Delivering? {
        LoopHasRoom(s, steps, id);
      }
      LoopAdvances(s, id);
      var u;
      more, done, u := Step(run, steps, s, LoopNext(s.loop));
      var last, all;
      last, all, t := EndLoop(more, done, u, id);
      Onwards(run, steps, more, done, u, last, all, t);
      more, done := last, all;
    }
  }

  // ---- and every call returns

  lemma LeaveNow(run: seq<State>, steps: seq<Action>, s: State, id: nat)
    returns (more: seq<State>, done: seq<Action>, t: State)
    requires Leads(run, steps, s) && id in s.calls && s.calls[id].phase.Leaving?
    ensures GoesOn(run, steps, more, done, t) && id in t.calls && t.calls[id].phase.Left?
  {
    hide SendStep, LoopStep, S.Apply, S.Enabled, Leads;
    more, done, t := Step(run, steps, s, Leave(id));
  }

  /** After a step of its own the call goes on to return. */
  lemma StepAndOn(
    run: seq<State>, steps: seq<Action>, more: seq<State>, done: seq<Action>, s: State, id: nat)
    returns (last: seq<State>, all: seq<Action>, t: State)
    requires GoesOn(run, steps, more, done, s) && id in s.calls && s.calls[id].phase.Leaving?
    ensures GoesOn(run, steps, last, all, t) && id in t.calls && t.calls[id].phase.Left?
  {
    hide Leads, Apply, Enabled;
    last, all, t := LeaveNow(more, done, s, id);
    Onwards(run, steps, more, done, s, last, all, t);
  }

  lemma CloseAndLeave(run: seq<State>, steps: seq<Action>, s: State, id: nat)
    returns (more: seq<State>, done: seq<Action>, t: State)
    requires Leads(run, steps, s) && InPhase(s, id, Closing) && !Hung(s, id)
    ensures GoesOn(run, steps, more, done, t) && id in t.calls && t.calls[id].phase.Left?
  {
    hide SendStep, LoopStep, S.Apply, S.Enabled, Leads, Hung, GoesOn;
    var u, v, last, all;
    more, done, u := EndLoop(run, steps, s, id);
    assert Leads(more, done, u) by { Follows(run, steps, more, done, u); }
    last, all, v := Step(more, done, u, SeeDone(id));
    Onwards(run, steps, more, done, u, last, all, v);
    more, done, t := StepAndOn(run, steps, last, all, v, id);
  }

  lemma Follows(run: seq<State>, steps: seq<Action>, more: seq<State>, done: seq<Action>, t: State)
    requires GoesOn(run, steps, more, done, t)
    ensures Leads(more, done, t)
  {
  }

  /** A call, other than a ping, with nothing in its channel. */
  predicate Empty(s: State, id: nat, p: Phase) {
    InPhase(s, id, p) && s.calls[id].chan == [] && !s.calls[id].op.Ping?
  }

  lemma GraceNow(run: seq<State>, steps: seq<Action>, s: State, id: nat)
    returns (more: seq<State>, done: seq<Action>, t: State)
    requires Leads(run, steps, s) && Empty(s, id, Awaiting) && s.calls[id].cancelled
    ensures GoesOn(run, steps, more, done, t) && Empty(t, id, Closing)
  {
    hide SendStep, LoopStep, S.Apply, S.Enabled, Leads;
    more, done, t := Step(run, steps, s, GraceEnds(id));
  }

  lemma ContextNow(run: seq<State>, steps: seq<Action>, s: State, id: nat)
    returns (more: seq<State>, done: seq<Action>, t: State)
    requires Leads(run, steps, s) && Empty(s, id, Awaiting) && !s.calls[id].cancelled
    ensures GoesOn(run, steps, more, done, t) && id in t.calls && t.calls[id].cancelled
    ensures Empty(t, id, Awaiting) || (t.calls[id].phase.Cancelling? && Empty(t, id, t.calls[id].phase))
  {
    hide SendStep, LoopStep, S.Apply, S.Enabled, Leads;
    more, done, t := Step(run, steps, s, CtxEnds(id));
  }

  lemma CancelNow(run: seq<State>, steps: seq<Action>, s: State, id: nat)
    returns (more: seq<State>, done: seq<Action>, t: State)
    requires Leads(run, steps, s) && id in s.calls && s.calls[id].phase.Cancelling?
    ensures GoesOn(run, steps, more, done, t) && InPhase(t, id, Awaiting)
    ensures t.calls[id] == s.calls[id].(phase := Awaiting)
  {
    hide WaitStep, LoopStep, S.Apply, S.Enabled, Leads;
    more, done, t := Step(run, steps, s, CancelLost(id));
  }

  lemma GiveUpNow(run: seq<State>, steps: seq<Action>, s: State, id: nat)
    returns (more: seq<State>, done: seq<Action>, t: State)
    requires Leads(run, steps, s) && Empty(s, id, Awaiting)
    ensures GoesOn(run, steps, more, done, t) && id in t.calls && t.calls[id].phase.Left?
  {
    hide Apply, Enabled, Leads, GoesOn;
    var u, last, all;
    if s.calls[id].cancelled {
      more, done, u := GraceNow(run, steps, s, id);
      Follows(run, steps, more, done, u);
      last, all, t := CloseAndLeave(more, done, u, id);
      Onwards(run, steps, more, done, u, last, all, t);
      more, done := last, all;
    } else {
      more, done, u := ContextNow(run, steps, s, id);
      Follows(run, steps, more, done, u);
      if u.calls[id].phase.Cancelling? {
        var v;
        last, all, v := CancelNow(more, done, u, id);
        Onwards(run, steps, more, done, u, last, all, v);
        more, done, u := last, all, v;
      }
      more, done, t := AfterContext(run, steps, more, done, u, id);
    }
  }

  lemma AfterContext(
    run: seq<State>, steps: seq<Action>, more: seq<State>, done: seq<Action>, u: State, id: nat)
    returns (last: seq<State>, all: seq<Action>, t: State)
    requires GoesOn(run, steps, more, done, u) && Empty(u, id, Awaiting) && u.calls[id].cancelled
    ensures GoesOn(run, steps, last, all, t) && id in t.calls && t.calls[id].phase.Left?
  {
    hide Apply, Enabled, Leads, GoesOn;
    Follows(run, steps, more, done, u);
    var v, next, further;
    next, further, v := GraceNow(more, done, u, id);
    Onwards(run, steps, more, done, u, next, further, v);
    Follows(more, done, next, further, v);
    last, all, t := CloseAndLeave(next, further, v, id);
    Onwards(run, steps, next, further, v, last, all, t);
  }

  lemma PingGivesUp(run: seq<State>, steps: seq<Action>, s: State, id: nat)
    returns (more: seq<State>, done: seq<Action>, t: State)
    requires Leads(run, steps, s) && InPhase(s, id, Awaiting) && s.calls[id].op.Ping? && !s.calls[id].cancelled
    ensures GoesOn(run, steps, more, done, t) && id in t.calls && t.calls[id].phase.Leaving?
  {
    hide SendStep, LoopStep, S.Apply, S.Enabled, Leads;
    more, done, t := Step(run, steps, s, CtxEnds(id));
  }

  lemma TakeNow(run: seq<State>, steps: seq<Action>, s: State, id: nat)
    returns (more: seq<State>, done: seq<Action>, t: State)
    requires Leads(run, steps, s) && InPhase(s, id, Awaiting) && s.calls[id].chan != []
    ensures GoesOn(run, steps, more, done, t) && id in t.calls && |t.calls[id].chan| < |s.calls[id].chan|
    ensures InPhase(t, id, Awaiting) || t.calls[id].phase.Leaving?
  {
    hide SendStep, LoopStep, S.Apply, S.Enabled, Leads;
    more, done, t := Step(run, steps, s, TakeResponse(id));
  }

  lemma PingNotCancelled(s: State, steps: seq<Action>, id: nat)
    requires Tidy(s, steps) && id in s.calls && s.calls[id].op.Ping?
    ensures !s.calls[id].cancelled
  {
    hide CancelsOnce, LoopTraced, Heard, OutOrdered, ChansTraced;
    assert CallTraced(s, steps, id);
  }

  lemma {:induction false} FromAwaiting(run: seq<State>, steps: seq<Action>, s: State, id: nat)
    returns (more: seq<State>, done: seq<Action>, t: State)
    requires Leads(run, steps, s) && InPhase(s, id, Awaiting)
    ensures GoesOn(run, steps, more, done, t) && id in t.calls && t.calls[id].phase.Left?
    decreases |s.calls[id].chan|
  {
    hide Apply, Enabled, Leads, GoesOn, Tidy, Inv;
    var u;
    if s.calls[id].chan != [] {
      more, done, u := TakeNow(run, steps, s, id);
      if u.calls[id].phase.Leaving? {
        more, done, t := StepAndOn(run, steps, more, done, u, id);
      } else {
        Follows(run, steps, more, done, u);
        var last, all;
        last, all, t := FromAwaiting(more, done, u, id);
        Onwards(run, steps, more, done, u, last, all, t);
        more, done := last, all;
      }
    } else if s.calls[id].op.Ping? {
      Known(run, steps, s);
      PingNotCancelled(s, steps, id);
      more, done, u := PingGivesUp(run, steps, s, id);
      more, done, t := StepAndOn(run, steps, more, done, u, id);
    } else {
      more, done, t := GiveUpNow(run, steps, s, id);
    }
  }

  lemma FromRegistered(run: seq<State>, steps: seq<Action>, s: State, id: nat)
    returns (more: seq<State>, done: seq<Action>, t: State)
    requires Leads(run, steps, s) && InPhase(s, id, Registered)
    ensures GoesOn(run, steps, more, done, t) && id in t.calls && t.calls[id].phase.Left?
  {
    hide WaitStep, LoopStep, S.Apply, S.Enabled, Leads;
    var u;
    more, done, u := Step(run, steps, s, SendFails(id));
    more, done, t := StepAndOn(run, steps, more, done, u, id);
  }

  lemma RegisterNow(run: seq<State>, steps: seq<Action>, s: State, id: nat)
    returns (more: seq<State>, done: seq<Action>, t: State)
    requires Leads(run, steps, s) && InPhase(s, id, New)
    ensures GoesOn(run, steps, more, done, t) && id in t.calls
    ensures t.calls[id].phase.Left? || InPhase(t, id, Registered)
  {
    hide WaitStep, LoopStep, S.Apply, S.Enabled, Leads;
    more, done, t := Step(run, steps, s, Register(id));
  }

  /** From any point of any run, and whatever the helper does not do, an active call can still
      return, unless it is hung. */
  lemma CanReturn(run: seq<State>, steps: seq<Action>, s: State, id: nat)
    returns (more: seq<State>, done: seq<Action>, t: State)
    requires Leads(run, steps, s) && id in s.calls && Active(s.calls[id]) && !Hung(s, id)
    ensures GoesOn(run, steps, more, done, t) && id in t.calls && t.calls[id].phase.Left?
  {
    hide Apply, Enabled, Leads, GoesOn, Hung;
    var u, last, all;
    match s.calls[id].phase {
      case New =>
        more, done, u := RegisterNow(run, steps, s, id);
        if u.calls[id].phase.Left? {
          t := u;
        } else {
          Follows(run, steps, more, done, u);
          last, all, t := FromRegistered(more, done, u, id);
          Onwards(run, steps, more, done, u, last, all, t);
          more, done := last, all;
        }
      case Registered =>
        more, done, t := FromRegistered(run, steps, s, id);
      case Awaiting =>
        more, done, t := FromAwaiting(run, steps, s, id);
      case Cancelling(_) =>
        more, done, u := CancelNow(run, steps, s, id);
        Follows(run, steps, more, done, u);
        last, all, t := FromAwaiting(more, done, u, id);
        Onwards(run, steps, more, done, u, last, all, t);
        more, done := last, all;
      case Closing =>
        more, done, t := CloseAndLeave(run, steps, s, id);
      case Leaving(_) =>
        more, done, t := LeaveNow(run, steps, s, id);
    }
  }

  /** A call can still return if and only if it is not hung: when it is, no continuation of the
      run, with whatever steps of anyone, has it return. */
  lemma ReturnsIff(run: seq<State>, steps: seq<Action>, n: nat, id: nat)
    requires IsRun(run, steps) && n + 1 == |run| && id in run[n].calls && Active(run[n].calls[id])
    ensures (exists more: seq<State>, done: seq<Action> :: IsRun(more, done) && run <= more &&
               id in more[|more| - 1].calls && more[|more| - 1].calls[id].phase.Left?) <==>
            !(&& run[n].calls[id].phase.Closing?
              && (run[n].loop.Got? || run[n].loop.Delivering?) && run[n].loop.resp.id == id
              && |run[n].calls[id].chan| >= 64)
  {
    hide Apply, Enabled, Init;
    if Hung(run[n], id) {
      forall more: seq<State>, done: seq<Action> | IsRun(more, done) && run <= more
        ensures id in more[|more| - 1].calls ==> !more[|more| - 1].calls[id].phase.Left?
      {
        assert more[n] == run[n];
        HungForever(more, done, n, |more| - 1, id);
      }
    } else {
      var more, done, t := CanReturn(run, steps, run[n], id);
      assert IsRun(more, done) && run <= more;
    }
  }

  // ---- a run in which a call hangs

  /** The operation of call 2 runs and has made progress that the caller has not looked at. */
  predicate Streaming(s: State, n: nat) {
    && InPhase(s, 2, Awaiting) && s.calls[2].op.Work? && !s.calls[2].cancelled && |s.calls[2].chan| == n
    && 2 in s.pending && s.loop.Reading? && s.read == |s.sess.out| && !s.readErr
    && s.sess.open && s.sess.wmu.None? && S.InPhase(s.sess, 1, S.Running) && s.sess.workers[1].req.id == 2
  }

  lemma OtherStep(run: seq<State>, steps: seq<Action>, s: State, a: Action)
    returns (more: seq<State>, done: seq<Action>, t: State)
    requires Leads(run, steps, s) && Enabled(s, a)
    ensures Leads(more, done, t) && t == Apply(s, a)
  {
    hide Apply, Enabled, IsRun;
    more, done, t := Extend(run, steps, s, a);
  }

  lemma Progresses(run: seq<State>, steps: seq<Action>, s: State, n: nat)
    returns (more: seq<State>, done: seq<Action>, t: State)
    requires Leads(run, steps, s) && Streaming(s, n)
    ensures Leads(more, done, t) && t == s.(sess := t.sess)
    ensures t.sess.open && t.sess.wmu.None? && S.InPhase(t.sess, 1, S.Running) && t.sess.workers[1].req.id == 2
    ensures t.sess.out == s.sess.out + [S.Response(2, S.Progress, 1)]
  {
    hide Leads, SendStep, WaitStep, LoopStep, S.Handle, S.ReaderStep;
    more, done, t := OtherStep(run, steps, s, Helper(S.OpProgress(1)));
  }

  lemma ReadsProgress(run: seq<State>, steps: seq<Action>, s: State, n: nat)
    returns (more: seq<State>, done: seq<Action>, t: State)
    requires Leads(run, steps, s) && Streaming(s, n)
    ensures Leads(more, done, t) && t.loop == Got(S.Response(2, S.Progress, 1)) && t == s.(
      sess := t.sess, loop := t.loop, read := t.read) && t.read == |t.sess.out|
    ensures t.sess.open && t.sess.wmu.None? && S.InPhase(t.sess, 1, S.Running) && t.sess.workers[1].req.id == 2
  {
    hide Leads, SendStep, WaitStep, S.Apply, S.Enabled;
    more, done, t := Progresses(run, steps, s, n);
    more, done, t := OtherStep(more, done, t, ReadResponse);
  }

  lemma OneMore(run: seq<State>, steps: seq<Action>, s: State, n: nat)
    returns (more: seq<State>, done: seq<Action>, t: State)
    requires Leads(run, steps, s) && Streaming(s, n) && n < 64
    ensures Leads(more, done, t) && Streaming(t, n + 1)
  {
    hide Leads, SendStep, WaitStep, S.Apply, S.Enabled;
    more, done, t := ReadsProgress(run, steps, s, n);
    more, done, t := OtherStep(more, done, t, Lookup);
    more, done, t := OtherStep(more, done, t, Deliver);
  }

  lemma {:induction false} FillChannel(run: seq<State>, steps: seq<Action>, s: State, n: nat)
    returns (more: seq<State>, done: seq<Action>, t: State)
    requires Leads(run, steps, s) && Streaming(s, n) && n <= 64
    ensures Leads(more, done, t) && Streaming(t, 64)
    decreases 64 - n
  {
    hide Leads, Streaming;
    if n == 64 {
      more, done, t := run, steps, s;
    } else {
      more, done, t := OneMore(run, steps, s, n);
      more, done, t := FillChannel(more, done, t, n + 1);
    }
  }

  lemma StartStreaming() returns (run: seq<State>, steps: seq<Action>, s: State)
    ensures Leads(run, steps, s) && Streaming(s, 0)
  {
    hide Leads, SendStep, WaitStep, S.Apply, S.Enabled, IsRun;
    run, steps, s := StartWork();
    run, steps, s := OtherStep(run, steps, s, ReadResponse);
    run, steps, s := OtherStep(run, steps, s, Lookup);
    run, steps, s := OtherStep(run, steps, s, Deliver);
  }

  /** A call hangs: the helper makes progress 65 times while the caller is busy, the caller's
      context ends, its cancel is lost or not answered, and when it comes back it sees the end
      of the grace period first. */
  lemma HangHappens() returns (run: seq<State>, steps: seq<Action>)
    ensures IsRun(run, steps) && 2 in run[|run| - 1].calls && run[|run| - 1].calls[2].op.Work?
    ensures Hung(run[|run| - 1], 2)
  {
    hide SendStep, LoopStep, S.Apply, S.Enabled, IsRun;
    var s;
    run, steps, s := StartStreaming();
    run, steps, s := FillChannel(run, steps, s, 0);
    run, steps, s := ReadsProgress(run, steps, s, 64);
    run, steps, s := OtherStep(run, steps, s, CtxEnds(2));
    run, steps, s := LosesCancel(run, steps, s);
    run, steps, s := OtherStep(run, steps, s, GraceEnds(2));
  }

  lemma LosesCancel(run: seq<State>, steps: seq<Action>, s: State)
    returns (more: seq<State>, done: seq<Action>, t: State)
    requires Leads(run, steps, s) && 2 in s.calls && s.calls[2].phase.Cancelling?
    ensures Leads(more, done, t) && t == s.(calls := t.calls)
    ensures 2 in t.calls && t.calls[2] == s.calls[2].(phase := Awaiting)
  {
    hide Leads, WaitStep, LoopStep, S.Apply, S.Enabled;
    more, done, t := OtherStep(run, steps, s, CancelLost(2));
  }
}
