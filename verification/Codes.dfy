/** Which answer a request gets, over every run of a session
    (internal/helper/server.go:227-337). */
module Codes {
  import opened Arith
  import opened Outside
  import opened Session

  /** The messages read in a run, in order. */
  ghost function MessagesOf(steps: seq<Action>): seq<Message> {
    if steps == [] then [] else
      var a := steps[|steps| - 1];
      MessagesOf(steps[..|steps| - 1]) + if a.Receive? then [a.m] else []
  }

  lemma MessagesAppend(steps: seq<Action>, a: Action)
    ensures MessagesOf(steps + [a]) == MessagesOf(steps) + if a.Receive? then [a.m] else []
  {
    assert (steps + [a])[..|steps|] == steps;
  }

  /** The run of op k has returned c, and nothing else. */
  ghost predicate Returned(steps: seq<Action>, k: nat, c: Code) {
    OpReturns(k, c) in steps && forall d | OpReturns(k, d) in steps :: d == c
  }

  predicate IsWork(ms: seq<Message>, k: nat) {
    k < |ms| && ms[k].Line? && ms[k].req.op.Work?
  }

  /** The reader loop's own answers, by message, and whether a ping had shaken hands. */
  predicate Inline(m: Message, shaken: bool, c: Code) {
    if m.Malformed? then c == InvalidRequest
    else if m.req.op.Ping? then
      && (m.req.op.h == Matches ==> c == Success)
      && (m.req.op.h == Mismatch ==> c == VersionMismatch)
      && (m.req.op.h == BadParams ==> c == InvalidRequest)
    else if !shaken then c == InvalidRequest
    else c == if m.req.op.Cancel? then Success else Busy
  }

  predicate HasId(m: Message, id: nat) {
    id == if m.Malformed? then 0 else m.req.id
  }

  /** What the reader is at is the last message. */
  ghost predicate ReaderTraced(s: State, ms: seq<Message>) {
    && |ms| == s.received
    && (Reading(s.reader) ==> s.received > 0)
    && (s.reader.Got? || s.reader.Decoding? ==> s.reader.m == ms[s.received - 1])
    && (s.reader.Handling? ==> ms[s.received - 1].Line? && s.reader.req == ms[s.received - 1].req)
    && (s.reader.Replying? ==>
          && s.reader.resp.serial == s.received - 1 && s.reader.resp.kind.Terminal?
          && HasId(ms[s.received - 1], s.reader.resp.id)
          && Inline(ms[s.received - 1], s.handshake, s.reader.resp.kind.code))
    && (s.handshake <==> Shaken(s.log))
  }

  /** What an op goroutine is at, and carries. */
  ghost predicate WorkersTraced(s: State, ms: seq<Message>, steps: seq<Action>) {
    && (forall k | k in s.workers :: IsWork(ms, k) && s.workers[k].req == ms[k].req)
    && (forall k | k in s.workers && (s.workers[k].phase.Finished? || s.workers[k].phase.Locked?
                                      || s.workers[k].phase.Cleared?) ::
          Returned(steps, k, s.workers[k].phase.code))
    && (forall k: nat, c | OpReturns(k, c) in steps ::
          && !InPhase(s, k, Running)
          && (k + 1 < s.received || (k + 1 == s.received && !Reading(s.reader))))
  }

  ghost predicate EventTraced(log: seq<Event>, i: nat, ms: seq<Message>, steps: seq<Action>)
    requires i < |log|
  {
    match log[i]
    case Wrote(k, Terminal(c), byOp) =>
      k < |ms| && if byOp then IsWork(ms, k) && Returned(steps, k, c) else Inline(ms[k], Shaken(log[..i]), c)
    case Wrote(k, Progress, byOp) => byOp && IsWork(ms, k)
    case _ => true
  }

  ghost predicate LogTraced(log: seq<Event>, ms: seq<Message>, steps: seq<Action>) {
    forall i | 0 <= i < |log| :: EventTraced(log, i, ms, steps)
  }

  /** What is on the wire was recorded so. */
  ghost predicate OutTraced(s: State, ms: seq<Message>) {
    forall r | r in s.out ::
      && r.serial < |ms| && HasId(ms[r.serial], r.id)
      && (Wrote(r.serial, r.kind, true) in s.log || Wrote(r.serial, r.kind, false) in s.log)
  }

  predicate Refusal(c: Code) {
    c == InvalidRequest || c == VersionMismatch
  }

  /** The reader loop has refused a message. */
  ghost predicate Refused(log: seq<Event>) {
    exists k, c :: Wrote(k, Terminal(c), false) in log && Refusal(c)
  }

  predicate Ended(r: Reader) {
    r.Closing? || r.Draining? || r.Returned?
  }

  /** Reading ends with a failing read or a refusal, and a refusal ends it. */
  ghost predicate EndTraced(s: State, steps: seq<Action>) {
    && (s.reader.Replying? ==> s.reader.resp.kind.Terminal? && (s.reader.close <==> Refusal(s.reader.resp.kind.code)))
    && (Ended(s.reader) ==> ReceiveFails in steps || Refused(s.log))
    && (Refused(s.log) ==> Ended(s.reader))
  }

  function FirstOf(fds: seq<Fd>): Option<Fd> {
    if fds == [] then None else Some(fds[0])
  }

  /** The image of an op is the first descriptor that came with its message, if it takes one. */
  ghost predicate ImagesTraced(s: State, ms: seq<Message>) {
    && (s.reader.Handling? && |ms| == s.received > 0 ==> s.reader.src == FirstOf(ms[s.received - 1].fds))
    && (forall k | k in s.workers && IsWork(ms, k) ::
          s.workers[k].image == if ms[k].req.op.takesImage then FirstOf(ms[k].fds) else None)
  }

  predicate IsCancel(ms: seq<Message>, k: nat) {
    k < |ms| && ms[k].Line? && ms[k].req.op.Cancel?
  }

  /** A cancel that is being answered has cancelled what runs. */
  ghost predicate CancelTraced(s: State, ms: seq<Message>) {
    s.reader.Replying? && s.received > 0 && IsCancel(ms, s.received - 1) && s.handshake ==>
      forall j | InPhase(s, j, Running) :: CancelledOp(j, s.received - 1) in s.log
  }

  /** ... and what ran when it was answered had been cancelled. */
  ghost predicate CancelsTraced(log: seq<Event>, ms: seq<Message>) {
    forall i, k | 0 <= i < |log| && log[i] == Wrote(k, Terminal(Success), false) && IsCancel(ms, k) ::
      forall j | Started(j) in log[..i] && RunReturned(j) !in log[..i] :: CancelledOp(j, k) in log[..i]
  }

  ghost predicate Traced(s: State, steps: seq<Action>) {
    var ms := MessagesOf(steps);
    && ReaderTraced(s, ms) && WorkersTraced(s, ms, steps) && LogTraced(s.log, ms, steps) && OutTraced(s, ms)
    && EndTraced(s, steps) && ImagesTraced(s, ms) && CancelTraced(s, ms) && CancelsTraced(s.log, ms)
  }

  // ---- each step keeps it

  lemma ReaderTracedHandle(s: State, a: Action, ms: seq<Message>)
    requires ReaderTraced(s, ms) && Enabled(s, a) && HandleStep(a)
    ensures ReaderTraced(Apply(s, a), ms)
  {
    hide ReaderStep, WorkerStep;
    var t := Apply(s, a);
    ShakenAfter(s, a);
  }

  lemma ShakenAfter(s: State, a: Action)
    requires (s.handshake <==> Shaken(s.log)) && Enabled(s, a)
    ensures Apply(s, a).handshake <==> Shaken(Apply(s, a).log)
  {
    hide Apply, Enabled;
    HandshakeStep(s, a);
    var e := LogGrows(s, a);
    var t := Apply(s, a);
    if e == Some(Handshook) {
      assert t.log[|s.log|].Handshook?;
    } else if Shaken(s.log) {
      var i :| 0 <= i < |s.log| && s.log[i].Handshook?;
      assert t.log[i].Handshook?;
    }
  }

  lemma ReaderTracedOp(s: State, a: Action, ms: seq<Message>)
    requires ReaderTraced(s, ms) && Enabled(s, a) && OpStep(a)
    ensures ReaderTraced(Apply(s, a), ms)
  {
    hide ReaderStep, Handle;
    ShakenAfter(s, a);
  }

  lemma ReaderTracedReader(s: State, a: Action, ms: seq<Message>)
    requires ReaderTraced(s, ms) && Enabled(s, a) && !HandleStep(a) && !OpStep(a)
    ensures ReaderTraced(Apply(s, a), ms + if a.Receive? then [a.m] else [])
  {
    hide Handle, WorkerStep;
    ShakenAfter(s, a);
  }

  lemma ReaderTracedKept(s: State, a: Action, ms: seq<Message>)
    requires ReaderTraced(s, ms) && Enabled(s, a)
    ensures ReaderTraced(Apply(s, a), ms + if a.Receive? then [a.m] else [])
  {
    hide Apply, Enabled, ReaderTraced;
    assert ms + [] == ms;
    if HandleStep(a) {
      ReaderTracedHandle(s, a, ms);
    } else if OpStep(a) {
      ReaderTracedOp(s, a, ms);
    } else {
      ReaderTracedReader(s, a, ms);
    }
  }

  lemma ReturnedGrows(steps: seq<Action>, a: Action, k: nat, c: Code)
    requires Returned(steps, k, c) && (a.OpReturns? ==> a.serial != k)
    ensures Returned(steps + [a], k, c)
  {
    assert forall x | x in steps :: x in steps + [a];
  }

  /** A run returns once. */
  lemma ReturnsNow(s: State, ms: seq<Message>, steps: seq<Action>, k: nat, c: Code)
    requires WorkersTraced(s, ms, steps) && InPhase(s, k, Running)
    ensures Returned(steps + [OpReturns(k, c)], k, c)
  {
    assert (steps + [OpReturns(k, c)])[|steps|] == OpReturns(k, c);
    forall d | OpReturns(k, d) in steps + [OpReturns(k, c)]
      ensures d == c
    {
      if OpReturns(k, d) in steps {
        assert false;
      }
    }
  }

  lemma WorkersTracedStart(s: State, ms: seq<Message>, steps: seq<Action>)
    requires Control(s) && ReaderTraced(s, ms) && WorkersTraced(s, ms, steps) && Enabled(s, HandleStart)
    ensures WorkersTraced(Apply(s, HandleStart), ms, steps + [HandleStart])
  {
    hide ReaderStep, WorkerStep, Returned;
    var more := steps + [HandleStart];
    assert forall k: nat, c :: OpReturns(k, c) in more <==> OpReturns(k, c) in steps;
    forall k, c | Returned(steps, k, c)
      ensures Returned(more, k, c)
    {
      ReturnedGrows(steps, HandleStart, k, c);
    }
  }

  lemma WorkersTracedHandle(s: State, a: Action, ms: seq<Message>, steps: seq<Action>)
    requires Control(s) && ReaderTraced(s, ms) && WorkersTraced(s, ms, steps) && Enabled(s, a) && HandleStep(a)
    ensures WorkersTraced(Apply(s, a), ms, steps + [a])
  {
    hide ReaderStep, WorkerStep, Returned;
    if a.HandleStart? {
      WorkersTracedStart(s, ms, steps);
    } else {
      SameWorkers(s, Apply(s, a), a, ms, ms, steps);
    }
  }

  /** Nothing changes for the ops when none of them moves. */
  lemma SameWorkers(
    s: State, t: State, a: Action, ms: seq<Message>, more: seq<Message>, steps: seq<Action>)
    requires WorkersTraced(s, ms, steps) && t.workers == s.workers && !a.OpReturns? && ms <= more
    requires s.received <= t.received && (t.received == s.received && Reading(t.reader) ==> Reading(s.reader))
    ensures WorkersTraced(t, more, steps + [a])
  {
    hide Returned;
    assert forall k: nat, c :: OpReturns(k, c) in steps + [a] <==> OpReturns(k, c) in steps;
    forall k, c | Returned(steps, k, c)
      ensures Returned(steps + [a], k, c)
    {
      ReturnedGrows(steps, a, k, c);
    }
  }

  lemma WorkersTracedReader(s: State, a: Action, ms: seq<Message>, steps: seq<Action>)
    requires Control(s) && ReaderTraced(s, ms) && WorkersTraced(s, ms, steps)
    requires Enabled(s, a) && !HandleStep(a) && !OpStep(a)
    ensures WorkersTraced(Apply(s, a), ms + if a.Receive? then [a.m] else [], steps + [a])
  {
    ReaderKeepsWorkers(s, a);
    SameWorkers(s, Apply(s, a), a, ms, ms + if a.Receive? then [a.m] else [], steps);
  }

  lemma ReaderKeepsWorkers(s: State, a: Action)
    requires Enabled(s, a) && !HandleStep(a) && !OpStep(a)
    ensures var t := Apply(s, a);
            && t.workers == s.workers && s.received <= t.received
            && (t.received == s.received && Reading(t.reader) ==> Reading(s.reader))
  {
    hide Handle, WorkerStep, Enabled, ReaderStep, Apply;
    ReaderStepKeeps(s, a);
    ApplyReader(s, a);
  }

  lemma ApplyReader(s: State, a: Action)
    requires Enabled(s, a) && !HandleStep(a) && !OpStep(a)
    ensures Apply(s, a) == ReaderStep(s, a)
  {
    hide Handle, WorkerStep, Enabled, ReaderStep;
  }

  lemma ReaderStepKeeps(s: State, a: Action)
    requires Enabled(s, a) && !HandleStep(a) && !OpStep(a)
    ensures var t := ReaderStep(s, a);
            && t.workers == s.workers && s.received <= t.received
            && (t.received == s.received && Reading(t.reader) ==> Reading(s.reader))
  {
    hide ReaderStep, Enabled;
    if a.Receive? || a.StopTimer? || a.DecodeLine? || a.DecodeMalformed? {
      InputKeeps(s, a);
    } else {
      OutputKeeps(s, a);
    }
  }

  lemma InputKeeps(s: State, a: Action)
    requires Enabled(s, a) && (a.Receive? || a.StopTimer? || a.DecodeLine? || a.DecodeMalformed?)
    ensures var t := ReaderStep(s, a);
            && t.workers == s.workers
            && (t.received == s.received + 1 || (t.received == s.received && Reading(s.reader)))
  {
    hide Handle, WorkerStep, Apply;
  }

  lemma OutputKeeps(s: State, a: Action)
    requires Enabled(s, a) && !HandleStep(a) && !OpStep(a)
    requires !a.Receive? && !a.StopTimer? && !a.DecodeLine? && !a.DecodeMalformed?
    ensures var t := ReaderStep(s, a);
            t.workers == s.workers && t.received == s.received && (Reading(t.reader) ==> t.reader == s.reader)
  {
    hide Handle, WorkerStep, Apply;
  }

  lemma WorkersTracedReturn(s: State, a: Action, ms: seq<Message>, steps: seq<Action>)
    requires Control(s) && WorkersTraced(s, ms, steps) && Enabled(s, a) && a.OpReturns?
    ensures WorkersTraced(Apply(s, a), ms, steps + [a])
  {
    hide ReaderStep, Handle, Returned;
    var more := steps + [a];
    forall k, c | Returned(steps, k, c) && a.serial != k
      ensures Returned(more, k, c)
    {
      ReturnedGrows(steps, a, k, c);
    }
    ReturnsNow(s, ms, steps, a.serial, a.code);
    assert forall x | x in more :: x in steps || x == a;
  }

  predicate Carries(p: Phase) {
    p.Finished? || p.Locked? || p.Cleared?
  }

  /** The ops of t are ops of s, which carry the same codes or none. */
  ghost predicate GoesOn(s: State, t: State) {
    && t.reader == s.reader && t.received == s.received
    && forall k | k in t.workers ::
      && k in s.workers && t.workers[k].req == s.workers[k].req
      && (t.workers[k].phase.Running? ==> s.workers[k].phase.Running?)
      && (Carries(t.workers[k].phase) ==>
            Carries(s.workers[k].phase) && t.workers[k].phase.code == s.workers[k].phase.code)
  }

  lemma ProgressGoesOn(s: State, a: Action)
    requires Enabled(s, a) && (a.OpProgress? || a.OpLock?)
    ensures GoesOn(s, Apply(s, a))
  {
    hide ReaderStep, Handle;
  }

  lemma ClearGoesOn(s: State, a: Action)
    requires Enabled(s, a) && a.OpClear?
    ensures GoesOn(s, Apply(s, a))
  {
    hide ReaderStep, Handle;
  }

  lemma EndGoesOn(s: State, a: Action)
    requires Enabled(s, a) && (a.OpWrite? || a.OpRetire?)
    ensures GoesOn(s, Apply(s, a))
  {
    hide ReaderStep, Handle;
  }

  lemma OpGoesOn(s: State, a: Action)
    requires Enabled(s, a) && OpStep(a) && !a.OpReturns?
    ensures GoesOn(s, Apply(s, a))
  {
    hide Apply, Enabled, GoesOn;
    if a.OpProgress? || a.OpLock? {
      ProgressGoesOn(s, a);
    } else if a.OpClear? {
      ClearGoesOn(s, a);
    } else {
      EndGoesOn(s, a);
    }
  }

  lemma WorkersTracedOp(s: State, a: Action, ms: seq<Message>, steps: seq<Action>)
    requires Control(s) && WorkersTraced(s, ms, steps) && Enabled(s, a) && OpStep(a)
    ensures WorkersTraced(Apply(s, a), ms, steps + [a])
  {
    hide Apply, Enabled, Control, Returned;
    if a.OpReturns? {
      WorkersTracedReturn(s, a, ms, steps);
    } else {
      OpGoesOn(s, a);
      assert forall k: nat, c :: OpReturns(k, c) in steps + [a] <==> OpReturns(k, c) in steps;
      forall k, c | Returned(steps, k, c)
        ensures Returned(steps + [a], k, c)
      {
        ReturnedGrows(steps, a, k, c);
      }
    }
  }

  lemma WorkersTracedKept(s: State, a: Action, ms: seq<Message>, steps: seq<Action>)
    requires Control(s) && ReaderTraced(s, ms) && WorkersTraced(s, ms, steps) && Enabled(s, a)
    ensures WorkersTraced(Apply(s, a), ms + if a.Receive? then [a.m] else [], steps + [a])
  {
    hide Apply, Enabled, ReaderTraced, WorkersTraced, Control;
    assert ms + [] == ms;
    if HandleStep(a) {
      WorkersTracedHandle(s, a, ms, steps);
    } else if OpStep(a) {
      WorkersTracedOp(s, a, ms, steps);
    } else {
      WorkersTracedReader(s, a, ms, steps);
    }
  }

  // ---- the log and the wire

  /** An event that was traced stays so. */
  lemma EventStays(
    log: seq<Event>, more: seq<Event>, i: nat, ms: seq<Message>, longer: seq<Message>, steps: seq<Action>,
    s: State, a: Action)
    requires i < |log| && log <= more && ms <= longer && EventTraced(log, i, ms, steps)
    requires WorkersTraced(s, ms, steps) && (a.OpReturns? ==> InPhase(s, a.serial, Running))
    ensures EventTraced(more, i, longer, steps + [a])
  {
    assert more[i] == log[i] && more[..i] == log[..i];
    match log[i] {
      case Wrote(k, Terminal(c), true) =>
        ReturnedGrows(steps, a, k, c);
      case _ =>
    }
  }

  /** The event a step records. */
  lemma NewEventTraced(s: State, a: Action, ms: seq<Message>, steps: seq<Action>)
    requires Control(s) && ReaderTraced(s, ms) && WorkersTraced(s, ms, steps) && Enabled(s, a)
    requires EventOf(s, a).Some?
    ensures EventTraced(s.log + [EventOf(s, a).value], |s.log|, ms, steps + [a])
  {
    var e := EventOf(s, a).value;
    assert (s.log + [e])[|s.log|] == e && (s.log + [e])[..|s.log|] == s.log;
    if a.OpWrite? {
      ReturnedGrows(steps, a, a.serial, s.workers[a.serial].phase.code);
    }
  }

  lemma LogTracedKept(s: State, a: Action, ms: seq<Message>, steps: seq<Action>)
    requires Control(s) && ReaderTraced(s, ms) && WorkersTraced(s, ms, steps) && LogTraced(s.log, ms, steps)
    requires Enabled(s, a)
    ensures LogTraced(Apply(s, a).log, ms + if a.Receive? then [a.m] else [], steps + [a])
  {
    hide Apply, EventTraced, ReaderTraced, WorkersTraced, Control, EventOf;
    var t, longer := Apply(s, a), ms + if a.Receive? then [a.m] else [];
    StepLogs(s, a);
    forall i | 0 <= i < |t.log|
      ensures EventTraced(t.log, i, longer, steps + [a])
    {
      if i < |s.log| {
        EventStays(s.log, t.log, i, ms, longer, steps, s, a);
      } else {
        NewEventTraced(s, a, ms, steps);
        NothingReceived(s, a);
        assert ms + [] == ms;
      }
    }
  }

  lemma NothingReceived(s: State, a: Action)
    requires Enabled(s, a) && EventOf(s, a).Some?
    ensures !a.Receive?
  {
  }

  /** What a step puts on the wire. */
  function Sends(s: State, a: Action): Option<Response>
    requires Enabled(s, a)
  {
    if !s.open then None
    else if a.Reply? then Some(s.reader.resp)
    else if a.OpProgress? then Some(Response(s.workers[a.serial].req.id, Progress, a.serial))
    else if a.OpWrite? then
      Some(Response(s.workers[a.serial].req.id, Terminal(s.workers[a.serial].phase.code), a.serial))
    else None
  }

  lemma OpSends(s: State, a: Action)
    requires Enabled(s, a) && OpStep(a)
    ensures Apply(s, a).out == s.out + if Sends(s, a).Some? then [Sends(s, a).value] else []
  {
    hide ReaderStep, Handle;
    assert s.out + [] == s.out;
  }

  lemma ReaderSends(s: State, a: Action)
    requires Enabled(s, a) && !OpStep(a) && !HandleStep(a)
    ensures Apply(s, a).out == s.out + if Sends(s, a).Some? then [Sends(s, a).value] else []
  {
    hide WorkerStep, Handle;
    assert s.out + [] == s.out;
  }

  lemma HandleSends(s: State, a: Action)
    requires Enabled(s, a) && HandleStep(a)
    ensures Apply(s, a).out == s.out + if Sends(s, a).Some? then [Sends(s, a).value] else []
  {
    hide WorkerStep, ReaderStep;
    assert s.out + [] == s.out;
  }

  lemma StepSends(s: State, a: Action)
    requires Enabled(s, a)
    ensures Apply(s, a).out == s.out + if Sends(s, a).Some? then [Sends(s, a).value] else []
  {
    hide Apply, Enabled, Sends;
    if HandleStep(a) {
      HandleSends(s, a);
    } else if OpStep(a) {
      OpSends(s, a);
    } else {
      ReaderSends(s, a);
    }
  }

  lemma OutTracedKept(s: State, a: Action, ms: seq<Message>, steps: seq<Action>)
    requires Control(s) && ReaderTraced(s, ms) && WorkersTraced(s, ms, steps) && OutTraced(s, ms) && Enabled(s, a)
    ensures OutTraced(Apply(s, a), ms + if a.Receive? then [a.m] else [])
  {
    StepSends(s, a);
    StepLogs(s, a);
    hide Apply, Control;
    var t := Apply(s, a);
    forall r | r in t.out
      ensures Wrote(r.serial, r.kind, true) in t.log || Wrote(r.serial, r.kind, false) in t.log
    {
      if r !in s.out {
        assert t.log[|s.log|] == EventOf(s, a).value;
      }
    }
  }

  // ---- the end of reading

  lemma RefusedGrows(s: State, a: Action)
    requires Enabled(s, a)
    ensures Refused(Apply(s, a).log) <==>
            || Refused(s.log)
            || (a.Reply? && s.reader.resp.kind.Terminal? && Refusal(s.reader.resp.kind.code))
  {
    hide Apply;
    StepLogs(s, a);
    var t := Apply(s, a);
    if Refused(s.log) {
      var k, c :| Wrote(k, Terminal(c), false) in s.log && Refusal(c);
      assert Wrote(k, Terminal(c), false) in t.log;
    }
    if a.Reply? && s.reader.resp.kind.Terminal? && Refusal(s.reader.resp.kind.code) {
      var e := Wrote(s.reader.resp.serial, Terminal(s.reader.resp.kind.code), false);
      assert t.log[|s.log|] == e;
      assert e in t.log;
    }
    if Refused(t.log) && !Refused(s.log) {
      var k, c :| Wrote(k, Terminal(c), false) in t.log && Refusal(c);
      assert Wrote(k, Terminal(c), false) !in s.log;
    }
  }

  lemma EndTracedHandle(s: State, a: Action, steps: seq<Action>)
    requires EndTraced(s, steps) && Enabled(s, a) && HandleStep(a)
    ensures EndTraced(Apply(s, a), steps + [a])
  {
    hide ReaderStep, WorkerStep, Refused;
    RefusedGrows(s, a);
  }

  lemma EndTracedOp(s: State, a: Action, steps: seq<Action>)
    requires EndTraced(s, steps) && Enabled(s, a) && OpStep(a)
    ensures EndTraced(Apply(s, a), steps + [a])
  {
    hide Refused, Apply;
    RefusedGrows(s, a);
    OpLeavesReader(s, a);
  }

  lemma OpLeavesReader(s: State, a: Action)
    requires Enabled(s, a) && OpStep(a)
    ensures Apply(s, a).reader == s.reader && Apply(s, a).received == s.received
    ensures Apply(s, a).handshake == s.handshake
  {
    hide Enabled, ReaderStep, Handle, WorkerStep;
    if a.OpProgress? || a.OpWrite? {
      WritesLeaveReader(s, a);
    } else {
      MovesLeaveReader(s, a);
    }
  }

  lemma WritesLeaveReader(s: State, a: Action)
    requires Enabled(s, a) && (a.OpProgress? || a.OpWrite?)
    ensures Apply(s, a).reader == s.reader && Apply(s, a).received == s.received
    ensures Apply(s, a).handshake == s.handshake
  {
    hide ReaderStep, Handle;
  }

  lemma MovesLeaveReader(s: State, a: Action)
    requires Enabled(s, a) && OpStep(a) && !a.OpProgress? && !a.OpWrite?
    ensures Apply(s, a).reader == s.reader && Apply(s, a).received == s.received
    ensures Apply(s, a).handshake == s.handshake
  {
    hide ReaderStep, Handle;
  }

  lemma EndTracedReader(s: State, a: Action, steps: seq<Action>)
    requires EndTraced(s, steps) && Enabled(s, a) && !HandleStep(a) && !OpStep(a)
    ensures EndTraced(Apply(s, a), steps + [a])
  {
    hide Handle, WorkerStep, Refused;
    RefusedGrows(s, a);
    if a.ReceiveFails? {
      assert (steps + [a])[|steps|] == ReceiveFails;
    }
  }

  lemma EndTracedKept(s: State, a: Action, steps: seq<Action>)
    requires EndTraced(s, steps) && Enabled(s, a)
    ensures EndTraced(Apply(s, a), steps + [a])
  {
    hide Apply, Enabled, EndTraced;
    if HandleStep(a) {
      EndTracedHandle(s, a, steps);
    } else if OpStep(a) {
      EndTracedOp(s, a, steps);
    } else {
      EndTracedReader(s, a, steps);
    }
  }

  // ---- images

  lemma ImagesTracedHandle(s: State, a: Action, ms: seq<Message>)
    requires Control(s) && ReaderTraced(s, ms) && ImagesTraced(s, ms) && Enabled(s, a) && HandleStep(a)
    ensures ImagesTraced(Apply(s, a), ms)
  {
    hide ReaderStep, WorkerStep, Shaken;
  }

  lemma ImagesTracedOp(s: State, a: Action, ms: seq<Message>)
    requires ImagesTraced(s, ms) && Enabled(s, a) && OpStep(a)
    ensures ImagesTraced(Apply(s, a), ms)
  {
    OpLeavesReader(s, a);
    if a.OpRetire? {
      RetireRemoves(s, a);
    } else {
      OpKeepsImage(s, a);
    }
    hide Apply, Enabled, FirstOf, IsWork;
  }

  lemma RetireRemoves(s: State, a: Action)
    requires Enabled(s, a) && a.OpRetire?
    ensures Apply(s, a).workers == s.workers - {a.serial}
  {
    hide ReaderStep, Handle;
  }

  lemma ImagesTracedReader(s: State, a: Action, ms: seq<Message>)
    requires Control(s) && ReaderTraced(s, ms) && ImagesTraced(s, ms)
    requires Enabled(s, a) && !HandleStep(a) && !OpStep(a)
    ensures ImagesTraced(Apply(s, a), ms + if a.Receive? then [a.m] else [])
  {
    ReaderKeepsWorkers(s, a);
    DecodeTakes(s, a);
    assert ms + [] == ms;
    hide Apply, Enabled, FirstOf, Shaken;
  }

  lemma DecodeTakes(s: State, a: Action)
    requires Enabled(s, a) && !HandleStep(a) && !OpStep(a)
    ensures var t := Apply(s, a);
            && (t.received == s.received + if a.Receive? then 1 else 0)
            && (t.reader.Handling? ==>
                  t.reader == s.reader || (a.DecodeLine? && t.reader.src == FirstOf(s.reader.m.fds)))
  {
    hide Handle, WorkerStep;
  }

  lemma ImagesTracedKept(s: State, a: Action, ms: seq<Message>)
    requires Control(s) && ReaderTraced(s, ms) && ImagesTraced(s, ms) && Enabled(s, a)
    ensures ImagesTraced(Apply(s, a), ms + if a.Receive? then [a.m] else [])
  {
    hide Apply, Enabled, Control, ReaderTraced, ImagesTraced;
    assert ms + [] == ms;
    if HandleStep(a) {
      ImagesTracedHandle(s, a, ms);
    } else if OpStep(a) {
      ImagesTracedOp(s, a, ms);
    } else {
      ImagesTracedReader(s, a, ms);
    }
  }

  // ---- cancels

  lemma CancelTracedHandle(s: State, a: Action, ms: seq<Message>)
    requires Control(s) && ReaderTraced(s, ms) && Enabled(s, a) && HandleStep(a)
    ensures CancelTraced(Apply(s, a), ms)
  {
    hide ReaderStep, WorkerStep, Shaken;
    if a.HandleCancel? && s.inflight.Some? {
      assert Apply(s, a).log[|s.log|] == CancelledOp(s.inflight.value, s.received - 1);
    }
  }

  lemma CancelTracedOp(s: State, a: Action, ms: seq<Message>)
    requires CancelTraced(s, ms) && Enabled(s, a) && OpStep(a)
    ensures CancelTraced(Apply(s, a), ms)
  {
    hide Apply, Enabled;
    OpLeavesReader(s, a);
    StepLogs(s, a);
    NoneStarts(s, a);
    var t := Apply(s, a);
    assert forall e | e in s.log :: e in t.log;
  }

  lemma NoneStarts(s: State, a: Action)
    requires Enabled(s, a) && !a.HandleStart?
    ensures forall j | InPhase(Apply(s, a), j, Running) :: InPhase(s, j, Running)
  {
    if HandleStep(a) {
      HandleStartsNone(s, a);
    } else if OpStep(a) {
      OpStartsNone(s, a);
    } else {
      hide Apply, Enabled;
      ReaderKeepsWorkers(s, a);
    }
  }

  lemma HandleStartsNone(s: State, a: Action)
    requires Enabled(s, a) && HandleStep(a) && !a.HandleStart?
    ensures forall j | InPhase(Apply(s, a), j, Running) :: InPhase(s, j, Running)
  {
    hide ReaderStep, WorkerStep;
  }

  lemma OpStartsNone(s: State, a: Action)
    requires Enabled(s, a) && OpStep(a)
    ensures forall j | InPhase(Apply(s, a), j, Running) :: InPhase(s, j, Running)
  {
    hide Apply, Enabled, GoesOn;
    if a.OpReturns? {
      ReturnStartsNone(s, a);
    } else {
      OpGoesOn(s, a);
      GoneOn(s, Apply(s, a));
    }
  }

  lemma GoneOn(s: State, t: State)
    requires GoesOn(s, t)
    ensures forall j | InPhase(t, j, Running) :: InPhase(s, j, Running)
  {
  }

  lemma ReturnStartsNone(s: State, a: Action)
    requires Enabled(s, a) && a.OpReturns?
    ensures forall j | InPhase(Apply(s, a), j, Running) :: InPhase(s, j, Running)
  {
    hide ReaderStep, Handle;
  }

  lemma CancelTracedReader(s: State, a: Action, ms: seq<Message>)
    requires ReaderTraced(s, ms) && CancelTraced(s, ms) && Enabled(s, a) && !HandleStep(a) && !OpStep(a)
    ensures CancelTraced(Apply(s, a), ms + if a.Receive? then [a.m] else [])
  {
    ReaderKeepsWorkers(s, a);
    StepLogs(s, a);
    NewReply(s, a);
    hide Apply, Enabled, Shaken;
    var t, longer := Apply(s, a), ms + if a.Receive? then [a.m] else [];
    if t.reader.Replying? {
      assert longer == ms;
      if a.DecodeMalformed? {
        assert ms[s.received - 1].Malformed?;
      } else {
        forall j | IsCancel(ms, s.received - 1) && s.handshake && InPhase(t, j, Running)
          ensures CancelledOp(j, s.received - 1) in t.log
        {
          assert InPhase(s, j, Running) && CancelledOp(j, s.received - 1) in s.log;
        }
      }
    }
  }

  lemma NewReply(s: State, a: Action)
    requires Enabled(s, a) && !HandleStep(a) && !OpStep(a)
    ensures var t := Apply(s, a);
            && t.handshake == s.handshake && t.received == s.received + (if a.Receive? then 1 else 0)
            && (t.reader.Replying? ==> t.reader == s.reader || (a.DecodeMalformed? && s.reader.m.Malformed?))
            && (a.Receive? ==> t.reader.Got?)
            && (a.DecodeMalformed? ==> s.reader.Decoding?)
  {
    hide Handle, WorkerStep;
  }

  lemma CancelTracedKept(s: State, a: Action, ms: seq<Message>)
    requires Control(s) && ReaderTraced(s, ms) && CancelTraced(s, ms) && Enabled(s, a)
    ensures CancelTraced(Apply(s, a), ms + if a.Receive? then [a.m] else [])
  {
    hide Apply, Enabled, Control, ReaderTraced, CancelTraced;
    assert ms + [] == ms;
    if HandleStep(a) {
      CancelTracedHandle(s, a, ms);
    } else if OpStep(a) {
      CancelTracedOp(s, a, ms);
    } else {
      CancelTracedReader(s, a, ms);
    }
  }

  lemma CancelAnswered(s: State, a: Action, ms: seq<Message>, j: nat)
    requires RunsTracked(s) && ReaderTraced(s, ms) && CancelTraced(s, ms) && Enabled(s, a) && a.Reply?
    requires IsCancel(ms, s.received - 1) && s.reader.resp.kind == Terminal(Success)
    requires Started(j) in s.log && RunReturned(j) !in s.log
    ensures CancelledOp(j, s.received - 1) in s.log
  {
    hide Apply, Shaken;
    var i :| 0 <= i < |s.log| && s.log[i] == Started(j);
    assert s.log[i].Started?;
  }

  lemma CancelsTracedKept(s: State, a: Action, ms: seq<Message>)
    requires RunsTracked(s) && ReaderTraced(s, ms) && CancelTraced(s, ms) && CancelsTraced(s.log, ms) && Enabled(s, a)
    requires forall i | 0 <= i < |s.log| && s.log[i].Wrote? :: s.log[i].serial < |ms|
    ensures CancelsTraced(Apply(s, a).log, ms + if a.Receive? then [a.m] else [])
  {
    hide Apply, RunsTracked, CancelTraced, ReaderTraced;
    StepLogs(s, a);
    var t, longer := Apply(s, a), ms + if a.Receive? then [a.m] else [];
    forall i, k | 0 <= i < |t.log| && t.log[i] == Wrote(k, Terminal(Success), false) && IsCancel(longer, k)
      ensures forall j | Started(j) in t.log[..i] && RunReturned(j) !in t.log[..i] :: CancelledOp(j, k) in t.log[..i]
    {
      assert i <= |s.log| && t.log[..i] == s.log[..i];
      if i < |s.log| {
        assert s.log[i] == t.log[i] && IsCancel(ms, k);
      } else {
        assert s.log[..i] == s.log;
        ReplyOnly(s, a, k);
        ReplySerial(s, ms);
        forall j | Started(j) in s.log && RunReturned(j) !in s.log
          ensures CancelledOp(j, k) in s.log
        {
          CancelAnswered(s, a, ms, j);
        }
      }
    }
  }

  lemma ReplyOnly(s: State, a: Action, k: nat)
    requires Enabled(s, a) && EventOf(s, a) == Some(Wrote(k, Terminal(Success), false))
    ensures a.Reply? && s.reader.Replying? && k == s.reader.resp.serial && s.reader.resp.kind == Terminal(Success)
  {
  }

  lemma ReplySerial(s: State, ms: seq<Message>)
    requires ReaderTraced(s, ms) && s.reader.Replying?
    ensures s.reader.resp.serial + 1 == s.received == |ms|
  {
  }

  lemma WrittenSerials(log: seq<Event>, ms: seq<Message>, steps: seq<Action>)
    requires LogTraced(log, ms, steps)
    ensures forall i | 0 <= i < |log| && log[i].Wrote? :: log[i].serial < |ms|
  {
    hide Returned, Inline;
    forall i | 0 <= i < |log| && log[i].Wrote?
      ensures log[i].serial < |ms|
    {
      assert EventTraced(log, i, ms, steps);
    }
  }

  lemma TracedKept(s: State, a: Action, steps: seq<Action>)
    requires Control(s) && RunsTracked(s) && Traced(s, steps) && Enabled(s, a)
    ensures Traced(Apply(s, a), steps + [a])
  {
    hide Apply, Enabled, Control, ReaderTraced, WorkersTraced, LogTraced, OutTraced, EndTraced, ImagesTraced;
    hide CancelTraced, CancelsTraced, RunsTracked;
    WrittenSerials(s.log, MessagesOf(steps), steps);
    EndTracedKept(s, a, steps);
    ImagesTracedKept(s, a, MessagesOf(steps));
    CancelTracedKept(s, a, MessagesOf(steps));
    CancelsTracedKept(s, a, MessagesOf(steps));
    var ms := MessagesOf(steps);
    MessagesAppend(steps, a);
    ReaderTracedKept(s, a, ms);
    WorkersTracedKept(s, a, ms, steps);
    LogTracedKept(s, a, ms, steps);
    OutTracedKept(s, a, ms, steps);
  }

  lemma TracedInit()
    ensures Traced(Init(), [])
  {
  }

  lemma {:induction false} RunTraced(run: seq<State>, steps: seq<Action>, n: nat)
    requires IsRun(run, steps) && n < |run|
    ensures Traced(run[n], steps[..n])
  {
    hide Traced, Apply, Enabled, Init, Control, RunsTracked;
    if n == 0 {
      TracedInit();
      assert steps[..0] == [];
    } else {
      RunTraced(run, steps, n - 1);
      RunKeepsInv(run, steps, n - 1);
      TracedKept(run[n - 1], steps[n - 1], steps[..n - 1]);
      assert steps[..n] == steps[..n - 1] + [steps[n - 1]];
    }
  }

  // ---- all runs

  /** The one terminal response of an op carries what its own run returned. */
  lemma OpAnswersItsOwn(run: seq<State>, steps: seq<Action>, n: nat, i: nat, k: nat, c: Code)
    requires IsRun(run, steps) && n < |run|
    requires i < |run[n].log| && run[n].log[i] == Wrote(k, Terminal(c), true)
    ensures exists m :: 0 <= m < n && steps[m] == OpReturns(k, c)
    ensures forall m, d | 0 <= m < n && steps[m] == OpReturns(k, d) :: d == c
  {
    hide Apply, Enabled, ReaderTraced, WorkersTraced, OutTraced, MessagesOf;
    RunTraced(run, steps, n);
    assert EventTraced(run[n].log, i, MessagesOf(steps[..n]), steps[..n]);
    var m :| 0 <= m < |steps[..n]| && steps[..n][m] == OpReturns(k, c);
    assert steps[m] == OpReturns(k, c);
    forall m, d | 0 <= m < n && steps[m] == OpReturns(k, d)
      ensures d == c
    {
      assert steps[..n][m] == OpReturns(k, d);
    }
  }

  /** A matching ping was handled before event i. */
  ghost predicate ShakenBefore(log: seq<Event>, i: nat)
    requires i <= |log|
  {
    exists h :: 0 <= h < i && log[h].Handshook?
  }

  /** What the reader loop answers itself: a malformed line and a request before any matching
      ping are invalid, another protocol is a version mismatch, a matching ping and a cancel
      succeed, and an op is refused as busy. */
  lemma InlineAnswers(run: seq<State>, steps: seq<Action>, n: nat, i: nat, k: nat, c: Code)
    requires IsRun(run, steps) && n < |run|
    requires i < |run[n].log| && run[n].log[i] == Wrote(k, Terminal(c), false)
    ensures var ms := MessagesOf(steps[..n]);
            && k < |ms|
            && (ms[k].Malformed? ==> c == InvalidRequest)
            && (ms[k].Line? && ms[k].req.op.Ping? ==>
                  match ms[k].req.op.h
                  case Matches => c == Success
                  case Mismatch => c == VersionMismatch
                  case BadParams => c == InvalidRequest)
            && (ms[k].Line? && !ms[k].req.op.Ping? && !ShakenBefore(run[n].log, i) ==> c == InvalidRequest)
            && (ms[k].Line? && ms[k].req.op.Cancel? && ShakenBefore(run[n].log, i) ==> c == Success)
            && (ms[k].Line? && ms[k].req.op.Work? && ShakenBefore(run[n].log, i) ==> c == Busy)
  {
    hide Apply, Enabled, ReaderTraced, WorkersTraced, OutTraced, MessagesOf;
    RunTraced(run, steps, n);
    var log := run[n].log;
    assert EventTraced(log, i, MessagesOf(steps[..n]), steps[..n]);
    if Shaken(log[..i]) {
      var h :| 0 <= h < |log[..i]| && log[..i][h].Handshook?;
      assert log[h].Handshook?;
    }
    if ShakenBefore(log, i) {
      var h :| 0 <= h < i && log[h].Handshook?;
      assert log[..i][h].Handshook?;
    }
  }

  /** What goes over the wire is what was recorded, under the ID of the request it answers;
      an op's answer is what its run returned. */
  lemma WireAnswers(run: seq<State>, steps: seq<Action>, n: nat, r: Response)
    requires IsRun(run, steps) && n < |run| && r in run[n].out
    ensures var ms := MessagesOf(steps[..n]);
            && r.serial < |ms| && r.id == (if ms[r.serial].Malformed? then 0 else ms[r.serial].req.id)
            && (Wrote(r.serial, r.kind, true) in run[n].log || Wrote(r.serial, r.kind, false) in run[n].log)
    ensures r.kind.Terminal? && Wrote(r.serial, r.kind, true) in run[n].log ==>
              exists m :: 0 <= m < n && steps[m] == OpReturns(r.serial, r.kind.code)
  {
    hide Apply, Enabled, ReaderTraced, WorkersTraced, LogTraced, MessagesOf;
    RunTraced(run, steps, n);
    if r.kind.Terminal? && Wrote(r.serial, r.kind, true) in run[n].log {
      var i :| 0 <= i < |run[n].log| && run[n].log[i] == Wrote(r.serial, r.kind, true);
      OpAnswersItsOwn(run, steps, n, i, r.serial, r.kind.code);
    }
  }

  /** What an op goroutine writes answers an op. */
  lemma OpWorks(run: seq<State>, steps: seq<Action>, n: nat, k: nat, c: Code)
    requires IsRun(run, steps) && n < |run| && Wrote(k, Terminal(c), true) in run[n].log
    ensures IsWork(MessagesOf(steps[..n]), k)
  {
    hide Apply, Enabled, ReaderTraced, WorkersTraced, OutTraced, MessagesOf, IsWork;
    RunTraced(run, steps, n);
    var i :| 0 <= i < |run[n].log| && run[n].log[i] == Wrote(k, Terminal(c), true);
    assert EventTraced(run[n].log, i, MessagesOf(steps[..n]), steps[..n]);
  }

  /** Every message read is in its place. */
  lemma MessagesAreRead(run: seq<State>, steps: seq<Action>, n: nat)
    requires IsRun(run, steps) && n < |run|
    ensures |MessagesOf(steps[..n])| == run[n].received
  {
    hide Apply, Enabled, WorkersTraced, LogTraced, OutTraced, MessagesOf;
    RunTraced(run, steps, n);
  }

  /** Reading ends only when a read fails or a message has been answered as invalid or as of
      another version, and after such an answer nothing more is read. */
  lemma ReadingEnds(run: seq<State>, steps: seq<Action>, n: nat)
    requires IsRun(run, steps) && n < |run|
    ensures var log := run[n].log;
            var refused := exists k: nat ::
              Wrote(k, Terminal(InvalidRequest), false) in log || Wrote(k, Terminal(VersionMismatch), false) in log;
            var over := run[n].reader.Closing? || run[n].reader.Draining? || run[n].reader.Returned?;
            && (refused ==> over)
            && (over ==> refused || ReceiveFails in steps[..n])
  {
    hide Apply, Enabled, ReaderTraced, WorkersTraced, LogTraced, OutTraced, ImagesTraced, CancelTraced, CancelsTraced;
    hide MessagesOf;
    RunTraced(run, steps, n);
    var log := run[n].log;
    if k: nat :| Wrote(k, Terminal(InvalidRequest), false) in log || Wrote(k, Terminal(VersionMismatch), false) in log {
      var c := if Wrote(k, Terminal(InvalidRequest), false) in log then InvalidRequest else VersionMismatch;
      assert Wrote(k, Terminal(c), false) in log && Refusal(c);
    }
    if Refused(log) {
      var k, c :| Wrote(k, Terminal(c), false) in log && Refusal(c);
      assert c == InvalidRequest || c == VersionMismatch;
    }
  }

  /** An op works on the first descriptor that came with its own message, if it takes one. */
  lemma ImageIsItsOwn(run: seq<State>, steps: seq<Action>, n: nat, k: nat)
    requires IsRun(run, steps) && n < |run| && k in run[n].workers
    ensures var ms := MessagesOf(steps[..n]);
            && k < |ms| && ms[k].Line? && ms[k].req.op.Work? && run[n].workers[k].req == ms[k].req
            && run[n].workers[k].image ==
               if ms[k].req.op.takesImage && ms[k].fds != [] then Some(ms[k].fds[0]) else None
  {
    hide Apply, Enabled, ReaderTraced, LogTraced, OutTraced, EndTraced, CancelTraced, CancelsTraced, MessagesOf;
    RunTraced(run, steps, n);
  }

  /** A cancel that has been answered with success has cancelled the op whose run had started and
      not returned. */
  lemma CancelReaches(run: seq<State>, steps: seq<Action>, n: nat, i: nat, k: nat, j: nat)
    requires IsRun(run, steps) && n < |run| && i < |run[n].log|
    requires run[n].log[i] == Wrote(k, Terminal(Success), false)
    requires var ms := MessagesOf(steps[..n]); k < |ms| && ms[k].Line? && ms[k].req.op.Cancel?
    requires Started(j) in run[n].log[..i] && RunReturned(j) !in run[n].log[..i]
    ensures CancelledOp(j, k) in run[n].log[..i]
  {
    hide Apply, Enabled, ReaderTraced, WorkersTraced, LogTraced, OutTraced, EndTraced, ImagesTraced, CancelTraced;
    hide MessagesOf;
    RunTraced(run, steps, n);
    assert IsCancel(MessagesOf(steps[..n]), k);
  }
}
