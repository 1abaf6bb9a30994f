/** That a session comes to rest: what it does of its own accord ends, and nothing is left
    over when it does (internal/helper/server.go:160-337). */
module Settling {
  import opened Arith
  import opened Outside
  import opened Session

  /** What comes from outside: a message or the end of the input, progress of a run, the
      timer, and the connection. */
  predicate FromOutside(a: Action) {
    a.Receive? || a.ReceiveFails? || a.OpProgress? || a.TimerFires? || a.ConnBreaks?
  }

  function PhaseWork(p: Phase): nat {
    match p
    case Running => 6
    case Finished(_) => 5
    case Locked(_) => 4
    case Cleared(_) => 3
    case Written => 2
  }

  function ReaderWork(r: Reader): nat {
    match r
    case Got(_) => 13
    case Decoding(_) => 12
    case Handling(_, _) => 11
    case Replying(_, _, _) => 5
    case Rearming => 4
    case Waiting => 3
    case Closing => 2
    case Draining => 1
    case Returned => 0
  }

  /** What the op goroutines with serials below n have still to do. */
  ghost function OpsWork(workers: map<nat, Worker>, n: nat): nat {
    if n == 0 then 0
    else OpsWork(workers, n - 1) + if n - 1 in workers then PhaseWork(workers[n - 1].phase) else 0
  }

  ghost function Remaining(s: State): nat {
    ReaderWork(s.reader) + OpsWork(s.workers, s.received)
  }

  lemma {:induction false} OpsWorkSame(w: map<nat, Worker>, v: map<nat, Worker>, n: nat)
    requires forall k | k < n :: (k in w <==> k in v) && (k in w ==> w[k].phase == v[k].phase)
    ensures OpsWork(w, n) == OpsWork(v, n)
  {
    if n > 0 {
      OpsWorkSame(w, v, n - 1);
    }
  }

  /** One op goroutine goes on. */
  lemma {:induction false} OpsWorkLess(w: map<nat, Worker>, v: map<nat, Worker>, n: nat, k: nat)
    requires k < n && k in w
    requires k in v ==> PhaseWork(v[k].phase) < PhaseWork(w[k].phase)
    requires forall j | j != k :: (j in w <==> j in v) && (j in w ==> w[j].phase == v[j].phase)
    ensures OpsWork(v, n) < OpsWork(w, n)
  {
    if k == n - 1 {
      OpsWorkSame(w, v, n - 1);
    } else {
      OpsWorkLess(w, v, n - 1, k);
    }
  }

  /** Every step of its own brings the session closer to rest. */
  lemma OpDecreases(s: State, a: Action)
    requires Control(s) && Enabled(s, a) && OpStep(a) && !a.OpProgress?
    ensures Remaining(Apply(s, a)) < Remaining(s)
  {
    assert a.serial in s.workers && a.serial < s.received;
    hide Apply, Enabled, OpsWork, Control, PhaseWork;
    if a.OpReturns? || a.OpLock? {
      RunEnds(s, a);
    } else if a.OpClear? {
      FlightEnds(s, a);
    } else {
      OpEnds(s, a);
    }
    OpsWorkLess(s.workers, Apply(s, a).workers, s.received, a.serial);
  }

  /** Only the op's own goroutine has gone on. */
  ghost predicate OneLess(s: State, t: State, k: nat) {
    && t.reader == s.reader && t.received == s.received
    && k in s.workers && (k in t.workers ==> PhaseWork(t.workers[k].phase) < PhaseWork(s.workers[k].phase))
    && forall j | j != k :: (j in s.workers <==> j in t.workers)
                            && (j in s.workers ==> s.workers[j].phase == t.workers[j].phase)
  }

  lemma RunEnds(s: State, a: Action)
    requires Enabled(s, a) && (a.OpReturns? || a.OpLock?)
    ensures OneLess(s, Apply(s, a), a.serial)
  {
    hide ReaderStep, Handle;
  }

  lemma FlightEnds(s: State, a: Action)
    requires Enabled(s, a) && a.OpClear?
    ensures OneLess(s, Apply(s, a), a.serial)
  {
    hide ReaderStep, Handle;
  }

  lemma OpEnds(s: State, a: Action)
    requires Enabled(s, a) && (a.OpWrite? || a.OpRetire?)
    ensures OneLess(s, Apply(s, a), a.serial)
  {
    hide ReaderStep, Handle;
  }

  lemma HandleDecreases(s: State, a: Action)
    requires Control(s) && Enabled(s, a) && HandleStep(a)
    ensures Remaining(Apply(s, a)) < Remaining(s)
  {
    hide ReaderStep, WorkerStep;
    if a.HandleStart? {
      OpsWorkSame(s.workers, Apply(s, a).workers, s.received - 1);
    }
  }

  lemma ReaderDecreases(s: State, a: Action)
    requires Control(s) && Enabled(s, a) && !HandleStep(a) && !OpStep(a) && !FromOutside(a)
    ensures Remaining(Apply(s, a)) < Remaining(s)
  {
    hide Handle, WorkerStep, OpsWork;
  }

  lemma StepDecreases(s: State, a: Action)
    requires Control(s) && Enabled(s, a) && !FromOutside(a)
    ensures Remaining(Apply(s, a)) < Remaining(s)
  {
    hide Control, Apply, Enabled, Remaining;
    if OpStep(a) {
      OpDecreases(s, a);
    } else if HandleStep(a) {
      HandleDecreases(s, a);
    } else {
      ReaderDecreases(s, a);
    }
  }

  /** Nothing is left to do but to wait for input, or the session has returned. */
  predicate AtRest(s: State) {
    s.workers == map[] && (s.reader.Waiting? || s.reader.Returned?)
  }

  /** The next step of the reader, when nobody holds the write lock. */
  function ReaderNext(s: State): Action {
    match s.reader
    case Got(_) => StopTimer
    case Decoding(m) => if m.Malformed? then DecodeMalformed else DecodeLine
    case Handling(req, _) =>
      if req.op.Ping? then HandlePing
      else if !s.handshake then HandleUnready
      else if req.op.Cancel? then HandleCancel
      else if s.inflight.Some? then HandleBusy
      else HandleStart
    case Replying(_, _, _) => Reply
    case Rearming => Rearm
    case Closing => CloseDown
    case _ => Return
  }

  function OpNext(k: nat, p: Phase): Action {
    match p
    case Running => OpReturns(k, Success)
    case Finished(_) => OpLock(k)
    case Locked(_) => OpClear(k)
    case Cleared(_) => OpWrite(k)
    case Written => OpRetire(k)
  }

  /** A session that is not at rest can go on by itself: no two of its goroutines ever wait
      for one another. */
  lemma GoesOnItself(s: State) returns (a: Action)
    requires Control(s) && !AtRest(s)
    ensures Enabled(s, a) && !FromOutside(a)
  {
    if s.wmu.Some? {
      var k := s.wmu.value;
      a := OpNext(k, s.workers[k].phase);
    } else if s.workers != map[] {
      var k :| k in s.workers;
      a := OpNext(k, s.workers[k].phase);
    } else {
      a := ReaderNext(s);
    }
  }

  /** From any point of any run the session comes to rest by itself, whatever is outside,
      and then every message it has read has been answered, once. */
  lemma {:induction false} ComesToRest(run: seq<State>, steps: seq<Action>)
    returns (more: seq<State>, done: seq<Action>)
    requires IsRun(run, steps)
    ensures IsRun(more, done) && run <= more && steps <= done
    ensures forall i | |steps| <= i < |done| :: !FromOutside(done[i])
    ensures var t := more[|more| - 1];
            && AtRest(t) && t.received == run[|run| - 1].received && t.inflight.None? && t.wmu.None?
            && forall k: nat :: Answers(t.log, k) == if k < t.received then 1 else 0
    decreases Remaining(run[|run| - 1])
  {
    hide Apply, Enabled, Init, Inv, Remaining, FromOutside, AtRest;
    var s := run[|run| - 1];
    RunKeepsInv(run, steps, |steps|);
    ControlOf(s);
    if AtRest(s) {
      more, done := run, steps;
      RestMeans(s);
    } else {
      var a := GoesOnItself(s);
      StepDecreases(s, a);
      ReceivesNothing(s, a);
      var longer, further := run + [Apply(s, a)], steps + [a];
      forall i | 0 <= i < |further|
        ensures Enabled(longer[i], further[i]) && longer[i + 1] == Apply(longer[i], further[i])
      {
        if i < |steps| {
          assert longer[i] == run[i] && longer[i + 1] == run[i + 1] && further[i] == steps[i];
        }
      }
      more, done := ComesToRest(longer, further);
      assert further[..|steps|] == steps && longer[..|run|] == run;
      assert done[|steps|] == further[|steps|];
    }
  }

  lemma ControlOf(s: State)
    requires Inv(s)
    ensures Control(s)
  {
    hide Control;
  }

  lemma ReceivesNothing(s: State, a: Action)
    requires Enabled(s, a) && !FromOutside(a)
    ensures Apply(s, a).received == s.received
  {
    hide Apply, Enabled, FromOutside;
    if OpStep(a) {
      OpReceivesNothing(s, a);
    } else if HandleStep(a) {
      HandleReceivesNothing(s, a);
    } else {
      ReaderReceivesNothing(s, a);
    }
  }

  lemma OpReceivesNothing(s: State, a: Action)
    requires Enabled(s, a) && OpStep(a)
    ensures Apply(s, a).received == s.received
  {
    hide ReaderStep, Handle;
  }

  lemma HandleReceivesNothing(s: State, a: Action)
    requires Enabled(s, a) && HandleStep(a)
    ensures Apply(s, a).received == s.received
  {
    hide ReaderStep, WorkerStep;
  }

  lemma ReaderReceivesNothing(s: State, a: Action)
    requires Enabled(s, a) && !OpStep(a) && !HandleStep(a) && !FromOutside(a)
    ensures Apply(s, a).received == s.received
  {
    hide WorkerStep, Handle;
  }

  lemma RestMeans(s: State)
    requires Inv(s) && AtRest(s)
    ensures s.inflight.None? && s.wmu.None?
    ensures forall k: nat :: Answers(s.log, k) == if k < s.received then 1 else 0
  {
    hide Conserved, OpsInOrder, MayStillWrite, RunsApart, PingFirst, RunsTracked;
  }
}
