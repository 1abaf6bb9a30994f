/** write_image and format_disk against any disk and any authorizer
    (internal/helper/ops.go:53-156, 235-290, 331-365). What they do to the outside is
    recorded as a sequence of effects; an automaton says which sequences are allowed. */
module Ops {
  import opened Arith
  import opened Outside

  datatype DeviceInfo = DeviceInfo(path: string, isBlock: bool, wholeDisk: string, size: nat, removable: bool)

  datatype Code =
    | InvalidRequest | InvalidDevice | NotRemovable | SystemDisk | InvalidSource | SizeMismatch
    | InsufficientCapacity | InvalidLabel | Unauthorized | Cancelled | DeviceBusy | Internal | Passed

  datatype Result = Done | Failed(code: Code)

  datatype Op = WriteImage | FormatDisk

  datatype Effect =
    | Resolved(info: DeviceInfo, system: seq<string>)
    | SourceChecked(size: nat)
    | CapacityChecked(size: nat)
    | LabelChecked
    | Granted
    | CancelledInAuth
    | Released
    | Listed(parts: seq<string>)
    | Unmounted(path: string)
    | Opened(path: string, ok: bool)
    | Streamed
    | Synced
    | Closed
    | Formatted(path: string)

  // ---- which effects may follow which

  datatype Device = Unopened | Open | Shut

  datatype Stage = Stage(
    info: Option<DeviceInfo>,
    source: Option<nat>,
    capacity: bool,
    labelled: bool,
    approved: bool,
    held: bool,
    cancelled: bool,
    targets: seq<string>,
    unmounted: nat,
    device: Device)

  const Start := Stage(None, None, false, false, false, false, false, [], 0, Unopened)

  /** validate.Target, on a path that passed validate.DevicePath. */
  function TargetFault(info: DeviceInfo, system: seq<string>): Option<Code> {
    if !info.isBlock || info.wholeDisk != info.path then Some(InvalidDevice)
    else if !info.removable then Some(NotRemovable)
    else if system == [] || "" in system || info.wholeDisk in system then Some(SystemDisk)
    else None
  }

  /** Every check the op needs has passed. */
  predicate Checked(op: Op, s: Stage) {
    && s.info.Some?
    && (op.WriteImage? ==> s.source.Some? && s.source.value > 0 && s.capacity)
    && (op.FormatDisk? ==> s.labelled)
  }

  /** The device may be touched: checks, then an approval no cancel overtook. */
  predicate MayTouch(op: Op, s: Stage) {
    Checked(op, s) && s.approved && !s.cancelled
  }

  /** Nothing is mounted any more. */
  predicate Free(s: Stage) {
    s.targets != [] && s.unmounted == |s.targets|
  }

  predicate Allowed(op: Op, s: Stage, e: Effect) {
    match e
    case Resolved(info, system) => TargetFault(info, system).None? && s.info.None? && !s.approved
    case SourceChecked(_) => s.source.None? && !s.approved
    case CapacityChecked(size) =>
      s.info.Some? && s.source == Some(size) && size <= s.info.value.size && !s.approved
    case LabelChecked => !s.approved
    case Granted => Checked(op, s) && !s.approved
    case CancelledInAuth => s.device.Unopened? && s.targets == []
    case Released => s.held
    case Listed(_) => MayTouch(op, s) && s.targets == []
    case Unmounted(path) =>
      MayTouch(op, s) && s.unmounted < |s.targets| && path == s.targets[s.unmounted] && s.device.Unopened?
    case Opened(path, _) =>
      op.WriteImage? && MayTouch(op, s) && path == s.info.value.path && Free(s) && s.held && s.device.Unopened?
    case Streamed => MayTouch(op, s) && !s.held && s.device.Open?
    case Synced => MayTouch(op, s) && !s.held && s.device.Open?
    case Closed => s.device.Open?
    case Formatted(path) =>
      op.FormatDisk? && MayTouch(op, s) && path == s.info.value.path && !s.held && Free(s)
  }

  function After(s: Stage, e: Effect): Stage {
    match e
    case Resolved(info, _) => s.(info := Some(info))
    case SourceChecked(size) => s.(source := Some(size))
    case CapacityChecked(_) => s.(capacity := true)
    case LabelChecked => s.(labelled := true)
    case Granted => s.(approved := true, held := true)
    case CancelledInAuth => s.(cancelled := true)
    case Released => s.(held := false)
    case Listed(parts) => s.(targets := parts + if s.info.Some? then [s.info.value.path] else [])
    case Unmounted(_) => s.(unmounted := s.unmounted + 1)
    case Opened(_, ok) => if ok then s.(device := Open) else s
    case Streamed => s
    case Synced => s
    case Closed => s.(device := Shut)
    case Formatted(_) => s
  }

  function StageOf(op: Op, log: seq<Effect>): Option<Stage> {
    if log == [] then Some(Start) else
      var s := StageOf(op, log[..|log| - 1]);
      var e := log[|log| - 1];
      if s.Some? && Allowed(op, s.value, e) then Some(After(s.value, e)) else None
  }

  /** An op is over: no grant is held and no device is open. */
  predicate Settled(op: Op, log: seq<Effect>) {
    var s := StageOf(op, log);
    s.Some? && !s.value.held && !s.value.device.Open?
  }

  lemma StageOfAppend(op: Op, log: seq<Effect>, e: Effect)
    ensures StageOf(op, log + [e]) ==
            var s := StageOf(op, log);
            if s.Some? && Allowed(op, s.value, e) then Some(After(s.value, e)) else None
  {
    assert (log + [e])[..|log|] == log;
  }

  // ---- what the allowed sequences have in common

  predicate Touches(e: Effect) {
    e.Unmounted? || e.Opened? || e.Streamed? || e.Synced? || e.Formatted?
  }

  ghost predicate TargetResolved(log: seq<Effect>, info: DeviceInfo) {
    exists system :: Resolved(info, system) in log && TargetFault(info, system).None?
  }

  /** All checks of the op are on record, for the device info. */
  ghost predicate ChecksDone(op: Op, log: seq<Effect>, info: DeviceInfo) {
    && TargetResolved(log, info)
    && (op.WriteImage? ==> exists n: nat ::
          SourceChecked(n) in log && CapacityChecked(n) in log && 0 < n <= info.size)
    && (op.FormatDisk? ==> LabelChecked in log)
  }

  /** What a stage says about the effects that led to it: the checks that passed, ... */
  ghost predicate ChecksWitnessed(log: seq<Effect>, s: Stage) {
    && (s.info.Some? ==> TargetResolved(log, s.info.value))
    && (s.source.Some? ==> SourceChecked(s.source.value) in log)
    && (s.capacity ==>
          s.info.Some? && s.source.Some? && CapacityChecked(s.source.value) in log
          && s.source.value <= s.info.value.size)
    && (s.labelled ==> LabelChecked in log)
  }

  /** ... the approval, ... */
  ghost predicate ApprovalWitnessed(op: Op, log: seq<Effect>, s: Stage) {
    s.approved ==> s.info.Some? && ApprovedAt(op, log, s.info.value)
  }

  /** ... and what was unmounted. */
  ghost predicate TargetsWitnessed(log: seq<Effect>, s: Stage) {
    && s.unmounted <= |s.targets|
    && (s.targets != [] ==> s.info.Some? && s.approved && IsTargets(log, s.info.value, s.targets))
    && (forall j | 0 <= j < s.unmounted :: Unmounted(s.targets[j]) in log)
  }

  ghost predicate Witnessed(op: Op, log: seq<Effect>, s: Stage) {
    ChecksWitnessed(log, s) && ApprovalWitnessed(op, log, s) && TargetsWitnessed(log, s)
  }

  /** What is to be unmounted: the partitions the OS listed, then the device itself. */
  ghost predicate IsTargets(log: seq<Effect>, info: DeviceInfo, targets: seq<string>) {
    targets != [] && targets[|targets| - 1] == info.path && Listed(targets[..|targets| - 1]) in log
  }

  /** An approval, with every check before it. */
  ghost predicate ApprovedAt(op: Op, log: seq<Effect>, info: DeviceInfo) {
    exists g :: 0 <= g < |log| && log[g] == Granted && ChecksDone(op, log[..g], info)
  }

  lemma ChecksFromStage(op: Op, log: seq<Effect>, s: Stage)
    requires ChecksWitnessed(log, s) && Checked(op, s)
    ensures ChecksDone(op, log, s.info.value)
  {
    hide TargetFault;
  }

  lemma ApprovedStays(op: Op, log: seq<Effect>, e: Effect, info: DeviceInfo)
    requires ApprovedAt(op, log, info)
    ensures ApprovedAt(op, log + [e], info)
  {
    hide ChecksDone;
    var g :| 0 <= g < |log| && log[g] == Granted && ChecksDone(op, log[..g], info);
    assert (log + [e])[..g] == log[..g] && (log + [e])[g] == Granted;
  }

  lemma ChecksStep(op: Op, log: seq<Effect>, s: Stage, e: Effect)
    requires ChecksWitnessed(log, s) && Allowed(op, s, e)
    ensures ChecksWitnessed(log + [e], After(s, e))
  {
    hide TargetFault, TargetResolved, MayTouch, Free;
    var more := log + [e];
    assert forall x | x in log :: x in more;
    assert e in more;
    if e.Resolved? {
      TargetResolvedBy(more, e.info, e.system);
    } else if s.info.Some? {
      TargetStaysResolved(log, e, s.info.value);
    }
  }

  lemma TargetResolvedBy(log: seq<Effect>, info: DeviceInfo, system: seq<string>)
    requires Resolved(info, system) in log && TargetFault(info, system).None?
    ensures TargetResolved(log, info)
  {
  }

  lemma TargetStaysResolved(log: seq<Effect>, e: Effect, info: DeviceInfo)
    requires TargetResolved(log, info)
    ensures TargetResolved(log + [e], info)
  {
    hide TargetFault;
    var system :| Resolved(info, system) in log && TargetFault(info, system).None?;
    assert Resolved(info, system) in log + [e];
  }

  lemma ApprovalStep(op: Op, log: seq<Effect>, s: Stage, e: Effect)
    requires ChecksWitnessed(log, s) && ApprovalWitnessed(op, log, s) && Allowed(op, s, e)
    ensures ApprovalWitnessed(op, log + [e], After(s, e))
  {
    hide ApprovedAt, ChecksDone, ChecksWitnessed, TargetFault, Free;
    if e.Granted? {
      ChecksFromStage(op, log, s);
      ApprovedHere(op, log, s.info.value);
    } else if s.approved {
      ApprovedStays(op, log, e, s.info.value);
    }
  }

  lemma TargetsStep(op: Op, log: seq<Effect>, s: Stage, e: Effect)
    requires TargetsWitnessed(log, s) && Allowed(op, s, e)
    ensures TargetsWitnessed(log + [e], After(s, e))
  {
    hide TargetFault;
    var more := log + [e];
    assert forall x | x in log :: x in more;
    assert e in more;
    if e.Listed? {
      var targets := e.parts + [s.info.value.path];
      assert targets[..|targets| - 1] == e.parts;
    }
  }

  lemma WitnessedStep(op: Op, log: seq<Effect>, s: Stage, e: Effect)
    requires Witnessed(op, log, s) && Allowed(op, s, e)
    ensures Witnessed(op, log + [e], After(s, e))
  {
    hide ChecksWitnessed, ApprovalWitnessed, TargetsWitnessed, Allowed, After;
    ChecksStep(op, log, s, e);
    ApprovalStep(op, log, s, e);
    TargetsStep(op, log, s, e);
  }

  lemma ApprovedHere(op: Op, log: seq<Effect>, info: DeviceInfo)
    requires ChecksDone(op, log, info)
    ensures ApprovedAt(op, log + [Granted], info)
  {
    hide ChecksDone;
    var more := log + [Granted];
    assert more[|log|] == Granted && more[..|log|] == log;
  }

  lemma {:induction false} StageWitnessed(op: Op, log: seq<Effect>)
    requires StageOf(op, log).Some?
    ensures Witnessed(op, log, StageOf(op, log).value)
  {
    hide Witnessed, Allowed, After;
    if log == [] {
      StartWitnessed(op);
    } else {
      var shorter, e := log[..|log| - 1], log[|log| - 1];
      StageWitnessed(op, shorter);
      WitnessedStep(op, shorter, StageOf(op, shorter).value, e);
      assert log == shorter + [e];
    }
  }

  lemma StartWitnessed(op: Op)
    ensures Witnessed(op, [], Start)
  {
  }

  lemma {:induction false} PrefixAllowed(op: Op, log: seq<Effect>, i: nat)
    requires StageOf(op, log).Some? && i < |log|
    ensures StageOf(op, log[..i]).Some? && Allowed(op, StageOf(op, log[..i]).value, log[i])
  {
    hide Allowed, After;
    var shorter := log[..|log| - 1];
    if i < |log| - 1 {
      PrefixAllowed(op, shorter, i);
      assert shorter[..i] == log[..i];
    }
  }

  /** Nothing is unmounted, opened, written or formatted before every check of the op has
      passed and the user has approved: the OS has said of the device that it is a whole
      removable block device, and none of the system's disks, which it could name; an image
      has a size and fits, or a label was checked. What is unmounted is the device that was
      checked or a partition listed for it; it is opened or formatted only with all of these
      unmounted. */
  lemma TouchedOnlyWhenApproved(op: Op, log: seq<Effect>, i: nat)
    returns (info: DeviceInfo, system: seq<string>, targets: seq<string>, g: nat)
    requires StageOf(op, log).Some? && i < |log| && Touches(log[i])
    ensures g < i && log[g] == Granted
    ensures Resolved(info, system) in log[..g]
    ensures info.isBlock && info.wholeDisk == info.path && info.removable
    ensures system != [] && "" !in system && info.path !in system
    ensures op.WriteImage? ==>
              exists n: nat :: SourceChecked(n) in log[..g] && CapacityChecked(n) in log[..g] && 0 < n <= info.size
    ensures op.FormatDisk? ==> LabelChecked in log[..g]
    ensures IsTargets(log[..i], info, targets)
    ensures log[i].Unmounted? ==> log[i].path in targets
    ensures log[i].Opened? || log[i].Formatted? ==>
              log[i].path == info.path && forall p | p in targets :: Unmounted(p) in log[..i]
    ensures log[i].Opened? ==> op.WriteImage?
    ensures log[i].Formatted? ==> op.FormatDisk?
  {
    hide ApprovedAt, IsTargets;
    PrefixAllowed(op, log, i);
    StageWitnessed(op, log[..i]);
    StageCounts(op, log[..i]);
    var s := StageOf(op, log[..i]).value;
    info, targets := s.info.value, s.targets;
    system, g := WhatWasApproved(op, log[..i], info);
    assert log[..i][..g] == log[..g];
  }

  /** The checks before an approval, one by one. */
  lemma WhatWasApproved(op: Op, log: seq<Effect>, info: DeviceInfo) returns (system: seq<string>, g: nat)
    requires ApprovedAt(op, log, info)
    ensures g < |log| && log[g] == Granted && Resolved(info, system) in log[..g]
    ensures info.isBlock && info.wholeDisk == info.path && info.removable
    ensures system != [] && "" !in system && info.path !in system
    ensures op.WriteImage? ==>
              exists n: nat :: SourceChecked(n) in log[..g] && CapacityChecked(n) in log[..g] && 0 < n <= info.size
    ensures op.FormatDisk? ==> LabelChecked in log[..g]
  {
    g :| 0 <= g < |log| && log[g] == Granted && ChecksDone(op, log[..g], info);
    system :| Resolved(info, system) in log[..g] && TargetFault(info, system).None?;
  }

  function Count(log: seq<Effect>, p: Effect -> bool): nat {
    if log == [] then 0 else Count(log[..|log| - 1], p) + if p(log[|log| - 1]) then 1 else 0
  }

  const IsGrant := (e: Effect) => e.Granted?
  const IsRelease := (e: Effect) => e.Released?
  const IsOpened := (e: Effect) => e.Opened? && e.ok
  const IsClosed := (e: Effect) => e.Closed?
  const IsTouch := (e: Effect) => Touches(e)
  const IsCancel := (e: Effect) => e.CancelledInAuth?

  /** Grants taken and given back, devices opened and closed, touches and cancels, as a
      stage counts them. */
  predicate Tally(s: Stage, grants: nat, releases: nat, opens: nat, closes: nat, touches: nat, cancels: nat) {
    && grants == (if s.approved then 1 else 0)
    && grants == releases + (if s.held then 1 else 0)
    && opens == (if s.device.Unopened? then 0 else 1)
    && closes == (if s.device.Shut? then 1 else 0)
    && (opens > 0 ==> s.targets != [])
    && (touches > 0 ==> !s.cancelled && s.targets != [])
    && (cancels > 0 <==> s.cancelled)
  }

  function One(p: Effect -> bool, e: Effect): nat {
    if p(e) then 1 else 0
  }

  lemma TallyStep(op: Op, s: Stage, e: Effect, g: nat, r: nat, o: nat, c: nat, t: nat, x: nat)
    requires Tally(s, g, r, o, c, t, x) && Allowed(op, s, e)
    ensures Tally(After(s, e), g + One(IsGrant, e), r + One(IsRelease, e), o + One(IsOpened, e),
                  c + One(IsClosed, e), t + One(IsTouch, e), x + One(IsCancel, e))
  {
    hide TargetFault;
  }

  ghost predicate Counted(log: seq<Effect>, s: Stage) {
    Tally(s, Count(log, IsGrant), Count(log, IsRelease), Count(log, IsOpened),
          Count(log, IsClosed), Count(log, IsTouch), Count(log, IsCancel))
  }

  lemma {:induction false} StageCounts(op: Op, log: seq<Effect>)
    requires StageOf(op, log).Some?
    ensures Counted(log, StageOf(op, log).value)
  {
    hide Tally, Allowed, After;
    if log == [] {
      assert Tally(Start, 0, 0, 0, 0, 0, 0) by { TallyStart(); }
    } else {
      var shorter, e := log[..|log| - 1], log[|log| - 1];
      StageCounts(op, shorter);
      TallyStep(op, StageOf(op, shorter).value, e, Count(shorter, IsGrant), Count(shorter, IsRelease),
                Count(shorter, IsOpened), Count(shorter, IsClosed), Count(shorter, IsTouch), Count(shorter, IsCancel));
    }
  }

  lemma TallyStart()
    ensures Tally(Start, 0, 0, 0, 0, 0, 0)
  {
  }

  /** When an op is over, its grant was released exactly as often as it was given, at
      most once, and the device was closed exactly as often as it was opened. */
  lemma GrantsAndDevicesReturned(op: Op, log: seq<Effect>)
    requires Settled(op, log)
    ensures Count(log, IsGrant) == Count(log, IsRelease) <= 1
    ensures Count(log, IsOpened) == Count(log, IsClosed) <= 1
  {
    StageCounts(op, log);
  }

  /** The grant is gone before the first byte is written. */
  lemma ReleasedBeforeWriting(op: Op, log: seq<Effect>, i: nat)
    requires StageOf(op, log).Some? && i < |log| && log[i].Streamed?
    ensures Count(log[..i], IsGrant) == Count(log[..i], IsRelease) == 1
    ensures Count(log[..i], IsOpened) == 1 && Count(log[..i], IsClosed) == 0
  {
    PrefixAllowed(op, log, i);
    StageCounts(op, log[..i]);
  }

  /** An authorization during which a cancel arrived touches nothing, before or after. */
  lemma CancelTouchesNothing(op: Op, log: seq<Effect>)
    requires StageOf(op, log).Some? && Count(log, IsCancel) > 0
    ensures Count(log, IsTouch) == 0
  {
    StageCounts(op, log);
  }

  // ---- the ops

  /** Unmounting has begun, or not even that. */
  predicate Begun(s: Stage, t: Stage) {
    t == s.(targets := t.targets, unmounted := t.unmounted)
  }

  /** What the OS, the image and the authorizer would answer, were nothing to go wrong. */
  datatype Answers = Answers(
    pathOk: bool,
    resolvedOk: bool,
    info: DeviceInfo,
    system: seq<string>,
    parts: seq<string>,
    regular: bool,
    fileSize: int,
    approves: bool)

  /** A device that may be written to: both paths are those of devices, and what they stand
      for is a whole removable block device and no disk of the system. */
  predicate TargetOk(a: Answers) {
    && a.pathOk && a.resolvedOk
    && a.info.isBlock && a.info.wholeDisk == a.info.path && a.info.removable
    && a.system != [] && "" !in a.system && a.info.path !in a.system
  }

  /** How any other is refused. */
  predicate TargetRefused(a: Answers, code: Code) {
    if !a.pathOk || !a.resolvedOk || !a.info.isBlock || a.info.wholeDisk != a.info.path then code == InvalidDevice
    else if !a.info.removable then code == NotRemovable
    else code == SystemDisk && (a.system == [] || "" in a.system || a.info.path in a.system)
  }

  /** When write_image should go through. */
  predicate ImageFits(a: Answers, size: int) {
    a.regular && 0 < size == a.fileSize <= a.info.size
  }

  /** How an image is refused. */
  predicate ImageRefused(a: Answers, size: int, code: Code) {
    if !a.regular || size <= 0 then code == InvalidSource
    else if a.fileSize != size then code == SizeMismatch
    else code == InsufficientCapacity && size > a.info.size
  }

  /** The OS, the authorizer and the context: any answers, and anything may go wrong. */
  class Host {
    const op: Op
    const hasAuthorizer: bool
    const says: Answers
    const world: World
    var log: seq<Effect>
    var cancelled: bool

    constructor (o: Op, authorizer: bool, a: Answers, w: World)
      ensures op == o && hasAuthorizer == authorizer && says == a && world == w && log == [] && !cancelled
    {
      op, hasAuthorizer, says, world, log, cancelled := o, authorizer, a, w, [], false;
    }

    ghost predicate At(s: Stage)
      reads `log
    {
      StageOf(op, log) == Some(s)
    }

    predicate Approved() {
      !hasAuthorizer || says.approves
    }

    method Record(e: Effect, ghost s: Stage)
      requires At(s) && Allowed(op, s, e)
      modifies `log
      ensures log == old(log) + [e] && At(After(s, e))
    {
      log := log + [e];
      StageOfAppend(op, old(log), e);
    }

    /** ctx.Err(): a context that was cancelled stays so. */
    method CtxErr() returns (yes: bool)
      modifies `cancelled, world
      ensures yes == cancelled && (old(cancelled) ==> cancelled)
      ensures world.Faults() >= old(world.Faults())
      ensures cancelled && !old(cancelled) ==> world.Faults() > old(world.Faults())
    {
      var arrives := world.Fails();
      cancelled := cancelled || arrives;
      yes := cancelled;
    }

    method ResolveTarget(ghost s: Stage) returns (info: DeviceInfo, r: Result)
      requires At(s) && s.info.None? && !s.approved
      modifies `log, world
      ensures world.Faults() >= old(world.Faults())
      ensures r.Done? ==> TargetOk(says) && info == says.info && At(s.(info := Some(info)))
      ensures r.Done? ==> log == old(log) + [Resolved(info, says.system)]
      ensures r.Failed? ==> log == old(log)
      ensures r.Failed? ==> world.Faults() > old(world.Faults()) || TargetRefused(says, r.code)
      ensures r.Done? ==>
        && info.isBlock && info.wholeDisk == info.path && info.removable
        && says.system != [] && "" !in says.system && info.path !in says.system
    {
      info := says.info;
      if !says.pathOk {
        return info, Failed(InvalidDevice);
      }
      var noStat := world.Fails();
      if noStat {
        return info, Failed(InvalidDevice);
      }
      var unknown := world.Fails();
      if unknown {
        return info, Failed(Internal);
      }
      if !says.resolvedOk {
        return info, Failed(InvalidDevice);
      }
      var fault := TargetFault(info, says.system);
      if fault.Some? {
        return info, Failed(fault.value);
      }
      Record(Resolved(info, says.system), s);
      r := Done;
    }

    /** A cancel that arrived while the authorizer was deciding wins over its answer. */
    method Authorize(ghost s: Stage) returns (r: Result)
      requires At(s) && Checked(op, s) && s == s.(approved := false, held := false, cancelled := false)
      requires s.device.Unopened? && s.targets == [] && s.unmounted == 0
      modifies `log, `cancelled, world
      ensures world.Faults() >= old(world.Faults())
      ensures r.Done? ==> Approved() && At(s.(approved := true, held := true)) && log == old(log) + [Granted]
      ensures Granted in log ==> Granted in old(log) || !hasAuthorizer || says.approves
      ensures r.Done? ==> !hasAuthorizer || says.approves
      ensures r.Failed? ==> exists t ::
        At(t) && !t.held && t.device.Unopened? && t.targets == [] && (t.approved ==> t.cancelled)
      ensures r.Failed? ==>
        world.Faults() > old(world.Faults()) || !Approved() || (old(cancelled) && r.code == Cancelled)
    {
      var early := CtxErr();
      if early {
        return Failed(Cancelled);
      }
      if !hasAuthorizer {
        Record(Granted, s);
        return Done;
      }
      var grants, code: Code := says.approves, *;
      if grants {
        Record(Granted, s);
      }
      ghost var t := if grants then s.(approved := true, held := true) else s;
      var late := CtxErr();
      if late {
        Record(CancelledInAuth, t);
        t := t.(cancelled := true);
        if grants {
          Record(Released, t);
          t := t.(held := false);
        }
        return Failed(Cancelled);
      }
      if !grants {
        return Failed(code);
      }
      r := Done;
    }

    /** The stage once the partitions that the OS lists, and then the device, are unmounted. */
    function Unmounts(s: Stage, info: DeviceInfo): Stage {
      s.(targets := says.parts + [info.path], unmounted := |says.parts| + 1)
    }

    function UnmountEffects(info: DeviceInfo): (es: seq<Effect>)
      ensures |es| == |says.parts| + 1
    {
      var targets := says.parts + [info.path];
      seq(|targets|, i requires 0 <= i < |targets| => Unmounted(targets[i]))
    }

    /** All that a write that succeeds has done, in order. */
    function ImageEffects(size: int): seq<Effect> {
      var n: nat := if size > 0 then size else 0;
      [Resolved(says.info, says.system), SourceChecked(n), CapacityChecked(n), Granted, Listed(says.parts)]
      + UnmountEffects(says.info) + [Opened(says.info.path, true), Released, Streamed, Synced, Closed]
    }

    function FormatEffects(): seq<Effect> {
      [Resolved(says.info, says.system), LabelChecked, Granted, Released, Listed(says.parts)]
      + UnmountEffects(says.info) + [Formatted(says.info.path)]
    }

    method UnmountAll(info: DeviceInfo, ghost s: Stage) returns (r: Result)
      requires At(s) && MayTouch(op, s) && s.info == Some(info)
      requires s.targets == [] && s.unmounted == 0 && s.device.Unopened?
      modifies `log, world
      ensures Unless(r.Done?, old(world.Faults()), world.Faults())
      ensures r.Failed? ==> exists t :: At(t) && Begun(s, t)
      ensures r.Done? ==> At(Unmounts(s, info)) && log == old(log) + [Listed(says.parts)] + UnmountEffects(info)
    {
      hide At, StageOf, UnmountEffects;
      var unlisted := world.Fails();
      if unlisted {
        assert Begun(s, s);
        return Failed(Internal);
      }
      Record(Listed(says.parts), s);
      r := UnmountEach(info, s.(targets := says.parts + [info.path]));
    }

    method UnmountEach(info: DeviceInfo, ghost s: Stage) returns (r: Result)
      requires At(s) && MayTouch(op, s) && s.targets == says.parts + [info.path]
      requires s.unmounted == 0 && s.device.Unopened?
      modifies `log, world
      ensures Unless(r.Done?, old(world.Faults()), world.Faults())
      ensures r.Failed? ==> exists t :: At(t) && Begun(s, t)
      ensures r.Done? ==> At(s.(unmounted := |s.targets|)) && log == old(log) + UnmountEffects(info)
    {
      hide At, StageOf, UnmountEffects, World.Faults;
      var targets := says.parts + [info.path];
      ghost var es := UnmountEffects(info);
      assert es[..0] == [];
      for i := 0 to |targets|
        invariant At(s.(unmounted := i)) && world.Faults() == old(world.Faults())
        invariant log == old(log) + es[..i]
      {
        UnmountEffect(info, i);
        Record(Unmounted(targets[i]), s.(unmounted := i));
        var fails := world.Fails();
        if fails {
          assert Begun(s, s.(unmounted := i + 1));
          return Failed(DeviceBusy);
        }
      }
      assert es[..|targets|] == es;
      r := Done;
    }

    lemma UnmountEffect(info: DeviceInfo, i: nat)
      requires i <= |says.parts|
      ensures UnmountEffects(info)[..i + 1] ==
              UnmountEffects(info)[..i] + [Unmounted((says.parts + [info.path])[i])]
    {
    }

    /** The grant is released as soon as the open has returned, whatever the outcome. */
    method OpenTarget(info: DeviceInfo, ghost s: Stage) returns (r: Result)
      requires op.WriteImage? && At(s) && MayTouch(op, s) && s.held
      requires s.info == Some(info) && s.targets == [] && s.unmounted == 0 && s.device.Unopened?
      modifies `log, world
      ensures Unless(r.Done?, old(world.Faults()), world.Faults())
      ensures r.Failed? ==> exists t :: At(t) && Begun(s.(held := false), t)
      ensures r.Done? ==>
        && At(Unmounts(s, info).(held := false, device := Open))
        && log == old(log) + [Listed(says.parts)] + UnmountEffects(info) + [Opened(info.path, true), Released]
    {
      r := UnmountAll(info, s);
      if r.Failed? {
        ghost var t :| At(t) && Begun(s, t);
        Record(Released, t);
        assert Begun(s.(held := false), t.(held := false));
        return;
      }
      ghost var t := Unmounts(s, info);
      var fails := world.Fails();
      var code: Code := *;
      Record(Opened(info.path, !fails), t);
      Record(Released, if fails then t else t.(device := Open));
      if fails {
        r := Failed(code);
        assert Begun(s.(held := false), t.(held := false));
      }
    }

    /** Whatever the outcome, the effects are allowed, no grant is left held and no
        device open. Success means exactly the effects of a complete write, and comes
        unless the request does not fit, the user refuses, or something fails. */
    method RunWriteImage(size: int, hasSource: bool) returns (r: Result)
      requires op.WriteImage? && log == []
      modifies `log, `cancelled, world
      ensures Granted in log ==> !hasAuthorizer || says.approves
      ensures Settled(op, log)
      ensures r.Done? ==> log == ImageEffects(size)
      ensures r.Done? ==> hasSource && TargetOk(says) && ImageFits(says, size) && Approved()
      ensures r.Failed? ==>
        || world.FaultSince(old(world.asked))
        || if !hasSource then r.code == InvalidRequest
           else if !TargetOk(says) then TargetRefused(says, r.code)
           else if !ImageFits(says, size) then ImageRefused(says, size, r.code)
           else !Approved() || (old(cancelled) && r.code == Cancelled)
    {
      hide StageOf, UnmountEffects;
      StartHere();
      if !hasSource {
        return Failed(InvalidRequest);
      }
      ghost var s;
      r, s := CheckAndAuthorize(size);
      if r.Failed? {
        world.Blame(old(world.asked));
        return;
      }
      r := OpenTarget(says.info, s);
      if r.Failed? {
        world.Blame(old(world.asked));
        return;
      }
      r := StreamSyncClose(Unmounts(s, says.info).(held := false, device := Open));
      if r.Done? {
        ImageEffectsAre(size, log);
      } else {
        world.Blame(old(world.asked));
      }
    }

    lemma StartHere()
      requires log == []
      ensures At(Start) && Settled(op, log)
    {
    }

    lemma ImageEffectsAre(size: nat, l: seq<Effect>)
      requires size > 0
      requires l ==
        [Resolved(says.info, says.system), SourceChecked(size), CapacityChecked(size), Granted]
        + [Listed(says.parts)] + UnmountEffects(says.info) + [Opened(says.info.path, true), Released]
        + [Streamed, Synced, Closed]
      ensures l == ImageEffects(size)
    {
      hide UnmountEffects;
    }

    /** Everything before the device may be touched. */
    method CheckAndAuthorize(size: int) returns (r: Result, ghost s: Stage)
      requires op.WriteImage? && log == []
      modifies `log, `cancelled, world
      ensures world.Faults() >= old(world.Faults())
      ensures Granted in log || r.Done? ==> !hasAuthorizer || says.approves
      ensures r.Failed? ==> Settled(op, log)
      ensures r.Done? ==>
        && At(s) && MayTouch(op, s) && s.held && s.device.Unopened? && s.targets == [] && s.unmounted == 0
        && s.info == Some(says.info) && TargetOk(says) && ImageFits(says, size) && Approved()
        && log == [Resolved(says.info, says.system), SourceChecked(size), CapacityChecked(size), Granted]
      ensures r.Failed? ==>
        || world.Faults() > old(world.Faults())
        || if !TargetOk(says) then TargetRefused(says, r.code)
           else if !ImageFits(says, size) then ImageRefused(says, size, r.code)
           else !Approved() || (old(cancelled) && r.code == Cancelled)
    {
      hide StageOf, World.Faults;
      StartHere();
      var info;
      s := Start;
      info, r := ResolveTarget(s);
      if r.Failed? {
        return;
      }
      s := s.(info := Some(info));
      r := CheckImage(size, info);
      if r.Failed? {
        return;
      }
      Record(SourceChecked(size), s);
      s := s.(source := Some(size));
      Record(CapacityChecked(size), s);
      s := s.(capacity := true);
      r := Authorize(s);
      if r.Failed? {
        return;
      }
      s := s.(approved := true, held := true);
    }

    /** validate.Source and validate.Capacity on what Stat says of the image. */
    method CheckImage(size: int, info: DeviceInfo) returns (r: Result)
      requires info == says.info
      modifies world
      ensures world.Faults() >= old(world.Faults())
      ensures r.Done? ==> says.regular && 0 < size == says.fileSize <= says.info.size
      ensures r.Failed? ==> world.Faults() > old(world.Faults()) || ImageRefused(says, size, r.code)
    {
      var noStat := world.Fails();
      if noStat || !says.regular || size <= 0 {
        return Failed(InvalidSource);
      }
      if says.fileSize != size {
        return Failed(SizeMismatch);
      }
      if info.size == 0 || size > info.size {
        return Failed(InsufficientCapacity);
      }
      r := Done;
    }

    /** A failing stream or sync still closes the device. */
    method StreamSyncClose(ghost s: Stage) returns (r: Result)
      requires At(s) && MayTouch(op, s) && !s.held && s.device.Open?
      modifies `log, world
      ensures Unless(r.Done?, old(world.Faults()), world.Faults())
      ensures Settled(op, log)
      ensures r.Done? ==> log == old(log) + [Streamed, Synced, Closed]
    {
      hide StageOf, World.Faults, TargetFault;
      Record(Streamed, s);
      var fails := world.Fails();
      if fails {
        var code: Code := *;
        Record(Closed, s);
        return Failed(code);
      }
      Record(Synced, s);
      var unsynced := world.Fails();
      Record(Closed, s);
      var unclosed := world.Fails();
      r := if unsynced || unclosed then Failed(Internal) else Done;
    }

    method RunFormatDisk(fsOk: bool, labelOk: bool) returns (r: Result)
      requires op.FormatDisk? && log == []
      modifies `log, `cancelled, world
      ensures Granted in log ==> !hasAuthorizer || says.approves
      ensures Settled(op, log)
      ensures r.Done? ==> log == FormatEffects()
      ensures r.Done? ==> fsOk && labelOk && TargetOk(says) && Approved()
      ensures r.Failed? ==>
        || world.FaultSince(old(world.asked))
        || if !TargetOk(says) then TargetRefused(says, r.code)
           else if !fsOk || !labelOk then r.code == if fsOk then InvalidLabel else InvalidRequest
           else !Approved() || (old(cancelled) && r.code == Cancelled)
    {
      hide StageOf, UnmountEffects;
      StartHere();
      ghost var s;
      r, s := LabelAndAuthorize(fsOk, labelOk);
      if r.Failed? {
        world.Blame(old(world.asked));
        return;
      }
      Record(Released, s);
      s := s.(held := false);
      r := UnmountAll(says.info, s);
      if r.Failed? {
        world.Blame(old(world.asked));
        return;
      }
      Record(Formatted(says.info.path), Unmounts(s, says.info));
      FormatEffectsAre(log);
      var fails := world.Fails();
      var code: Code := *;
      r := if fails then Failed(code) else Done;
      world.Blame(old(world.asked));
    }

    lemma FormatEffectsAre(l: seq<Effect>)
      requires l ==
        [Resolved(says.info, says.system), LabelChecked, Granted] + [Released]
        + [Listed(says.parts)] + UnmountEffects(says.info) + [Formatted(says.info.path)]
      ensures l == FormatEffects()
    {
      hide UnmountEffects;
    }

    method LabelAndAuthorize(fsOk: bool, labelOk: bool) returns (r: Result, ghost s: Stage)
      requires op.FormatDisk? && log == []
      modifies `log, `cancelled, world
      ensures world.Faults() >= old(world.Faults())
      ensures Granted in log || r.Done? ==> !hasAuthorizer || says.approves
      ensures r.Failed? ==> Settled(op, log)
      ensures r.Done? ==>
        && At(s) && MayTouch(op, s) && s.held && s.device.Unopened? && s.targets == [] && s.unmounted == 0
        && s.info == Some(says.info) && TargetOk(says) && fsOk && labelOk && Approved()
        && log == [Resolved(says.info, says.system), LabelChecked, Granted]
      ensures r.Failed? ==>
        || world.Faults() > old(world.Faults())
        || if !TargetOk(says) then TargetRefused(says, r.code)
           else if !fsOk || !labelOk then r.code == if fsOk then InvalidLabel else InvalidRequest
           else !Approved() || (old(cancelled) && r.code == Cancelled)
    {
      hide StageOf, World.Faults;
      StartHere();
      var info;
      s := Start;
      info, r := ResolveTarget(s);
      if r.Failed? {
        return;
      }
      s := s.(info := Some(info));
      if !fsOk {
        return Failed(InvalidRequest), s;
      }
      if !labelOk {
        return Failed(InvalidLabel), s;
      }
      Record(LabelChecked, s);
      s := s.(labelled := true);
      r := Authorize(s);
      if r.Failed? {
        return;
      }
      s := s.(approved := true, held := true);
    }
  }
}
