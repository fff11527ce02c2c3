/** The node proxy: a volume is published in three layers, first by the CSI driver, then by the DPU, then by a mount,
    and unpublished in the opposite order. */
module NodeLayers {
  import opened Wrappers
  import Uuid

  datatype Last = Never | Published | Unpublished

  /** One volume at one target: whether each layer is in place, and the last call of each kind that succeeded. */
  datatype Target = Target(mounted: bool, dpuUp: bool, csiUp: bool, lastDpu: Last, lastCsi: Last)

  const NEW_TARGET := Target(false, false, false, Never, Never)

  /** What a call outside the proxy answers. An error may come after the call took effect; `missing` is the error for
      a path that does not exist. */
  datatype Reply = Ok(yes: bool) | Error(applied: bool, missing: bool)

  predicate TakesEffect(reply: Reply) { reply.Ok? || reply.applied }

  /** What a handler does next. */
  datatype Task =
    | CsiPublish
    | DpuPublish
    | FindDevice
    | CheckTarget
    | MakeTarget
    | Mount(tries: nat)
    | CheckMounted
    | Cleanup
    | DpuUnpublish
    | CsiUnpublish
    | Done(ok: bool)

  const MAX_TRIES: nat := 50

  function AfterCsiPublish(hasDpu: bool, volumeId: string): Task {
    if !hasDpu then FindDevice else if Uuid.FindUuid(volumeId).None? then Done(false) else DpuPublish
  }

  function AfterCleanup(hasDpu: bool, volumeId: string): Task {
    if !hasDpu then CsiUnpublish else if Uuid.FindUuid(volumeId).None? then Done(false) else DpuUnpublish
  }

  function PublishTask(volumeId: string, targetPath: string, hasCapability: bool): Task {
    if volumeId == "" || targetPath == "" || !hasCapability then Done(false) else CsiPublish
  }

  function UnpublishTask(volumeId: string, targetPath: string): Task {
    if volumeId == "" || targetPath == "" then Done(false) else CheckMounted
  }

  /** One call of a handler, and what its reply leads to. */
  function Step(hasDpu: bool, volumeId: string, s: Target, t: Task, reply: Reply): (Target, Task) {
    match t
    case CsiPublish =>
      if reply.Ok? then (s.(csiUp := true, lastCsi := Published), AfterCsiPublish(hasDpu, volumeId))
      else (s.(csiUp := s.csiUp || reply.applied), Done(false))
    case DpuPublish =>
      if reply.Ok? then (s.(dpuUp := true, lastDpu := Published), FindDevice)
      else (s.(dpuUp := s.dpuUp || reply.applied), Done(false))
    case FindDevice =>
      (s, if reply.Ok? && reply.yes then CheckTarget else FindDevice)
    case CheckTarget =>
      (s, if reply.Ok? then (if reply.yes then Mount(0) else Done(true))
          else if reply.missing then MakeTarget else Done(false))
    case MakeTarget =>
      (s, if reply.Ok? then Mount(0) else Done(false))
    case Mount(tries) =>
      if reply.Ok? then (s.(mounted := true), Done(true))
      else (s.(mounted := s.mounted || reply.applied), if tries + 1 > MAX_TRIES then Done(false) else Mount(tries + 1))
    case CheckMounted =>
      (s, if reply.Ok? && !reply.yes then Cleanup else Done(false))
    case Cleanup =>
      if reply.Ok? then (s.(mounted := false), AfterCleanup(hasDpu, volumeId))
      else (s.(mounted := s.mounted && !reply.applied), Done(false))
    case DpuUnpublish =>
      if reply.Ok? then (s.(dpuUp := false, lastDpu := Unpublished), CsiUnpublish)
      else (s.(dpuUp := s.dpuUp && !reply.applied), Done(false))
    case CsiUnpublish =>
      if reply.Ok? then (s.(csiUp := false, lastCsi := Unpublished), Done(true))
      else (s.(csiUp := s.csiUp && !reply.applied), Done(false))
    case Done(_) => (s, t)
  }

  /** A handler that gets these replies; when they run out it has stopped for good. */
  function RunTask(hasDpu: bool, volumeId: string, s: Target, t: Task, replies: seq<Reply>): (Target, Task)
    decreases |replies|
  {
    if replies == [] || t.Done? then (s, t)
    else
      var (s', t') := Step(hasDpu, volumeId, s, t, replies[0]);
      RunTask(hasDpu, volumeId, s', t', replies[1..])
  }

  datatype Key = Key(volumeId: string, targetPath: string)

  function TargetOf(targets: map<Key, Target>, k: Key): Target {
    if k in targets then targets[k] else NEW_TARGET
  }

  /** Each layer stands on the one below, both in place and by the last calls that succeeded. */
  predicate Layered(hasDpu: bool, s: Target) {
    && (s.mounted ==> (hasDpu ==> s.dpuUp && s.lastDpu == Published) && s.csiUp && s.lastCsi == Published)
    && (s.dpuUp ==> s.csiUp)
    && (s.lastDpu == Published ==> s.lastCsi == Published)
    && (s.dpuUp ==> s.lastCsi == Published)
  }

  predicate AtTask(hasDpu: bool, s: Target, t: Task) {
    match t
    case CsiPublish => true
    case DpuPublish => hasDpu && s.csiUp && s.lastCsi == Published
    case CheckMounted => true
    case Cleanup => true
    case DpuUnpublish => hasDpu && !s.mounted
    case CsiUnpublish => !s.mounted && !s.dpuUp && s.lastDpu != Published
    case Done(_) => true
    case _ => s.csiUp && s.lastCsi == Published && (hasDpu ==> s.dpuUp && s.lastDpu == Published)
  }

  predicate Local(hasDpu: bool, s: Target, t: Task) {
    Layered(hasDpu, s) && AtTask(hasDpu, s, t) && (!hasDpu ==> !s.dpuUp && s.lastDpu == Never)
  }

  lemma StepKeepsLocal(hasDpu: bool, volumeId: string, s: Target, t: Task, reply: Reply)
    requires Local(hasDpu, s, t)
    ensures var (s', t') := Step(hasDpu, volumeId, s, t, reply); Local(hasDpu, s', t')
  {
  }

  /* Single requests. */

  lemma OneCall(hasDpu: bool, volumeId: string, s: Target, t: Task, replies: seq<Reply>)
    requires replies != [] && !t.Done?
    ensures var (s', t') := Step(hasDpu, volumeId, s, t, replies[0]);
            RunTask(hasDpu, volumeId, s, t, replies) == RunTask(hasDpu, volumeId, s', t', replies[1..])
  {
  }

  lemma NoMoreCalls(hasDpu: bool, volumeId: string, s: Target, t: Task, replies: seq<Reply>)
    requires replies == [] || t.Done?
    ensures RunTask(hasDpu, volumeId, s, t, replies) == (s, t)
  {
  }

  /** The place of the first reply that is no error. */
  function FirstOk(replies: seq<Reply>): (i: nat)
    ensures i <= |replies| && (i < |replies| ==> replies[i].Ok?)
    ensures forall j :: 0 <= j < i ==> replies[j].Error?
  {
    if replies == [] || replies[0].Ok? then 0 else 1 + FirstOk(replies[1..])
  }

  /** The mount loop makes at most 51 attempts: it succeeds exactly when one of the first 51 does, and fails exactly
      when the first 51 are errors. */
  lemma {:induction false} MountLoop(hasDpu: bool, volumeId: string, s: Target, tries: nat, replies: seq<Reply>)
    requires tries <= 50
    ensures var t := RunTask(hasDpu, volumeId, s, Mount(tries), replies).1;
            && (t == Done(true) <==> FirstOk(replies) < |replies| && FirstOk(replies) + tries < 51)
            && (t == Done(false) <==> FirstOk(replies) + tries >= 51)
    decreases |replies|
  {
    if replies != [] {
      OneCall(hasDpu, volumeId, s, Mount(tries), replies);
      if replies[0].Error? && tries < 50 {
        MountLoop(hasDpu, volumeId, Step(hasDpu, volumeId, s, Mount(tries), replies[0]).0, tries + 1, replies[1..]);
      }
    }
  }

  lemma {:induction false} RunKeepsLocal(hasDpu: bool, volumeId: string, s: Target, t: Task, replies: seq<Reply>)
    requires Local(hasDpu, s, t)
    ensures Local(hasDpu, RunTask(hasDpu, volumeId, s, t, replies).0, RunTask(hasDpu, volumeId, s, t, replies).1)
    decreases |replies|
  {
    if replies != [] && !t.Done? {
      var (s', t') := Step(hasDpu, volumeId, s, t, replies[0]);
      StepKeepsLocal(hasDpu, volumeId, s, t, replies[0]);
      RunKeepsLocal(hasDpu, volumeId, s', t', replies[1..]);
    }
  }

  predicate IsUnpublishing(t: Task) { t.CheckMounted? || t.Cleanup? || t.DpuUnpublish? || t.CsiUnpublish? }

  predicate IsPublishing(t: Task) {
    t.CsiPublish? || t.DpuPublish? || t.FindDevice? || t.CheckTarget? || t.MakeTarget? || t.Mount?
  }

  /** An unpublish that reports success has taken all three layers down. */
  lemma {:induction false} UnpublishTakesDown(hasDpu: bool, volumeId: string, s: Target, t: Task, replies: seq<Reply>)
    requires Local(hasDpu, s, t) && IsUnpublishing(t)
    requires RunTask(hasDpu, volumeId, s, t, replies).1 == Done(true)
    ensures var s' := RunTask(hasDpu, volumeId, s, t, replies).0;
            !s'.mounted && !s'.dpuUp && !s'.csiUp && s'.lastCsi == Unpublished && s'.lastDpu != Published
    decreases |replies|
  {
    var (s', t') := Step(hasDpu, volumeId, s, t, replies[0]);
    OneCall(hasDpu, volumeId, s, t, replies);
    StepKeepsLocal(hasDpu, volumeId, s, t, replies[0]);
    if IsUnpublishing(t') {
      UnpublishTakesDown(hasDpu, volumeId, s', t', replies[1..]);
    }
  }

  /** The look at the target found something mounted there. */
  ghost predicate SawMountPoint(hasDpu: bool, volumeId: string, s: Target, t: Task, replies: seq<Reply>) {
    exists i :: 0 <= i < |replies| && AnswersCheck(hasDpu, volumeId, s, t, replies, i)
  }

  predicate AnswersCheck(hasDpu: bool, volumeId: string, s: Target, t: Task, replies: seq<Reply>, i: nat)
    requires i < |replies|
  {
    RunTask(hasDpu, volumeId, s, t, replies[..i]).1 == CheckTarget && replies[i] == Ok(false)
  }

  lemma AnswersCheckLater(hasDpu: bool, volumeId: string, s: Target, t: Task, replies: seq<Reply>, i: nat)
    requires !t.Done? && i + 1 < |replies|
    ensures var (s', t') := Step(hasDpu, volumeId, s, t, replies[0]);
            AnswersCheck(hasDpu, volumeId, s', t', replies[1..], i) == AnswersCheck(hasDpu, volumeId, s, t, replies, i + 1)
  {
    assert replies[..i + 1][1..] == replies[1..][..i];
    assert replies[..i + 1][0] == replies[0];
    OneCall(hasDpu, volumeId, s, t, replies[..i + 1]);
  }

  /** A publish that reports success has the CSI and DPU layers in place, and a mount, unless it found something mounted
      at the target. */
  lemma {:induction false} PublishPutsUp(hasDpu: bool, volumeId: string, s: Target, t: Task, replies: seq<Reply>)
    requires Local(hasDpu, s, t) && IsPublishing(t)
    requires RunTask(hasDpu, volumeId, s, t, replies).1 == Done(true)
    ensures var s' := RunTask(hasDpu, volumeId, s, t, replies).0;
            && s'.csiUp && s'.lastCsi == Published && (hasDpu ==> s'.dpuUp && s'.lastDpu == Published)
            && (s'.mounted || SawMountPoint(hasDpu, volumeId, s, t, replies))
    decreases |replies|
  {
    var (s', t') := Step(hasDpu, volumeId, s, t, replies[0]);
    OneCall(hasDpu, volumeId, s, t, replies);
    StepKeepsLocal(hasDpu, volumeId, s, t, replies[0]);
    if IsPublishing(t') {
      PublishPutsUp(hasDpu, volumeId, s', t', replies[1..]);
      if SawMountPoint(hasDpu, volumeId, s', t', replies[1..]) {
        var i :| 0 <= i < |replies[1..]| && AnswersCheck(hasDpu, volumeId, s', t', replies[1..], i);
        AnswersCheckLater(hasDpu, volumeId, s, t, replies, i);
      }
    } else if t.CheckTarget? {
      assert AnswersCheck(hasDpu, volumeId, s, t, replies, 0);
    }
  }
}
