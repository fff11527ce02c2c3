/** The node proxy's two request handlers. */
module NodeServer {
  import opened Wrappers
  import opened NodeLayers
  import opened NodeScripts
  import Uuid

  ghost predicate AllLayered(hasDpu: bool, targets: map<Key, Target>) {
    forall k :: Local(hasDpu, TargetOf(targets, k), Done(true))
  }

  /** What a publish does between other requests. */
  lemma PublishFacts(hasDpu: bool, s: Target, volumeId: string, targetPath: string, hasCapability: bool, script: seq<Reply>)
    requires Local(hasDpu, s, Done(true))
    ensures var (s', t') := RunTask(hasDpu, volumeId, s, PublishTask(volumeId, targetPath, hasCapability), script);
            && Local(hasDpu, s', Done(true))
            && s' == PublishLeaves(hasDpu, volumeId, targetPath, hasCapability, s, script)
            && (t' == Done(true) <==> PublishSucceeds(hasDpu, volumeId, targetPath, hasCapability, script))
            && (t' == Done(true) ==>
                  && s'.csiUp && (hasDpu ==> s'.dpuUp)
                  && (s'.mounted || SawMountPoint(hasDpu, volumeId, s, CsiPublish, script)))
  {
    var start := PublishTask(volumeId, targetPath, hasCapability);
    PublishOnScript(hasDpu, volumeId, targetPath, hasCapability, s, script);
    RunKeepsLocal(hasDpu, volumeId, s, start, script);
    if RunTask(hasDpu, volumeId, s, start, script).1 == Done(true) {
      PublishPutsUp(hasDpu, volumeId, s, start, script);
    }
    hide PublishLeaves, PublishSucceeds, RunTask, SawMountPoint;
  }

  lemma UnpublishFacts(hasDpu: bool, s: Target, volumeId: string, targetPath: string, script: seq<Reply>)
    requires Local(hasDpu, s, Done(true))
    ensures var (s', t') := RunTask(hasDpu, volumeId, s, UnpublishTask(volumeId, targetPath), script);
            && Local(hasDpu, s', Done(true))
            && s' == UnpublishLeaves(hasDpu, volumeId, targetPath, s, script)
            && (t' == Done(true) <==> UnpublishSucceeds(hasDpu, volumeId, targetPath, script))
            && (t' == Done(true) ==> !s'.mounted && !s'.dpuUp && !s'.csiUp)
  {
    var start := UnpublishTask(volumeId, targetPath);
    UnpublishOnScript(hasDpu, volumeId, targetPath, s, script);
    RunKeepsLocal(hasDpu, volumeId, s, start, script);
    if RunTask(hasDpu, volumeId, s, start, script).1 == Done(true) {
      UnpublishTakesDown(hasDpu, volumeId, s, start, script);
    }
    hide UnpublishLeaves, UnpublishSucceeds, RunTask;
  }

  class Server {
    const hasDpu: bool
    var targets: map<Key, Target>

    /** What the calls still to be made will answer; when it is used up the handler stops for good. */
    var replies: seq<Reply>

    constructor (hasDpu: bool)
      ensures Valid() && this.hasDpu == hasDpu && targets == map[]
      ensures forall k :: At(k) == Target(false, false, false, Never, Never)
    {
      this.hasDpu := hasDpu;
      targets, replies := map[], [];
    }

    function At(k: Key): Target
      reads this
    {
      TargetOf(targets, k)
    }

    /** Between requests every target is layered. */
    ghost predicate Valid()
      reads this
    {
      AllLayered(hasDpu, targets)
    }

    /** A part of the handler for `k`: completed it hands the rest of the run over to `t'`, aborted it has ended it. Other
        volumes and targets are left alone. */
    ghost predicate Continues(before: map<Key, Target>, script: seq<Reply>, k: Key, t: Task, r: Outcome, t': Task)
      reads this
    {
      var run := RunTask(hasDpu, k.volumeId, TargetOf(before, k), t, script);
      && (forall j :: j != k ==> TargetOf(targets, j) == TargetOf(before, j))
      && (if r.Completed? then run == RunTask(hasDpu, k.volumeId, At(k), t', replies)
          else run.0 == At(k) && run.1 != Done(true))
    }

    /** A call to the outside. */
    method Call(k: Key, ghost t: Task) returns (r: Result<Reply>)
      requires !t.Done?
      modifies this`replies
      ensures r.Raised? <==> old(replies) == []
      ensures r.Returned? ==> r.value == old(replies)[0] && replies == old(replies)[1..]
      ensures r.Raised? ==> replies == []
      ensures r.Returned? ==>
                var (s', t') := Step(hasDpu, k.volumeId, At(k), t, r.value);
                RunTask(hasDpu, k.volumeId, At(k), t, old(replies)) == RunTask(hasDpu, k.volumeId, s', t', replies)
    {
      if replies == [] {
        return Raised;
      }
      OneCall(hasDpu, k.volumeId, At(k), t, replies);
      var reply := replies[0];
      replies := replies[1..];
      return Returned(reply);
    }

    method PublishToCsi(k: Key) returns (r: Outcome)
      modifies this
      ensures Continues(old(targets), old(replies), k, CsiPublish, r, AfterCsiPublish(hasDpu, k.volumeId))
    {
      var reply := Call(k, CsiPublish);
      if reply.Raised? {
        return Aborted;
      }
      if reply.value.Error? {
        targets := targets[k := At(k).(csiUp := At(k).csiUp || reply.value.applied)];
        return Aborted;
      }
      targets := targets[k := At(k).(csiUp := true, lastCsi := Published)];
      return Completed;
    }

    method PublishToDpu(k: Key, uuid: string) returns (r: Outcome)
      requires hasDpu && Uuid.FindUuid(k.volumeId) == Option.Some(uuid)
      modifies this
      ensures Continues(old(targets), old(replies), k, DpuPublish, r, FindDevice)
    {
      var reply := Call(k, DpuPublish);
      if reply.Raised? {
        return Aborted;
      }
      if reply.value.Error? {
        targets := targets[k := At(k).(dpuUp := At(k).dpuUp || reply.value.applied)];
        return Aborted;
      }
      targets := targets[k := At(k).(dpuUp := true, lastDpu := Published)];
      return Completed;
    }

    /** The DPU's part of publish, if there is a DPU client. */
    method PublishIfDpu(k: Key) returns (r: Outcome)
      modifies this
      ensures Continues(old(targets), old(replies), k, AfterCsiPublish(hasDpu, k.volumeId), r, FindDevice)
    {
      if !hasDpu {
        return Completed;
      }
      var uuid := Uuid.FindUuid(k.volumeId);
      if uuid.None? {
        return Aborted;
      }
      r := PublishToDpu(k, uuid.value);
    }

    /** Polls the devices until one has the volume's UUID; nothing bounds it but the handler's life. */
    method WaitForDevice(k: Key) returns (r: Outcome)
      modifies this`replies
      ensures Continues(old(targets), old(replies), k, FindDevice, r, CheckTarget)
    {
      var found := false;
      while !found
        invariant Continues(old(targets), old(replies), k, FindDevice, Completed, if found then CheckTarget else FindDevice)
        decreases |replies| + if found then 0 else 1
      {
        var reply := Call(k, FindDevice);
        if reply.Raised? {
          return Aborted;
        }
        found := reply.value.Ok? && reply.value.yes;
      }
      return Completed;
    }

    /** Attempts the mount until it succeeds, at most 51 times. */
    method MountWithRetries(k: Key) returns (r: Outcome)
      modifies this
      ensures Continues(old(targets), old(replies), k, Mount(0), r, Done(true))
      ensures r.Completed? <==> FirstOk(old(replies)) < |old(replies)| && FirstOk(old(replies)) < 51
      ensures r.Completed? ==> At(k).mounted
    {
      MountLoop(hasDpu, k.volumeId, At(k), 0, replies);
      var tries := 0;
      while true
        invariant tries <= MAX_TRIES
        invariant Continues(old(targets), old(replies), k, Mount(0), Completed, Mount(tries))
        decreases |replies|
      {
        var reply := Call(k, Mount(tries));
        if reply.Raised? {
          return Aborted;
        }
        tries := tries + 1;
        if reply.value.Ok? {
          targets := targets[k := At(k).(mounted := true)];
          return Completed;
        }
        targets := targets[k := At(k).(mounted := At(k).mounted || reply.value.applied)];
        if tries > MAX_TRIES {
          return Aborted;
        }
      }
    }

    /** The end of publish: looks at the target, makes it if it is missing, and mounts unless something is mounted. */
    method MountAtTarget(k: Key) returns (r: Outcome)
      modifies this
      ensures Continues(old(targets), old(replies), k, CheckTarget, r, Done(true))
    {
      var notMnt := Call(k, CheckTarget);
      if notMnt.Raised? {
        return Aborted;
      }
      if notMnt.value.Error? {
        if !notMnt.value.missing {
          return Aborted;
        }
        var made := Call(k, MakeTarget);
        if made.Raised? || made.value.Error? {
          return Aborted;
        }
      } else if !notMnt.value.yes {
        return Completed;
      }
      r := MountWithRetries(k);
    }

    method NodePublishVolume(volumeId: string, targetPath: string, hasCapability: bool, script: seq<Reply>) returns (r: Outcome)
      requires Valid()
      modifies this
      ensures Valid()
      ensures r.Completed? ==>
                var s := At(Key(volumeId, targetPath));
                && s.csiUp && (hasDpu ==> s.dpuUp)
                && (s.mounted || SawMountPoint(hasDpu, volumeId, old(At(Key(volumeId, targetPath))), CsiPublish, script))
      ensures r.Completed? <==> PublishSucceeds(hasDpu, volumeId, targetPath, hasCapability, script)
      ensures var k := Key(volumeId, targetPath);
              At(k) == PublishLeaves(hasDpu, volumeId, targetPath, hasCapability, old(At(k)), script)
      ensures var k := Key(volumeId, targetPath);
              var run := RunTask(hasDpu, volumeId, old(At(k)), PublishTask(volumeId, targetPath, hasCapability), script);
              && At(k) == run.0
              && (r.Completed? <==> run.1 == Done(true))
              && forall j :: j != k ==> At(j) == old(At(j))
    {
      hide RunTask, Local, PublishSucceeds, PublishLeaves, SawMountPoint;
      PublishFacts(hasDpu, At(Key(volumeId, targetPath)), volumeId, targetPath, hasCapability, script);
      replies := script;
      if volumeId == "" || targetPath == "" || !hasCapability {
        NoMoreCalls(hasDpu, volumeId, At(Key(volumeId, targetPath)), Done(false), script);
        return Aborted;
      }
      var k := Key(volumeId, targetPath);
      :- PublishToCsi(k);
      :- PublishIfDpu(k);
      :- WaitForDevice(k);
      r := MountAtTarget(k);
      NoMoreCalls(hasDpu, volumeId, At(k), Done(true), replies);
    }

    method Unmount(k: Key) returns (r: Outcome)
      modifies this
      ensures Continues(old(targets), old(replies), k, CheckMounted, r, AfterCleanup(hasDpu, k.volumeId))
    {
      var notMnt := Call(k, CheckMounted);
      if notMnt.Raised? || notMnt.value.Error? || notMnt.value.yes {
        return Aborted;
      }
      var reply := Call(k, Cleanup);
      if reply.Raised? {
        return Aborted;
      }
      if reply.value.Error? {
        targets := targets[k := At(k).(mounted := At(k).mounted && !reply.value.applied)];
        return Aborted;
      }
      targets := targets[k := At(k).(mounted := false)];
      return Completed;
    }

    method UnpublishFromDpu(k: Key, uuid: string) returns (r: Outcome)
      requires hasDpu && Uuid.FindUuid(k.volumeId) == Option.Some(uuid)
      modifies this
      ensures Continues(old(targets), old(replies), k, DpuUnpublish, r, CsiUnpublish)
    {
      var reply := Call(k, DpuUnpublish);
      if reply.Raised? {
        return Aborted;
      }
      if reply.value.Error? {
        targets := targets[k := At(k).(dpuUp := At(k).dpuUp && !reply.value.applied)];
        return Aborted;
      }
      targets := targets[k := At(k).(dpuUp := false, lastDpu := Unpublished)];
      return Completed;
    }

    /** The DPU's part of unpublish, if there is a DPU client. */
    method UnpublishIfDpu(k: Key) returns (r: Outcome)
      modifies this
      ensures Continues(old(targets), old(replies), k, AfterCleanup(hasDpu, k.volumeId), r, CsiUnpublish)
    {
      if !hasDpu {
        return Completed;
      }
      var uuid := Uuid.FindUuid(k.volumeId);
      if uuid.None? {
        return Aborted;
      }
      r := UnpublishFromDpu(k, uuid.value);
    }

    method UnpublishFromCsi(k: Key) returns (r: Outcome)
      modifies this
      ensures Continues(old(targets), old(replies), k, CsiUnpublish, r, Done(true))
    {
      var reply := Call(k, CsiUnpublish);
      if reply.Raised? {
        return Aborted;
      }
      if reply.value.Error? {
        targets := targets[k := At(k).(csiUp := At(k).csiUp && !reply.value.applied)];
        return Aborted;
      }
      targets := targets[k := At(k).(csiUp := false, lastCsi := Unpublished)];
      return Completed;
    }

    method NodeUnpublishVolume(volumeId: string, targetPath: string, script: seq<Reply>) returns (r: Outcome)
      requires Valid()
      modifies this
      ensures Valid()
      ensures r.Completed? ==>
                var s := At(Key(volumeId, targetPath)); !s.mounted && !s.dpuUp && !s.csiUp
      ensures r.Completed? <==> UnpublishSucceeds(hasDpu, volumeId, targetPath, script)
      ensures var k := Key(volumeId, targetPath);
              At(k) == UnpublishLeaves(hasDpu, volumeId, targetPath, old(At(k)), script)
      ensures var k := Key(volumeId, targetPath);
              var run := RunTask(hasDpu, volumeId, old(At(k)), UnpublishTask(volumeId, targetPath), script);
              && At(k) == run.0
              && (r.Completed? <==> run.1 == Done(true))
              && forall j :: j != k ==> At(j) == old(At(j))
    {
      hide RunTask, Local, UnpublishSucceeds, UnpublishLeaves;
      UnpublishFacts(hasDpu, At(Key(volumeId, targetPath)), volumeId, targetPath, script);
      replies := script;
      if volumeId == "" || targetPath == "" {
        NoMoreCalls(hasDpu, volumeId, At(Key(volumeId, targetPath)), Done(false), script);
        return Aborted;
      }
      var k := Key(volumeId, targetPath);
      :- Unmount(k);
      :- UnpublishIfDpu(k);
      r := UnpublishFromCsi(k);
      NoMoreCalls(hasDpu, volumeId, At(k), Done(true), replies);
    }
  }
}
