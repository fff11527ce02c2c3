/** What a request to the node proxy does, said on the answers that its calls get, without the steps of the handlers. */
module NodeScripts {
  import opened Wrappers
  import opened NodeLayers
  import Uuid

  /** Answer number `j` is that to the last attempt of at most `n` to mount, or to one before it. */
  predicate IsAttempt(replies: seq<Reply>, n: nat, j: nat) {
    j < n && j < |replies| && forall i :: 0 <= i < j ==> replies[i].Error?
  }

  ghost predicate Mounts(replies: seq<Reply>, n: nat) {
    exists j: nat :: IsAttempt(replies, n, j) && replies[j].Ok?
  }

  /** One of the attempts takes effect, also if it is answered with an error. */
  ghost predicate MountTakesEffect(replies: seq<Reply>, n: nat) {
    exists j: nat :: IsAttempt(replies, n, j) && TakesEffect(replies[j])
  }

  /** The look at the target: a mount point ends the publish with success, another directory is mounted on, a path that is
      missing is made and then mounted on, and any other error ends the publish. */
  ghost predicate LookSucceeds(replies: seq<Reply>) {
    replies != [] &&
    match replies[0]
    case Ok(notMounted) => notMounted ==> Mounts(replies[1..], 51)
    case Error(_, missing) => missing && |replies| > 1 && replies[1].Ok? && Mounts(replies[2..], 51)
  }

  ghost predicate LookMounts(replies: seq<Reply>) {
    replies != [] &&
    match replies[0]
    case Ok(notMounted) => notMounted && MountTakesEffect(replies[1..], 51)
    case Error(_, missing) => missing && |replies| > 1 && replies[1].Ok? && MountTakesEffect(replies[2..], 51)
  }

  /** The first poll that found the device. */
  predicate FindsDevice(replies: seq<Reply>, n: nat) {
    n < |replies| && replies[n] == Ok(true) && forall i :: 0 <= i < n ==> replies[i] != Ok(true)
  }

  ghost predicate PollSucceeds(replies: seq<Reply>) {
    exists n: nat :: FindsDevice(replies, n) && LookSucceeds(replies[n + 1..])
  }

  ghost predicate PollMounts(replies: seq<Reply>) {
    exists n: nat :: FindsDevice(replies, n) && LookMounts(replies[n + 1..])
  }

  /** With a DPU client the CSI driver and the DPU have to succeed, and the volume id has to hold a UUID; without one, the
      CSI driver. The polls and the look at the target come after that. */
  predicate LayersSucceed(hasDpu: bool, volumeId: string, replies: seq<Reply>) {
    if hasDpu then Uuid.FindUuid(volumeId).Some? && |replies| > 1 && replies[0].Ok? && replies[1].Ok?
    else |replies| > 0 && replies[0].Ok?
  }

  predicate IsPublish(volumeId: string, targetPath: string, hasCapability: bool) {
    volumeId != "" && targetPath != "" && hasCapability
  }

  ghost predicate PublishSucceeds(hasDpu: bool, volumeId: string, targetPath: string, hasCapability: bool, replies: seq<Reply>)
  {
    && IsPublish(volumeId, targetPath, hasCapability)
    && LayersSucceed(hasDpu, volumeId, replies)
    && PollSucceeds(replies[if hasDpu then 2 else 1..])
  }

  /** What a publish leaves of the target, layer by layer. */
  ghost function PublishLeaves(hasDpu: bool, volumeId: string, targetPath: string, hasCapability: bool, s: Target,
                               replies: seq<Reply>): Target
  {
    var csi := IsPublish(volumeId, targetPath, hasCapability) && replies != [];
    var dpu := csi && replies[0].Ok? && hasDpu && Uuid.FindUuid(volumeId).Some? && |replies| > 1;
    Target(s.mounted || (csi && LayersSucceed(hasDpu, volumeId, replies) && PollMounts(replies[if hasDpu then 2 else 1..])),
           s.dpuUp || (dpu && TakesEffect(replies[1])),
           s.csiUp || (csi && TakesEffect(replies[0])),
           if dpu && replies[1].Ok? then Published else s.lastDpu,
           if csi && replies[0].Ok? then Published else s.lastCsi)
  }

  /* The handlers do that. */

  lemma MountsOneLess(replies: seq<Reply>, n: nat)
    ensures replies == [] || n == 0 ==> !Mounts(replies, n) && !MountTakesEffect(replies, n)
    ensures replies != [] && n > 0 && replies[0].Ok? ==> Mounts(replies, n) && MountTakesEffect(replies, n)
    ensures replies != [] && n > 0 && replies[0].Error? ==>
              && (Mounts(replies, n) <==> Mounts(replies[1..], n - 1))
              && (MountTakesEffect(replies, n) <==> replies[0].applied || MountTakesEffect(replies[1..], n - 1))
  {
    if replies != [] && n > 0 {
      assert IsAttempt(replies, n, 0);
      if replies[0].Error? {
        if j: nat :| IsAttempt(replies[1..], n - 1, j) && TakesEffect(replies[1..][j]) {
          AttemptLater(replies, n, j);
        }
        if j: nat :| IsAttempt(replies[1..], n - 1, j) && replies[1..][j].Ok? {
          AttemptLater(replies, n, j);
        }
        if j: nat :| IsAttempt(replies, n, j) && TakesEffect(replies[j]) && j > 0 {
          AttemptLater(replies, n, j - 1);
        }
        if j: nat :| IsAttempt(replies, n, j) && replies[j].Ok? && j > 0 {
          AttemptLater(replies, n, j - 1);
        }
      }
    }
  }

  lemma AttemptLater(replies: seq<Reply>, n: nat, j: nat)
    requires n > 0 && j + 1 < |replies| && replies[0].Error?
    ensures IsAttempt(replies[1..], n - 1, j) <==> IsAttempt(replies, n, j + 1)
  {
    assert forall i :: 0 <= i < j ==> replies[1..][i] == replies[i + 1];
    assert forall i :: 0 < i < j + 1 ==> replies[i] == replies[1..][i - 1];
  }

  lemma {:induction false} MountRun(hasDpu: bool, volumeId: string, s: Target, tries: nat, replies: seq<Reply>)
    requires tries <= 50
    ensures var (s', t') := RunTask(hasDpu, volumeId, s, Mount(tries), replies);
            && s' == s.(mounted := s.mounted || MountTakesEffect(replies, 51 - tries))
            && (t' == Done(true) <==> Mounts(replies, 51 - tries))
    decreases |replies|
  {
    hide Mounts, MountTakesEffect;
    MountsOneLess(replies, 51 - tries);
    if replies != [] {
      OneCall(hasDpu, volumeId, s, Mount(tries), replies);
      var (s', t') := Step(hasDpu, volumeId, s, Mount(tries), replies[0]);
      if tries < 50 && replies[0].Error? {
        MountRun(hasDpu, volumeId, s', tries + 1, replies[1..]);
      } else {
        MountsOneLess(replies[1..], 0);
      }
    }
  }

  lemma LookRun(hasDpu: bool, volumeId: string, s: Target, replies: seq<Reply>)
    ensures var (s', t') := RunTask(hasDpu, volumeId, s, CheckTarget, replies);
            && s' == s.(mounted := s.mounted || LookMounts(replies))
            && (t' == Done(true) <==> LookSucceeds(replies))
  {
    hide Mounts, MountTakesEffect;
    if replies != [] {
      OneCall(hasDpu, volumeId, s, CheckTarget, replies);
      MountRun(hasDpu, volumeId, s, 0, replies[1..]);
      if replies[0].Error? && replies[0].missing && |replies| > 1 {
        OneCall(hasDpu, volumeId, s, MakeTarget, replies[1..]);
        assert replies[1..][1..] == replies[2..];
        MountRun(hasDpu, volumeId, s, 0, replies[2..]);
      }
    }
  }

  lemma PollFound(replies: seq<Reply>)
    requires replies != [] && replies[0] == Ok(true)
    ensures PollSucceeds(replies) <==> LookSucceeds(replies[1..])
    ensures PollMounts(replies) <==> LookMounts(replies[1..])
  {
    hide LookSucceeds, LookMounts;
    assert FindsDevice(replies, 0);
    assert forall n: nat :: FindsDevice(replies, n) ==> n == 0;
  }

  lemma PollSucceedsLater(replies: seq<Reply>)
    requires replies != [] && replies[0] != Ok(true)
    ensures PollSucceeds(replies) <==> PollSucceeds(replies[1..])
  {
    hide LookSucceeds;
    var rest := replies[1..];
    if PollSucceeds(replies) {
      var n: nat :| FindsDevice(replies, n) && LookSucceeds(replies[n + 1..]);
      FoundLater(replies, n - 1);
    }
    if PollSucceeds(rest) {
      var n: nat :| FindsDevice(rest, n) && LookSucceeds(rest[n + 1..]);
      FoundLater(replies, n);
    }
  }

  lemma PollMountsLater(replies: seq<Reply>)
    requires replies != [] && replies[0] != Ok(true)
    ensures PollMounts(replies) <==> PollMounts(replies[1..])
  {
    hide LookMounts;
    var rest := replies[1..];
    if PollMounts(replies) {
      var n: nat :| FindsDevice(replies, n) && LookMounts(replies[n + 1..]);
      FoundLater(replies, n - 1);
    }
    if PollMounts(rest) {
      var n: nat :| FindsDevice(rest, n) && LookMounts(rest[n + 1..]);
      FoundLater(replies, n);
    }
  }

  lemma FoundLater(replies: seq<Reply>, n: nat)
    requires replies != [] && replies[0] != Ok(true)
    ensures FindsDevice(replies[1..], n) <==> FindsDevice(replies, n + 1)
    ensures n + 2 <= |replies| ==> replies[1..][n + 1..] == replies[n + 2..]
  {
    var rest := replies[1..];
    assert forall i :: 0 <= i < |rest| ==> rest[i] == replies[i + 1];
    assert forall i :: 0 < i < |replies| ==> replies[i] == rest[i - 1];
  }

  lemma {:induction false} PollRun(hasDpu: bool, volumeId: string, s: Target, replies: seq<Reply>)
    ensures var (s', t') := RunTask(hasDpu, volumeId, s, FindDevice, replies);
            && s' == s.(mounted := s.mounted || PollMounts(replies))
            && (t' == Done(true) <==> PollSucceeds(replies))
    decreases |replies|
  {
    if replies != [] {
      hide LookSucceeds, LookMounts, PollSucceeds, PollMounts;
      OneCall(hasDpu, volumeId, s, FindDevice, replies);
      if replies[0] == Ok(true) {
        PollFound(replies);
        LookRun(hasDpu, volumeId, s, replies[1..]);
      } else {
        PollSucceedsLater(replies);
        PollMountsLater(replies);
        PollRun(hasDpu, volumeId, s, replies[1..]);
      }
    }
  }

  /** Main result: a publish succeeds exactly on the answers that say so, and leaves exactly these layers. */
  lemma PublishOnScript(hasDpu: bool, volumeId: string, targetPath: string, hasCapability: bool, s: Target,
                        replies: seq<Reply>)
    ensures var run := RunTask(hasDpu, volumeId, s, PublishTask(volumeId, targetPath, hasCapability), replies);
            && run.0 == PublishLeaves(hasDpu, volumeId, targetPath, hasCapability, s, replies)
            && (run.1 == Done(true) <==> PublishSucceeds(hasDpu, volumeId, targetPath, hasCapability, replies))
  {
    hide PollSucceeds, PollMounts;
    if IsPublish(volumeId, targetPath, hasCapability) && replies != [] {
      OneCall(hasDpu, volumeId, s, CsiPublish, replies);
      var s1 := s.(csiUp := true, lastCsi := Published);
      if replies[0].Ok? && hasDpu && Uuid.FindUuid(volumeId).Some? && |replies| > 1 {
        OneCall(hasDpu, volumeId, s1, DpuPublish, replies[1..]);
        assert replies[1..][1..] == replies[2..];
        PollRun(hasDpu, volumeId, s1.(dpuUp := true, lastDpu := Published), replies[2..]);
      } else if replies[0].Ok? && !hasDpu {
        PollRun(hasDpu, volumeId, s1, replies[1..]);
      }
    }
  }

  /* Unpublish. */

  /** The look has to find a mount point, and every call after it has to succeed. */
  predicate UnpublishSucceeds(hasDpu: bool, volumeId: string, targetPath: string, replies: seq<Reply>) {
    && volumeId != "" && targetPath != ""
    && |replies| > 2 && replies[0] == Ok(false) && replies[1].Ok? && replies[2].Ok?
    && (hasDpu ==> Uuid.FindUuid(volumeId).Some? && |replies| > 3 && replies[3].Ok?)
  }

  /** What an unpublish leaves of the target, layer by layer. */
  function UnpublishLeaves(hasDpu: bool, volumeId: string, targetPath: string, s: Target, replies: seq<Reply>): Target {
    var cleanup := volumeId != "" && targetPath != "" && |replies| > 1 && replies[0] == Ok(false);
    var dpu := hasDpu && Uuid.FindUuid(volumeId).Some? && cleanup && replies[1].Ok? && |replies| > 2;
    var csi := if hasDpu then dpu && replies[2].Ok? && |replies| > 3 else cleanup && replies[1].Ok? && |replies| > 2;
    var last := if hasDpu then 3 else 2;
    Target(s.mounted && !(cleanup && TakesEffect(replies[1])),
           s.dpuUp && !(dpu && TakesEffect(replies[2])),
           s.csiUp && !(csi && TakesEffect(replies[last])),
           if dpu && replies[2].Ok? then Unpublished else s.lastDpu,
           if csi && replies[last].Ok? then Unpublished else s.lastCsi)
  }

  /** Main result: the same for unpublish. */
  lemma UnpublishOnScript(hasDpu: bool, volumeId: string, targetPath: string, s: Target, replies: seq<Reply>)
    ensures var run := RunTask(hasDpu, volumeId, s, UnpublishTask(volumeId, targetPath), replies);
            && run.0 == UnpublishLeaves(hasDpu, volumeId, targetPath, s, replies)
            && (run.1 == Done(true) <==> UnpublishSucceeds(hasDpu, volumeId, targetPath, replies))
  {
    if volumeId != "" && targetPath != "" && replies != [] {
      OneCall(hasDpu, volumeId, s, CheckMounted, replies);
      if replies[0] == Ok(false) && |replies| > 1 {
        OneCall(hasDpu, volumeId, s, Cleanup, replies[1..]);
        assert replies[1..][1..] == replies[2..];
        if replies[1].Ok? {
          TakeDownOnScript(hasDpu, volumeId, s.(mounted := false), replies[2..]);
        }
      }
    }
  }

  lemma TakeDownOnScript(hasDpu: bool, volumeId: string, s: Target, replies: seq<Reply>)
    ensures var (s', t') := RunTask(hasDpu, volumeId, s, AfterCleanup(hasDpu, volumeId), replies);
            var dpu := hasDpu && Uuid.FindUuid(volumeId).Some? && |replies| > 0;
            var csi := if hasDpu then dpu && replies[0].Ok? && |replies| > 1 else |replies| > 0;
            var last := if hasDpu then 1 else 0;
            && s' == Target(s.mounted, s.dpuUp && !(dpu && TakesEffect(replies[0])),
                            s.csiUp && !(csi && TakesEffect(replies[last])),
                            if dpu && replies[0].Ok? then Unpublished else s.lastDpu,
                            if csi && replies[last].Ok? then Unpublished else s.lastCsi)
            && (t' == Done(true) <==> csi && replies[last].Ok?)
  {
    if !hasDpu {
      LastUnpublish(hasDpu, volumeId, s, replies);
    } else if replies != [] && Uuid.FindUuid(volumeId).Some? {
      OneCall(hasDpu, volumeId, s, DpuUnpublish, replies);
      LastUnpublish(hasDpu, volumeId, s.(dpuUp := false, lastDpu := Unpublished), replies[1..]);
    }
  }

  lemma LastUnpublish(hasDpu: bool, volumeId: string, s: Target, replies: seq<Reply>)
    ensures RunTask(hasDpu, volumeId, s, CsiUnpublish, replies) ==
            if replies == [] then (s, CsiUnpublish)
            else if replies[0].Ok? then (s.(csiUp := false, lastCsi := Unpublished), Done(true))
            else (s.(csiUp := s.csiUp && !replies[0].applied), Done(false))
  {
    if replies != [] {
      OneCall(hasDpu, volumeId, s, CsiUnpublish, replies);
    }
  }
}
