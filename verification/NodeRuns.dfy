/** Runs of the node proxy: an overlap that loses a layer, and an unpublish that fails half-way and cannot be repeated. */
module NodeRuns {
  import opened Wrappers
  import opened NodeLayers
  import opened NodeOverlap
  import opened NodeScripts
  import Uuid

  /** Requests for it get past the checks of their arguments. */
  predicate IsServed(hasDpu: bool, k: Key) {
    k.volumeId != "" && k.targetPath != "" && (hasDpu ==> Uuid.FindUuid(k.volumeId).Some?)
  }

  /** The looks at the target report what is so: whether it is not a mount point. */
  predicate IsTruthful(s: Target, t: Task, reply: Reply) {
    (t.CheckTarget? || t.CheckMounted?) && reply.Ok? ==> (reply.yes <==> !s.mounted)
  }

  predicate CallIsTruthful(y: Pool, e: Event) {
    e.Call? && e.id in y.open ==> IsTruthful(TargetOf(y.targets, y.open[e.id].key), y.open[e.id].task, e.reply)
  }

  ghost predicate Truthful(hasDpu: bool, es: seq<Event>) {
    forall n :: 0 <= n < |es| ==> CallIsTruthful(After(hasDpu, es[..n]), es[n])
  }

  /* One request by itself. */

  lemma OneMore(hasDpu: bool, es: seq<Event>, e: Event)
    ensures After(hasDpu, es + [e]) == Apply(hasDpu, After(hasDpu, es), e)
    ensures Truthful(hasDpu, es) && CallIsTruthful(After(hasDpu, es), e) ==> Truthful(hasDpu, es + [e])
  {
    assert (es + [e])[..|es|] == es;
    forall n | 0 <= n < |es|
      ensures Truthful(hasDpu, es) ==> CallIsTruthful(After(hasDpu, (es + [e])[..n]), (es + [e])[n])
    {
      assert (es + [e])[..n] == es[..n];
    }
  }

  /** The replies of a handler's run are truthful. */
  predicate RepliesTruthful(hasDpu: bool, volumeId: string, s: Target, t: Task, replies: seq<Reply>)
    decreases |replies|
  {
    replies == [] || t.Done? ||
    var (s', t') := Step(hasDpu, volumeId, s, t, replies[0]);
    IsTruthful(s, t, replies[0]) && RepliesTruthful(hasDpu, volumeId, s', t', replies[1..])
  }

  function AfterCalls(hasDpu: bool, targets: map<Key, Target>, open: map<nat, Request>, id: nat, q: Request,
                      replies: seq<Reply>): Pool
  {
    var (s, t) := RunTask(hasDpu, q.key.volumeId, TargetOf(targets, q.key), q.task, replies);
    Pool(targets[q.key := s], SetRequest(open, id, Request(q.key, t)))
  }

  /** Some calls of one request, while the others wait. */
  lemma {:induction false} CallsRun(hasDpu: bool, es: seq<Event>, targets: map<Key, Target>, open: map<nat, Request>,
                                    id: nat, q: Request, replies: seq<Reply>)
    returns (es': seq<Event>)
    requires After(hasDpu, es) == Pool(targets, open[id := q]) && !q.task.Done? && replies != []
    ensures After(hasDpu, es') == AfterCalls(hasDpu, targets, open, id, q, replies)
    ensures Truthful(hasDpu, es) && RepliesTruthful(hasDpu, q.key.volumeId, TargetOf(targets, q.key), q.task, replies) ==>
              Truthful(hasDpu, es')
    decreases |replies|
  {
    hide Step, IsTruthful, Truthful;
    var k, s, e := q.key, TargetOf(targets, q.key), Call(id, replies[0]);
    var (s', t') := Step(hasDpu, k.volumeId, s, q.task, replies[0]);
    OneMore(hasDpu, es, e);
    OneCall(hasDpu, k.volumeId, s, q.task, replies);
    es' := es + [e];
    assert open[id := q] - {id} == open - {id};
    if t'.Done? || replies[1..] == [] {
    } else {
      assert targets[k := s'][k := RunTask(hasDpu, k.volumeId, s, q.task, replies).0] ==
             targets[k := RunTask(hasDpu, k.volumeId, s, q.task, replies).0];
      es' := CallsRun(hasDpu, es', targets[k := s'], open, id, Request(k, t'), replies[1..]);
    }
  }

  /** A publish can stop after any number of its calls, whatever they answer and whatever else is in flight, and then leaves
      exactly what `PublishLeaves` says; and so an unpublish. */
  lemma RequestStops(hasDpu: bool, es: seq<Event>, id: nat, k: Key, hasCapability: bool, replies: seq<Reply>)
    returns (published: seq<Event>, unpublished: seq<Event>)
    requires id !in After(hasDpu, es).open && replies != []
    ensures var y := After(hasDpu, es); var s := TargetOf(y.targets, k);
            && SameTargets(After(hasDpu, published), y, k,
                           PublishLeaves(hasDpu, k.volumeId, k.targetPath, hasCapability, s, replies))
            && SameTargets(After(hasDpu, unpublished), y, k, UnpublishLeaves(hasDpu, k.volumeId, k.targetPath, s, replies))
  {
    hide PublishLeaves, UnpublishLeaves, RunTask, SameTargets;
    var s := TargetOf(After(hasDpu, es).targets, k);
    PublishOnScript(hasDpu, k.volumeId, k.targetPath, hasCapability, s, replies);
    UnpublishOnScript(hasDpu, k.volumeId, k.targetPath, s, replies);
    var t := PublishTask(k.volumeId, k.targetPath, hasCapability);
    OneMore(hasDpu, es, OpenPublish(id, k, hasCapability));
    published := StopsAfter(hasDpu, es, es + [OpenPublish(id, k, hasCapability)], id, k, t, replies);
    OneMore(hasDpu, es, OpenUnpublish(id, k));
    t := UnpublishTask(k.volumeId, k.targetPath);
    unpublished := StopsAfter(hasDpu, es, es + [OpenUnpublish(id, k)], id, k, t, replies);
  }

  /** Only the target of `k` has changed, to `s`, and the same requests are in flight. */
  ghost predicate SameTargets(y': Pool, y: Pool, k: Key, s: Target) {
    y'.open == y.open && TargetOf(y'.targets, k) == s &&
    forall l :: l != k ==> TargetOf(y'.targets, l) == TargetOf(y.targets, l)
  }

  lemma StopsAfter(hasDpu: bool, es: seq<Event>, es1: seq<Event>, id: nat, k: Key, t: Task, replies: seq<Reply>)
    returns (es': seq<Event>)
    requires var y := After(hasDpu, es);
             id !in y.open && After(hasDpu, es1) == Pool(y.targets, SetRequest(y.open, id, Request(k, t)))
    requires replies != []
    ensures var y := After(hasDpu, es);
            var run := RunTask(hasDpu, k.volumeId, TargetOf(y.targets, k), t, replies);
            SameTargets(After(hasDpu, es'), y, k, run.0)
  {
    hide Step, Truthful;
    var y := After(hasDpu, es);
    es' := es1;
    if t.Done? {
      assert y.open - {id} == y.open;
      NoMoreCalls(hasDpu, k.volumeId, TargetOf(y.targets, k), t, replies);
    } else {
      es' := CallsRun(hasDpu, es1, y.targets, y.open, id, Request(k, t), replies);
      OneMore(hasDpu, es', Abandon(id));
      DoneOrNot(y.open, id, Request(k, RunTask(hasDpu, k.volumeId, TargetOf(y.targets, k), t, replies).1));
      es' := es' + [Abandon(id)];
    }
  }

  lemma DoneOrNot(open: map<nat, Request>, id: nat, q: Request)
    requires id !in open
    ensures SetRequest(open, id, q) - {id} == open
  {
  }

  function Up(hasDpu: bool, s: Target): Target {
    var s' := s.(mounted := true, csiUp := true, lastCsi := Published);
    if hasDpu then s'.(dpuUp := true, lastDpu := Published) else s'
  }

  function Down(hasDpu: bool, s: Target): Target {
    var s' := s.(mounted := false, csiUp := false, lastCsi := Unpublished);
    if hasDpu then s'.(dpuUp := false, lastDpu := Unpublished) else s'
  }

  const YES := Ok(true)

  /** The replies of a publish that goes through at once, and of the second part of such an unpublish. */
  function PublishReplies(hasDpu: bool): seq<Reply> {
    if hasDpu then [YES, YES, YES, YES, YES] else [YES, YES, YES, YES]
  }

  function TakeDownReplies(hasDpu: bool): seq<Reply> {
    if hasDpu then [YES, YES] else [YES]
  }

  lemma PublishReplied(hasDpu: bool, volumeId: string, s: Target)
    requires !s.mounted && (hasDpu ==> Uuid.FindUuid(volumeId).Some?)
    ensures RunTask(hasDpu, volumeId, s, CsiPublish, PublishReplies(hasDpu)) == (Up(hasDpu, s), Done(true))
    ensures RepliesTruthful(hasDpu, volumeId, s, CsiPublish, PublishReplies(hasDpu))
  {
    var s1 := s.(csiUp := true, lastCsi := Published);
    var rest := [YES, YES, YES];
    if hasDpu {
      OneCall(hasDpu, volumeId, s, CsiPublish, [YES, YES] + rest);
      OneCall(hasDpu, volumeId, s1, DpuPublish, [YES] + rest);
      DeviceReplied(hasDpu, volumeId, s1.(dpuUp := true, lastDpu := Published));
      assert RepliesTruthful(hasDpu, volumeId, s1, DpuPublish, [YES] + rest);
    } else {
      OneCall(hasDpu, volumeId, s, CsiPublish, [YES] + rest);
      DeviceReplied(hasDpu, volumeId, s1);
    }
  }

  lemma DeviceReplied(hasDpu: bool, volumeId: string, s: Target)
    requires !s.mounted
    ensures RunTask(hasDpu, volumeId, s, FindDevice, [YES, YES, YES]) == (s.(mounted := true), Done(true))
    ensures RepliesTruthful(hasDpu, volumeId, s, FindDevice, [YES, YES, YES])
  {
    OneCall(hasDpu, volumeId, s, FindDevice, [YES, YES, YES]);
    OneCall(hasDpu, volumeId, s, CheckTarget, [YES, YES]);
    assert RepliesTruthful(hasDpu, volumeId, s, CheckTarget, [YES, YES]);
  }

  lemma CleanupReplied(hasDpu: bool, volumeId: string, s: Target)
    requires s.mounted
    ensures RunTask(hasDpu, volumeId, s, CheckMounted, [Ok(false), YES]) ==
            (s.(mounted := false), AfterCleanup(hasDpu, volumeId))
    ensures RepliesTruthful(hasDpu, volumeId, s, CheckMounted, [Ok(false), YES])
  {
    OneCall(hasDpu, volumeId, s, CheckMounted, [Ok(false), YES]);
    OneCall(hasDpu, volumeId, s, Cleanup, [YES]);
  }

  lemma TakeDownReplied(hasDpu: bool, volumeId: string, s: Target)
    requires hasDpu ==> Uuid.FindUuid(volumeId).Some?
    ensures var run := RunTask(hasDpu, volumeId, s, AfterCleanup(hasDpu, volumeId), TakeDownReplies(hasDpu));
            run == (Down(hasDpu, s).(mounted := s.mounted), Done(true))
    ensures RepliesTruthful(hasDpu, volumeId, s, AfterCleanup(hasDpu, volumeId), TakeDownReplies(hasDpu))
  {
    if hasDpu {
      OneCall(hasDpu, volumeId, s, DpuUnpublish, [YES, YES]);
      OneCall(hasDpu, volumeId, s.(dpuUp := false, lastDpu := Unpublished), CsiUnpublish, [YES]);
    } else {
      OneCall(hasDpu, volumeId, s, CsiUnpublish, [YES]);
    }
  }

  /** A publish that goes through at once. */
  lemma PublishRun(hasDpu: bool, es: seq<Event>, y: Pool, id: nat, k: Key) returns (es': seq<Event>)
    requires After(hasDpu, es) == y && id !in y.open && IsServed(hasDpu, k) && !TargetOf(y.targets, k).mounted
    ensures After(hasDpu, es') == y.(targets := y.targets[k := Up(hasDpu, TargetOf(y.targets, k))])
    ensures Truthful(hasDpu, es) ==> Truthful(hasDpu, es')
  {
    hide RunTask, RepliesTruthful, Step, Truthful, Up;
    OneMore(hasDpu, es, OpenPublish(id, k, true));
    PublishReplied(hasDpu, k.volumeId, TargetOf(y.targets, k));
    es' := CallsRun(hasDpu, es + [OpenPublish(id, k, true)], y.targets, y.open, id, Request(k, CsiPublish),
                    PublishReplies(hasDpu));
    assert y.open - {id} == y.open;
  }

  /** An unpublish up to the cleanup of the mount point. */
  lemma CleanupRun(hasDpu: bool, es: seq<Event>, y: Pool, id: nat, k: Key) returns (es': seq<Event>)
    requires After(hasDpu, es) == y && id !in y.open && IsServed(hasDpu, k) && TargetOf(y.targets, k).mounted
    ensures After(hasDpu, es') == Pool(y.targets[k := TargetOf(y.targets, k).(mounted := false)],
                                       y.open[id := Request(k, AfterCleanup(hasDpu, k.volumeId))])
    ensures Truthful(hasDpu, es) ==> Truthful(hasDpu, es')
  {
    hide RunTask, RepliesTruthful, Step, Truthful;
    OneMore(hasDpu, es, OpenUnpublish(id, k));
    CleanupReplied(hasDpu, k.volumeId, TargetOf(y.targets, k));
    es' := CallsRun(hasDpu, es + [OpenUnpublish(id, k)], y.targets, y.open, id, Request(k, CheckMounted), [Ok(false), YES]);
  }

  /** The rest of it. */
  lemma TakeDownRun(hasDpu: bool, es: seq<Event>, targets: map<Key, Target>, open: map<nat, Request>, id: nat, k: Key)
    returns (es': seq<Event>)
    requires After(hasDpu, es) == Pool(targets, open[id := Request(k, AfterCleanup(hasDpu, k.volumeId))])
    requires id !in open && IsServed(hasDpu, k)
    ensures var s := TargetOf(targets, k);
            After(hasDpu, es') == Pool(targets[k := Down(hasDpu, s).(mounted := s.mounted)], open)
    ensures Truthful(hasDpu, es) ==> Truthful(hasDpu, es')
  {
    hide RunTask, RepliesTruthful, Step, Truthful, Down;
    TakeDownReplied(hasDpu, k.volumeId, TargetOf(targets, k));
    es' := CallsRun(hasDpu, es, targets, open, id, Request(k, AfterCleanup(hasDpu, k.volumeId)), TakeDownReplies(hasDpu));
    assert open - {id} == open;
  }

  /* Why overlaps have to be kept apart. */

  /** For every volume and target that is served there is a run in which a publish overlaps an unpublish, every call
      succeeds and every look at the target is truthful, which ends with a mount and no layer below it: the publish
      comes between the cleanup of the mount point and the rest of the unpublish. */
  lemma OverlapBreaksLayers(hasDpu: bool, k: Key) returns (es: seq<Event>)
    requires IsServed(hasDpu, k)
    ensures var y := After(hasDpu, es); var s := TargetOf(y.targets, k);
            && Truthful(hasDpu, es) && y.open == map[]
            && s.mounted && !s.csiUp && !s.dpuUp && !Layered(hasDpu, s)
  {
    es := PublishRun(hasDpu, [], Pool(map[], map[]), 0, k);
    es := CleanupRun(hasDpu, es, After(hasDpu, es), 1, k);
    es := PublishRun(hasDpu, es, After(hasDpu, es), 2, k);
    es := TakeDownRun(hasDpu, es, After(hasDpu, es).targets, map[], 1, k);
  }

  /* An unpublish that fails after its cleanup cannot be repeated. */

  /** Nothing is mounted at the target, and only unpublish requests for it are in flight, all at their first look. */
  ghost predicate IsStuck(y: Pool, k: Key) {
    !TargetOf(y.targets, k).mounted && forall i :: i in y.open && y.open[i].key == k ==> y.open[i].task.CheckMounted?
  }

  /** The next call of each request for the target ends it with an error and changes nothing. */
  ghost predicate Refuses(hasDpu: bool, y: Pool, k: Key) {
    var s := TargetOf(y.targets, k);
    forall i, reply :: i in y.open && y.open[i].key == k && IsTruthful(s, y.open[i].task, reply) ==>
                         Step(hasDpu, k.volumeId, s, y.open[i].task, reply) == (s, Done(false))
  }

  lemma ApplyKeepsStuck(hasDpu: bool, y: Pool, e: Event, k: Key)
    requires IsStuck(y, k) && NoPublishOf([e], k) && CallIsTruthful(y, e)
    ensures IsStuck(Apply(hasDpu, y, e), k)
    ensures TargetOf(Apply(hasDpu, y, e).targets, k) == TargetOf(y.targets, k)
  {
    assert e == [e][0];
  }

  /** Main result: once nothing is mounted, unpublish is refused every time, and the layers below stay as they are, through
      every run in which the looks at the target are truthful and no publish begins. */
  lemma {:induction false} StuckUntilPublish(hasDpu: bool, es: seq<Event>, more: seq<Event>, k: Key)
    requires IsStuck(After(hasDpu, es), k) && NoPublishOf(more, k) && Truthful(hasDpu, es + more)
    ensures IsStuck(After(hasDpu, es + more), k)
    ensures TargetOf(After(hasDpu, es + more).targets, k) == TargetOf(After(hasDpu, es).targets, k)
    ensures Refuses(hasDpu, After(hasDpu, es + more), k)
    decreases |more|
  {
    hide Truthful, IsTruthful, CallIsTruthful, Apply, IsStuck, Refuses;
    if more == [] {
      assert es + more == es;
    } else {
      var before, e := more[..|more| - 1], more[|more| - 1];
      assert es + more == (es + before) + [e];
      TruthfulLast(hasDpu, es + before, e);
      StuckUntilPublish(hasDpu, es, before, k);
      OneMore(hasDpu, es + before, e);
      ApplyKeepsStuck(hasDpu, After(hasDpu, es + before), e, k);
    }
    StuckRefuses(hasDpu, After(hasDpu, es + more), k);
  }

  lemma StuckRefuses(hasDpu: bool, y: Pool, k: Key)
    requires IsStuck(y, k)
    ensures Refuses(hasDpu, y, k)
  {
  }

  lemma TruthfulLast(hasDpu: bool, es: seq<Event>, e: Event)
    requires Truthful(hasDpu, es + [e])
    ensures Truthful(hasDpu, es) && CallIsTruthful(After(hasDpu, es), e)
  {
    var es' := es + [e];
    assert es'[..|es|] == es && es'[|es|] == e;
    forall n | 0 <= n < |es| ensures CallIsTruthful(After(hasDpu, es[..n]), es[n]) {
      assert es'[..n] == es[..n] && es'[n] == es[n];
    }
  }

  /** A run gets there, with the layers below still up: the first call after the cleanup fails. */
  lemma UnpublishGetsStuck(hasDpu: bool, k: Key) returns (es: seq<Event>)
    requires IsServed(hasDpu, k)
    ensures var y := After(hasDpu, es); var s := TargetOf(y.targets, k);
            Truthful(hasDpu, es) && y.open == map[] && IsStuck(y, k) && s.csiUp && (hasDpu ==> s.dpuUp)
  {
    es := PublishRun(hasDpu, [], Pool(map[], map[]), 0, k);
    es := CleanupRun(hasDpu, es, After(hasDpu, es), 1, k);
    es := ErrorRun(hasDpu, es, After(hasDpu, es).targets, 1, k);
  }

  lemma ErrorRun(hasDpu: bool, es: seq<Event>, targets: map<Key, Target>, id: nat, k: Key) returns (es': seq<Event>)
    requires After(hasDpu, es) == Pool(targets, map[id := Request(k, AfterCleanup(hasDpu, k.volumeId))])
    requires IsServed(hasDpu, k)
    ensures After(hasDpu, es') == Pool(targets[k := TargetOf(targets, k)], map[])
    ensures Truthful(hasDpu, es) ==> Truthful(hasDpu, es')
  {
    hide Truthful;
    var q, replies := Request(k, AfterCleanup(hasDpu, k.volumeId)), [Error(false, false)];
    OneCall(hasDpu, k.volumeId, TargetOf(targets, k), q.task, replies);
    assert map[][id := q] == map[id := q];
    es' := CallsRun(hasDpu, es, targets, map[], id, q, replies);
  }

  /** A publish and an unpublish that go through take all layers down after all. */
  lemma PublishRecovers(hasDpu: bool, es: seq<Event>, k: Key) returns (es': seq<Event>)
    requires After(hasDpu, es).open == map[] && IsServed(hasDpu, k) && !TargetOf(After(hasDpu, es).targets, k).mounted
    ensures var targets := After(hasDpu, es).targets;
            After(hasDpu, es') == Pool(targets[k := Down(hasDpu, TargetOf(targets, k))], map[])
    ensures Truthful(hasDpu, es) ==> Truthful(hasDpu, es')
  {
    hide Truthful;
    var y := After(hasDpu, es);
    es' := PublishRun(hasDpu, es, y, 0, k);
    es' := CleanupRun(hasDpu, es', After(hasDpu, es'), 1, k);
    var targets := After(hasDpu, es').targets;
    es' := TakeDownRun(hasDpu, es', targets, map[], 1, k);
    assert After(hasDpu, es').targets == y.targets[k := Down(hasDpu, TargetOf(y.targets, k))];
  }
}
