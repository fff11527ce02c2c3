/** Requests to the node proxy with any overlap, on one volume and target too: when exactly the layers are kept, and what
    callers can do to keep them. */
module NodeOverlap {
  import opened NodeLayers

  /** One request: the volume and target it names and what its handler does next. */
  datatype Request = Request(key: Key, task: Task)

  datatype Pool = Pool(targets: map<Key, Target>, open: map<nat, Request>)

  datatype Event =
    | OpenPublish(id: nat, key: Key, hasCapability: bool)
    | OpenUnpublish(id: nat, key: Key)
    | Call(id: nat, reply: Reply)
    | Abandon(id: nat)

  function SetRequest(open: map<nat, Request>, id: nat, q: Request): map<nat, Request> {
    if q.task.Done? then open - {id} else open[id := q]
  }

  function Apply(hasDpu: bool, y: Pool, e: Event): Pool {
    match e
    case OpenPublish(id, k, hasCapability) =>
      if id in y.open then y
      else y.(open := SetRequest(y.open, id, Request(k, PublishTask(k.volumeId, k.targetPath, hasCapability))))
    case OpenUnpublish(id, k) =>
      if id in y.open then y
      else y.(open := SetRequest(y.open, id, Request(k, UnpublishTask(k.volumeId, k.targetPath))))
    case Call(id, reply) =>
      if id !in y.open then y
      else
        var q := y.open[id];
        var (s', t') := Step(hasDpu, q.key.volumeId, TargetOf(y.targets, q.key), q.task, reply);
        Pool(y.targets[q.key := s'], SetRequest(y.open, id, Request(q.key, t')))
    case Abandon(id) => y.(open := y.open - {id})
  }

  function After(hasDpu: bool, es: seq<Event>): Pool {
    if es == [] then Pool(map[], map[]) else Apply(hasDpu, After(hasDpu, es[..|es| - 1]), es[|es| - 1])
  }

  lemma AfterPrefix(hasDpu: bool, es: seq<Event>, k: nat)
    requires k < |es|
    ensures After(hasDpu, es[..k + 1]) == Apply(hasDpu, After(hasDpu, es[..k]), es[k])
  {
    assert es[..k + 1][..k] == es[..k];
  }

  /* When exactly the layers are kept. */

  ghost predicate AllLayered(hasDpu: bool, y: Pool) {
    forall k :: Layered(hasDpu, TargetOf(y.targets, k))
  }

  ghost predicate LayeredThroughout(hasDpu: bool, es: seq<Event>) {
    forall n :: 0 <= n <= |es| ==> AllLayered(hasDpu, After(hasDpu, es[..n]))
  }

  /** What four of the calls have to find if they take effect; the other calls are harmless. */
  predicate IsGuarded(hasDpu: bool, s: Target, t: Task, reply: Reply) {
    TakesEffect(reply) ==>
      match t
      case DpuPublish => s.csiUp && s.lastCsi == Published
      case Mount(_) => s.csiUp && s.lastCsi == Published && (hasDpu ==> s.dpuUp && s.lastDpu == Published)
      case DpuUnpublish => hasDpu ==> !s.mounted
      case CsiUnpublish => !s.mounted && !s.dpuUp && (reply.Ok? ==> s.lastDpu != Published)
      case _ => true
  }

  predicate CallIsGuarded(hasDpu: bool, y: Pool, e: Event) {
    e.Call? && e.id in y.open ==>
      IsGuarded(hasDpu, TargetOf(y.targets, y.open[e.id].key), y.open[e.id].task, e.reply)
  }

  ghost predicate CallsAreGuarded(hasDpu: bool, es: seq<Event>) {
    forall n :: 0 <= n < |es| ==> CallIsGuarded(hasDpu, After(hasDpu, es[..n]), es[n])
  }

  lemma StepGuardedExactly(hasDpu: bool, volumeId: string, s: Target, t: Task, reply: Reply)
    requires Layered(hasDpu, s)
    ensures Layered(hasDpu, Step(hasDpu, volumeId, s, t, reply).0) <==> IsGuarded(hasDpu, s, t, reply)
  {
  }

  lemma CallGuardedExactly(hasDpu: bool, y: Pool, e: Event)
    requires AllLayered(hasDpu, y)
    ensures AllLayered(hasDpu, Apply(hasDpu, y, e)) <==> CallIsGuarded(hasDpu, y, e)
  {
    var y' := Apply(hasDpu, y, e);
    if e.Call? && e.id in y.open {
      var q := y.open[e.id];
      assert Layered(hasDpu, TargetOf(y.targets, q.key));
      StepGuardedExactly(hasDpu, q.key.volumeId, TargetOf(y.targets, q.key), q.task, e.reply);
      hide Step, Layered, IsGuarded;
      forall k | k != q.key ensures Layered(hasDpu, TargetOf(y'.targets, k)) {
        assert TargetOf(y'.targets, k) == TargetOf(y.targets, k);
      }
      assert AllLayered(hasDpu, y') <==> Layered(hasDpu, TargetOf(y'.targets, q.key));
    } else {
      assert y'.targets == y.targets;
    }
  }

  lemma {:induction false} GuardedRunIsLayered(hasDpu: bool, es: seq<Event>, n: nat)
    requires n <= |es| && CallsAreGuarded(hasDpu, es)
    ensures AllLayered(hasDpu, After(hasDpu, es[..n]))
  {
    if n > 0 {
      GuardedRunIsLayered(hasDpu, es, n - 1);
      AfterPrefix(hasDpu, es, n - 1);
      CallGuardedExactly(hasDpu, After(hasDpu, es[..n - 1]), es[n - 1]);
    }
  }

  /** Main result: whatever requests overlap, and whether failed calls take effect or not, each layer stands on the one
      below throughout a run exactly when each of the four calls finds what it has to. */
  lemma LayeredExactly(hasDpu: bool, es: seq<Event>)
    ensures LayeredThroughout(hasDpu, es) <==> CallsAreGuarded(hasDpu, es)
  {
    if CallsAreGuarded(hasDpu, es) {
      forall n | 0 <= n <= |es| ensures AllLayered(hasDpu, After(hasDpu, es[..n])) {
        GuardedRunIsLayered(hasDpu, es, n);
      }
    }
    if LayeredThroughout(hasDpu, es) {
      forall n | 0 <= n < |es| ensures CallIsGuarded(hasDpu, After(hasDpu, es[..n]), es[n]) {
        AfterPrefix(hasDpu, es, n);
        CallGuardedExactly(hasDpu, After(hasDpu, es[..n]), es[n]);
      }
    }
  }

  /* A condition that callers can keep. */

  /** No publish and unpublish of one volume and target are in flight together. Publishes may overlap publishes, and
      unpublishes may overlap unpublishes. */
  ghost predicate NoMixedOverlap(y: Pool) {
    forall i, j :: i in y.open && j in y.open && y.open[i].key == y.open[j].key ==>
                     !(IsPublishing(y.open[i].task) && IsUnpublishing(y.open[j].task))
  }

  ghost predicate NeverMixed(hasDpu: bool, es: seq<Event>) {
    forall n :: 0 <= n <= |es| ==> NoMixedOverlap(After(hasDpu, es[..n]))
  }

  ghost predicate Inv(hasDpu: bool, y: Pool) {
    && (forall k :: Local(hasDpu, TargetOf(y.targets, k), Done(true)))
    && (forall i :: i in y.open ==> Local(hasDpu, TargetOf(y.targets, y.open[i].key), y.open[i].task))
  }

  /** A call leaves alone what another request of the same kind relies on. */
  lemma StepKeepsOther(hasDpu: bool, volumeId: string, s: Target, t: Task, reply: Reply, t': Task)
    requires Local(hasDpu, s, t) && Local(hasDpu, s, t')
    requires !(IsPublishing(t) && IsUnpublishing(t')) && !(IsUnpublishing(t) && IsPublishing(t'))
    ensures Local(hasDpu, Step(hasDpu, volumeId, s, t, reply).0, t')
  {
    StepKeepsLocal(hasDpu, volumeId, s, t, reply);
  }

  lemma CallKeepsInv(hasDpu: bool, y: Pool, i: nat, reply: Reply)
    requires Inv(hasDpu, y) && NoMixedOverlap(y) && i in y.open
    ensures Inv(hasDpu, Apply(hasDpu, y, Call(i, reply)))
  {
    var q := y.open[i];
    var s := TargetOf(y.targets, q.key);
    var (s', t') := Step(hasDpu, q.key.volumeId, s, q.task, reply);
    StepKeepsLocal(hasDpu, q.key.volumeId, s, q.task, reply);
    assert Local(hasDpu, s', Done(true));
    forall j | j in y.open && j != i && y.open[j].key == q.key ensures Local(hasDpu, s', y.open[j].task) {
      StepKeepsOther(hasDpu, q.key.volumeId, s, q.task, reply, y.open[j].task);
    }
    hide Step, Local;
    SetKeepsInv(hasDpu, y, i, s', t');
  }

  lemma SetKeepsInv(hasDpu: bool, y: Pool, i: nat, s: Target, t: Task)
    requires Inv(hasDpu, y) && i in y.open && Local(hasDpu, s, t) && Local(hasDpu, s, Done(true))
    requires forall j :: j in y.open && j != i && y.open[j].key == y.open[i].key ==> Local(hasDpu, s, y.open[j].task)
    ensures var k := y.open[i].key; Inv(hasDpu, Pool(y.targets[k := s], SetRequest(y.open, i, Request(k, t))))
  {
    hide Local;
    var k := y.open[i].key;
    var targets := y.targets[k := s];
    assert forall l :: l != k ==> TargetOf(targets, l) == TargetOf(y.targets, l);
  }

  lemma ApplyKeepsInv(hasDpu: bool, y: Pool, e: Event)
    requires Inv(hasDpu, y) && NoMixedOverlap(y)
    ensures Inv(hasDpu, Apply(hasDpu, y, e))
  {
    if e.Call? && e.id in y.open {
      CallKeepsInv(hasDpu, y, e.id, e.reply);
    } else {
      BeginKeepsInv(hasDpu, y, e);
    }
  }

  lemma BeginKeepsInv(hasDpu: bool, y: Pool, e: Event)
    requires Inv(hasDpu, y) && !(e.Call? && e.id in y.open)
    ensures Inv(hasDpu, Apply(hasDpu, y, e))
  {
    assert Apply(hasDpu, y, e).targets == y.targets;
    if e.OpenPublish? || e.OpenUnpublish? {
      assert Local(hasDpu, TargetOf(y.targets, e.key), Done(true));
    }
  }

  lemma {:induction false} NeverMixedKeepsInv(hasDpu: bool, es: seq<Event>, n: nat)
    requires n <= |es| && NeverMixed(hasDpu, es)
    ensures Inv(hasDpu, After(hasDpu, es[..n]))
  {
    if n > 0 {
      NeverMixedKeepsInv(hasDpu, es, n - 1);
      AfterPrefix(hasDpu, es, n - 1);
      ApplyKeepsInv(hasDpu, After(hasDpu, es[..n - 1]), es[n - 1]);
    }
  }

  /** Main result: as long as no publish and unpublish of one volume and target overlap, each layer stands on the one below
      throughout, with any other overlap of requests, any call failing with or without effect, and handlers stopping for
      good: a mount stands on a DPU publish, if there is a DPU client, and that on a CSI publish. */
  lemma NeverMixedIsLayered(hasDpu: bool, es: seq<Event>)
    requires NeverMixed(hasDpu, es)
    ensures LayeredThroughout(hasDpu, es)
  {
    forall n | 0 <= n <= |es| ensures AllLayered(hasDpu, After(hasDpu, es[..n])) {
      NeverMixedKeepsInv(hasDpu, es, n);
    }
  }

  /* Nothing is up that nobody asked for. */

  predicate NoPublishOf(es: seq<Event>, k: Key) {
    forall n :: 0 <= n < |es| && es[n].OpenPublish? ==> es[n].key != k
  }

  predicate IsDown(s: Target) { !s.mounted && !s.dpuUp && !s.csiUp }

  lemma StepRaisesNothing(hasDpu: bool, volumeId: string, s: Target, t: Task, reply: Reply)
    requires IsDown(s) && !IsPublishing(t)
    ensures var (s', t') := Step(hasDpu, volumeId, s, t, reply); IsDown(s') && !IsPublishing(t')
  {
  }

  ghost predicate Untouched(y: Pool, k: Key) {
    && IsDown(TargetOf(y.targets, k))
    && forall i :: i in y.open && y.open[i].key == k ==> !IsPublishing(y.open[i].task)
  }

  lemma ApplyKeepsUntouched(hasDpu: bool, y: Pool, e: Event, k: Key)
    requires Untouched(y, k) && (e.OpenPublish? ==> e.key != k)
    ensures Untouched(Apply(hasDpu, y, e), k)
  {
    assert e.OpenUnpublish? ==> !IsPublishing(UnpublishTask(e.key.volumeId, e.key.targetPath));
    hide Step, IsDown, IsPublishing, UnpublishTask, PublishTask;
    if e.Call? && e.id in y.open && y.open[e.id].key == k {
      StepRaisesNothing(hasDpu, k.volumeId, TargetOf(y.targets, k), y.open[e.id].task, e.reply);
    }
  }

  /** However requests overlap, no layer of a volume and target is up unless a publish of it began. */
  lemma {:induction false} NothingUpUnasked(hasDpu: bool, es: seq<Event>, k: Key)
    requires NoPublishOf(es, k)
    ensures Untouched(After(hasDpu, es), k)
  {
    if es != [] {
      hide Apply, Untouched, IsDown, IsPublishing;
      var n := |es| - 1;
      NothingUpUnasked(hasDpu, es[..n], k);
      ApplyKeepsUntouched(hasDpu, After(hasDpu, es[..n]), es[n], k);
    }
  }
}
