/** Requests that overlap on one volume, as the threads of the service let them: which calls put safety at risk, when
    it is kept, and a run in which it is not. */
module ExportOverlap {
  import opened Text
  import opened Ports
  import opened Export
  import opened ExportSafety
  import opened ExportSerial
  import opened ExportRuns

  /** One request of a client: the volume it names and what its handler does next. */
  datatype Request = Request(v: string, task: Task)

  /** Any number of requests in flight, on the same volume too. */
  datatype Pool = Pool(store: Store, open: map<nat, Request>)

  datatype PoolEvent =
    | OpenCreate(id: nat, v: string, capacity: nat)
    | OpenDelete(id: nat, v: string)
    | Call(id: nat, order: seq<string>)
    | Abandon(id: nat)

  function SetRequest(open: map<nat, Request>, id: nat, q: Request): map<nat, Request> {
    if q.task.Done? then open - {id} else open[id := q]
  }

  function ApplyPool(c: Config, y: Pool, e: PoolEvent): Pool {
    match e
    case OpenCreate(id, v, capacity) =>
      if id in y.open then y else y.(open := SetRequest(y.open, id, Request(v, CreateTask(c, capacity))))
    case OpenDelete(id, v) =>
      if id in y.open then y else y.(open := y.open[id := Request(v, ListPorts)])
    case Call(id, order) =>
      if id !in y.open || (y.open[id].task.ListPorts? && !IsListing(order, y.store.ports.Keys)) then y
      else
        var q := y.open[id];
        var (s', t') := Step(c, y.store, q.v, q.task, order);
        Pool(s', SetRequest(y.open, id, Request(q.v, t')))
    case Abandon(id) => y.(open := y.open - {id})
  }

  function AfterPool(c: Config, es: seq<PoolEvent>): Pool {
    if es == [] then Pool(EMPTY_STORE, map[]) else ApplyPool(c, AfterPool(c, es[..|es| - 1]), es[|es| - 1])
  }

  lemma PoolPrefix(c: Config, es: seq<PoolEvent>, k: nat)
    requires k < |es|
    ensures AfterPool(c, es[..k + 1]) == ApplyPool(c, AfterPool(c, es[..k]), es[k])
  {
    assert es[..k + 1][..k] == es[..k];
  }

  /* When exactly safety is kept. */

  /** What four of the calls have to find; the other calls are harmless. */
  predicate IsGuarded(c: Config, s: Store, v: string, t: Task) {
    match t
    case MakeSubsystem => v in s.volumes
    case Link(n) => Decimal(n) in s.ports && v in s.subsystems ==> Exported(c, s, v) && Links(s, v) <= {Decimal(n)}
    case RemoveNamespace => Links(s, v) == {}
    case LvRemove => v !in s.subsystems
    case _ => true
  }

  predicate CallIsGuarded(c: Config, y: Pool, e: PoolEvent) {
    e.Call? && e.id in y.open ==> IsGuarded(c, y.store, y.open[e.id].v, y.open[e.id].task)
  }

  ghost predicate SafeThroughout(c: Config, es: seq<PoolEvent>) {
    forall k :: 0 <= k <= |es| ==> Safe(c, AfterPool(c, es[..k]).store)
  }

  ghost predicate CallsAreGuarded(c: Config, es: seq<PoolEvent>) {
    forall k :: 0 <= k < |es| ==> CallIsGuarded(c, AfterPool(c, es[..k]), es[k])
  }

  /** Safety, volume by volume. */
  predicate SafeFor(c: Config, s: Store, v: string) {
    && (v in s.subsystems ==> v in s.volumes)
    && (Links(s, v) != {} ==> Exported(c, s, v))
    && (forall p, q :: p in Links(s, v) && q in Links(s, v) ==> p == q)
  }

  lemma SafeIsSafeFor(c: Config, s: Store)
    ensures Safe(c, s) <==> forall v :: SafeFor(c, s, v)
  {
    if Safe(c, s) {
      forall v ensures SafeFor(c, s, v) {
        if Links(s, v) != {} {
          var p :| p in Links(s, v);
        }
      }
    }
    if forall v :: SafeFor(c, s, v) {
      forall v | v in s.subsystems ensures v in s.volumes {
        assert SafeFor(c, s, v);
      }
      forall p, v | p in s.ports && v in s.ports[p].links ensures v in s.volumes && Exported(c, s, v) {
        assert SafeFor(c, s, v) && p in Links(s, v);
      }
      forall p, q, v | p in s.ports && q in s.ports && v in s.ports[p].links && v in s.ports[q].links ensures p == q {
        assert SafeFor(c, s, v) && p in Links(s, v) && q in Links(s, v);
      }
    }
  }

  lemma LinkGuardedExactly(c: Config, s: Store, v: string, n: nat)
    requires SafeFor(c, s, v)
    ensures SafeFor(c, CreateStep(c, s, v, Link(n)).0, v) <==> IsGuarded(c, s, v, Link(n))
  {
    if Decimal(n) in s.ports && v in s.subsystems {
      assert Links(CreateStep(c, s, v, Link(n)).0, v) == Links(s, v) + {Decimal(n)};
    }
  }

  lemma CreateGuardedExactly(c: Config, s: Store, v: string, t: Task)
    requires SafeFor(c, s, v)
    ensures SafeFor(c, CreateStep(c, s, v, t).0, v) <==> t.MakeSubsystem? || t.Link? ==> IsGuarded(c, s, v, t)
  {
    if t.Link? {
      LinkGuardedExactly(c, s, v, t.n);
    } else {
      OnlyLinkLinks(c, s, v, t);
      hide Links;
    }
  }

  lemma DeleteGuardedExactly(c: Config, s: Store, v: string, t: Task, order: seq<string>)
    requires SafeFor(c, s, v)
    ensures SafeFor(c, DeleteStep(c, s, v, t, order).0, v) <==> t.RemoveNamespace? || t.LvRemove? ==> IsGuarded(c, s, v, t)
  {
    if t.Unlink? {
      assert Links(DeleteStep(c, s, v, t, order).0, v) <= Links(s, v);
    } else {
      OnlyUnlinkUnlinks(c, s, v, t, order);
    }
  }

  lemma StepGuardedExactly(c: Config, s: Store, v: string, t: Task, order: seq<string>)
    requires Safe(c, s)
    ensures Safe(c, Step(c, s, v, t, order).0) <==> IsGuarded(c, s, v, t)
  {
    var s' := Step(c, s, v, t, order).0;
    SafeIsSafeFor(c, s);
    SafeIsSafeFor(c, s');
    assert SafeFor(c, s, v);
    CreateGuardedExactly(c, s, v, t);
    DeleteGuardedExactly(c, s, v, t, order);
    forall w | w != v ensures SafeFor(c, s', w) {
      assert SafeFor(c, s, w);
      StepFrame(c, s, v, t, order, w);
    }
  }

  lemma {:induction false} GuardedRunIsSafe(c: Config, es: seq<PoolEvent>, k: nat)
    requires k <= |es| && CallsAreGuarded(c, es)
    ensures Safe(c, AfterPool(c, es[..k]).store)
  {
    if k > 0 {
      hide Safe, Step, IsGuarded;
      var y, e := AfterPool(c, es[..k - 1]), es[k - 1];
      GuardedRunIsSafe(c, es, k - 1);
      PoolPrefix(c, es, k - 1);
      if e.Call? && e.id in y.open {
        StepGuardedExactly(c, y.store, y.open[e.id].v, y.open[e.id].task, e.order);
      }
    }
  }

  /** Main result: whatever requests overlap, the store is safe throughout a run exactly when each of the four calls
      finds what it has to. */
  lemma SafeExactly(c: Config, es: seq<PoolEvent>)
    ensures SafeThroughout(c, es) <==> CallsAreGuarded(c, es)
  {
    if CallsAreGuarded(c, es) {
      forall k | 0 <= k <= |es| ensures Safe(c, AfterPool(c, es[..k]).store) {
        GuardedRunIsSafe(c, es, k);
      }
    }
    if SafeThroughout(c, es) {
      forall k | 0 <= k < |es| ensures CallIsGuarded(c, AfterPool(c, es[..k]), es[k]) {
        var y, e := AfterPool(c, es[..k]), es[k];
        PoolPrefix(c, es, k);
        if e.Call? && e.id in y.open {
          StepGuardedExactly(c, y.store, y.open[e.id].v, y.open[e.id].task, e.order);
        }
      }
    }
  }

  /* A condition that clients can keep. */

  /** A create request whose logical volume is made. */
  predicate IsWorking(t: Task) { IsCreating(t) && !t.LvCreate? }

  /** No delete of a volume is in flight while a create request works on it. Creates may overlap creates, and deletes
      may overlap deletes. */
  ghost predicate NoMixedOverlap(y: Pool) {
    forall i, j :: i in y.open && j in y.open && y.open[i].v == y.open[j].v ==>
                     !(IsWorking(y.open[i].task) && IsDeleting(y.open[j].task))
  }

  ghost predicate NeverMixed(c: Config, es: seq<PoolEvent>) {
    forall k :: 0 <= k <= |es| ==> NoMixedOverlap(AfterPool(c, es[..k]))
  }

  /** What is known of a request's volume; another delete may have removed the link that this one is about to remove. */
  predicate Knows(c: Config, s: Store, q: Request) {
    if q.task.Unlink? then forall p :: p in Links(s, q.v) ==> p == q.task.port || p in q.task.todo
    else AtTask(c, s, q.v, q.task)
  }

  ghost predicate PoolInv(c: Config, y: Pool) {
    && (forall v :: Backed(c, y.store, v))
    && (forall i :: i in y.open ==> Knows(c, y.store, y.open[i]))
    && (forall i, j :: i in y.open && j in y.open && y.open[i].v == y.open[j].v ==>
          IsWorking(y.open[i].task) && IsWorking(y.open[j].task) ==> i == j)
  }

  lemma UnlinkKeepsOwn(c: Config, s: Store, q: Request, order: seq<string>)
    requires Backed(c, s, q.v) && Knows(c, s, q) && q.task.Unlink?
    ensures var (s', t') := DeleteStep(c, s, q.v, q.task, order); Backed(c, s', q.v) && Knows(c, s', Request(q.v, t'))
  {
    var s' := DeleteStep(c, s, q.v, q.task, order).0;
    assert Links(s', q.v) <= Links(s, q.v);
  }

  lemma StepKeepsOwn(c: Config, s: Store, q: Request, order: seq<string>)
    requires Backed(c, s, q.v) && Knows(c, s, q)
    requires q.task.ListPorts? ==> IsListing(order, s.ports.Keys)
    ensures var (s', t') := Step(c, s, q.v, q.task, order); Backed(c, s', q.v) && Knows(c, s', Request(q.v, t'))
  {
    if q.task.Unlink? {
      UnlinkKeepsOwn(c, s, q, order);
    } else {
      StepKeepsLocal(c, s, q.v, q.task, order);
    }
  }

  /** A delete takes nothing from what another delete of the volume relies on. */
  lemma DeleteKeepsDelete(c: Config, s: Store, q: Request, r: Request, order: seq<string>)
    requires Knows(c, s, q) && Knows(c, s, r) && q.v == r.v && IsDeleting(q.task) && IsDeleting(r.task)
    ensures Knows(c, DeleteStep(c, s, q.v, q.task, order).0, r)
  {
    var s' := DeleteStep(c, s, q.v, q.task, order).0;
    assert Links(s', q.v) <= Links(s, q.v);
  }

  /** `lvcreate` guards creates against each other: it succeeds only where no create works. */
  lemma LvCreateKeepsOther(c: Config, s: Store, q: Request, r: Request)
    requires Backed(c, s, q.v) && Knows(c, s, r) && q.v == r.v && q.task.LvCreate?
    ensures Knows(c, CreateStep(c, s, q.v, q.task).0, r)
    ensures IsWorking(r.task) ==> CreateStep(c, s, q.v, q.task).1 == Done(false)
  {
    assert Links(CreateStep(c, s, q.v, q.task).0, q.v) == Links(s, q.v);
  }

  lemma FrameKeepsKnows(c: Config, s: Store, s': Store, r: Request)
    requires Knows(c, s, r) && SameFor(s, s', r.v)
    ensures Knows(c, s', r)
  {
  }

  /** What request `i` does keeps what request `j` relies on. */
  lemma CallKeepsOther(c: Config, y: Pool, i: nat, order: seq<string>, j: nat)
    requires PoolInv(c, y) && NoMixedOverlap(y) && i in y.open && j in y.open && i != j
    ensures Knows(c, Step(c, y.store, y.open[i].v, y.open[i].task, order).0, y.open[j])
  {
    var s, q, r := y.store, y.open[i], y.open[j];
    if r.v != q.v {
      StepFrame(c, s, q.v, q.task, order, r.v);
      FrameKeepsKnows(c, s, Step(c, s, q.v, q.task, order).0, r);
    } else if q.task.LvCreate? {
      LvCreateKeepsOther(c, s, q, r);
    } else if IsDeleting(q.task) {
      if IsDeleting(r.task) {
        DeleteKeepsDelete(c, s, q, r, order);
      }
    }
  }

  lemma CallKeepsBacked(c: Config, y: Pool, i: nat, order: seq<string>, w: string)
    requires PoolInv(c, y) && i in y.open
    requires y.open[i].task.ListPorts? ==> IsListing(order, y.store.ports.Keys)
    ensures Backed(c, Step(c, y.store, y.open[i].v, y.open[i].task, order).0, w)
  {
    var q := y.open[i];
    if w == q.v {
      StepKeepsOwn(c, y.store, q, order);
    } else {
      assert Backed(c, y.store, w);
      StepFrame(c, y.store, q.v, q.task, order, w);
    }
  }

  /** A request that works after a call worked before it, or has just made its logical volume. */
  lemma WorksOn(c: Config, s: Store, q: Request, r: Request, order: seq<string>)
    requires Backed(c, s, q.v) && Knows(c, s, r) && q.v == r.v && IsWorking(r.task)
    ensures IsWorking(Step(c, s, q.v, q.task, order).1) ==> IsWorking(q.task)
  {
    if q.task.LvCreate? {
      LvCreateKeepsOther(c, s, q, r);
    }
  }

  lemma CallKeepsPoolInv(c: Config, y: Pool, i: nat, order: seq<string>)
    requires PoolInv(c, y) && NoMixedOverlap(y) && i in y.open
    requires y.open[i].task.ListPorts? ==> IsListing(order, y.store.ports.Keys)
    ensures PoolInv(c, ApplyPool(c, y, Call(i, order)))
  {
    hide Step, Backed, Knows, IsListing, IsWorking, IsDeleting;
    var q := y.open[i];
    var (s', t') := Step(c, y.store, q.v, q.task, order);
    StepKeepsOwn(c, y.store, q, order);
    forall v ensures Backed(c, s', v) {
      CallKeepsBacked(c, y, i, order, v);
    }
    forall j | j in y.open && j != i ensures Knows(c, s', y.open[j]) {
      CallKeepsOther(c, y, i, order, j);
    }
    forall j | j in y.open && j != i && y.open[j].v == q.v && IsWorking(y.open[j].task) ensures !IsWorking(t') {
      WorksOn(c, y.store, q, y.open[j], order);
    }
  }

  lemma ApplyKeepsPoolInv(c: Config, y: Pool, e: PoolEvent)
    requires PoolInv(c, y) && NoMixedOverlap(y)
    ensures PoolInv(c, ApplyPool(c, y, e))
  {
    if e.Call? && e.id in y.open {
      if y.open[e.id].task.ListPorts? ==> IsListing(e.order, y.store.ports.Keys) {
        CallKeepsPoolInv(c, y, e.id, e.order);
      }
    }
  }

  lemma {:induction false} NeverMixedKeepsInv(c: Config, es: seq<PoolEvent>, k: nat)
    requires k <= |es| && NeverMixed(c, es)
    ensures PoolInv(c, AfterPool(c, es[..k]))
  {
    if k > 0 {
      NeverMixedKeepsInv(c, es, k - 1);
      PoolPrefix(c, es, k - 1);
      ApplyKeepsPoolInv(c, AfterPool(c, es[..k - 1]), es[k - 1]);
    }
  }

  lemma BackedIsSafe(c: Config, s: Store)
    requires forall v :: Backed(c, s, v)
    ensures Safe(c, s)
  {
    forall v ensures SafeFor(c, s, v) {
      assert Backed(c, s, v);
    }
    SafeIsSafeFor(c, s);
  }

  /** Main result: as long as no delete of a volume overlaps a create that works on it, the store is safe throughout, with
      any other overlap of requests, and wherever they fail or stop. */
  lemma NeverMixedIsSafe(c: Config, es: seq<PoolEvent>)
    requires NeverMixed(c, es)
    ensures SafeThroughout(c, es)
    ensures forall k :: 0 <= k <= |es| ==>
              var s := AfterPool(c, es[..k]).store; LinksLeadToOwnDevice(c, s) && DevicesDistinct(c, s)
  {
    forall k | 0 <= k <= |es| ensures Safe(c, AfterPool(c, es[..k]).store) {
      NeverMixedKeepsInv(c, es, k);
      BackedIsSafe(c, AfterPool(c, es[..k]).store);
    }
    hide Safe, LinksLeadToOwnDevice, DevicesDistinct;
    forall k | 0 <= k <= |es|
      ensures var s := AfterPool(c, es[..k]).store; LinksLeadToOwnDevice(c, s) && DevicesDistinct(c, s)
    {
      SafeDevices(c, AfterPool(c, es[..k]).store);
    }
  }

  /** In such a run creates may overlap on a volume, but `lvcreate` lets only one of them through to work on it. */
  lemma OneCreateWorks(c: Config, es: seq<PoolEvent>, i: nat, j: nat)
    requires NeverMixed(c, es)
    requires i in AfterPool(c, es).open && j in AfterPool(c, es).open
    requires AfterPool(c, es).open[i].v == AfterPool(c, es).open[j].v
    requires IsWorking(AfterPool(c, es).open[i].task) && IsWorking(AfterPool(c, es).open[j].task)
    ensures i == j
  {
    assert es[..|es|] == es;
    NeverMixedKeepsInv(c, es, |es|);
  }

  /* Why that condition is needed. */

  lemma OneMoreCall(c: Config, es: seq<PoolEvent>, e: PoolEvent)
    ensures AfterPool(c, es + [e]) == ApplyPool(c, AfterPool(c, es), e)
  {
    assert (es + [e])[..|es|] == es;
  }

  /** The run goes on, and no request begins. */
  predicate OnlyCalls(es: seq<PoolEvent>, es': seq<PoolEvent>) {
    es <= es' && forall n :: |es| <= n < |es'| ==> es'[n].Call?
  }

  function AfterCalls(c: Config, s: Store, open: map<nat, Request>, id: nat, q: Request, order: seq<string>, k: nat): Pool {
    var run := RunTask(c, s, q.v, q.task, order, k);
    Pool(run.0, SetRequest(open, id, Request(q.v, run.1)))
  }

  lemma CallOnce(c: Config, es: seq<PoolEvent>, s: Store, open: map<nat, Request>, id: nat, q: Request, order: seq<string>)
    requires AfterPool(c, es) == Pool(s, open[id := q]) && (q.task.ListPorts? ==> IsListing(order, s.ports.Keys))
    ensures var (s', t') := Step(c, s, q.v, q.task, order);
            AfterPool(c, es + [Call(id, order)]) == Pool(s', SetRequest(open, id, Request(q.v, t')))
  {
    hide Step;
    OneMoreCall(c, es, Call(id, order));
    assert open[id := q] - {id} == open - {id};
  }

  /** Some calls of one request, while the others wait. */
  lemma {:induction false} CallsRun(c: Config, es: seq<PoolEvent>, s: Store, open: map<nat, Request>, id: nat, q: Request,
                                    order: seq<string>, k: nat)
    returns (es': seq<PoolEvent>)
    requires AfterPool(c, es) == Pool(s, open[id := q]) && !q.task.Done?
    requires q.task.ListPorts? ==> IsListing(order, s.ports.Keys)
    ensures AfterPool(c, es') == AfterCalls(c, s, open, id, q, order, k) && OnlyCalls(es, es')
    decreases k
  {
    hide RunTask, Step;
    if k == 0 {
      es' := es;
      NoMoreCalls(c, s, q.v, q.task, order, 0);
    } else {
      var (s', t') := Step(c, s, q.v, q.task, order);
      es' := es + [Call(id, order)];
      CallOnce(c, es, s, open, id, q, order);
      OneCall(c, s, q.v, q.task, order, k);
      NoListingLater(c, s, q.v, q.task, order);
      if t'.Done? {
        NoMoreCalls(c, s', q.v, t', order, k - 1);
      } else {
        es' := CallsRun(c, es', s', open, id, Request(q.v, t'), order, k - 1);
      }
    }
  }

  lemma DoneOrNot(open: map<nat, Request>, id: nat, q: Request)
    requires id !in open
    ensures SetRequest(open, id, q) - {id} == open
  {
  }

  /** A request can stop after any number of its calls, whatever else is in flight, and then leaves exactly what these
      calls have done. */
  lemma RequestStops(c: Config, es: seq<PoolEvent>, id: nat, begin: PoolEvent, order: seq<string>, calls: nat)
    returns (es': seq<PoolEvent>)
    requires (begin.OpenCreate? || begin.OpenDelete?) && begin.id == id && id !in AfterPool(c, es).open
    requires begin.OpenDelete? ==> IsListing(order, AfterPool(c, es).store.ports.Keys)
    ensures var y := AfterPool(c, es);
            var t := if begin.OpenCreate? then CreateTask(c, begin.capacity) else ListPorts;
            AfterPool(c, es') == Pool(RunTask(c, y.store, begin.v, t, order, calls).0, y.open)
  {
    hide RunTask, Step, IsListing;
    var y := AfterPool(c, es);
    var t := if begin.OpenCreate? then CreateTask(c, begin.capacity) else ListPorts;
    OneMoreCall(c, es, begin);
    es' := es + [begin];
    DoneOrNot(y.open, id, Request(begin.v, t));
    if t.Done? {
      assert y.open - {id} == y.open;
      NoMoreCalls(c, y.store, begin.v, t, order, calls);
    } else {
      es' := CallsRun(c, es', y.store, y.open, id, Request(begin.v, t), order, calls);
      DoneOrNot(y.open, id, Request(begin.v, RunTask(c, y.store, begin.v, t, order, calls).1));
      OneMoreCall(c, es', Abandon(id));
      es' := es' + [Abandon(id)];
    }
  }

  lemma SwapRequests(q: Request, r: Request)
    ensures map[0 := q][1 := r] == map[1 := r][0 := q]
  {
  }

  /** A create request that has made everything but its link. */
  lemma CreatesUpToLink(c: Config, v: string) returns (es: seq<PoolEvent>)
    ensures var s := WithExport(c, WithVolume(EMPTY_STORE, v), v);
            AfterPool(c, es) == Pool(WithPort(s, Decimal(1), AddressedPort(c, 1)), map[0 := Request(v, Link(1))])
  {
    hide RunTask, Step;
    var s := WithExport(c, WithVolume(EMPTY_STORE, v), v);
    OneMoreCall(c, [], OpenCreate(0, v, 0));
    FindsPortOne(c, EMPTY_STORE, v);
    es := CallsRun(c, [] + [OpenCreate(0, v, 0)], EMPTY_STORE, map[], 0, Request(v, LvCreate(0)), [], 7);
    AddressedPortRun(c, s, v, 1, [], 5);
    NoMoreCalls(c, WithPort(s, Decimal(1), AddressedPort(c, 1)), v, Link(1), [], 0);
    es := CallsRun(c, es, s, map[], 0, Request(v, MakePort(1)), [], 5);
  }

  /** A delete request that has found no link and has removed the namespace. */
  lemma RemovesNamespace(c: Config, s: Store, v: string, p: string)
    requires p in s.ports && v !in s.ports[p].links && v in s.subsystems
    requires s.subsystems[v].namespaces == map[c.ns := Namespace(DevicePath(c, v), true)]
    ensures RunTask(c, s, v, ListPorts, [p], 4) ==
            (WithSubsystem(s, v, s.subsystems[v].(namespaces := map[])), RemoveSubsystem)
  {
    hide RunTask, CreateStep, Links;
    var s' := WithSubsystem(s, v, s.subsystems[v].(namespaces := map[]));
    assert s.subsystems[v].namespaces - {c.ns} == map[];
    assert Step(c, s, v, ListPorts, [p]) == (s, Scan([p]));
    assert [p][1..] == [];
    assert Step(c, s, v, Scan([p]), [p]) == (s, Scan([]));
    assert Step(c, s, v, Scan([]), [p]) == (s, RemoveNamespace);
    assert Step(c, s, v, RemoveNamespace, [p]) == (s', RemoveSubsystem);
    hide Step, DeleteStep;
    FirstCall(c, s, v, ListPorts, [p], 4);
    FirstCall(c, s, v, Scan([p]), [p], 3);
    FirstCall(c, s, v, Scan([]), [p], 2);
    FirstCall(c, s, v, RemoveNamespace, [p], 1);
    NoMoreCalls(c, s', v, RemoveSubsystem, [p], 0);
  }

  /** For any volume there is a run in which a delete overlaps its create, and which ends with a link to a subsystem
      without its namespace: the delete looked at the ports before the create linked its own. */
  lemma OverlapBreaksSafety(c: Config, v: string) returns (es: seq<PoolEvent>)
    ensures var y := AfterPool(c, es);
            && y.open == map[]
            && Links(y.store, v) == {Decimal(1)}
            && v in y.store.subsystems && y.store.subsystems[v].namespaces == map[]
            && !Safe(c, y.store)
  {
    hide RunTask, Step, Safe;
    var p, ss := Decimal(1), Subsystem(true, map[]);
    var s := WithPort(WithExport(c, WithVolume(EMPTY_STORE, v), v), p, AddressedPort(c, 1));
    es := CreatesUpToLink(c, v);
    es := DeletesNamespace(c, es, s, v, p);
    es := LinksAfterwards(c, es, WithSubsystem(s, v, ss), v);
    var s' := AfterPool(c, es).store;
    assert Links(s', v) == {p};
    LinkWithoutNamespace(c, s', v, p);
  }

  lemma LinkWithoutNamespace(c: Config, s: Store, v: string, p: string)
    requires p in s.ports && v in s.ports[p].links && v in s.subsystems && s.subsystems[v].namespaces == map[]
    ensures !Safe(c, s)
  {
    assert c.ns !in s.subsystems[v].namespaces;
  }

  lemma DeletesNamespace(c: Config, es: seq<PoolEvent>, s: Store, v: string, p: string) returns (es': seq<PoolEvent>)
    requires AfterPool(c, es) == Pool(s, map[0 := Request(v, Link(1))])
    requires s.ports.Keys == {p} && v !in s.ports[p].links && v in s.subsystems
    requires s.subsystems[v].namespaces == map[c.ns := Namespace(DevicePath(c, v), true)]
    ensures AfterPool(c, es') == Pool(WithSubsystem(s, v, s.subsystems[v].(namespaces := map[])),
                                      map[0 := Request(v, Link(1))][1 := Request(v, RemoveSubsystem)])
  {
    hide RunTask, Step;
    OneMoreCall(c, es, OpenDelete(1, v));
    RemovesNamespace(c, s, v, p);
    es' := CallsRun(c, es + [OpenDelete(1, v)], s, map[0 := Request(v, Link(1))], 1, Request(v, ListPorts), [p], 4);
  }

  lemma LinksAfterwards(c: Config, es: seq<PoolEvent>, s: Store, v: string) returns (es': seq<PoolEvent>)
    requires AfterPool(c, es) == Pool(s, map[0 := Request(v, Link(1))][1 := Request(v, RemoveSubsystem)])
    requires s.ports == map[Decimal(1) := AddressedPort(c, 1)] && v in s.subsystems
    ensures var po := AddressedPort(c, 1).(links := {v});
            AfterPool(c, es') == Pool(WithPort(s, Decimal(1), po), map[])
  {
    hide RunTask, Step;
    var p, po := Decimal(1), AddressedPort(c, 1);
    var q, r := Request(v, Link(1)), Request(v, RemoveSubsystem);
    hide AddressedPort;
    var s' := WithPort(s, p, po.(links := {v}));
    SwapRequests(q, r);
    assert WithPort(s, p, po) == s && {} + {v} == {v};
    LinkRun(c, s, v, 1, po, [], 1);
    es' := CallsRun(c, es, s, map[1 := r], 0, q, [], 1);
    assert map[1 := r] - {0} == map[][1 := r];
    es' := FailsAfterwards(c, es', s', v, p);
  }

  lemma FailsAfterwards(c: Config, es: seq<PoolEvent>, s: Store, v: string, p: string) returns (es': seq<PoolEvent>)
    requires AfterPool(c, es) == Pool(s, map[][1 := Request(v, RemoveSubsystem)])
    requires p in s.ports && v in s.ports[p].links && v in s.subsystems
    ensures AfterPool(c, es') == Pool(s, map[])
  {
    hide RunTask, Step;
    CannotRemove(c, s, v, p);
    es' := CallsRun(c, es, s, map[], 1, Request(v, RemoveSubsystem), [], 1);
    assert SetRequest(map[], 1, Request(v, Done(false))) == map[];
  }

  lemma CannotRemove(c: Config, s: Store, v: string, p: string)
    requires p in s.ports && v in s.ports[p].links && v in s.subsystems
    ensures RunTask(c, s, v, RemoveSubsystem, [], 1) == (s, Done(false))
  {
    assert p in Links(s, v);
    FirstCall(c, s, v, RemoveSubsystem, [], 1);
  }
}
