/** Interleaved requests for different volumes again: links stay one to one as long as every create makes the port that it
    picked. */
module ExportConcurrent {
  import opened Wrappers
  import opened Text
  import opened Export
  import opened ExportSafety
  import opened ExportSerial

  /** The port that a handler has to itself: the one it is about to link, or to remove. */
  function OwnedPort(t: Task): Option<string> {
    match t
    case SetAdrfam(n) => Some(Decimal(n))
    case SetTraddr(n) => Some(Decimal(n))
    case SetTrsvcid(n) => Some(Decimal(n))
    case SetTrtype(n) => Some(Decimal(n))
    case Link(n) => Some(Decimal(n))
    case RemovePort(p, _) => Some(p)
    case _ => None
  }

  /** How far that port is; it has no links. */
  predicate OwnedAt(c: Config, s: Store, t: Task) {
    match t
    case PickPort(n) => 1 <= n
    case MakePort(n) => 1 <= n
    case RemovePort(p, _) => p in s.ports && s.ports[p].links == {}
    case _ => PortAt(c, s, t)
  }

  predicate DifferentPorts(t: Task, t': Task) {
    OwnedPort(t).Some? && OwnedPort(t').Some? ==> OwnedPort(t) != OwnedPort(t')
  }

  ghost predicate Owners(c: Config, s: Store, tasks: map<string, Task>) {
    && (forall v :: v in tasks ==> OwnedAt(c, s, tasks[v]))
    && (forall v, w :: v in tasks && w in tasks && v != w ==> DifferentPorts(tasks[v], tasks[w]))
  }

  ghost predicate OwnershipInv(c: Config, y: System) {
    && Inv(c, y)
    && PortsOk(c, y.store)
    && Owners(c, y.store, y.tasks)
  }

  /** `createPort` makes its directory, and does not come upon one. */
  predicate MakesItsPort(s: Store, t: Task) {
    t.MakePort? ==> Decimal(t.n) !in s.ports
  }

  lemma OwnedHasNoLinks(c: Config, s: Store, t: Task)
    requires OwnedAt(c, s, t) && OwnedPort(t).Some?
    ensures OwnedPort(t).value in s.ports && s.ports[OwnedPort(t).value].links == {}
  {
  }

  lemma CreateKeepsOwned(c: Config, s: Store, v: string, t: Task)
    requires PortsOk(c, s) && OwnedAt(c, s, t) && MakesItsPort(s, t)
    ensures var (s', t') := CreateStep(c, s, v, t); PortsOk(c, s') && OwnedAt(c, s', t')
  {
    if t.PickPort? {
    } else if t.MakePort? {
      var (s', _) := CreateStep(c, s, v, t);
      assert OtherPortsSame(s, s', Decimal(t.n));
    } else if PortAt(c, s, t) {
      CreateKeepsPorts(c, s, v, t);
    }
  }

  lemma DeleteKeepsOwned(c: Config, s: Store, v: string, t: Task, order: seq<string>)
    requires PortsOk(c, s) && OwnedAt(c, s, t) && AtTask(c, s, v, t)
    ensures var (s', t') := DeleteStep(c, s, v, t, order); PortsOk(c, s') && OwnedAt(c, s', t')
  {
    DeleteKeepsPorts(c, s, v, t, order);
    if t.Unlink? {
      var p := t.port;
      var n: nat, u: string :| IsPortOf(c, p, s.ports[p], n, u);
      assert s.ports[p].links == {v};
      assert DeleteStep(c, s, v, t, order).0.ports[p].links == {};
    }
  }

  /** The port that a call may change. */
  function Touched(t: Task): Option<string> {
    match t
    case MakePort(n) => Some(Decimal(n))
    case Unlink(p, _) => Some(p)
    case _ => OwnedPort(t)
  }

  lemma StepTouches(c: Config, s: Store, v: string, t: Task, order: seq<string>, p: string)
    requires Touched(t) != Some(p)
    ensures var s' := Step(c, s, v, t, order).0;
            (p in s'.ports <==> p in s.ports) && (p in s.ports ==> s'.ports[p] == s.ports[p])
  {
  }

  lemma NextOwned(c: Config, s: Store, v: string, t: Task, order: seq<string>)
    ensures var t' := Step(c, s, v, t, order).1; OwnedPort(t').Some? ==> OwnedPort(t') == Touched(t)
  {
  }

  /** What one handler touches is not another one's port. */
  lemma TouchedIsNotOwned(c: Config, s: Store, v: string, t: Task, t': Task)
    requires OwnedAt(c, s, t) && OwnedAt(c, s, t') && AtTask(c, s, v, t) && MakesItsPort(s, t) && DifferentPorts(t, t')
    requires OwnedPort(t').Some?
    ensures Touched(t) != OwnedPort(t')
  {
    OwnedHasNoLinks(c, s, t');
    if t.Unlink? {
      assert t.port in Links(s, v);
    }
  }

  lemma OtherKeepsPort(c: Config, s: Store, v: string, t: Task, order: seq<string>, t': Task)
    requires OwnedAt(c, s, t) && OwnedAt(c, s, t') && AtTask(c, s, v, t) && MakesItsPort(s, t) && DifferentPorts(t, t')
    ensures OwnedAt(c, Step(c, s, v, t, order).0, t')
    ensures DifferentPorts(Step(c, s, v, t, order).1, t')
  {
    if OwnedPort(t').Some? {
      TouchedIsNotOwned(c, s, v, t, t');
      StepTouches(c, s, v, t, order, OwnedPort(t').value);
      NextOwned(c, s, v, t, order);
    }
  }

  lemma StepKeepsOwned(c: Config, s: Store, v: string, t: Task, order: seq<string>)
    requires PortsOk(c, s) && OwnedAt(c, s, t) && AtTask(c, s, v, t) && MakesItsPort(s, t)
    ensures var (s', t') := Step(c, s, v, t, order); PortsOk(c, s') && OwnedAt(c, s', t')
  {
    CreateKeepsOwned(c, s, v, t);
    DeleteKeepsOwned(c, s, v, t, order);
  }

  ghost predicate MakesPorts(y: System, e: Event) {
    e.Advance? && e.v in y.tasks ==> MakesItsPort(y.store, y.tasks[e.v])
  }

  lemma AdvanceKeepsOthers(c: Config, y: System, v: string, order: seq<string>)
    requires OwnershipInv(c, y) && v in y.tasks && MakesItsPort(y.store, y.tasks[v])
    ensures var (s', t') := Step(c, y.store, v, y.tasks[v], order);
            forall w :: w in y.tasks && w != v ==> OwnedAt(c, s', y.tasks[w]) && DifferentPorts(t', y.tasks[w])
  {
    var (s', t') := Step(c, y.store, v, y.tasks[v], order);
    assert Local(c, y.store, v, TaskOf(y, v));
    forall w | w in y.tasks && w != v ensures OwnedAt(c, s', y.tasks[w]) && DifferentPorts(t', y.tasks[w]) {
      OtherKeepsPort(c, y.store, v, y.tasks[v], order, y.tasks[w]);
    }
  }

  lemma AdvanceKeepsOwnership(c: Config, y: System, v: string, order: seq<string>)
    requires OwnershipInv(c, y) && v in y.tasks && MakesItsPort(y.store, y.tasks[v])
    ensures OwnershipInv(c, Apply(c, y, Advance(v, order)))
  {
    ApplyKeepsInv(c, y, Advance(v, order));
    assert Local(c, y.store, v, TaskOf(y, v));
    StepKeepsOwned(c, y.store, v, y.tasks[v], order);
    AdvanceKeepsOthers(c, y, v, order);
    hide Step, Inv, PortsOk, IsListing, SetTask, OwnedAt, DifferentPorts;
    var (s', t') := Step(c, y.store, v, y.tasks[v], order);
    OwnersSet(c, y.tasks, s', v, t');
  }

  lemma OwnersSet(c: Config, tasks: map<string, Task>, s: Store, v: string, t: Task)
    requires OwnedAt(c, s, t)
    requires forall w :: w in tasks && w != v ==> OwnedAt(c, s, tasks[w]) && DifferentPorts(t, tasks[w])
    requires forall u, w :: u in tasks && w in tasks && u != w ==> DifferentPorts(tasks[u], tasks[w])
    ensures Owners(c, s, SetTask(tasks, v, t))
  {
    hide OwnedAt, OwnedPort;
  }

  lemma ApplyKeepsOwnership(c: Config, y: System, e: Event)
    requires OwnershipInv(c, y) && MakesPorts(y, e)
    ensures OwnershipInv(c, Apply(c, y, e))
  {
    if e.Advance? && e.v in y.tasks {
      AdvanceKeepsOwnership(c, y, e.v, e.order);
    } else {
      ApplyKeepsInv(c, y, e);
      hide Step, Inv, PortsOk;
    }
  }

  /** Serialised requests always meet this. */
  lemma SerialMakesPorts(c: Config, es: seq<Event>, e: Event)
    ensures MakesPorts(AfterSerial(c, es), e)
  {
    SerialRunsKeepInv(c, es);
  }

  /** In this run every create that goes on to its port makes it: no other create made it in between. */
  ghost predicate MakesAllPorts(c: Config, es: seq<Event>) {
    forall k :: 0 <= k < |es| ==> MakesPorts(After(c, es[..k]), es[k])
  }

  lemma {:induction false} RunsKeepOwnership(c: Config, es: seq<Event>)
    requires MakesAllPorts(c, es)
    ensures OwnershipInv(c, After(c, es))
  {
    if es == [] {
      RunsKeepInv(c, es);
    } else {
      var k := |es| - 1;
      assert forall j :: 0 <= j < k ==> es[..k][..j] == es[..j];
      RunsKeepOwnership(c, es[..k]);
      ApplyKeepsOwnership(c, After(c, es[..k]), es[k]);
    }
  }

  /** Main result: in every interleaving in which no two requests in flight name the same volume and each create makes its
      own port, links are one to one, every linked port has its complete address, and no two share a service id, wherever
      requests fail or stop. ExportOneToOne drops the first condition. */
  lemma ConcurrentLinksOneToOne(c: Config, es: seq<Event>)
    requires MakesAllPorts(c, es)
    ensures LinksOneToOne(After(c, es).store)
    ensures PortsOk(c, After(c, es).store)
    ensures ServiceIdsOneToOne(After(c, es).store)
  {
    RunsKeepOwnership(c, es);
    EveryInterleavingIsSafe(c, es);
    var s := After(c, es).store;
    PortsOkDistinct(c, s);
    forall p, v, w | p in s.ports && v in s.ports[p].links && w in s.ports[p].links ensures v == w {
      var n: nat, u: string :| IsPortOf(c, p, s.ports[p], n, u);
    }
  }
}
