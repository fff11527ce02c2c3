/** What a client sees of the store: a map from volume to size and, when it is published, endpoint. */
module ExportCatalog {
  import opened Wrappers
  import opened Text
  import opened Export
  import opened ExportSafety
  import opened ExportSerial

  datatype Endpoint = Endpoint(adrfam: string, traddr: string, trsvcid: string)

  datatype Entry = Entry(size: nat, endpoint: Option<Endpoint>)

  type Catalog = map<string, Entry>

  function EndpointOf(po: Port): Endpoint { Endpoint(po.adrfam, po.traddr, po.trsvcid) }

  /** The endpoint of a volume: that of a port that links it. */
  ghost function EndpointFor(s: Store, v: string): Option<Endpoint> {
    if Links(s, v) == {} then None
    else
      var p :| p in Links(s, v);
      Some(EndpointOf(s.ports[p]))
  }

  ghost function CatalogOf(s: Store): Catalog {
    map v | v in s.volumes :: Entry(s.volumes[v], EndpointFor(s, v))
  }

  /** What a handler's call does to the catalog: four calls change it, the others do not show. */
  function CatalogStep(c: Config, m: Catalog, v: string, t: Task): Catalog
    requires t.Link? ==> 1 <= t.n
  {
    match t
    case LvCreate(size) => if v in m then m else m[v := Entry(size, None)]
    case Link(n) =>
      if v in m then m[v := m[v].(endpoint := Some(Endpoint("ipv4", c.traddr, ServiceId(n))))] else m
    case Unlink(_, _) => if v in m then m[v := m[v].(endpoint := None)] else m
    case LvRemove => m - {v}
    case _ => m
  }

  lemma EndpointIs(s: Store, v: string, p: string)
    requires Links(s, v) == {p}
    ensures EndpointFor(s, v) == Some(EndpointOf(s.ports[p]))
  {
  }

  /** Ports that link a volume keep their endpoint through any call but the linking and unlinking of that volume. */
  lemma EndpointKept(c: Config, y: System, v: string, order: seq<string>, w: string)
    requires SerialInv(c, y) && v in y.tasks
    requires w != v || !(y.tasks[v].Link? || y.tasks[v].Unlink?)
    ensures EndpointFor(Step(c, y.store, v, y.tasks[v], order).0, w) == EndpointFor(y.store, w)
  {
    var s, t := y.store, y.tasks[v];
    var s' := Step(c, s, v, t, order).0;
    assert Local(c, s, v, TaskOf(y, v)) && Local(c, s, w, TaskOf(y, w));
    StepLinks(c, s, v, t, order, w);
    if Links(s, w) != {} {
      var p :| p in Links(s, w);
      assert Links(s, w) == {p};
      LinkedPortKept(c, s, v, t, order, w, p);
      EndpointIs(s, w, p);
      EndpointIs(s', w, p);
    }
  }

  lemma StepLinks(c: Config, s: Store, v: string, t: Task, order: seq<string>, w: string)
    requires w != v || !(t.Link? || t.Unlink?)
    ensures Links(Step(c, s, v, t, order).0, w) == Links(s, w)
  {
    if w == v {
      OnlyLinkLinks(c, s, v, t);
      OnlyUnlinkUnlinks(c, s, v, t, order);
    } else {
      StepFrame(c, s, v, t, order, w);
    }
    hide CreateStep, DeleteStep, Links;
  }

  lemma LinkedPortKept(c: Config, s: Store, v: string, t: Task, order: seq<string>, w: string, p: string)
    requires PortAt(c, s, t) && PortsOk(c, s)
    requires p in Links(s, w) && (w != v || !(t.Link? || t.Unlink?))
    ensures var s' := Step(c, s, v, t, order).0;
            p in s'.ports && EndpointOf(s'.ports[p]) == EndpointOf(s.ports[p])
  {
    var n: nat, u: string :| IsPortOf(c, p, s.ports[p], n, u);
  }

  lemma VolumesStep(c: Config, s: Store, v: string, t: Task, order: seq<string>)
    ensures var s' := Step(c, s, v, t, order).0;
            s'.volumes == match t
                          case LvCreate(size) => if v in s.volumes then s.volumes else s.volumes[v := size]
                          case LvRemove => s.volumes - {v}
                          case _ => s.volumes
  {
    assert v !in s.volumes ==> s.volumes - {v} == s.volumes;
  }

  lemma LinkShows(c: Config, y: System, v: string)
    requires SerialInv(c, y) && v in y.tasks && y.tasks[v].Link?
    ensures var s' := CreateStep(c, y.store, v, y.tasks[v]).0;
            EndpointFor(s', v) == Some(Endpoint("ipv4", c.traddr, ServiceId(y.tasks[v].n)))
  {
    var n := y.tasks[v].n;
    assert Local(c, y.store, v, TaskOf(y, v));
    assert PortAt(c, y.store, y.tasks[v]);
    var s' := CreateStep(c, y.store, v, y.tasks[v]).0;
    assert Links(s', v) == {Decimal(n)};
    EndpointIs(s', v, Decimal(n));
  }

  lemma UnlinkShows(c: Config, y: System, v: string, order: seq<string>)
    requires SerialInv(c, y) && v in y.tasks && y.tasks[v].Unlink?
    ensures EndpointFor(DeleteStep(c, y.store, v, y.tasks[v], order).0, v) == None
  {
    assert Local(c, y.store, v, TaskOf(y, v));
    assert Links(y.store, v) == {y.tasks[v].port};
    var s' := DeleteStep(c, y.store, v, y.tasks[v], order).0;
    forall q | q in s'.ports ensures v !in s'.ports[q].links {
      assert q in Links(y.store, v) ==> q == y.tasks[v].port;
    }
    assert Links(s', v) == {};
  }

  lemma EndpointStep(c: Config, y: System, v: string, order: seq<string>, w: string)
    requires SerialInv(c, y) && v in y.tasks
    ensures y.tasks[v].Link? ==> 1 <= y.tasks[v].n
    ensures EndpointFor(Step(c, y.store, v, y.tasks[v], order).0, w) ==
            if w == v && y.tasks[v].Link? then Some(Endpoint("ipv4", c.traddr, ServiceId(y.tasks[v].n)))
            else if w == v && y.tasks[v].Unlink? then None
            else EndpointFor(y.store, w)
  {
    assert PortAt(c, y.store, y.tasks[v]);
    if w == v && y.tasks[v].Link? {
      LinkShows(c, y, v);
    } else if w == v && y.tasks[v].Unlink? {
      UnlinkShows(c, y, v, order);
    } else {
      EndpointKept(c, y, v, order, w);
    }
  }

  /** Main result: in every state of a serialised run, each call of a handler does to the catalog exactly what
      CatalogStep says. So the handlers refine a map with four operations. */
  lemma StepRefinesCatalog(c: Config, y: System, v: string, order: seq<string>)
    requires SerialInv(c, y) && v in y.tasks
    ensures y.tasks[v].Link? ==> 1 <= y.tasks[v].n
    ensures CatalogOf(Step(c, y.store, v, y.tasks[v], order).0) == CatalogStep(c, CatalogOf(y.store), v, y.tasks[v])
  {
    var s' := Step(c, y.store, v, y.tasks[v], order).0;
    VolumesStep(c, y.store, v, y.tasks[v], order);
    EndpointStep(c, y, v, order, v);
    if v !in y.store.volumes {
      NewVolumeHasNoEndpoint(c, y, v);
    }
    hide Step, EndpointFor, SerialInv;
    var m, m' := CatalogStep(c, CatalogOf(y.store), v, y.tasks[v]), CatalogOf(s');
    CatalogStepKeys(c, y.store, v, y.tasks[v], order);
    forall w | w in m' ensures m'[w] == m[w] {
      EndpointStep(c, y, v, order, w);
    }
  }

  lemma CatalogStepKeys(c: Config, s: Store, v: string, t: Task, order: seq<string>)
    requires t.Link? ==> 1 <= t.n
    ensures CatalogStep(c, CatalogOf(s), v, t).Keys == CatalogOf(Step(c, s, v, t, order).0).Keys
  {
    VolumesStep(c, s, v, t, order);
    hide Step, EndpointFor;
  }

  lemma NewVolumeHasNoEndpoint(c: Config, y: System, v: string)
    requires Inv(c, y) && v !in y.store.volumes
    ensures EndpointFor(y.store, v) == None
  {
    assert Local(c, y.store, v, TaskOf(y, v));
  }

  /** In every serialised run, an endpoint with a service id belongs to one volume. */
  lemma EndpointsDistinct(c: Config, es: seq<Event>, v: string, w: string)
    requires v in AfterSerial(c, es).store.volumes && w in AfterSerial(c, es).store.volumes
    requires EndpointFor(AfterSerial(c, es).store, v).Some?
    requires EndpointFor(AfterSerial(c, es).store, v).value.trsvcid != ""
    requires EndpointFor(AfterSerial(c, es).store, w) == EndpointFor(AfterSerial(c, es).store, v)
    ensures v == w
  {
    SerialLinksOneToOne(c, es);
    var s := AfterSerial(c, es).store;
    var p :| p in Links(s, v) && EndpointFor(s, v) == Some(EndpointOf(s.ports[p]));
    var q :| q in Links(s, w) && EndpointFor(s, w) == Some(EndpointOf(s.ports[q]));
    ServiceIdsDistinct(c, es);
    assert p == q;
  }
}
