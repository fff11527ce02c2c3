/** What every interleaving of requests for different volumes keeps, whatever fails or stops. */
module ExportSafety {
  import opened Text
  import opened Export

  /** The subsystem of `v` offers the volume's own device, and is switched on. */
  predicate Exported(c: Config, s: Store, v: string) {
    && v in s.subsystems
    && s.subsystems[v].allowAnyHost
    && s.subsystems[v].namespaces == map[c.ns := Namespace(DevicePath(c, v), true)]
  }

  /** The promise: what is exported is backed. */
  ghost predicate Safe(c: Config, s: Store) {
    && (forall v :: v in s.subsystems ==> v in s.volumes)
    && (forall p, v :: p in s.ports && v in s.ports[p].links ==> v in s.volumes && Exported(c, s, v))
    && (forall p, q, v :: p in s.ports && q in s.ports && v in s.ports[p].links && v in s.ports[q].links ==> p == q)
  }

  predicate Backed(c: Config, s: Store, v: string) {
    && (v in s.subsystems ==> v in s.volumes && s.subsystems[v].namespaces.Keys <= {c.ns})
    && (Links(s, v) != {} ==> Exported(c, s, v))
    && (forall p, q :: p in Links(s, v) && q in Links(s, v) ==> p == q)
  }

  /** What is known of the volume a handler works on, by what the handler does next. */
  predicate AtTask(c: Config, s: Store, v: string, t: Task) {
    match t
    case LvCreate(_) => true
    case MakeSubsystem => v in s.volumes && v !in s.subsystems
    case AllowAnyHost => v in s.subsystems && s.subsystems[v].namespaces == map[] && Links(s, v) == {}
    case MakeNamespace => v in s.subsystems && s.subsystems[v] == Subsystem(true, map[]) && Links(s, v) == {}
    case SetDevicePath => v in s.subsystems && s.subsystems[v].allowAnyHost && Links(s, v) == {}
    case Enable =>
      && v in s.subsystems && s.subsystems[v].allowAnyHost && Links(s, v) == {}
      && c.ns in s.subsystems[v].namespaces && s.subsystems[v].namespaces[c.ns].devicePath == DevicePath(c, v)
    case ListPorts => true
    case Scan(todo) => forall p :: p in Links(s, v) ==> p in todo
    case Unlink(q, todo) => q in Links(s, v) && forall p :: p in Links(s, v) ==> p == q || p in todo
    case RemovePort(_, todo) => forall p :: p in Links(s, v) ==> p in todo
    case RemoveNamespace => Links(s, v) == {}
    case RemoveSubsystem => Links(s, v) == {} && (v in s.subsystems ==> s.subsystems[v].namespaces == map[])
    case LvRemove => v !in s.subsystems
    case Done(_) => true
    case _ => Exported(c, s, v) && Links(s, v) == {}
  }

  predicate Local(c: Config, s: Store, v: string, t: Task) {
    Backed(c, s, v) && AtTask(c, s, v, t)
  }

  function TaskOf(y: System, v: string): Task {
    if v in y.tasks then y.tasks[v] else Done(true)
  }

  ghost predicate Inv(c: Config, y: System) {
    forall v :: Local(c, y.store, v, TaskOf(y, v))
  }

  /** A store looks the same to `w`: its volume, its subsystem and the ports that link it. */
  predicate SameFor(s: Store, s': Store, w: string) {
    && (w in s'.volumes <==> w in s.volumes)
    && (w in s'.volumes && w in s.volumes ==> s'.volumes[w] == s.volumes[w])
    && (w in s'.subsystems <==> w in s.subsystems)
    && (w in s'.subsystems && w in s.subsystems ==> s'.subsystems[w] == s.subsystems[w])
    && Links(s', w) == Links(s, w)
  }

  lemma CreateFrameLinks(c: Config, s: Store, v: string, t: Task, w: string)
    requires w != v
    ensures Links(CreateStep(c, s, v, t).0, w) == Links(s, w)
  {
  }

  lemma CreateFrame(c: Config, s: Store, v: string, t: Task, w: string)
    requires w != v
    ensures SameFor(s, CreateStep(c, s, v, t).0, w)
  {
    CreateFrameLinks(c, s, v, t, w);
    hide Links;
  }

  lemma DeleteFrame(c: Config, s: Store, v: string, t: Task, order: seq<string>, w: string)
    requires w != v
    ensures SameFor(s, DeleteStep(c, s, v, t, order).0, w)
  {
    assert Links(DeleteStep(c, s, v, t, order).0, w) == Links(s, w);
  }

  /** A handler's call changes nothing for any other volume. */
  lemma StepFrame(c: Config, s: Store, v: string, t: Task, order: seq<string>, w: string)
    requires w != v
    ensures SameFor(s, Step(c, s, v, t, order).0, w)
  {
    CreateFrame(c, s, v, t, w);
    DeleteFrame(c, s, v, t, order, w);
  }

  lemma OnlyLinkLinks(c: Config, s: Store, v: string, t: Task)
    requires !t.Link?
    ensures Links(CreateStep(c, s, v, t).0, v) == Links(s, v)
  {
  }

  lemma OnlyUnlinkUnlinks(c: Config, s: Store, v: string, t: Task, order: seq<string>)
    requires !t.Unlink?
    ensures Links(DeleteStep(c, s, v, t, order).0, v) == Links(s, v)
  {
  }

  predicate IsPortTask(t: Task) {
    t.PickPort? || t.MakePort? || t.SetAdrfam? || t.SetTraddr? || t.SetTrsvcid? || t.SetTrtype?
  }

  lemma PortStepKeepsLocal(c: Config, s: Store, v: string, t: Task)
    requires Local(c, s, v, t) && IsPortTask(t)
    ensures var (s', t') := CreateStep(c, s, v, t); Local(c, s', v, t')
  {
    OnlyLinkLinks(c, s, v, t);
  }

  lemma CreateStepKeepsLocal(c: Config, s: Store, v: string, t: Task)
    requires Local(c, s, v, t) && !t.Link? && !IsPortTask(t)
    ensures var (s', t') := CreateStep(c, s, v, t); Local(c, s', v, t')
  {
    OnlyLinkLinks(c, s, v, t);
  }

  lemma LinkKeepsLocal(c: Config, s: Store, v: string, n: nat)
    requires Local(c, s, v, Link(n))
    ensures var (s', t') := CreateStep(c, s, v, Link(n)); Local(c, s', v, t')
  {
    var (s', _) := CreateStep(c, s, v, Link(n));
    assert Links(s', v) <= {Decimal(n)};
  }

  lemma UnlinkKeepsLocal(c: Config, s: Store, v: string, t: Task, order: seq<string>)
    requires Local(c, s, v, t) && t.Unlink?
    ensures var (s', t') := DeleteStep(c, s, v, t, order); Local(c, s', v, t')
  {
    assert Links(DeleteStep(c, s, v, t, order).0, v) <= Links(s, v);
  }

  lemma DeleteStepKeepsLocal(c: Config, s: Store, v: string, t: Task, order: seq<string>)
    requires Local(c, s, v, t)
    requires t.ListPorts? ==> IsListing(order, s.ports.Keys)
    ensures var (s', t') := DeleteStep(c, s, v, t, order); Local(c, s', v, t')
  {
    if t.Unlink? {
      UnlinkKeepsLocal(c, s, v, t, order);
    } else {
      OnlyUnlinkUnlinks(c, s, v, t, order);
    }
  }

  lemma StepKeepsLocal(c: Config, s: Store, v: string, t: Task, order: seq<string>)
    requires Local(c, s, v, t)
    requires t.ListPorts? ==> IsListing(order, s.ports.Keys)
    ensures var (s', t') := Step(c, s, v, t, order); Local(c, s', v, t')
  {
    if t.Link? {
      LinkKeepsLocal(c, s, v, t.n);
    } else if IsPortTask(t) {
      PortStepKeepsLocal(c, s, v, t);
    } else {
      CreateStepKeepsLocal(c, s, v, t);
    }
    DeleteStepKeepsLocal(c, s, v, t, order);
  }

  lemma ApplyKeepsInv(c: Config, y: System, e: Event)
    requires Inv(c, y)
    ensures Inv(c, Apply(c, y, e))
  {
    var y' := Apply(c, y, e);
    forall w ensures Local(c, y'.store, w, TaskOf(y', w)) {
      assert Local(c, y.store, w, TaskOf(y, w));
      if e.Advance? && y' != y {
        assert Local(c, y.store, e.v, TaskOf(y, e.v));
        if w == e.v {
          StepKeepsLocal(c, y.store, e.v, y.tasks[e.v], e.order);
        } else {
          StepFrame(c, y.store, e.v, y.tasks[e.v], e.order, w);
        }
      }
    }
  }

  lemma {:induction false} RunsKeepInv(c: Config, es: seq<Event>)
    ensures Inv(c, After(c, es))
  {
    if es != [] {
      RunsKeepInv(c, es[..|es| - 1]);
      ApplyKeepsInv(c, After(c, es[..|es| - 1]), es[|es| - 1]);
    }
  }

  lemma InvIsSafe(c: Config, y: System)
    requires Inv(c, y)
    ensures Safe(c, y.store)
  {
    var s := y.store;
    forall v ensures v in s.subsystems ==> v in s.volumes {
      assert Local(c, s, v, TaskOf(y, v));
    }
    forall p, v | p in s.ports && v in s.ports[p].links
      ensures v in s.volumes && Exported(c, s, v)
    {
      assert Local(c, s, v, TaskOf(y, v));
      assert p in Links(s, v);
    }
    forall p, q, v | p in s.ports && q in s.ports && v in s.ports[p].links && v in s.ports[q].links
      ensures p == q
    {
      assert Local(c, s, v, TaskOf(y, v));
      assert p in Links(s, v) && q in Links(s, v);
    }
  }

  /** What safety says of links, written out: the volume of a link exists, its subsystem lets any host in, and offers one
      namespace, switched on, on the device of that very volume. */
  ghost predicate LinksLeadToOwnDevice(c: Config, s: Store) {
    forall p, v :: p in s.ports && v in s.ports[p].links ==> HasOwnDevice(c, s, v)
  }

  predicate HasOwnDevice(c: Config, s: Store, v: string) {
    && v in s.volumes && v in s.subsystems
    && s.subsystems[v] == Subsystem(true, map[c.ns := Namespace("/dev/" + c.vg + "/" + v, true)])
  }

  /** Linked volumes never share a device. */
  ghost predicate DevicesDistinct(c: Config, s: Store) {
    forall p, q, v, w :: p in s.ports && v in s.ports[p].links && q in s.ports && w in s.ports[q].links ==>
                           HaveDistinctDevices(c, s, v, w)
  }

  predicate HaveDistinctDevices(c: Config, s: Store, v: string, w: string) {
    && v in s.subsystems && c.ns in s.subsystems[v].namespaces && w in s.subsystems && c.ns in s.subsystems[w].namespaces
    && (s.subsystems[v].namespaces[c.ns].devicePath == s.subsystems[w].namespaces[c.ns].devicePath ==> v == w)
  }

  lemma SafeDevices(c: Config, s: Store)
    requires Safe(c, s)
    ensures LinksLeadToOwnDevice(c, s) && DevicesDistinct(c, s)
  {
    forall p, v | p in s.ports && v in s.ports[p].links ensures HasOwnDevice(c, s, v) {
      ExportedHasOwnDevice(c, s, v);
    }
    hide Safe, Exported, HasOwnDevice;
    forall p, q, v, w | p in s.ports && v in s.ports[p].links && q in s.ports && w in s.ports[q].links
      ensures HaveDistinctDevices(c, s, v, w)
    {
      OwnDevicesDistinct(c, s, v, w);
    }
  }

  lemma ExportedHasOwnDevice(c: Config, s: Store, v: string)
    requires v in s.volumes && Exported(c, s, v)
    ensures HasOwnDevice(c, s, v)
  {
  }

  lemma OwnDevicesDistinct(c: Config, s: Store, v: string, w: string)
    requires HasOwnDevice(c, s, v) && HasOwnDevice(c, s, w)
    ensures HaveDistinctDevices(c, s, v, w)
  {
    var dir := "/dev/" + c.vg + "/";
    if dir + v == dir + w {
      SameSuffix(dir, v, w);
    }
  }

  lemma SameSuffix(a: string, v: string, w: string)
    requires a + v == a + w
    ensures v == w
  {
    assert (a + v)[|a|..] == v && (a + w)[|a|..] == w;
  }

  /** Main result: after every run in which no two requests in flight name the same volume, however the calls of the
      handlers interleave and wherever they stop, each subsystem has its volume, each link leads to an enabled namespace
      on that volume's own device, which no other linked volume has, and no volume is linked from two ports. */
  lemma EveryInterleavingIsSafe(c: Config, es: seq<Event>)
    ensures Safe(c, After(c, es).store)
    ensures LinksLeadToOwnDevice(c, After(c, es).store) && DevicesDistinct(c, After(c, es).store)
  {
    RunsKeepInv(c, es);
    InvIsSafe(c, After(c, es));
    SafeDevices(c, After(c, es).store);
  }
}
