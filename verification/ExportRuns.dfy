/** What single requests do when they get through, and how a request is a piece of a run. */
module ExportRuns {
  import opened Text
  import opened Ports
  import opened Export
  import opened ExportSafety
  import opened ExportSerial

  /** A handler that has ended is not changed by more calls being possible. */
  lemma {:induction false} MoreLives(c: Config, s: Store, v: string, t: Task, order: seq<string>, lives: nat, more: nat)
    requires RunTask(c, s, v, t, order, lives).1.Done?
    ensures RunTask(c, s, v, t, order, lives + more) == RunTask(c, s, v, t, order, lives)
    decreases lives
  {
    if lives > 0 && !t.Done? {
      var (s', t') := Step(c, s, v, t, order);
      MoreLives(c, s', v, t', order, lives - 1, more);
    }
  }

  /* Publish. */

  function Published(c: Config, s: Store, v: string): Store {
    var n := LeastFree(s.ports.Keys);
    WithPort(WithExport(c, s, v), Decimal(n), AddressedPort(c, n).(links := {v}))
  }

  lemma OneCall(c: Config, s: Store, v: string, t: Task, order: seq<string>, lives: nat)
    requires lives > 0 && !t.Done?
    ensures RunTask(c, s, v, t, order, lives) ==
            RunTask(c, Step(c, s, v, t, order).0, v, Step(c, s, v, t, order).1, order, lives - 1)
  {
  }

  lemma NoMoreCalls(c: Config, s: Store, v: string, t: Task, order: seq<string>, lives: nat)
    requires t.Done? || lives == 0
    ensures RunTask(c, s, v, t, order, lives) == (s, t)
  {
  }

  /** The run of a handler by its next call. */
  lemma FirstCall(c: Config, s: Store, v: string, t: Task, order: seq<string>, lives: nat)
    requires !t.Done?
    ensures lives == 0 ==> RunTask(c, s, v, t, order, lives) == (s, t)
    ensures lives > 0 ==>
              var (s', t') := Step(c, s, v, t, order);
              && RunTask(c, s, v, t, order, lives) == RunTask(c, s', v, t', order, lives - 1)
              && (t'.Done? ==> RunTask(c, s', v, t', order, lives - 1) == (s', t'))
  {
  }

  lemma PickCall(c: Config, s: Store, v: string, n: nat, order: seq<string>, lives: nat)
    requires lives > 0
    ensures RunTask(c, s, v, PickPort(n), order, lives) ==
            RunTask(c, s, v, if Decimal(n) in s.ports then PickPort(n + 1) else MakePort(n), order, lives - 1)
  {
    OneCall(c, s, v, PickPort(n), order, lives);
  }

  lemma {:induction false} PickRun(c: Config, s: Store, v: string, n: nat, m: nat, order: seq<string>, lives: nat)
    requires IsLeastFree(s.ports.Keys, m) && 1 <= n <= m <= lives + n - 1
    ensures RunTask(c, s, v, PickPort(n), order, lives) == RunTask(c, s, v, MakePort(m), order, lives + n - 1 - m)
    decreases lives
  {
    hide RunTask;
    PickCall(c, s, v, n, order, lives);
    assert Decimal(n) in s.ports <==> n < m;
    if n < m {
      PickRun(c, s, v, n + 1, m, order, lives - 1);
    }
  }

  lemma WithPortTwice(s: Store, p: string, po: Port, po': Port)
    ensures WithPort(WithPort(s, p, po), p, po') == WithPort(s, p, po')
  {
    assert s.ports[p := po][p := po'] == s.ports[p := po'];
  }

  lemma SetAdrfamStep(c: Config, s: Store, v: string, n: nat, po: Port)
    ensures CreateStep(c, WithPort(s, Decimal(n), po), v, SetAdrfam(n))
            == (WithPort(s, Decimal(n), po.(adrfam := "ipv4")), SetTraddr(n))
  {
    WithPortTwice(s, Decimal(n), po, po.(adrfam := "ipv4"));
  }

  lemma SetTraddrStep(c: Config, s: Store, v: string, n: nat, po: Port)
    ensures CreateStep(c, WithPort(s, Decimal(n), po), v, SetTraddr(n))
            == (WithPort(s, Decimal(n), po.(traddr := c.traddr)), SetTrsvcid(n))
  {
    WithPortTwice(s, Decimal(n), po, po.(traddr := c.traddr));
  }

  lemma SetTrsvcidStep(c: Config, s: Store, v: string, n: nat, po: Port)
    requires 1 <= n && (n <= 100 || po.trsvcid == "")
    ensures CreateStep(c, WithPort(s, Decimal(n), po), v, SetTrsvcid(n))
            == (WithPort(s, Decimal(n), po.(trsvcid := ServiceId(n))), SetTrtype(n))
  {
    WithPortTwice(s, Decimal(n), po, po.(trsvcid := ServiceId(n)));
  }

  lemma SetTrtypeStep(c: Config, s: Store, v: string, n: nat, po: Port)
    requires po.trtype == "" || po.trtype == TransportType(c)
    ensures CreateStep(c, WithPort(s, Decimal(n), po), v, SetTrtype(n))
            == (WithPort(s, Decimal(n), po.(trtype := TransportType(c))), Link(n))
  {
    WithPortTwice(s, Decimal(n), po, po.(trtype := TransportType(c)));
  }

  lemma LinkStep(c: Config, s: Store, v: string, n: nat, po: Port)
    requires v in s.subsystems
    ensures CreateStep(c, WithPort(s, Decimal(n), po), v, Link(n))
            == (WithPort(s, Decimal(n), po.(links := po.links + {v})), Done(true))
  {
    WithPortTwice(s, Decimal(n), po, po.(links := po.links + {v}));
  }

  lemma NewPortRun(c: Config, s: Store, v: string, n: nat, order: seq<string>, lives: nat)
    requires 1 <= n && Decimal(n) !in s.ports && lives >= 3
    ensures RunTask(c, s, v, MakePort(n), order, lives) ==
            RunTask(c, WithPort(s, Decimal(n), Port("ipv4", c.traddr, "", "", {})), v, SetTrsvcid(n), order, lives - 3)
  {
    hide RunTask, DeleteStep;
    var po := NEW_PORT.(adrfam := "ipv4");
    OneCall(c, s, v, MakePort(n), order, lives);
    SetAdrfamStep(c, s, v, n, NEW_PORT);
    OneCall(c, WithPort(s, Decimal(n), NEW_PORT), v, SetAdrfam(n), order, lives - 1);
    SetTraddrStep(c, s, v, n, po);
    OneCall(c, WithPort(s, Decimal(n), po), v, SetTraddr(n), order, lives - 2);
  }

  lemma AddressRun(c: Config, s: Store, v: string, n: nat, order: seq<string>, lives: nat)
    requires 1 <= n && lives >= 2
    ensures RunTask(c, WithPort(s, Decimal(n), Port("ipv4", c.traddr, "", "", {})), v, SetTrsvcid(n), order, lives) ==
            RunTask(c, WithPort(s, Decimal(n), AddressedPort(c, n)), v, Link(n), order, lives - 2)
  {
    hide RunTask, CreateStep, DeleteStep, WithPort;
    var po := Port("ipv4", c.traddr, "", "", {});
    SetTrsvcidStep(c, s, v, n, po);
    OneCall(c, WithPort(s, Decimal(n), po), v, SetTrsvcid(n), order, lives);
    po := po.(trsvcid := ServiceId(n));
    SetTrtypeStep(c, s, v, n, po);
    OneCall(c, WithPort(s, Decimal(n), po), v, SetTrtype(n), order, lives - 1);
  }

  /** A port made anew, up to its link. */
  lemma AddressedPortRun(c: Config, s: Store, v: string, n: nat, order: seq<string>, lives: nat)
    requires 1 <= n && Decimal(n) !in s.ports && lives >= 5
    ensures RunTask(c, s, v, MakePort(n), order, lives) ==
            RunTask(c, WithPort(s, Decimal(n), AddressedPort(c, n)), v, Link(n), order, lives - 5)
  {
    hide RunTask;
    NewPortRun(c, s, v, n, order, lives);
    AddressRun(c, s, v, n, order, lives - 3);
  }

  /** A port that has its address already and is written again, up to its link. */
  lemma ReaddressedPortRun(c: Config, s: Store, v: string, n: nat, order: seq<string>, lives: nat)
    requires 1 <= n && Decimal(n) in s.ports && s.ports[Decimal(n)] == AddressedPort(c, n) && lives >= 5
    ensures RunTask(c, s, v, MakePort(n), order, lives) == RunTask(c, s, v, Link(n), order, lives - 5)
  {
    hide RunTask, DeleteStep, TransportType;
    var po := AddressedPort(c, n);
    assert s.ports[Decimal(n) := po] == s.ports;
    assert WithPort(s, Decimal(n), po) == s;
    OneCall(c, s, v, MakePort(n), order, lives);
    SetAdrfamStep(c, s, v, n, po);
    OneCall(c, s, v, SetAdrfam(n), order, lives - 1);
    SetTraddrStep(c, s, v, n, po);
    OneCall(c, s, v, SetTraddr(n), order, lives - 2);
    SetTrsvcidStep(c, s, v, n, po);
    OneCall(c, s, v, SetTrsvcid(n), order, lives - 3);
    SetTrtypeStep(c, s, v, n, po);
    OneCall(c, s, v, SetTrtype(n), order, lives - 4);
  }

  lemma LinkRun(c: Config, s: Store, v: string, n: nat, po: Port, order: seq<string>, lives: nat)
    requires v in s.subsystems && lives >= 1
    ensures RunTask(c, WithPort(s, Decimal(n), po), v, Link(n), order, lives) ==
            (WithPort(s, Decimal(n), po.(links := po.links + {v})), Done(true))
  {
    LinkStep(c, s, v, n, po);
    OneCall(c, WithPort(s, Decimal(n), po), v, Link(n), order, lives);
  }

  lemma MakePortRun(c: Config, s: Store, v: string, n: nat, order: seq<string>, lives: nat)
    requires 1 <= n && Decimal(n) !in s.ports && v in s.subsystems && lives >= 6
    ensures RunTask(c, s, v, MakePort(n), order, lives) ==
            (WithPort(s, Decimal(n), AddressedPort(c, n).(links := {v})), Done(true))
  {
    hide RunTask;
    AddressedPortRun(c, s, v, n, order, lives);
    LinkRun(c, s, v, n, AddressedPort(c, n), order, lives - 5);
    assert {} + {v} == {v};
  }

  lemma WithSubsystemTwice(s: Store, v: string, ss: Subsystem, ss': Subsystem)
    ensures WithSubsystem(WithSubsystem(s, v, ss), v, ss') == WithSubsystem(s, v, ss')
  {
    assert s.subsystems[v := ss][v := ss'] == s.subsystems[v := ss'];
  }

  lemma AllowAnyHostStep(c: Config, s: Store, v: string, ss: Subsystem)
    ensures CreateStep(c, WithSubsystem(s, v, ss), v, AllowAnyHost)
            == (WithSubsystem(s, v, ss.(allowAnyHost := true)), MakeNamespace)
  {
    WithSubsystemTwice(s, v, ss, ss.(allowAnyHost := true));
  }

  lemma MakeNamespaceStep(c: Config, s: Store, v: string)
    ensures CreateStep(c, WithSubsystem(s, v, Subsystem(true, map[])), v, MakeNamespace)
            == (WithSubsystem(s, v, Subsystem(true, map[c.ns := Namespace("", false)])), SetDevicePath)
  {
    WithSubsystemTwice(s, v, Subsystem(true, map[]), Subsystem(true, map[c.ns := Namespace("", false)]));
  }

  lemma SetDevicePathStep(c: Config, s: Store, v: string, ns: Namespace)
    ensures CreateStep(c, WithSubsystem(s, v, Subsystem(true, map[c.ns := ns])), v, SetDevicePath)
            == (WithSubsystem(s, v, Subsystem(true, map[c.ns := ns.(devicePath := DevicePath(c, v))])), Enable)
  {
    var ns' := ns.(devicePath := DevicePath(c, v));
    assert map[c.ns := ns][c.ns := ns'] == map[c.ns := ns'];
    WithSubsystemTwice(s, v, Subsystem(true, map[c.ns := ns]), Subsystem(true, map[c.ns := ns']));
  }

  lemma EnableStep(c: Config, s: Store, v: string, ns: Namespace)
    ensures CreateStep(c, WithSubsystem(s, v, Subsystem(true, map[c.ns := ns])), v, Enable)
            == (WithSubsystem(s, v, Subsystem(true, map[c.ns := ns.(enable := true)])), PickPort(1))
  {
    var ns' := ns.(enable := true);
    assert map[c.ns := ns][c.ns := ns'] == map[c.ns := ns'];
    WithSubsystemTwice(s, v, Subsystem(true, map[c.ns := ns]), Subsystem(true, map[c.ns := ns']));
  }

  lemma NewSubsystemRun(c: Config, s: Store, v: string, order: seq<string>, lives: nat)
    requires v !in s.subsystems && lives >= 2
    ensures RunTask(c, s, v, MakeSubsystem, order, lives) ==
            RunTask(c, WithSubsystem(s, v, Subsystem(true, map[])), v, MakeNamespace, order, lives - 2)
  {
    hide RunTask, DeleteStep;
    var ss := Subsystem(false, map[]);
    OneCall(c, s, v, MakeSubsystem, order, lives);
    AllowAnyHostStep(c, s, v, ss);
    OneCall(c, WithSubsystem(s, v, ss), v, AllowAnyHost, order, lives - 1);
  }

  lemma NewNamespaceRun(c: Config, s: Store, v: string, order: seq<string>, lives: nat)
    requires lives >= 3
    ensures RunTask(c, WithSubsystem(s, v, Subsystem(true, map[])), v, MakeNamespace, order, lives) ==
            RunTask(c, WithExport(c, s, v), v, PickPort(1), order, lives - 3)
  {
    hide RunTask, CreateStep, DeleteStep, WithSubsystem;
    var ns := Namespace("", false);
    MakeNamespaceStep(c, s, v);
    OneCall(c, WithSubsystem(s, v, Subsystem(true, map[])), v, MakeNamespace, order, lives);
    SetDevicePathStep(c, s, v, ns);
    OneCall(c, WithSubsystem(s, v, Subsystem(true, map[c.ns := ns])), v, SetDevicePath, order, lives - 1);
    ns := Namespace(DevicePath(c, v), false);
    EnableStep(c, s, v, ns);
    OneCall(c, WithSubsystem(s, v, Subsystem(true, map[c.ns := ns])), v, Enable, order, lives - 2);
  }

  /** The store with the subsystem of `v` as publish makes it. */
  function WithExport(c: Config, s: Store, v: string): Store {
    WithSubsystem(s, v, Subsystem(true, map[c.ns := Namespace(DevicePath(c, v), true)]))
  }

  lemma MakeSubsystemRun(c: Config, s: Store, v: string, order: seq<string>, lives: nat)
    requires v !in s.subsystems && lives >= 5
    ensures RunTask(c, s, v, MakeSubsystem, order, lives) == RunTask(c, WithExport(c, s, v), v, PickPort(1), order, lives - 5)
  {
    hide RunTask;
    NewSubsystemRun(c, s, v, order, lives);
    NewNamespaceRun(c, s, v, order, lives - 2);
  }

  /** What publish changes, written out: the subsystem, with one namespace on the volume's device, and port number `n`. */
  predicate AddsExport(c: Config, s: Store, s': Store, v: string, n: nat) {
    && s'.volumes == s.volumes
    && s'.subsystems == s.subsystems[v := Subsystem(true, map[c.ns := Namespace("/dev/" + c.vg + "/" + v, true)])]
    && s'.ports == s.ports[Decimal(n) := Port("ipv4", c.traddr, if n <= 100 then Decimal(4419 + n) else "",
                                              if c.trtype == "rdma" || c.trtype == "tcp" then c.trtype else "", {v})]
  }

  /** `n` is the first number whose decimal text names no port. */
  ghost predicate IsFirstFree(s: Store, n: nat) {
    1 <= n && Decimal(n) !in s.ports && forall k :: 1 <= k < n ==> Decimal(k) in s.ports
  }

  lemma PublishedIs(c: Config, s: Store, v: string)
    ensures IsFirstFree(s, LeastFree(s.ports.Keys)) && AddsExport(c, s, Published(c, s, v), v, LeastFree(s.ports.Keys))
  {
  }

  /** A publish that nothing interrupts, of a volume without a subsystem, has exactly this result. */
  lemma PublishCompletes(c: Config, s: Store, v: string, order: seq<string>, lives: nat)
    requires v !in s.subsystems && lives >= LeastFree(s.ports.Keys) + 11
    ensures RunTask(c, s, v, MakeSubsystem, order, lives) == (Published(c, s, v), Done(true))
    ensures exists n :: IsFirstFree(s, n) && AddsExport(c, s, RunTask(c, s, v, MakeSubsystem, order, lives).0, v, n)
  {
    PublishedIs(c, s, v);
    hide RunTask, AddressedPort, LeastFree;
    var n := LeastFree(s.ports.Keys);
    MakeSubsystemRun(c, s, v, order, lives);
    NumberedPortRun(c, WithExport(c, s, v), v, n, order, lives - 5);
  }

  lemma NumberedPortRun(c: Config, s: Store, v: string, n: nat, order: seq<string>, lives: nat)
    requires n == LeastFree(s.ports.Keys) && v in s.subsystems && lives >= n + 6
    ensures RunTask(c, s, v, PickPort(1), order, lives) ==
            (WithPort(s, Decimal(n), AddressedPort(c, n).(links := {v})), Done(true))
  {
    hide RunTask;
    PickRun(c, s, v, 1, n, order, lives);
    MakePortRun(c, s, v, n, order, lives - n);
  }

  function WithVolume(s: Store, v: string): Store { s.(volumes := s.volumes[v := 0]) }

  /** A create request that has found port number 1 free and is about to make it. */
  lemma FindsPortOne(c: Config, s: Store, v: string)
    requires v !in s.volumes && v !in s.subsystems && s.ports == map[]
    ensures RunTask(c, s, v, LvCreate(0), [], 7) == (WithExport(c, WithVolume(s, v), v), MakePort(1))
  {
    hide RunTask;
    var s1 := WithVolume(s, v);
    OneCall(c, s, v, LvCreate(0), [], 7);
    assert Step(c, s, v, LvCreate(0), []) == (s1, MakeSubsystem);
    MakeSubsystemRun(c, s1, v, [], 6);
    PickCall(c, WithExport(c, s1, v), v, 1, [], 1);
    NoMoreCalls(c, WithExport(c, s1, v), v, MakePort(1), [], 0);
  }

  function Created(c: Config, s: Store, v: string, capacity: nat): Store {
    Published(c, s.(volumes := s.volumes[v := capacity]), v)
  }

  /** What a create changes: it adds the volume and its export. */
  ghost predicate AddsVolume(c: Config, s: Store, s': Store, v: string, capacity: nat) {
    exists n :: IsFirstFree(s, n) && AddsExport(c, s.(volumes := s.volumes[v := capacity]), s', v, n)
  }

  lemma CreatedAddsVolume(c: Config, s: Store, v: string, capacity: nat)
    ensures AddsVolume(c, s, Created(c, s, v, capacity), v, capacity)
  {
    var s1 := s.(volumes := s.volumes[v := capacity]);
    PublishedIs(c, s1, v);
    assert IsFirstFree(s, LeastFree(s1.ports.Keys));
    hide Published;
  }

  /** A create request up to the copy of a source volume, from a state where only volumes have subsystems: success means
      that the capacity was allowed, the name was new, and the volume is there and published; nothing else but lack of
      calls stands in its way. */
  lemma CreateIsExact(c: Config, s: Store, v: string, capacity: nat, order: seq<string>, lives: nat)
    requires v in s.subsystems ==> v in s.volumes
    ensures var run := RunTask(c, s, v, CreateTask(c, capacity), order, lives);
            run.1 == Done(true) ==>
              && run.0 == Created(c, s, v, capacity) && AddsVolume(c, s, run.0, v, capacity)
              && v !in s.volumes && capacity <= c.maxCapacity
    ensures lives >= |s.ports| + 13 && v !in s.volumes && capacity <= c.maxCapacity ==>
              RunTask(c, s, v, CreateTask(c, capacity), order, lives) == (Created(c, s, v, capacity), Done(true))
  {
    CreatedAddsVolume(c, s, v, capacity);
    if capacity <= c.maxCapacity {
      OneCall(c, s, v, LvCreate(capacity), order, lives + 1);
      if v !in s.volumes {
        NewVolumeRun(c, s, v, capacity, order, lives);
      }
    }
  }

  /** A create request for too much, or for a name that exists, fails and changes nothing. */
  lemma CreateRefused(c: Config, s: Store, v: string, capacity: nat, order: seq<string>, lives: nat)
    requires capacity > c.maxCapacity || v in s.volumes
    ensures RunTask(c, s, v, CreateTask(c, capacity), order, lives).0 == s
    ensures RunTask(c, s, v, CreateTask(c, capacity), order, lives).1 != Done(true)
  {
    if capacity <= c.maxCapacity {
      FirstCall(c, s, v, LvCreate(capacity), order, lives);
    }
  }

  lemma NewVolumeRun(c: Config, s: Store, v: string, capacity: nat, order: seq<string>, lives: nat)
    requires v !in s.subsystems && v !in s.volumes
    ensures RunTask(c, s, v, LvCreate(capacity), order, lives).1 == Done(true) ==>
              RunTask(c, s, v, LvCreate(capacity), order, lives).0 == Created(c, s, v, capacity)
    ensures lives >= |s.ports| + 13 ==>
              RunTask(c, s, v, LvCreate(capacity), order, lives) == (Created(c, s, v, capacity), Done(true))
  {
    hide RunTask, Created;
    var more := |s.ports| + 13;
    CreateCompletes(c, s, v, capacity, order, lives + more);
    if RunTask(c, s, v, LvCreate(capacity), order, lives).1.Done? {
      MoreLives(c, s, v, LvCreate(capacity), order, lives, more);
    }
    if lives >= more {
      CreateCompletes(c, s, v, capacity, order, lives);
    }
  }

  lemma CreateCompletes(c: Config, s: Store, v: string, capacity: nat, order: seq<string>, lives: nat)
    requires v !in s.subsystems && v !in s.volumes && lives >= |s.ports| + 13
    ensures RunTask(c, s, v, LvCreate(capacity), order, lives) == (Created(c, s, v, capacity), Done(true))
  {
    hide RunTask;
    var s1 := s.(volumes := s.volumes[v := capacity]);
    OneCall(c, s, v, LvCreate(capacity), order, lives);
    assert Step(c, s, v, LvCreate(capacity), order) == (s1, MakeSubsystem);
    assert |s.ports.Keys| == |s.ports|;
    PublishCompletes(c, s1, v, order, lives - 1);
  }

  /* Unpublish and delete. */

  function Unpublished(s: Store, v: string): Store {
    s.(subsystems := s.subsystems - {v}, ports := s.ports - Links(s, v))
  }

  function Deleted(s: Store, v: string): Store {
    Unpublished(s, v).(volumes := s.volumes - {v})
  }

  /** What the delete handler needs to get to its end: its directories hold nothing that is not its own. */
  predicate Removable(c: Config, s: Store, v: string) {
    && (forall p :: p in Links(s, v) ==> s.ports[p].links == {v})
    && (v in s.subsystems ==> s.subsystems[v].namespaces.Keys <= {c.ns})
  }

  function Swept(s: Store, v: string, todo: seq<string>): Store {
    s.(ports := map p | p in s.ports && !(p in todo && v in s.ports[p].links) :: s.ports[p])
  }

  predicate Clean(s: Store, v: string, todo: seq<string>) {
    forall p :: p in todo && p in s.ports && v in s.ports[p].links ==> s.ports[p].links == {v}
  }

  predicate Todo(s: Store, todo: seq<string>) {
    && (forall i :: 0 <= i < |todo| ==> todo[i] in s.ports)
    && (forall i, j :: 0 <= i < j < |todo| ==> todo[i] != todo[j])
  }

  /** A port that links only `v` goes with its link; one that links more stops the handler. */
  lemma UnlinkStep(c: Config, s: Store, v: string, p: string, todo: seq<string>, order: seq<string>) returns (s1: Store)
    requires p in s.ports && v in s.ports[p].links
    ensures DeleteStep(c, s, v, Unlink(p, todo), order) == (s1, RemovePort(p, todo))
    ensures if s.ports[p].links == {v}
            then DeleteStep(c, s1, v, RemovePort(p, todo), order) == (Swept(s, v, [p]), Scan(todo))
            else DeleteStep(c, s1, v, RemovePort(p, todo), order).1 == Done(false)
  {
    s1 := WithPort(s, p, s.ports[p].(links := s.ports[p].links - {v}));
    assert s1.ports[p].links == {} <==> s.ports[p].links == {v} by {
      assert s.ports[p].links == s1.ports[p].links + {v};
    }
    assert s1.(ports := s1.ports - {p}) == Swept(s, v, [p]);
  }

  lemma VisitRun(c: Config, s: Store, v: string, todo: seq<string>, order: seq<string>, lives: nat) returns (rest: nat)
    requires Todo(s, todo) && todo != [] && lives >= 3
    ensures lives - 3 <= rest < lives
    ensures if Clean(s, v, [todo[0]])
            then RunTask(c, s, v, Scan(todo), order, lives) == RunTask(c, Swept(s, v, [todo[0]]), v, Scan(todo[1..]), order, rest)
            else RunTask(c, s, v, Scan(todo), order, lives).1 == Done(false)
  {
    hide RunTask;
    var p, rest' := todo[0], todo[1..];
    OneCall(c, s, v, Scan(todo), order, lives);
    assert p in [p];
    if v in s.ports[p].links {
      var s1 := UnlinkStep(c, s, v, p, rest', order);
      OneCall(c, s, v, Unlink(p, rest'), order, lives - 1);
      OneCall(c, s1, v, RemovePort(p, rest'), order, lives - 2);
      if s.ports[p].links != {v} {
        NoMoreCalls(c, DeleteStep(c, s1, v, RemovePort(p, rest'), order).0, v, Done(false), order, lives - 3);
      }
      rest := lives - 3;
    } else {
      rest := lives - 1;
      assert Swept(s, v, [p]) == s;
    }
  }

  lemma SweptCons(s: Store, v: string, todo: seq<string>)
    requires Todo(s, todo) && todo != []
    ensures Todo(Swept(s, v, [todo[0]]), todo[1..])
    ensures Swept(Swept(s, v, [todo[0]]), v, todo[1..]) == Swept(s, v, todo)
    ensures Clean(s, v, [todo[0]]) ==> (Clean(s, v, todo) <==> Clean(Swept(s, v, [todo[0]]), v, todo[1..]))
  {
    assert todo == [todo[0]] + todo[1..];
  }

  lemma {:induction false} ScanRun(c: Config, s: Store, v: string, todo: seq<string>, order: seq<string>, lives: nat) returns (rest: nat)
    requires Todo(s, todo) && lives >= 3 * |todo|
    ensures lives - 3 * |todo| <= rest
    ensures if Clean(s, v, todo)
            then RunTask(c, s, v, Scan(todo), order, lives) == RunTask(c, Swept(s, v, todo), v, Scan([]), order, rest)
            else RunTask(c, s, v, Scan(todo), order, lives).1 == Done(false)
    decreases |todo|
  {
    if todo == [] {
      rest := lives;
      assert Swept(s, v, []) == s;
    } else {
      rest := VisitRun(c, s, v, todo, order, lives);
      assert todo[0] in todo;
      if Clean(s, v, [todo[0]]) {
        SweptCons(s, v, todo);
        rest := ScanRun(c, Swept(s, v, [todo[0]]), v, todo[1..], order, rest);
      } else {
        assert !Clean(s, v, todo);
      }
    }
  }

  lemma SweptAll(s: Store, v: string, order: seq<string>)
    requires IsListing(order, s.ports.Keys)
    ensures Links(Swept(s, v, order), v) == {}
    ensures Swept(s, v, order).ports == s.ports - Links(s, v)
    ensures Clean(s, v, order) <==> forall p :: p in Links(s, v) ==> s.ports[p].links == {v}
  {
  }

  /** The end of unpublish: from an empty scan to the removal of the logical volume. */
  lemma RemoveRun(c: Config, s: Store, v: string, order: seq<string>, lives: nat)
    requires Links(s, v) == {} && lives >= 3
    ensures if v in s.subsystems && !(s.subsystems[v].namespaces.Keys <= {c.ns})
            then RunTask(c, s, v, Scan([]), order, lives).1 == Done(false)
            else RunTask(c, s, v, Scan([]), order, lives) ==
                 RunTask(c, s.(subsystems := s.subsystems - {v}), v, LvRemove, order, lives - 3)
  {
    hide RunTask;
    var s1 := DeleteStep(c, s, v, RemoveNamespace, order).0;
    OneCall(c, s, v, Scan([]), order, lives);
    OneCall(c, s, v, RemoveNamespace, order, lives - 1);
    OneCall(c, s1, v, RemoveSubsystem, order, lives - 2);
    assert Links(s1, v) == Links(s, v);
    if v in s.subsystems {
      var left := s1.subsystems[v].namespaces;
      assert left.Keys == s.subsystems[v].namespaces.Keys - {c.ns};
      assert left == map[] <==> left.Keys == {};
      assert s1.subsystems - {v} == s.subsystems - {v};
      if left != map[] {
        NoMoreCalls(c, s1, v, Done(false), order, lives - 3);
      }
    } else {
      assert s.subsystems - {v} == s.subsystems;
    }
  }

  /** Given calls enough, unpublish gets to its end exactly when the volume's directories are its own, and then it
      has removed all and only this volume's links, the ports that held them, its namespace and its subsystem. */
  lemma UnpublishCompletes(c: Config, s: Store, v: string, order: seq<string>, lives: nat) returns (rest: nat)
    requires IsListing(order, s.ports.Keys) && lives >= 3 * |order| + 4
    ensures lives - 3 * |order| - 4 <= rest
    ensures if Removable(c, s, v)
            then RunTask(c, s, v, ListPorts, order, lives) == RunTask(c, Unpublished(s, v), v, LvRemove, order, rest)
            else RunTask(c, s, v, ListPorts, order, lives).1 == Done(false)
  {
    hide RunTask;
    OneCall(c, s, v, ListPorts, order, lives);
    rest := ScanRun(c, s, v, order, order, lives - 1);
    if Clean(s, v, order) {
      var s1 := Swept(s, v, order);
      SweptAll(s, v, order);
      RemoveRun(c, s1, v, order, rest);
      rest := rest - 3;
    }
  }

  /** What a delete takes away, written out: the volume, its subsystem, and the ports that link it. */
  predicate TakesVolume(s: Store, s': Store, v: string) {
    && s'.volumes == s.volumes - {v}
    && s'.subsystems == s.subsystems - {v}
    && s'.ports == map p | p in s.ports && v !in s.ports[p].links :: s.ports[p]
  }

  lemma DeletedTakesVolume(s: Store, v: string)
    ensures TakesVolume(s, Deleted(s, v), v)
  {
  }

  /** A delete request that reports success has removed this volume and nothing else, from any state. */
  lemma DeleteIsExact(c: Config, s: Store, v: string, order: seq<string>, lives: nat)
    requires IsListing(order, s.ports.Keys)
    ensures RunTask(c, s, v, ListPorts, order, lives).1 == Done(true) ==>
              && RunTask(c, s, v, ListPorts, order, lives).0 == Deleted(s, v)
              && TakesVolume(s, RunTask(c, s, v, ListPorts, order, lives).0, v)
              && v in s.volumes && Removable(c, s, v)
    ensures lives >= 3 * |order| + 5 && v in s.volumes && Removable(c, s, v) ==>
              RunTask(c, s, v, ListPorts, order, lives) == (Deleted(s, v), Done(true))
  {
    DeletedTakesVolume(s, v);
    hide TakesVolume;
    var more := 3 * |order| + 5;
    var rest := UnpublishCompletes(c, s, v, order, lives + more);
    if RunTask(c, s, v, ListPorts, order, lives).1.Done? {
      MoreLives(c, s, v, ListPorts, order, lives, more);
    }
    if lives >= more {
      rest := UnpublishCompletes(c, s, v, order, lives);
    }
  }

  /** What a delete does next while there is nothing to remove. */
  predicate RemovesNothing(t: Task) { IsDeleting(t) && !t.Unlink? && !t.RemovePort? }

  /** A delete request for a volume that does not exist fails, or stops, and changes nothing. */
  lemma {:induction false} DeleteOfNothing(c: Config, s: Store, v: string, t: Task, order: seq<string>, lives: nat)
    requires v !in s.volumes && v !in s.subsystems && Links(s, v) == {} && RemovesNothing(t)
    ensures RunTask(c, s, v, t, order, lives).0 == s && RunTask(c, s, v, t, order, lives).1 != Done(true)
    decreases lives
  {
    hide RunTask;
    FirstCall(c, s, v, t, order, lives);
    if lives > 0 {
      NothingStep(c, s, v, t, order);
      if !Step(c, s, v, t, order).1.Done? {
        DeleteOfNothing(c, s, v, Step(c, s, v, t, order).1, order, lives - 1);
      }
    }
  }

  lemma NothingStep(c: Config, s: Store, v: string, t: Task, order: seq<string>)
    requires v !in s.volumes && v !in s.subsystems && Links(s, v) == {} && RemovesNothing(t)
    ensures var (s', t') := Step(c, s, v, t, order); s' == s && (t' == Done(false) || RemovesNothing(t'))
  {
    assert forall p :: p in s.ports ==> p !in Links(s, v);
  }

  /** In every state a serialised run leads to, deletion can always be carried through. */
  lemma ReachableIsRemovable(c: Config, y: System, v: string)
    requires SerialInv(c, y)
    ensures Removable(c, y.store, v)
  {
    assert Local(c, y.store, v, TaskOf(y, v));
    forall p | p in Links(y.store, v) ensures y.store.ports[p].links == {v} {
      var n: nat, w: string :| IsPortOf(c, p, y.store.ports[p], n, w);
    }
  }

  /** Unpublish leaves what every other volume exports as it was. */
  lemma UnpublishKeepsOthers(c: Config, y: System, v: string, w: string)
    requires SerialInv(c, y) && w != v
    ensures SameFor(y.store, Unpublished(y.store, v), w)
    ensures forall p :: p in Links(y.store, w) ==> Unpublished(y.store, v).ports[p] == y.store.ports[p]
  {
    ReachableIsRemovable(c, y, v);
    assert Links(Unpublished(y.store, v), w) == Links(y.store, w);
  }

  /** Publish, then unpublish, of a volume that had no subsystem restores the store exactly. */
  lemma PublishUnpublish(c: Config, y: System, v: string)
    requires SerialInv(c, y) && v !in y.store.subsystems
    ensures Removable(c, Published(c, y.store, v), v)
    ensures Unpublished(Published(c, y.store, v), v) == y.store
  {
    hide Published, Unpublished, Removable;
    var s := y.store;
    assert Local(c, s, v, TaskOf(y, v));
    assert forall q :: q in s.ports ==> q !in Links(s, v);
    AddedExport(c, s, v, LeastFree(s.ports.Keys));
  }

  lemma AddedExport(c: Config, s: Store, v: string, n: nat)
    requires n == LeastFree(s.ports.Keys) && v !in s.subsystems && forall q :: q in s.ports ==> v !in s.ports[q].links
    ensures Removable(c, Published(c, s, v), v)
    ensures Unpublished(Published(c, s, v), v) == s
  {
    var p, po := Decimal(n), AddressedPort(c, n).(links := {v});
    assert p !in s.ports.Keys;
    AddedPort(WithExport(c, s, v), v, p, po);
    assert WithExport(c, s, v).subsystems - {v} == s.subsystems;
  }

  lemma AddedPort(s: Store, v: string, p: string, po: Port)
    requires p !in s.ports && po.links == {v} && forall q :: q in s.ports ==> v !in s.ports[q].links
    ensures Links(WithPort(s, p, po), v) == {p}
    ensures s.ports[p := po] - {p} == s.ports
  {
  }

  /** The service id a publish configures is set exactly when some number up to 100 names no port. */
  lemma ServiceIdIsSet(c: Config, s: Store, v: string)
    ensures var n := LeastFree(s.ports.Keys);
            Published(c, s, v).ports[Decimal(n)].trsvcid != "" <==>
            exists k :: 1 <= k <= 100 && Decimal(k) !in s.ports
  {
    var n := LeastFree(s.ports.Keys);
    assert Decimal(n) !in s.ports.Keys;
    assert forall k :: 1 <= k < n ==> Decimal(k) in s.ports.Keys;
  }

  /* Requests as runs. */

  lemma AdvanceSerial(c: Config, es: seq<Event>, s: Store, v: string, t: Task, order: seq<string>)
    requires AfterSerial(c, es) == System(s, map[v := t]) && (t.ListPorts? ==> IsListing(order, s.ports.Keys))
    ensures var (s1, t1) := Step(c, s, v, t, order);
            AfterSerial(c, es + [Advance(v, order)]) == System(s1, SetTask(map[], v, t1))
  {
    hide Step;
    OneMoreEvent(c, es, Advance(v, order));
    var t1 := Step(c, s, v, t, order).1;
    assert SetTask(map[v := t], v, t1) == SetTask(map[], v, t1);
  }

  lemma NoListingLater(c: Config, s: Store, v: string, t: Task, order: seq<string>)
    requires !t.Done?
    ensures !Step(c, s, v, t, order).1.ListPorts?
  {
  }

  lemma {:induction false} AdvanceRun(c: Config, es: seq<Event>, s: Store, v: string, t: Task, order: seq<string>, lives: nat)
    returns (es': seq<Event>)
    requires !t.Done? && AfterSerial(c, es) == System(s, map[v := t])
    requires t.ListPorts? ==> IsListing(order, s.ports.Keys)
    ensures var (s', t') := RunTask(c, s, v, t, order, lives);
            AfterSerial(c, es') == System(s', SetTask(map[], v, t'))
    decreases lives
  {
    hide RunTask, Step;
    if lives == 0 {
      es' := es;
      NoMoreCalls(c, s, v, t, order, lives);
    } else {
      var (s1, t1) := Step(c, s, v, t, order);
      es' := es + [Advance(v, order)];
      AdvanceSerial(c, es, s, v, t, order);
      OneCall(c, s, v, t, order, lives);
      NoListingLater(c, s, v, t, order);
      if t1.Done? {
        NoMoreCalls(c, s1, v, t1, order, lives - 1);
      } else {
        es' := AdvanceRun(c, es', s1, v, t1, order, lives - 1);
      }
    }
  }

  /** A request by itself, until it ends or stops, extends a serialised run. */
  lemma RequestExtendsRun(c: Config, es: seq<Event>, begin: Event, order: seq<string>, lives: nat)
    returns (es': seq<Event>)
    requires begin.BeginCreate? || begin.BeginDelete?
    requires AfterSerial(c, es).tasks == map[]
    requires begin.BeginDelete? ==> IsListing(order, AfterSerial(c, es).store.ports.Keys)
    ensures var t := if begin.BeginCreate? then CreateTask(c, begin.capacity) else ListPorts;
            AfterSerial(c, es') == System(RunTask(c, AfterSerial(c, es).store, begin.v, t, order, lives).0, map[])
  {
    var y, v := AfterSerial(c, es), begin.v;
    var t := if begin.BeginCreate? then CreateTask(c, begin.capacity) else ListPorts;
    var es1 := es + [begin];
    OneMoreEvent(c, es, begin);
    if t.Done? {
      assert SetTask(map[], v, t) == map[];
      es' := es1;
    } else {
      es1 := AdvanceRun(c, es1, y.store, v, t, order, lives);
      OneMoreEvent(c, es1, Stop(v));
      StopEnds(v, RunTask(c, y.store, v, t, order, lives).1);
      es' := es1 + [Stop(v)];
    }
  }

  lemma OneMoreEvent(c: Config, es: seq<Event>, e: Event)
    ensures AfterSerial(c, es + [e]) == ApplySerial(c, AfterSerial(c, es), e)
  {
    assert (es + [e])[..|es|] == es;
  }

  lemma StopEnds(v: string, t: Task)
    ensures SetTask(map[], v, t) - {v} == map[]
  {
  }

  /* Running out of service ids. */

  /** How the numbers from 1 to `n` are printed. */
  function Numbers(n: nat): set<string> {
    set k | 1 <= k <= n :: Decimal(k)
  }

  lemma NextNumber(n: nat)
    ensures Decimal(n + 1) !in Numbers(n) && Numbers(n + 1) == Numbers(n) + {Decimal(n + 1)}
    ensures LeastFree(Numbers(n)) == n + 1
  {
    DecimalRoundTrip(n + 1);
    forall k: nat | k <= n ensures Decimal(k) != Decimal(n + 1) {
      DecimalRoundTrip(k);
    }
    assert forall k :: 1 <= k <= n ==> Decimal(k) in Numbers(n);
  }

  /** One volume after another, named and numbered 1 to `n`: publish succeeds each time, and from number 101 on it leaves
      a linked port without a service id. */
  lemma {:induction false} ServiceIdsRunOut(c: Config, n: nat) returns (es: seq<Event>)
    ensures var y := AfterSerial(c, es);
            && y.tasks == map[]
            && y.store.volumes.Keys == y.store.ports.Keys == Numbers(n)
            && (n > 0 ==> Decimal(n) in y.store.ports && y.store.ports[Decimal(n)].links == {Decimal(n)})
            && (n > 100 ==> y.store.ports[Decimal(n)].trsvcid == "")
  {
    hide RunTask, Created;
    if n == 0 {
      es := [];
    } else {
      es := ServiceIdsRunOut(c, n - 1);
      NextNumber(n - 1);
      var s, v := AfterSerial(c, es).store, Decimal(n);
      SerialRunsKeepInv(c, es);
      assert Local(c, s, v, TaskOf(AfterSerial(c, es), v));
      var lives := |s.ports| + 13;
      CreateIsExact(c, s, v, 0, [], lives);
      CreatedNumber(c, s, v, n);
      es := RequestExtendsRun(c, es, BeginCreate(v, 0), [], lives);
    }
  }

  lemma CreatedNumber(c: Config, s: Store, v: string, n: nat)
    requires n == LeastFree(s.ports.Keys)
    ensures var s' := Created(c, s, v, 0);
            && s'.volumes.Keys == s.volumes.Keys + {v} && s'.ports.Keys == s.ports.Keys + {Decimal(n)}
            && s'.ports[Decimal(n)] == AddressedPort(c, n).(links := {v})
  {
    hide LeastFree, AddressedPort, Decimal;
    UpdateKeys(s.volumes, v, 0);
    UpdateKeys(s.ports, Decimal(n), AddressedPort(c, n).(links := {v}));
  }

  lemma UpdateKeys<T>(m: map<string, T>, k: string, x: T)
    ensures m[k := x].Keys == m.Keys + {k}
  {
  }
}
