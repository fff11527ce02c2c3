/** Why one-to-one links need both conditions: runs in which two creates end up on one port, and in which a delete lets a
    volume be created over again while it is linked. */
module ExportRaces {
  import opened Text
  import opened Ports
  import opened Export
  import opened ExportSafety
  import opened ExportSerial
  import opened ExportRuns
  import opened ExportOverlap
  import opened ExportOneToOne

  /* Two creates at once. */

  predicate NoDeletes(es: seq<PoolEvent>) {
    forall n :: 0 <= n < |es| ==> !es[n].OpenDelete?
  }

  ghost predicate NoneDeleting(y: Pool) {
    forall i :: i in y.open ==> !IsDeleting(y.open[i].task)
  }

  lemma StepStaysCreate(c: Config, s: Store, v: string, t: Task, order: seq<string>)
    ensures IsDeleting(Step(c, s, v, t, order).1) ==> IsDeleting(t)
    ensures IsCreating(Step(c, s, v, t, order).1) ==> IsCreating(t)
  {
  }

  lemma {:induction false} NoneEverDeletes(c: Config, es: seq<PoolEvent>, k: nat)
    requires k <= |es| && NoDeletes(es)
    ensures NoneDeleting(AfterPool(c, es[..k]))
  {
    if k > 0 {
      hide ApplyPool, NoneDeleting;
      NoneEverDeletes(c, es, k - 1);
      PoolPrefix(c, es, k - 1);
      ApplyKeepsNoneDeleting(c, AfterPool(c, es[..k - 1]), es[k - 1]);
    } else {
      assert NoneDeleting(Pool(EMPTY_STORE, map[]));
    }
  }

  lemma ApplyKeepsNoneDeleting(c: Config, y: Pool, e: PoolEvent)
    requires NoneDeleting(y) && !e.OpenDelete?
    ensures NoneDeleting(ApplyPool(c, y, e))
  {
    assert e.OpenCreate? ==> !IsDeleting(CreateTask(c, e.capacity));
    hide Step, IsDeleting, IsListing;
    if e.Call? && e.id in y.open {
      StepStaysCreate(c, y.store, y.open[e.id].v, y.open[e.id].task, e.order);
    }
  }

  /** A request begins, and gets to the point where it has found port number 1 free. */
  lemma BeginsAndFinds(c: Config, es: seq<PoolEvent>, y: Pool, id: nat, v: string) returns (es': seq<PoolEvent>)
    requires AfterPool(c, es) == y && id !in y.open && NoDeletes(es)
    requires v !in y.store.volumes && v !in y.store.subsystems && y.store.ports == map[]
    ensures AfterPool(c, es') == Pool(WithExport(c, WithVolume(y.store, v), v), y.open[id := Request(v, MakePort(1))])
    ensures NoDeletes(es')
  {
    hide RunTask, Step, WithExport, WithVolume;
    OneMoreCall(c, es, OpenCreate(id, v, 0));
    FindsPortOne(c, y.store, v);
    es' := CallsRun(c, es + [OpenCreate(id, v, 0)], y.store, y.open, id, Request(v, LvCreate(0)), [], 7);
  }

  lemma AddressesBoth(c: Config, es: seq<PoolEvent>, s: Store, v: string, w: string) returns (es': seq<PoolEvent>)
    requires AfterPool(c, es) == Pool(s, map[0 := Request(v, MakePort(1)), 1 := Request(w, MakePort(1))])
    requires s.ports == map[] && NoDeletes(es)
    ensures AfterPool(c, es') == Pool(WithPort(s, Decimal(1), AddressedPort(c, 1)),
                                      map[0 := Request(v, Link(1)), 1 := Request(w, Link(1))])
    ensures NoDeletes(es')
  {
    hide RunTask, Step;
    var s' := WithPort(s, Decimal(1), AddressedPort(c, 1));
    SwapRequests(Request(v, MakePort(1)), Request(w, MakePort(1)));
    AddressedPortRun(c, s, v, 1, [], 5);
    NoMoreCalls(c, s', v, Link(1), [], 0);
    es' := CallsRun(c, es, s, map[1 := Request(w, MakePort(1))], 0, Request(v, MakePort(1)), [], 5);
    SwapRequests(Request(v, Link(1)), Request(w, MakePort(1)));
    ReaddressedPortRun(c, s', w, 1, [], 5);
    NoMoreCalls(c, s', w, Link(1), [], 0);
    es' := CallsRun(c, es', s', map[0 := Request(v, Link(1))], 1, Request(w, MakePort(1)), [], 5);
  }

  lemma LinksBoth(c: Config, es: seq<PoolEvent>, s: Store, v: string, w: string) returns (es': seq<PoolEvent>)
    requires v in s.subsystems && w in s.subsystems && NoDeletes(es)
    requires AfterPool(c, es) == Pool(WithPort(s, Decimal(1), AddressedPort(c, 1)),
                                      map[0 := Request(v, Link(1)), 1 := Request(w, Link(1))])
    ensures AfterPool(c, es') == Pool(WithPort(s, Decimal(1), AddressedPort(c, 1).(links := {v, w})), map[])
    ensures NoDeletes(es')
  {
    hide RunTask, Step;
    var p, po := Decimal(1), AddressedPort(c, 1);
    var q, r := Request(v, Link(1)), Request(w, Link(1));
    SwapRequests(q, r);
    LinkRun(c, s, v, 1, po, [], 1);
    es' := CallsRun(c, es, WithPort(s, p, po), map[1 := r], 0, q, [], 1);
    assert map[1 := r] - {0} == map[][1 := r];
    assert {} + {v} == {v} && {v} + {w} == {v, w};
    LinkRun(c, s, w, 1, po.(links := {v}), [], 1);
    es' := CallsRun(c, es', WithPort(s, p, po.(links := {v})), map[], 1, r, [], 1);
    assert SetRequest(map[], 1, Request(w, Done(true))) == map[];
  }

  /** For any two volumes there is a run without deletes in which both create requests succeed, on one port: both find
      number 1 free, the second comes upon the directory that the first has made and writes the same attributes, then
      both link it. */
  lemma ConcurrentCreatesShareAPort(c: Config, v: string, w: string) returns (es: seq<PoolEvent>)
    requires v != w
    ensures NeverMixed(c, es)
    ensures var y := AfterPool(c, es);
            && y.open == map[]
            && Decimal(1) in y.store.ports && y.store.ports[Decimal(1)].links == {v, w}
            && !OneVolumeEach(y.store)
  {
    var s1 := WithExport(c, WithVolume(EMPTY_STORE, v), v);
    var s2 := WithExport(c, WithVolume(s1, w), w);
    es := BeginsAndFinds(c, [], Pool(EMPTY_STORE, map[]), 0, v);
    es := BeginsAndFinds(c, es, Pool(s1, map[0 := Request(v, MakePort(1))]), 1, w);
    es := AddressesBoth(c, es, s2, v, w);
    es := LinksBoth(c, es, s2, v, w);
    var po := AfterPool(c, es).store.ports[Decimal(1)];
    assert v in po.links && w in po.links;
    forall k | 0 <= k <= |es| ensures NoMixedOverlap(AfterPool(c, es[..k])) {
      NoneEverDeletes(c, es, k);
    }
  }

  /* One create at a time, and a delete of its volume. */

  lemma CallKeepsOneCreate(c: Config, y: Pool, e: PoolEvent)
    requires AtMostOneCreate(y) && !e.OpenCreate?
    ensures AtMostOneCreate(ApplyPool(c, y, e))
  {
    assert !IsCreating(ListPorts);
    hide Step, IsCreating, IsListing;
    if e.Call? && e.id in y.open {
      StepStaysCreate(c, y.store, y.open[e.id].v, y.open[e.id].task, e.order);
    }
  }

  lemma OneMoreKeepsOneCreate(c: Config, es: seq<PoolEvent>, e: PoolEvent)
    requires OneCreateAtATime(c, es)
    requires e.OpenCreate? ==> AfterPool(c, es).open == map[]
    ensures OneCreateAtATime(c, es + [e])
  {
    hide AtMostOneCreate, ApplyPool;
    var es' := es + [e];
    OneMoreCall(c, es, e);
    assert es[..|es|] == es && es'[..|es'|] == es';
    assert AtMostOneCreate(AfterPool(c, es'[..|es'|])) by {
      assert AtMostOneCreate(AfterPool(c, es[..|es|]));
      if e.OpenCreate? {
        FirstIsOneCreate(c, AfterPool(c, es), e);
      } else {
        CallKeepsOneCreate(c, AfterPool(c, es), e);
      }
    }
    forall k | 0 <= k <= |es| ensures AtMostOneCreate(AfterPool(c, es'[..k])) {
      assert es'[..k] == es[..k];
    }
  }

  lemma FirstIsOneCreate(c: Config, y: Pool, e: PoolEvent)
    requires y.open == map[] && e.OpenCreate?
    ensures AtMostOneCreate(ApplyPool(c, y, e))
  {
  }

  lemma {:induction false} CallsKeepOneCreate(c: Config, es: seq<PoolEvent>, es': seq<PoolEvent>)
    requires OneCreateAtATime(c, es) && OnlyCalls(es, es')
    ensures OneCreateAtATime(c, es')
    decreases |es'|
  {
    if |es'| == |es| {
      assert es' == es;
    } else {
      var n := |es'| - 1;
      CallsKeepOneCreate(c, es, es'[..n]);
      OneMoreKeepsOneCreate(c, es'[..n], es'[n]);
      assert es' == es'[..n] + [es'[n]];
    }
  }

  /** A delete request that finds nothing but the logical volume. */
  lemma FindsOnlyVolume(c: Config, s: Store, v: string)
    requires v !in s.subsystems && s.ports == map[]
    ensures RunTask(c, s, v, ListPorts, [], 4) == (s, LvRemove)
  {
    hide RunTask, CreateStep;
    FirstCall(c, s, v, ListPorts, [], 4);
    FirstCall(c, s, v, Scan([]), [], 3);
    FirstCall(c, s, v, RemoveNamespace, [], 2);
    FirstCall(c, s, v, RemoveSubsystem, [], 1);
    NoMoreCalls(c, s, v, LvRemove, [], 0);
  }

  /** A create request whose volume was exported before: it writes the same again. */
  lemma ReexportStep(c: Config, s: Store, v: string, order: seq<string>)
    requires Exported(c, s, v)
    ensures Step(c, s, v, MakeSubsystem, order) == (s, AllowAnyHost)
    ensures Step(c, s, v, AllowAnyHost, order) == (s, MakeNamespace)
    ensures Step(c, s, v, MakeNamespace, order) == (s, SetDevicePath)
    ensures Step(c, s, v, SetDevicePath, order) == (s, Enable)
    ensures Step(c, s, v, Enable, order) == (s, PickPort(1))
  {
    var ss := Subsystem(true, map[c.ns := Namespace(DevicePath(c, v), true)]);
    assert s.subsystems[v] == ss && s.subsystems[v := ss] == s.subsystems;
    AllowAnyHostStep(c, s, v, ss);
    SetDevicePathStep(c, s, v, Namespace(DevicePath(c, v), true));
    EnableStep(c, s, v, Namespace(DevicePath(c, v), true));
    hide DeleteStep;
  }

  lemma ReexportRun(c: Config, s: Store, v: string, order: seq<string>, lives: nat)
    requires Exported(c, s, v) && lives >= 5
    ensures RunTask(c, s, v, MakeSubsystem, order, lives) == RunTask(c, s, v, PickPort(1), order, lives - 5)
  {
    hide RunTask, Step;
    ReexportStep(c, s, v, order);
    OneCall(c, s, v, MakeSubsystem, order, lives);
    OneCall(c, s, v, AllowAnyHost, order, lives - 1);
    OneCall(c, s, v, MakeNamespace, order, lives - 2);
    OneCall(c, s, v, SetDevicePath, order, lives - 3);
    OneCall(c, s, v, Enable, order, lives - 4);
  }

  /** A create request up to the logical volume, on its own. */
  lemma MakesVolume(c: Config, es: seq<PoolEvent>, s: Store, id: nat, v: string) returns (es': seq<PoolEvent>)
    requires AfterPool(c, es) == Pool(s, map[]) && v !in s.volumes && OneCreateAtATime(c, es)
    ensures AfterPool(c, es') == Pool(WithVolume(s, v), map[id := Request(v, MakeSubsystem)])
    ensures OneCreateAtATime(c, es')
  {
    var begin := OpenCreate(id, v, 0);
    assert Step(c, s, v, LvCreate(0), []) == (WithVolume(s, v), MakeSubsystem);
    hide Step, OneCreateAtATime;
    OneMoreCall(c, es, begin);
    OneMoreKeepsOneCreate(c, es, begin);
    CallOnce(c, es + [begin], s, map[], id, Request(v, LvCreate(0)), []);
    OneMoreKeepsOneCreate(c, es + [begin], Call(id, []));
    es' := es + [begin] + [Call(id, [])];
  }

  /** A delete of that volume, up to the logical volume. */
  lemma DeleteCatchesUp(c: Config, es: seq<PoolEvent>, s: Store, v: string) returns (es': seq<PoolEvent>)
    requires AfterPool(c, es) == Pool(s, map[0 := Request(v, MakeSubsystem)]) && OneCreateAtATime(c, es)
    requires v !in s.subsystems && s.ports == map[]
    ensures AfterPool(c, es') == Pool(s, map[0 := Request(v, MakeSubsystem), 1 := Request(v, LvRemove)])
    ensures OneCreateAtATime(c, es')
  {
    hide RunTask, Step, OneCreateAtATime;
    var es1 := es + [OpenDelete(1, v)];
    OneMoreCall(c, es, OpenDelete(1, v));
    OneMoreKeepsOneCreate(c, es, OpenDelete(1, v));
    FindsOnlyVolume(c, s, v);
    es' := CallsRun(c, es1, s, map[0 := Request(v, MakeSubsystem)], 1, Request(v, ListPorts), [], 4);
    CallsKeepOneCreate(c, es1, es');
  }

  /** The create gets to its end, and then the delete removes the logical volume. */
  lemma BothEnd(c: Config, es: seq<PoolEvent>, s: Store, v: string) returns (es': seq<PoolEvent>)
    requires AfterPool(c, es) == Pool(s, map[0 := Request(v, MakeSubsystem), 1 := Request(v, LvRemove)])
    requires OneCreateAtATime(c, es) && v in s.volumes && v !in s.subsystems
    ensures var s' := Published(c, s, v);
            AfterPool(c, es') == Pool(s'.(volumes := s'.volumes - {v}), map[])
    ensures OneCreateAtATime(c, es')
  {
    PublishedVolumes(c, s, v);
    hide RunTask, Step, OneCreateAtATime, Published, LeastFree;
    var q, r, lives := Request(v, MakeSubsystem), Request(v, LvRemove), LeastFree(s.ports.Keys) + 11;
    SwapRequests(q, r);
    PublishCompletes(c, s, v, [], lives);
    es' := CallsRun(c, es, s, map[1 := r], 0, q, [], lives);
    CallsKeepOneCreate(c, es, es');
    assert map[1 := r] - {0} == map[1 := r];
    es' := RemovesVolume(c, es', Published(c, s, v), v);
  }

  lemma PublishedVolumes(c: Config, s: Store, v: string)
    ensures Published(c, s, v).volumes == s.volumes
  {
  }

  lemma RemovesVolume(c: Config, es: seq<PoolEvent>, s: Store, v: string) returns (es': seq<PoolEvent>)
    requires AfterPool(c, es) == Pool(s, map[1 := Request(v, LvRemove)]) && OneCreateAtATime(c, es) && v in s.volumes
    ensures AfterPool(c, es') == Pool(s.(volumes := s.volumes - {v}), map[])
    ensures OneCreateAtATime(c, es')
  {
    var r := Request(v, LvRemove);
    assert Step(c, s, v, LvRemove, []) == (s.(volumes := s.volumes - {v}), Done(true));
    hide Step, OneCreateAtATime;
    assert map[][1 := r] == map[1 := r];
    CallOnce(c, es, s, map[], 1, r, []);
    OneMoreKeepsOneCreate(c, es, Call(1, []));
    es' := es + [Call(1, [])];
  }

  lemma RelinkRun(c: Config, s: Store, v: string, n: nat)
    requires n == LeastFree(s.ports.Keys) && Exported(c, s, v)
    ensures RunTask(c, s, v, MakeSubsystem, [], n + 11) ==
            (WithPort(s, Decimal(n), AddressedPort(c, n).(links := {v})), Done(true))
  {
    hide RunTask, LeastFree;
    ReexportRun(c, s, v, [], n + 11);
    NumberedPortRun(c, s, v, n, [], n + 6);
  }

  /** A create of a volume whose export is still there links a second port. */
  lemma LinksAgain(c: Config, es: seq<PoolEvent>, s: Store, v: string, n: nat) returns (es': seq<PoolEvent>)
    requires AfterPool(c, es) == Pool(s, map[2 := Request(v, MakeSubsystem)])
    requires OneCreateAtATime(c, es) && Exported(c, s, v) && n == LeastFree(s.ports.Keys)
    ensures AfterPool(c, es') == Pool(WithPort(s, Decimal(n), AddressedPort(c, n).(links := {v})), map[])
    ensures OneCreateAtATime(c, es')
  {
    hide RunTask, Step, OneCreateAtATime, LeastFree, AddressedPort, Exported, WithPort;
    var q := Request(v, MakeSubsystem);
    RelinkRun(c, s, v, n);
    assert SetRequest(map[], 2, Request(v, Done(true))) == map[];
    assert map[][2 := q] == map[2 := q];
    es' := CallsRun(c, es, s, map[], 2, q, [], n + 11);
    CallsKeepOneCreate(c, es, es');
  }

  /** For any volume there is a run with one create at a time which ends with the volume linked from two ports, although
      each port was without links when it was linked: a delete that began while the volume was created removes only its
      logical volume, and the next create links it again. */
  lemma DeleteLetsCreateLinkAgain(c: Config, v: string) returns (es: seq<PoolEvent>)
    ensures OneCreateAtATime(c, es)
    ensures var y := AfterPool(c, es);
            && y.open == map[]
            && Links(y.store, v) == {Decimal(1), Decimal(2)}
            && !LinksOneToOne(y.store)
  {
    var s := WithVolume(EMPTY_STORE, v);
    es := MakesVolume(c, [], EMPTY_STORE, 0, v);
    es := DeleteCatchesUp(c, es, s, v);
    es := BothEnd(c, es, s, v);
    FirstNumbers();
    FirstLink(c, s, v);
    es := MakesVolume(c, es, AfterPool(c, es).store, 2, v);
    es := LinksAgain(c, es, AfterPool(c, es).store, v, 2);
    SecondLink(c, AfterPool(c, es).store, v);
  }

  lemma FirstNumbers()
    ensures LeastFree({}) == 1 && LeastFree({Decimal(1)}) == 2
  {
    NextNumber(0);
    NextNumber(1);
    assert Numbers(0) == {} && Numbers(1) == {Decimal(1)};
  }

  lemma FirstLink(c: Config, s: Store, v: string)
    requires s.ports == map[]
    ensures var s' := Published(c, s, v);
            && s'.ports == map[Decimal(1) := AddressedPort(c, 1).(links := {v})] && s'.ports.Keys == {Decimal(1)}
            && s'.volumes == s.volumes && Exported(c, s', v)
  {
    FirstNumbers();
  }

  lemma SecondLink(c: Config, s: Store, v: string)
    requires s.ports == map[Decimal(1) := AddressedPort(c, 1).(links := {v}),
                            Decimal(2) := AddressedPort(c, 2).(links := {v})]
    ensures Links(s, v) == {Decimal(1), Decimal(2)} && !LinksOneToOne(s)
  {
    assert Decimal(1) != Decimal(2);
    assert v in s.ports[Decimal(1)].links && v in s.ports[Decimal(2)].links;
  }
}
