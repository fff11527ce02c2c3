/** Links with requests that overlap in any way: when exactly they are one to one, and what clients can do to keep them
    so. */
module ExportOneToOne {
  import opened Wrappers
  import opened Text
  import opened Export
  import opened ExportSafety
  import opened ExportSerial
  import opened ExportConcurrent
  import opened ExportOverlap

  /* When exactly links are one to one. */

  ghost predicate OneToOneThroughout(c: Config, es: seq<PoolEvent>) {
    forall k :: 0 <= k <= |es| ==> LinksOneToOne(AfterPool(c, es[..k]).store)
  }

  /** The link that a call makes is the only one of its port, and the only one of its volume. */
  predicate MakesOnlyLink(s: Store, v: string, t: Task) {
    t.Link? && Decimal(t.n) in s.ports && v in s.subsystems ==>
      s.ports[Decimal(t.n)].links <= {v} && Links(s, v) <= {Decimal(t.n)}
  }

  predicate CallMakesOnlyLink(y: Pool, e: PoolEvent) {
    e.Call? && e.id in y.open ==> MakesOnlyLink(y.store, y.open[e.id].v, y.open[e.id].task)
  }

  ghost predicate CallsMakeOnlyLinks(c: Config, es: seq<PoolEvent>) {
    forall k :: 0 <= k < |es| ==> CallMakesOnlyLink(AfterPool(c, es[..k]), es[k])
  }

  /** Only a link adds to the links of a port, and only its own volume. */
  lemma StepAddsLink(c: Config, s: Store, v: string, t: Task, order: seq<string>, p: string)
    ensures var s' := Step(c, s, v, t, order).0;
            p in s'.ports ==>
              s'.ports[p].links <= (if p in s.ports then s.ports[p].links else {}) +
                                   (if t.Link? && p == Decimal(t.n) && p in s.ports && v in s.subsystems then {v} else {})
  {
  }

  lemma OnlyLinkKeepsOneToOne(c: Config, s: Store, v: string, t: Task, order: seq<string>)
    requires LinksOneToOne(s) && MakesOnlyLink(s, v, t)
    ensures LinksOneToOne(Step(c, s, v, t, order).0)
  {
    var s' := Step(c, s, v, t, order).0;
    forall p, u, w | p in s'.ports && u in s'.ports[p].links && w in s'.ports[p].links ensures u == w {
      StepAddsLink(c, s, v, t, order, p);
    }
    forall p, q, u | p in s'.ports && q in s'.ports && u in s'.ports[p].links && u in s'.ports[q].links ensures p == q {
      StepAddsLink(c, s, v, t, order, p);
      StepAddsLink(c, s, v, t, order, q);
      assert p in s.ports && u in s.ports[p].links && u == v ==> p in Links(s, v);
      assert q in s.ports && u in s.ports[q].links && u == v ==> q in Links(s, v);
    }
  }

  lemma OtherLinkBreaksOneToOne(c: Config, s: Store, v: string, t: Task, order: seq<string>)
    requires !MakesOnlyLink(s, v, t)
    ensures !LinksOneToOne(Step(c, s, v, t, order).0)
  {
    var p, s' := Decimal(t.n), Step(c, s, v, t, order).0;
    assert s'.ports[p].links == s.ports[p].links + {v};
    if w :| w in s.ports[p].links && w != v {
      assert v in s'.ports[p].links && w in s'.ports[p].links;
    } else {
      var q :| q in Links(s, v) && q != p;
      assert v in s'.ports[p].links && v in s'.ports[q].links;
    }
  }

  lemma CallOneToOneExactly(c: Config, y: Pool, e: PoolEvent)
    requires LinksOneToOne(y.store)
    ensures LinksOneToOne(ApplyPool(c, y, e).store) <==> CallMakesOnlyLink(y, e)
  {
    if e.Call? && e.id in y.open {
      var q := y.open[e.id];
      if MakesOnlyLink(y.store, q.v, q.task) {
        OnlyLinkKeepsOneToOne(c, y.store, q.v, q.task, e.order);
      } else {
        OtherLinkBreaksOneToOne(c, y.store, q.v, q.task, e.order);
      }
    }
  }

  lemma {:induction false} OnlyLinksOneToOne(c: Config, es: seq<PoolEvent>, k: nat)
    requires k <= |es| && CallsMakeOnlyLinks(c, es)
    ensures LinksOneToOne(AfterPool(c, es[..k]).store)
  {
    if k == 0 {
      assert LinksOneToOne(EMPTY_STORE);
    } else {
      hide ApplyPool, LinksOneToOne, CallMakesOnlyLink;
      OnlyLinksOneToOne(c, es, k - 1);
      PoolPrefix(c, es, k - 1);
      CallOneToOneExactly(c, AfterPool(c, es[..k - 1]), es[k - 1]);
    }
  }

  /** Main result: whatever requests overlap, links are one to one throughout a run exactly when every link that is made is
      the only one of its port and the only one of its volume. */
  lemma OneToOneExactly(c: Config, es: seq<PoolEvent>)
    ensures OneToOneThroughout(c, es) <==> CallsMakeOnlyLinks(c, es)
  {
    hide LinksOneToOne, CallMakesOnlyLink;
    if CallsMakeOnlyLinks(c, es) {
      forall k | 0 <= k <= |es| ensures LinksOneToOne(AfterPool(c, es[..k]).store) {
        OnlyLinksOneToOne(c, es, k);
      }
    }
    if OneToOneThroughout(c, es) {
      forall k | 0 <= k < |es| ensures CallMakesOnlyLink(AfterPool(c, es[..k]), es[k]) {
        PoolPrefix(c, es, k);
        CallOneToOneExactly(c, AfterPool(c, es[..k]), es[k]);
      }
    }
  }

  /* A condition that clients can keep: one create request at a time. */

  ghost predicate AtMostOneCreate(y: Pool) {
    forall i, j :: i in y.open && j in y.open && IsCreating(y.open[i].task) && IsCreating(y.open[j].task) ==> i == j
  }

  ghost predicate OneCreateAtATime(c: Config, es: seq<PoolEvent>) {
    forall k :: 0 <= k <= |es| ==> AtMostOneCreate(AfterPool(c, es[..k]))
  }

  /** A create that has picked its number finds the number free, or the port as it left it, or that a delete has removed
      the port. */
  predicate PortAtOrGone(c: Config, s: Store, t: Task) {
    match t
    case PickPort(n) => 1 <= n
    case MakePort(n) => 1 <= n && Decimal(n) !in s.ports
    case SetAdrfam(n) => 1 <= n && (Decimal(n) in s.ports ==> PortAt(c, s, t))
    case SetTraddr(n) => 1 <= n && (Decimal(n) in s.ports ==> PortAt(c, s, t))
    case SetTrsvcid(n) => 1 <= n && (Decimal(n) in s.ports ==> PortAt(c, s, t))
    case SetTrtype(n) => 1 <= n && (Decimal(n) in s.ports ==> PortAt(c, s, t))
    case Link(n) => 1 <= n && (Decimal(n) in s.ports ==> PortAt(c, s, t))
    case _ => true
  }

  ghost predicate PoolPorts(c: Config, y: Pool) {
    PortsOk(c, y.store) && forall i :: i in y.open ==> PortAtOrGone(c, y.store, y.open[i].task)
  }

  lemma CreateKeepsOwnPort(c: Config, s: Store, v: string, t: Task)
    requires PortsOk(c, s) && PortAtOrGone(c, s, t)
    ensures var (s', t') := CreateStep(c, s, v, t); PortsOk(c, s') && PortAtOrGone(c, s', t')
  {
    if OwnedAt(c, s, t) {
      CreateKeepsOwned(c, s, v, t);
    }
  }

  /** A delete takes a port away only while it has no links, and changes no attribute. */
  lemma DeleteKeepsPort(c: Config, s: Store, v: string, t: Task, order: seq<string>, t': Task)
    requires PortAtOrGone(c, s, t')
    ensures PortAtOrGone(c, DeleteStep(c, s, v, t, order).0, t')
  {
    DeleteOnlyShrinks(c, s, v, t, order);
  }

  lemma DeleteOnlyShrinks(c: Config, s: Store, v: string, t: Task, order: seq<string>)
    ensures var s' := DeleteStep(c, s, v, t, order).0;
            forall p :: p in s'.ports ==>
                          p in s.ports && s'.ports[p] == s.ports[p].(links := s'.ports[p].links)
                          && s'.ports[p].links <= s.ports[p].links
  {
  }

  lemma StepKeepsOwnPort(c: Config, s: Store, v: string, t: Task, order: seq<string>)
    requires PortsOk(c, s) && PortAtOrGone(c, s, t)
    ensures var (s', t') := Step(c, s, v, t, order); PortsOk(c, s') && PortAtOrGone(c, s', t')
  {
    if IsDeleting(t) {
      DeleteKeepsPorts(c, s, v, t, order);
    } else {
      CreateKeepsOwnPort(c, s, v, t);
    }
    hide CreateStep, PortsOk;
  }

  lemma StepKeepsOtherPort(c: Config, s: Store, v: string, t: Task, order: seq<string>, t': Task)
    requires PortAtOrGone(c, s, t') && !(IsCreating(t) && IsCreating(t'))
    ensures PortAtOrGone(c, Step(c, s, v, t, order).0, t')
  {
    hide PortAtOrGone, CreateStep, DeleteStep;
    if IsDeleting(t) {
      DeleteKeepsPort(c, s, v, t, order, t');
    } else if IsCreating(t) {
      OnlyCreatesHavePorts(c, CreateStep(c, s, v, t).0, t');
    } else {
      DoneChangesNothing(c, s, v, t);
    }
  }

  lemma OnlyCreatesHavePorts(c: Config, s: Store, t: Task)
    requires !IsCreating(t)
    ensures PortAtOrGone(c, s, t)
  {
  }

  lemma DoneChangesNothing(c: Config, s: Store, v: string, t: Task)
    requires t.Done?
    ensures CreateStep(c, s, v, t).0 == s
  {
  }

  lemma CallKeepsPorts(c: Config, y: Pool, i: nat, order: seq<string>)
    requires PoolPorts(c, y) && AtMostOneCreate(y) && i in y.open
    ensures PoolPorts(c, ApplyPool(c, y, Call(i, order)))
  {
    hide Step, PortsOk, PortAtOrGone, IsListing, IsCreating;
    var q := y.open[i];
    StepKeepsOwnPort(c, y.store, q.v, q.task, order);
    forall j | j in y.open && j != i ensures PortAtOrGone(c, Step(c, y.store, q.v, q.task, order).0, y.open[j].task) {
      StepKeepsOtherPort(c, y.store, q.v, q.task, order, y.open[j].task);
    }
  }

  lemma ApplyKeepsPorts(c: Config, y: Pool, e: PoolEvent)
    requires PoolPorts(c, y) && AtMostOneCreate(y)
    ensures PoolPorts(c, ApplyPool(c, y, e))
  {
    if e.Call? {
      if e.id in y.open {
        CallKeepsPorts(c, y, e.id, e.order);
      }
    } else {
      hide PortsOk;
    }
  }

  lemma {:induction false} OneCreateKeepsPorts(c: Config, es: seq<PoolEvent>, k: nat)
    requires k <= |es| && OneCreateAtATime(c, es)
    ensures PoolPorts(c, AfterPool(c, es[..k]))
  {
    if k > 0 {
      hide ApplyPool, PoolPorts, AtMostOneCreate;
      OneCreateKeepsPorts(c, es, k - 1);
      PoolPrefix(c, es, k - 1);
      ApplyKeepsPorts(c, AfterPool(c, es[..k - 1]), es[k - 1]);
    } else {
      assert PoolPorts(c, Pool(EMPTY_STORE, map[]));
    }
  }

  ghost predicate OneVolumeEach(s: Store) {
    forall p, v, w :: p in s.ports && v in s.ports[p].links && w in s.ports[p].links ==> v == w
  }

  /** Main result: as long as no two create requests are in flight at once, whatever deletes overlap, of the same volume
      too: no port links two volumes, every linked port has its complete address, and no two share a service id. If no
      delete overlaps a create that works on its volume, links are one to one. ExportRaces shows that neither condition
      can be dropped. */
  lemma OneCreateAtATimeSuffices(c: Config, es: seq<PoolEvent>)
    requires OneCreateAtATime(c, es)
    ensures var s := AfterPool(c, es).store;
            && OneVolumeEach(s) && PortsOk(c, s) && ServiceIdsOneToOne(s)
            && (NeverMixed(c, es) ==> LinksOneToOne(s))
  {
    var s := AfterPool(c, es).store;
    assert es[..|es|] == es;
    OneCreateKeepsPorts(c, es, |es|);
    PortsOkDistinct(c, s);
    forall p, v, w | p in s.ports && v in s.ports[p].links && w in s.ports[p].links ensures v == w {
      var n: nat, u: string :| IsPortOf(c, p, s.ports[p], n, u);
    }
    if NeverMixed(c, es) {
      NeverMixedIsSafe(c, es);
      assert Safe(c, AfterPool(c, es[..|es|]).store);
    }
  }
}
