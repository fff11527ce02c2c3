/** What serialised requests keep besides: one link for each port, complete addresses, distinct service ids. */
module ExportSerial {
  import opened Text
  import opened Ports
  import opened Export
  import opened ExportSafety

  /** The service id that port number `n` gets: the setter refuses a number that is out of range. */
  function ServiceId(n: nat): string
    requires 1 <= n
  {
    if n <= 100 then Decimal(4419 + n) else ""
  }

  function TransportType(c: Config): string {
    if IsTransport(c.trtype) then c.trtype else ""
  }

  /** Port number `n` with its address as publish leaves it. */
  function AddressedPort(c: Config, n: nat): Port
    requires 1 <= n
  {
    Port("ipv4", c.traddr, ServiceId(n), TransportType(c), {})
  }

  ghost predicate IsLinkedPort(c: Config, p: string, po: Port) {
    exists n: nat, v: string :: IsPortOf(c, p, po, n, v)
  }

  ghost predicate IsPortOf(c: Config, p: string, po: Port, n: nat, v: string) {
    1 <= n && p == Decimal(n) && po == AddressedPort(c, n).(links := {v})
  }

  ghost predicate PortsOk(c: Config, s: Store) {
    forall p :: p in s.ports && s.ports[p].links != {} ==> IsLinkedPort(c, p, s.ports[p])
  }

  /** How far the port of a create request has come. */
  predicate PortAt(c: Config, s: Store, t: Task) {
    match t
    case PickPort(n) => 1 <= n && forall k :: 1 <= k < n ==> Decimal(k) in s.ports
    case MakePort(n) => 1 <= n && Decimal(n) !in s.ports && forall k :: 1 <= k < n ==> Decimal(k) in s.ports
    case SetAdrfam(n) => 1 <= n && Decimal(n) in s.ports && s.ports[Decimal(n)] == NEW_PORT
    case SetTraddr(n) => 1 <= n && Decimal(n) in s.ports && s.ports[Decimal(n)] == NEW_PORT.(adrfam := "ipv4")
    case SetTrsvcid(n) =>
      1 <= n && Decimal(n) in s.ports && s.ports[Decimal(n)] == Port("ipv4", c.traddr, "", "", {})
    case SetTrtype(n) =>
      1 <= n && Decimal(n) in s.ports && s.ports[Decimal(n)] == Port("ipv4", c.traddr, ServiceId(n), "", {})
    case Link(n) => 1 <= n && Decimal(n) in s.ports && s.ports[Decimal(n)] == AddressedPort(c, n)
    case _ => true
  }

  ghost predicate SerialInv(c: Config, y: System) {
    && Inv(c, y)
    && (forall v, w :: v in y.tasks && w in y.tasks ==> v == w)
    && PortsOk(c, y.store)
    && (forall v :: v in y.tasks ==> PortAt(c, y.store, y.tasks[v]))
  }

  /** The ports other than the one a call works on. */
  ghost predicate OtherPortsSame(s: Store, s': Store, p: string) {
    forall q :: q != p ==> (q in s'.ports <==> q in s.ports) && (q in s.ports && q in s'.ports ==> s'.ports[q] == s.ports[q])
  }

  lemma CreateKeepsPortAt(c: Config, s: Store, v: string, t: Task)
    requires PortAt(c, s, t)
    ensures var (s', t') := CreateStep(c, s, v, t); PortAt(c, s', t')
  {
  }

  lemma CreateKeepsPorts(c: Config, s: Store, v: string, t: Task)
    requires PortsOk(c, s) && PortAt(c, s, t)
    ensures var (s', t') := CreateStep(c, s, v, t); PortsOk(c, s') && PortAt(c, s', t')
  {
    CreateKeepsPortAt(c, s, v, t);
    CreateKeepsLinkedPorts(c, s, v, t);
  }

  lemma CreateKeepsLinkedPorts(c: Config, s: Store, v: string, t: Task)
    requires PortsOk(c, s) && PortAt(c, s, t)
    ensures PortsOk(c, CreateStep(c, s, v, t).0)
  {
    var (s', _) := CreateStep(c, s, v, t);
    if t.Link? && v in s.subsystems {
      assert s'.ports[Decimal(t.n)].links == {v};
      assert IsPortOf(c, Decimal(t.n), s'.ports[Decimal(t.n)], t.n, v);
    }
    if t.MakePort? || t.SetAdrfam? || t.SetTraddr? || t.SetTrsvcid? || t.SetTrtype? || t.Link? {
      assert OtherPortsSame(s, s', Decimal(t.n));
    } else {
      assert s'.ports == s.ports;
    }
  }

  lemma DeleteKeepsPorts(c: Config, s: Store, v: string, t: Task, order: seq<string>)
    requires PortsOk(c, s)
    ensures PortsOk(c, DeleteStep(c, s, v, t, order).0)
  {
    var s' := DeleteStep(c, s, v, t, order).0;
    if t.Unlink? && t.port in s.ports {
      var p := t.port;
      assert OtherPortsSame(s, s', p);
      if s'.ports[p].links != {} {
        assert s.ports[p].links != {};
        var n: nat, w: string :| IsPortOf(c, p, s.ports[p], n, w);
        assert s'.ports[p].links == {w};
        assert s'.ports[p] == s.ports[p];
      }
    }
  }

  lemma StepKeepsPorts(c: Config, s: Store, v: string, t: Task, order: seq<string>)
    requires PortsOk(c, s) && PortAt(c, s, t)
    ensures var (s', t') := Step(c, s, v, t, order); PortsOk(c, s') && PortAt(c, s', t')
  {
    CreateKeepsPorts(c, s, v, t);
    DeleteKeepsPorts(c, s, v, t, order);
  }

  lemma ApplySerialKeepsInv(c: Config, y: System, e: Event)
    requires SerialInv(c, y)
    ensures SerialInv(c, ApplySerial(c, y, e))
  {
    ApplyKeepsInv(c, y, e);
    if e.Advance? && e.v in y.tasks {
      StepKeepsPorts(c, y.store, e.v, y.tasks[e.v], e.order);
    }
  }

  lemma {:induction false} SerialRunsKeepInv(c: Config, es: seq<Event>)
    ensures SerialInv(c, AfterSerial(c, es))
  {
    if es != [] {
      SerialRunsKeepInv(c, es[..|es| - 1]);
      ApplySerialKeepsInv(c, AfterSerial(c, es[..|es| - 1]), es[|es| - 1]);
    }
  }

  /** Links are one to one: no port links two volumes, no volume is linked from two ports. */
  ghost predicate LinksOneToOne(s: Store) {
    && (forall p, v, w :: p in s.ports && v in s.ports[p].links && w in s.ports[p].links ==> v == w)
    && (forall p, q, v :: p in s.ports && q in s.ports && v in s.ports[p].links && v in s.ports[q].links ==> p == q)
  }

  /** Main result: in every serialised run links are one to one, however requests fail or stop. */
  lemma SerialLinksOneToOne(c: Config, es: seq<Event>)
    ensures Safe(c, AfterSerial(c, es).store)
    ensures LinksOneToOne(AfterSerial(c, es).store)
  {
    SerialRunsKeepInv(c, es);
    var y := AfterSerial(c, es);
    InvIsSafe(c, y);
    forall p, v, w | p in y.store.ports && v in y.store.ports[p].links && w in y.store.ports[p].links ensures v == w {
      var n: nat, u: string :| IsPortOf(c, p, y.store.ports[p], n, u);
    }
  }

  /** The service id of port number `n` is 4420 + n - 1, which lies in 4420..4519, exactly up to number 100. */
  ghost predicate IsAddressOf(c: Config, n: nat, po: Port) {
    && 1 <= n
    && po.adrfam == "ipv4" && po.traddr == c.traddr
    && po.trtype == (if c.trtype == "rdma" || c.trtype == "tcp" then c.trtype else "")
    && (n <= 100 <==> po.trsvcid == Decimal(4420 + n - 1))
    && (n <= 100 <==> 4420 <= 4420 + n - 1 < 4520)
    && (n <= 100 <==> po.trsvcid != "")
  }

  lemma AddressedPortIs(c: Config, n: nat, v: string)
    requires 1 <= n
    ensures IsAddressOf(c, n, AddressedPort(c, n).(links := {v}))
  {
    assert Decimal(4419 + n) != "";
  }

  /** Main result: a linked port has the family, address and transport of the configuration, and the service id that
      belongs to its number exactly when the number is at most 100. */
  lemma LinkedPortAddress(c: Config, es: seq<Event>, p: string)
    requires p in AfterSerial(c, es).store.ports && AfterSerial(c, es).store.ports[p].links != {}
    ensures exists n: nat :: p == Decimal(n) && IsAddressOf(c, n, AfterSerial(c, es).store.ports[p])
  {
    SerialRunsKeepInv(c, es);
    var n: nat, v: string :| IsPortOf(c, p, AfterSerial(c, es).store.ports[p], n, v);
    AddressedPortIs(c, n, v);
  }

  lemma AddressesDistinct(c: Config, s: Store, p: string, q: string)
    requires PortsOk(c, s)
    requires p in s.ports && s.ports[p].links != {} && q in s.ports && s.ports[q].links != {}
    requires s.ports[p].trsvcid == s.ports[q].trsvcid != ""
    ensures p == q
  {
    var m: nat, v: string :| IsPortOf(c, p, s.ports[p], m, v);
    var n: nat, w: string :| IsPortOf(c, q, s.ports[q], n, w);
    DecimalInjective(4419 + m, 4419 + n);
  }

  /** No two linked ports share a service id. */
  ghost predicate ServiceIdsOneToOne(s: Store) {
    forall p, q | p in s.ports && s.ports[p].links != {} && q in s.ports && s.ports[q].links != {} ::
      s.ports[p].trsvcid == s.ports[q].trsvcid != "" ==> p == q
  }

  lemma PortsOkDistinct(c: Config, s: Store)
    requires PortsOk(c, s)
    ensures ServiceIdsOneToOne(s)
  {
    forall p, q | p in s.ports && s.ports[p].links != {} && q in s.ports && s.ports[q].links != {}
                  && s.ports[p].trsvcid == s.ports[q].trsvcid != ""
      ensures p == q
    {
      AddressesDistinct(c, s, p, q);
    }
  }

  /** Main result: two linked ports never share a service id, also after numbers were freed and taken again. */
  lemma ServiceIdsDistinct(c: Config, es: seq<Event>)
    ensures ServiceIdsOneToOne(AfterSerial(c, es).store)
  {
    SerialRunsKeepInv(c, es);
    PortsOkDistinct(c, AfterSerial(c, es).store);
  }

  /** Whenever a request looks for a port number, fewer than 100 ports exist. */
  ghost predicate Roomy(c: Config, es: seq<Event>) {
    forall k, v :: 0 <= k < |es| && v in AfterSerial(c, es[..k]).tasks && AfterSerial(c, es[..k]).tasks[v].PickPort? ==>
                     |AfterSerial(c, es[..k]).store.ports| < 100
  }

  predicate NumberAtMost100(t: Task) {
    match t
    case MakePort(n) => n <= 100
    case SetAdrfam(n) => n <= 100
    case SetTraddr(n) => n <= 100
    case SetTrsvcid(n) => n <= 100
    case SetTrtype(n) => n <= 100
    case Link(n) => n <= 100
    case _ => true
  }

  function LinkedPorts(s: Store): set<string> {
    set p | p in s.ports && s.ports[p].links != {}
  }

  ghost predicate SmallNumbers(y: System) {
    && (forall p, n: nat :: p in LinkedPorts(y.store) && p == Decimal(n) ==> n <= 100)
    && (forall v :: v in y.tasks ==> NumberAtMost100(y.tasks[v]))
  }

  lemma PickedNumber(c: Config, y: System, v: string)
    requires SerialInv(c, y) && v in y.tasks && y.tasks[v].PickPort?
    requires |y.store.ports| < 100
    ensures y.tasks[v].n <= 100
  {
    PassedNumbers(y.store.ports.Keys, y.tasks[v].n);
    assert |y.store.ports.Keys| == |y.store.ports|;
  }

  lemma StepLinksOnly(c: Config, s: Store, v: string, t: Task, order: seq<string>)
    ensures LinkedPorts(Step(c, s, v, t, order).0) <= LinkedPorts(s) + (if t.Link? then {Decimal(t.n)} else {})
  {
  }

  lemma ApplyKeepsSmall(c: Config, y: System, e: Event)
    requires SerialInv(c, y) && SmallNumbers(y)
    requires forall v :: v in y.tasks && y.tasks[v].PickPort? ==> |y.store.ports| < 100
    ensures SmallNumbers(ApplySerial(c, y, e))
  {
    var y' := ApplySerial(c, y, e);
    if e.Advance? && y' != y {
      var v, t := e.v, y.tasks[e.v];
      if t.PickPort? {
        PickedNumber(c, y, v);
      }
      StepLinksOnly(c, y.store, v, t, e.order);
      StepKeepsNumber(c, y.store, v, t, e.order);
      forall p, n: nat | p in LinkedPorts(y'.store) && p == Decimal(n) ensures n <= 100 {
        if p !in LinkedPorts(y.store) {
          DecimalInjective(n, t.n);
        }
      }
    }
  }

  lemma StepKeepsNumber(c: Config, s: Store, v: string, t: Task, order: seq<string>)
    requires NumberAtMost100(t) && (t.PickPort? ==> t.n <= 100)
    ensures NumberAtMost100(Step(c, s, v, t, order).1)
  {
  }

  lemma {:induction false} RoomyRunsKeepSmall(c: Config, es: seq<Event>)
    requires Roomy(c, es)
    ensures SmallNumbers(AfterSerial(c, es))
  {
    if es != [] {
      var k := |es| - 1;
      assert Roomy(c, es[..k]) by {
        assert forall j :: 0 <= j < k ==> es[..k][..j] == es[..j];
      }
      RoomyRunsKeepSmall(c, es[..k]);
      SerialRunsKeepInv(c, es[..k]);
      ApplyKeepsSmall(c, AfterSerial(c, es[..k]), es[k]);
    }
  }

  /** Main result: with fewer than 100 ports at each publish, every linked port has its four attributes, and its
      service id, 4420 + number - 1, lies in 4420..4519. */
  lemma RoomyServiceIds(c: Config, es: seq<Event>, p: string)
    requires (c.trtype == "rdma" || c.trtype == "tcp") && Roomy(c, es)
    requires p in AfterSerial(c, es).store.ports && AfterSerial(c, es).store.ports[p].links != {}
    ensures exists n: nat, v: string ::
              && 1 <= n <= 100 && p == Decimal(n) && 4420 <= 4420 + n - 1 < 4520
              && AfterSerial(c, es).store.ports[p] == Port("ipv4", c.traddr, Decimal(4420 + n - 1), c.trtype, {v})
  {
    SerialRunsKeepInv(c, es);
    RoomyRunsKeepSmall(c, es);
    var po := AfterSerial(c, es).store.ports[p];
    var n: nat, v: string :| IsPortOf(c, p, po, n, v);
    assert p in LinkedPorts(AfterSerial(c, es).store);
    assert po == Port("ipv4", c.traddr, Decimal(4420 + n - 1), c.trtype, {v});
  }
}
