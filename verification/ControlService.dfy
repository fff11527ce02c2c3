/** The control service: its request handlers, on the volume group and the nvmet directory that they change. */
module ControlService {
  import opened Wrappers
  import opened Text
  import opened Ports
  import opened Export
  import opened ExportSafety
  import opened ExportSerial
  import opened ExportRuns
  import opened ExportCatalog
  import Lvm

  datatype ListedVolume = ListedVolume(volumeId: string, capacityBytes: nat, context: Option<Endpoint>)

  /** The rows of `lvs` are the volumes of the volume group, each once. */
  ghost predicate ReportsVolumes(rows: seq<Lvm.Volume>, s: Store) {
    && (forall i :: 0 <= i < |rows| ==> rows[i].name in s.volumes && s.volumes[rows[i].name] == rows[i].size)
    && (forall v :: v in s.volumes ==> exists i :: 0 <= i < |rows| && rows[i].name == v)
    && (forall i, j :: 0 <= i < j < |rows| ==> rows[i].name != rows[j].name)
  }

  predicate IsFamily(val: string) { val == "ipv4" || val == "ipv6" }

  /** The context of a listed volume: the endpoint of the port that links it, or none if no port does. */
  ghost predicate HasContext(ports: map<string, Port>, v: string, context: Option<Endpoint>) {
    match context
    case None => forall p :: p in ports ==> v !in ports[p].links
    case Some(e) =>
      && (exists p :: p in ports && v in ports[p].links)
      && forall p :: p in ports && v in ports[p].links ==>
           e == Endpoint(ports[p].adrfam, ports[p].traddr, ports[p].trsvcid)
  }

  predicate IsEntryOf(m: Catalog, e: ListedVolume) {
    e.volumeId in m && m[e.volumeId] == Entry(e.capacityBytes, e.context)
  }

  ghost predicate IsListed(entries: seq<ListedVolume>, v: string) {
    exists i :: 0 <= i < |entries| && entries[i].volumeId == v
  }

  /** The entry of each row, with the endpoint of its volume. */
  ghost function ListedVolumes(s: Store, rows: seq<Lvm.Volume>): (entries: seq<ListedVolume>)
    ensures |entries| == |rows|
    ensures forall i :: 0 <= i < |rows| ==>
              entries[i] == ListedVolume(rows[i].name, rows[i].size, EndpointFor(s, rows[i].name))
  {
    if rows == [] then []
    else
      var last := rows[|rows| - 1];
      ListedVolumes(s, rows[..|rows| - 1]) + [ListedVolume(last.name, last.size, EndpointFor(s, last.name))]
  }

  method ListDirectory(names: set<string>) returns (order: seq<string>)
    ensures IsListing(order, names)
  {
    var rest := names;
    order := [];
    while rest != {}
      invariant rest <= names
      invariant IsListing(order, names - rest)
    {
      var name :| name in rest;
      rest := rest - {name};
      order := order + [name];
      assert names - rest == names - rest - {name} + {name};
    }
  }

  class Service {
    const c: Config
    var volumes: map<string, nat>
    var subsystems: map<string, Subsystem>
    var ports: map<string, Port>

    /** How many more calls the request in hand gets through. */
    var lives: nat

    /** The serialised run that the requests so far add up to. */
    ghost var history: seq<Event>

    function State(): Store
      reads this
    {
      Store(volumes, subsystems, ports)
    }

    ghost predicate Valid()
      reads this
    {
      AfterSerial(c, history) == System(State(), map[])
    }

    constructor (c: Config)
      ensures Valid() && volumes == map[] && subsystems == map[] && ports == map[] && this.c == c
    {
      this.c := c;
      volumes, subsystems, ports := map[], map[], map[];
      lives := 0;
      history := [];
    }

    /** One call of a handler: completed it does what `t` says and leads to `t'`, aborted it changes nothing. */
    ghost predicate Does(s: Store, l: nat, v: string, t: Task, order: seq<string>, r: Outcome, t': Task)
      reads this
    {
      if r.Completed? then
        l > 0 && lives == l - 1 && Step(c, s, v, t, order) == (State(), t')
      else
        State() == s && (l == 0 || Step(c, s, v, t, order) == (s, Done(false)))
    }

    /** A part of a handler: completed it hands the rest of the run over to `t'`, aborted it has ended the run. */
    ghost predicate Continues(s: Store, l: nat, v: string, t: Task, order: seq<string>, r: Outcome, t': Task)
      reads this
    {
      var run := RunTask(c, s, v, t, order, l);
      if r.Completed? then run == RunTask(c, State(), v, t', order, lives) else run.0 == State() && run.1 != Done(true)
    }

    /* lvm.py */

    method LvCreate(name: string, size: nat) returns (r: Outcome)
      modifies this`volumes, this`lives
      ensures Does(old(State()), old(lives), name, Task.LvCreate(size), [], r, Task.MakeSubsystem)
      ensures Continues(old(State()), old(lives), name, Task.LvCreate(size), [], r, Task.MakeSubsystem)
      ensures r.Completed? <==> old(lives) > 0 && name !in old(volumes)
      ensures volumes == if r.Completed? then old(volumes)[name := size] else old(volumes)
    {
      hide RunTask;
      FirstCall(c, State(), name, Task.LvCreate(size), [], lives);
      if lives == 0 || name in volumes {
        return Aborted;
      }
      lives := lives - 1;
      volumes := volumes[name := size];
      return Completed;
    }

    /** `dd` from the source's device to the volume's: it changes nothing that is modelled, and fails if the source does
        not exist or does not fit. */
    method PopulateVolume(name: string, source: string) returns (r: Outcome)
      modifies this`lives
      ensures r.Completed? <==>
                old(lives) > 0 && source in volumes && name in volumes && volumes[source] <= volumes[name]
    {
      if lives == 0 || source !in volumes || name !in volumes || volumes[source] > volumes[name] {
        return Aborted;
      }
      lives := lives - 1;
      return Completed;
    }

    method LvRemove(name: string, ghost order: seq<string>) returns (r: Outcome)
      modifies this`volumes, this`lives
      ensures Does(old(State()), old(lives), name, Task.LvRemove, order, r, Done(true))
      ensures Continues(old(State()), old(lives), name, Task.LvRemove, order, r, Done(true))
      ensures r.Completed? <==> old(lives) > 0 && name in old(volumes)
      ensures volumes == if r.Completed? then old(volumes) - {name} else old(volumes)
    {
      hide RunTask;
      FirstCall(c, State(), name, Task.LvRemove, order, lives);
      if lives == 0 || name !in volumes {
        return Aborted;
      }
      lives := lives - 1;
      volumes := volumes - {name};
      return Completed;
    }

    /* nvmet.py: subsystems and namespaces */

    method CreateSubsystem(name: string) returns (r: Outcome)
      modifies this`subsystems, this`lives
      ensures Does(old(State()), old(lives), name, MakeSubsystem, [], r, Task.AllowAnyHost)
      ensures Continues(old(State()), old(lives), name, MakeSubsystem, [], r, Task.AllowAnyHost)
      ensures r.Completed? <==> old(lives) > 0
      ensures subsystems == if r.Aborted? || name in old(subsystems) then old(subsystems)
                            else old(subsystems)[name := Subsystem(false, map[])]
    {
      hide RunTask;
      FirstCall(c, State(), name, MakeSubsystem, [], lives);
      if lives == 0 {
        return Aborted;
      }
      lives := lives - 1;
      if name !in subsystems {
        subsystems := subsystems[name := Subsystem(false, map[])];
      }
      return Completed;
    }

    method AllowAnyHost(name: string) returns (r: Outcome)
      modifies this`subsystems, this`lives
      ensures Does(old(State()), old(lives), name, Task.AllowAnyHost, [], r, MakeNamespace)
      ensures Continues(old(State()), old(lives), name, Task.AllowAnyHost, [], r, MakeNamespace)
      ensures r.Completed? <==> old(lives) > 0 && name in old(subsystems)
      ensures subsystems == if r.Aborted? then old(subsystems)
                            else old(subsystems)[name := old(subsystems)[name].(allowAnyHost := true)]
    {
      hide RunTask;
      FirstCall(c, State(), name, Task.AllowAnyHost, [], lives);
      if lives == 0 || name !in subsystems {
        return Aborted;
      }
      lives := lives - 1;
      subsystems := subsystems[name := subsystems[name].(allowAnyHost := true)];
      return Completed;
    }

    method CreateNamespace(name: string) returns (r: Outcome)
      modifies this`subsystems, this`lives
      ensures Does(old(State()), old(lives), name, MakeNamespace, [], r, Task.SetDevicePath)
      ensures Continues(old(State()), old(lives), name, MakeNamespace, [], r, Task.SetDevicePath)
      ensures r.Completed? <==> old(lives) > 0 && name in old(subsystems)
      ensures subsystems == if r.Aborted? || c.ns in old(subsystems)[name].namespaces then old(subsystems)
                            else
                              var ss := old(subsystems)[name];
                              old(subsystems)[name := ss.(namespaces := ss.namespaces[c.ns := Namespace("", false)])]
    {
      hide RunTask;
      FirstCall(c, State(), name, MakeNamespace, [], lives);
      if lives == 0 || name !in subsystems {
        return Aborted;
      }
      lives := lives - 1;
      var ss := subsystems[name];
      if c.ns !in ss.namespaces {
        subsystems := subsystems[name := ss.(namespaces := ss.namespaces[c.ns := Namespace("", false)])];
      }
      return Completed;
    }

    method SetDevicePath(name: string) returns (r: Outcome)
      modifies this`subsystems, this`lives
      ensures Does(old(State()), old(lives), name, Task.SetDevicePath, [], r, Task.Enable)
      ensures Continues(old(State()), old(lives), name, Task.SetDevicePath, [], r, Task.Enable)
      ensures r.Completed? <==>
                old(lives) > 0 && name in old(subsystems) && c.ns in old(subsystems)[name].namespaces
      ensures subsystems == if r.Aborted? then old(subsystems)
                            else
                              var ss := old(subsystems)[name];
                              var ns := Namespace("/dev/" + c.vg + "/" + name, ss.namespaces[c.ns].enable);
                              old(subsystems)[name := ss.(namespaces := ss.namespaces[c.ns := ns])]
    {
      hide RunTask;
      FirstCall(c, State(), name, Task.SetDevicePath, [], lives);
      if lives == 0 || name !in subsystems || c.ns !in subsystems[name].namespaces {
        return Aborted;
      }
      lives := lives - 1;
      var ss := subsystems[name];
      var ns := ss.namespaces[c.ns].(devicePath := DevicePath(c, name));
      subsystems := subsystems[name := ss.(namespaces := ss.namespaces[c.ns := ns])];
      return Completed;
    }

    method Enable(name: string) returns (r: Outcome)
      modifies this`subsystems, this`lives
      ensures Does(old(State()), old(lives), name, Task.Enable, [], r, PickPort(1))
      ensures Continues(old(State()), old(lives), name, Task.Enable, [], r, PickPort(1))
      ensures r.Completed? <==>
                old(lives) > 0 && name in old(subsystems) && c.ns in old(subsystems)[name].namespaces
      ensures subsystems == if r.Aborted? then old(subsystems)
                            else
                              var ss := old(subsystems)[name];
                              var ns := Namespace(ss.namespaces[c.ns].devicePath, true);
                              old(subsystems)[name := ss.(namespaces := ss.namespaces[c.ns := ns])]
    {
      hide RunTask;
      FirstCall(c, State(), name, Task.Enable, [], lives);
      if lives == 0 || name !in subsystems || c.ns !in subsystems[name].namespaces {
        return Aborted;
      }
      lives := lives - 1;
      var ss := subsystems[name];
      var ns := ss.namespaces[c.ns].(enable := true);
      subsystems := subsystems[name := ss.(namespaces := ss.namespaces[c.ns := ns])];
      return Completed;
    }

    /** The first part of publish: the subsystem, its namespace and the namespace's device. */
    method ExportSubsystem(v: string) returns (r: Outcome)
      modifies this`subsystems, this`lives
      ensures Continues(old(State()), old(lives), v, MakeSubsystem, [], r, PickPort(1))
      ensures r.Completed? ==> lives == old(lives) - 5
    {
      r := Completed;
      :- CreateSubsystem(v);
      :- AllowAnyHost(v);
      :- CreateNamespace(v);
      :- SetDevicePath(v);
      :- Enable(v);
    }

    /* nvmet.py: ports */

    /** One listing of the port directory. */
    method ListPortNames() returns (r: Result<seq<string>>)
      modifies this`lives
      ensures r.Returned? ==> old(lives) > 0 && lives == old(lives) - 1 && IsListing(r.value, ports.Keys)
      ensures r.Raised? ==> lives == old(lives) == 0
    {
      if lives == 0 {
        return Raised;
      }
      lives := lives - 1;
      var order := ListDirectory(ports.Keys);
      return Returned(order);
    }

    /** The condition of the loop that looks for a port number. */
    method IsTaken(port: nat, ghost v: string) returns (r: Result<bool>)
      modifies this`lives
      ensures r.Returned? ==> lives == old(lives) - 1 && r.value == (Decimal(port) in ports)
      ensures r.Raised? ==> lives == old(lives) == 0
      ensures Continues(State(), old(lives), v, PickPort(port), [], if r.Returned? then Completed else Aborted,
                        if r.Returned? && !r.value then MakePort(port) else PickPort(port + 1))
    {
      var listing := ListPortNames();
      if listing.Raised? {
        return Raised;
      }
      OneCall(c, State(), v, PickPort(port), [], lives + 1);
      return Returned(Decimal(port) in listing.value);
    }

    /** The loop that looks for a port number: it finds the least one that names no port, in that many listings. */
    method FindPortNumber(ghost v: string) returns (r: Result<nat>)
      modifies this`lives
      ensures r.Returned? ==> IsLeastFree(ports.Keys, r.value) && lives == old(lives) - r.value
      ensures r.Returned? ==>
                1 <= r.value && Decimal(r.value) !in ports && forall k :: 1 <= k < r.value ==> Decimal(k) in ports
      ensures r.Raised? ==> old(lives) < LeastFree(ports.Keys)
      ensures Continues(State(), old(lives), v, PickPort(1), [], if r.Returned? then Completed else Aborted,
                        if r.Returned? then MakePort(r.value) else Done(false))
    {
      hide RunTask, Step, Ahead, LeastFree, Decimal;
      ghost var l, names := lives, ports.Keys;
      var port := 1;
      while true
        invariant ports.Keys == names && 1 <= port && lives + port == l + 1
        invariant forall k :: 1 <= k < port ==> Decimal(k) in names
        invariant Continues(State(), l, v, PickPort(1), [], Completed, PickPort(port))
        decreases |Ahead(names, port)|
      {
        PassedNumbers(names, port);
        var taken := IsTaken(port, v);
        if taken.Raised? {
          return Raised;
        }
        if !taken.value {
          return Returned(port);
        }
        AheadShrinks(names, port);
        port := port + 1;
      }
    }

    method CreatePort(n: nat, ghost v: string) returns (r: Outcome)
      modifies this`ports, this`lives
      ensures Does(old(State()), old(lives), v, MakePort(n), [], r, Task.SetAdrfam(n))
      ensures Continues(old(State()), old(lives), v, MakePort(n), [], r, Task.SetAdrfam(n))
      ensures r.Completed? <==> old(lives) > 0
      ensures ports == if r.Aborted? || Decimal(n) in old(ports) then old(ports)
                       else old(ports)[Decimal(n) := Port("", "", "", "", {})]
    {
      hide RunTask;
      FirstCall(c, State(), v, MakePort(n), [], lives);
      if lives == 0 {
        return Aborted;
      }
      lives := lives - 1;
      if Decimal(n) !in ports {
        ports := ports[Decimal(n) := NEW_PORT];
      }
      return Completed;
    }

    /** The setters of family, service id and transport refuse other values, and the handler goes on. */
    method SetAdrfam(n: nat, val: string, ghost v: string) returns (r: Outcome)
      modifies this`ports, this`lives
      ensures r.Completed? && (val == "ipv4" || val == "ipv6") ==>
                Decimal(n) in old(ports) &&
                State() == WithPort(old(State()), Decimal(n), old(ports)[Decimal(n)].(adrfam := val))
      ensures (val != "ipv4" && val != "ipv6") || r.Aborted? ==> State() == old(State())
      ensures val == "ipv4" ==> Does(old(State()), old(lives), v, Task.SetAdrfam(n), [], r, Task.SetTraddr(n))
      ensures val == "ipv4" ==> Continues(old(State()), old(lives), v, Task.SetAdrfam(n), [], r, Task.SetTraddr(n))
      ensures r.Completed? <==> old(lives) > 0 && (val == "ipv4" || val == "ipv6" ==> Decimal(n) in old(ports))
    {
      hide RunTask;
      FirstCall(c, State(), v, Task.SetAdrfam(n), [], lives);
      if lives == 0 || (IsFamily(val) && Decimal(n) !in ports) {
        return Aborted;
      }
      lives := lives - 1;
      if IsFamily(val) {
        ports := ports[Decimal(n) := ports[Decimal(n)].(adrfam := val)];
      }
      return Completed;
    }

    method SetTraddr(n: nat, val: string, ghost v: string) returns (r: Outcome)
      modifies this`ports, this`lives
      ensures r.Completed? ==>
                Decimal(n) in old(ports) &&
                State() == WithPort(old(State()), Decimal(n), old(ports)[Decimal(n)].(traddr := val))
      ensures r.Aborted? ==> State() == old(State())
      ensures val == c.traddr ==> Does(old(State()), old(lives), v, Task.SetTraddr(n), [], r, Task.SetTrsvcid(n))
      ensures val == c.traddr ==> Continues(old(State()), old(lives), v, Task.SetTraddr(n), [], r, Task.SetTrsvcid(n))
      ensures r.Completed? <==> old(lives) > 0 && Decimal(n) in old(ports)
    {
      hide RunTask;
      FirstCall(c, State(), v, Task.SetTraddr(n), [], lives);
      if lives == 0 || Decimal(n) !in ports {
        return Aborted;
      }
      lives := lives - 1;
      ports := ports[Decimal(n) := ports[Decimal(n)].(traddr := val)];
      return Completed;
    }

    method SetTrsvcid(n: nat, val: int, ghost v: string) returns (r: Outcome)
      modifies this`ports, this`lives
      ensures r.Completed? && 4420 <= val < 4520 ==>
                Decimal(n) in old(ports) &&
                State() == WithPort(old(State()), Decimal(n), old(ports)[Decimal(n)].(trsvcid := Decimal(val)))
      ensures !(4420 <= val < 4520) || r.Aborted? ==> State() == old(State())
      ensures val == 4420 + n - 1 ==> Does(old(State()), old(lives), v, Task.SetTrsvcid(n), [], r, Task.SetTrtype(n))
      ensures val == 4420 + n - 1 ==> Continues(old(State()), old(lives), v, Task.SetTrsvcid(n), [], r, Task.SetTrtype(n))
      ensures r.Completed? <==> old(lives) > 0 && (4420 <= val < 4520 ==> Decimal(n) in old(ports))
    {
      hide RunTask;
      FirstCall(c, State(), v, Task.SetTrsvcid(n), [], lives);
      if lives == 0 || (ServiceIdInRange(val) && Decimal(n) !in ports) {
        return Aborted;
      }
      lives := lives - 1;
      if ServiceIdInRange(val) {
        ports := ports[Decimal(n) := ports[Decimal(n)].(trsvcid := Decimal(val))];
      }
      return Completed;
    }

    method SetTrtype(n: nat, val: string, ghost v: string) returns (r: Outcome)
      modifies this`ports, this`lives
      ensures r.Completed? && (val == "rdma" || val == "tcp") ==>
                Decimal(n) in old(ports) &&
                State() == WithPort(old(State()), Decimal(n), old(ports)[Decimal(n)].(trtype := val))
      ensures (val != "rdma" && val != "tcp") || r.Aborted? ==> State() == old(State())
      ensures val == c.trtype ==> Does(old(State()), old(lives), v, Task.SetTrtype(n), [], r, Task.Link(n))
      ensures val == c.trtype ==> Continues(old(State()), old(lives), v, Task.SetTrtype(n), [], r, Task.Link(n))
      ensures r.Completed? <==> old(lives) > 0 && (val == "rdma" || val == "tcp" ==> Decimal(n) in old(ports))
    {
      hide RunTask;
      FirstCall(c, State(), v, Task.SetTrtype(n), [], lives);
      if lives == 0 || (IsTransport(val) && Decimal(n) !in ports) {
        return Aborted;
      }
      lives := lives - 1;
      if IsTransport(val) {
        ports := ports[Decimal(n) := ports[Decimal(n)].(trtype := val)];
      }
      return Completed;
    }

    method LinkSubsystem(n: nat, v: string) returns (r: Outcome)
      modifies this`ports, this`lives
      ensures Does(old(State()), old(lives), v, Task.Link(n), [], r, Done(true))
      ensures Continues(old(State()), old(lives), v, Task.Link(n), [], r, Done(true))
      ensures r.Completed? <==> old(lives) > 0 && Decimal(n) in old(ports) && v in subsystems
      ensures ports == if r.Aborted? then old(ports)
                       else
                         var po := old(ports)[Decimal(n)];
                         old(ports)[Decimal(n) := po.(links := po.links + {v})]
    {
      hide RunTask;
      FirstCall(c, State(), v, Task.Link(n), [], lives);
      if lives == 0 || Decimal(n) !in ports || v !in subsystems {
        return Aborted;
      }
      lives := lives - 1;
      ports := ports[Decimal(n) := ports[Decimal(n)].(links := ports[Decimal(n)].links + {v})];
      return Completed;
    }

    method SetAddress(n: nat, v: string) returns (r: Outcome)
      modifies this`ports, this`lives
      ensures Continues(old(State()), old(lives), v, Task.SetAdrfam(n), [], r, Task.Link(n))
      ensures r.Completed? ==> lives == old(lives) - 4
    {
      r := Completed;
      :- SetAdrfam(n, "ipv4", v);
      :- SetTraddr(n, c.traddr, v);
      :- SetTrsvcid(n, 4420 + n - 1, v);
      :- SetTrtype(n, c.trtype, v);
    }

    /** The last part of publish: a port with its address, then the link. */
    method ExportPort(n: nat, v: string) returns (r: Outcome)
      modifies this`ports, this`lives
      ensures Continues(old(State()), old(lives), v, MakePort(n), [], r, Done(true))
      ensures r.Completed? ==> lives == old(lives) - 6
    {
      r := Completed;
      :- CreatePort(n, v);
      :- SetAddress(n, v);
      :- LinkSubsystem(n, v);
    }

    method PublishVolume(v: string) returns (r: Outcome)
      modifies this`subsystems, this`ports, this`lives
      ensures Continues(old(State()), old(lives), v, MakeSubsystem, [], r, Done(true))
      ensures r.Completed? ==> lives == old(lives) - LeastFree(old(ports.Keys)) - 11
    {
      r := Completed;
      :- ExportSubsystem(v);
      var port := FindPortNumber(v);
      if port.Raised? {
        return Aborted;
      }
      r := ExportPort(port.value, v);
    }

    /* nvmet.py: teardown */

    method RemoveLink(po: string, v: string, ghost todo: seq<string>, ghost order: seq<string>) returns (r: Outcome)
      modifies this`ports, this`lives
      ensures Does(old(State()), old(lives), v, Unlink(po, todo), order, r, RemovePort(po, todo))
      ensures Continues(old(State()), old(lives), v, Unlink(po, todo), order, r, RemovePort(po, todo))
      ensures r.Completed? <==> old(lives) > 0
      ensures ports == if r.Aborted? || po !in old(ports) then old(ports)
                       else old(ports)[po := old(ports)[po].(links := old(ports)[po].links - {v})]
    {
      hide RunTask;
      FirstCall(c, State(), v, Unlink(po, todo), order, lives);
      if lives == 0 {
        return Aborted;
      }
      lives := lives - 1;
      if po in ports {
        ports := ports[po := ports[po].(links := ports[po].links - {v})];
      }
      return Completed;
    }

    /** `rmdir` of a port fails while it has links. */
    method DeletePort(po: string, ghost v: string, ghost todo: seq<string>, ghost order: seq<string>) returns (r: Outcome)
      modifies this`ports, this`lives
      ensures Does(old(State()), old(lives), v, RemovePort(po, todo), order, r, Scan(todo))
      ensures Continues(old(State()), old(lives), v, RemovePort(po, todo), order, r, Scan(todo))
      ensures r.Completed? <==> old(lives) > 0 && (po in old(ports) ==> old(ports)[po].links == {})
      ensures ports == if r.Aborted? then old(ports) else old(ports) - {po}
    {
      hide RunTask;
      FirstCall(c, State(), v, RemovePort(po, todo), order, lives);
      if lives == 0 || (po in ports && ports[po].links != {}) {
        return Aborted;
      }
      lives := lives - 1;
      if po in ports {
        ports := ports - {po};
      }
      return Completed;
    }

    method DeleteNamespace(v: string, ghost order: seq<string>) returns (r: Outcome)
      modifies this`subsystems, this`lives
      ensures Does(old(State()), old(lives), v, Task.RemoveNamespace, order, r, Task.RemoveSubsystem)
      ensures Continues(old(State()), old(lives), v, Task.RemoveNamespace, order, r, Task.RemoveSubsystem)
      ensures r.Completed? <==> old(lives) > 0
      ensures subsystems == if r.Aborted? || v !in old(subsystems) then old(subsystems)
                            else
                              var ss := old(subsystems)[v];
                              old(subsystems)[v := ss.(namespaces := ss.namespaces - {c.ns})]
    {
      hide RunTask;
      FirstCall(c, State(), v, Task.RemoveNamespace, order, lives);
      if lives == 0 {
        return Aborted;
      }
      lives := lives - 1;
      if v in subsystems {
        subsystems := subsystems[v := subsystems[v].(namespaces := subsystems[v].namespaces - {c.ns})];
      }
      return Completed;
    }

    /** `rmdir` of a subsystem fails while it has namespaces, or links to it. */
    method DeleteSubsystem(v: string, ghost order: seq<string>) returns (r: Outcome)
      modifies this`subsystems, this`lives
      ensures Does(old(State()), old(lives), v, Task.RemoveSubsystem, order, r, Task.LvRemove)
      ensures Continues(old(State()), old(lives), v, Task.RemoveSubsystem, order, r, Task.LvRemove)
      ensures r.Completed? <==>
                && old(lives) > 0
                && (v in old(subsystems) ==>
                      old(subsystems)[v].namespaces == map[] && forall p :: p in ports ==> v !in ports[p].links)
      ensures subsystems == if r.Aborted? then old(subsystems) else old(subsystems) - {v}
    {
      hide RunTask;
      FirstCall(c, State(), v, Task.RemoveSubsystem, order, lives);
      assert forall p :: p in ports && v in ports[p].links ==> p in Links(State(), v);
      if lives == 0 || (v in subsystems && (subsystems[v].namespaces != map[] || Links(State(), v) != {})) {
        return Aborted;
      }
      lives := lives - 1;
      if v in subsystems {
        subsystems := subsystems - {v};
      }
      return Completed;
    }

    /** One turn of the teardown loop: list the links of a port; where `v` is among them, remove it and the port. */
    method VisitPort(po: string, v: string, ghost todo: seq<string>, ghost order: seq<string>) returns (r: Outcome)
      modifies this`ports, this`lives
      ensures Continues(old(State()), old(lives), v, Scan([po] + todo), order, r, Scan(todo))
      ensures po !in old(ports) ==> r.Aborted? && ports == old(ports)
      ensures po in old(ports) && v !in old(ports)[po].links ==> (r.Completed? <==> old(lives) > 0) && ports == old(ports)
      ensures po in old(ports) && v in old(ports)[po].links ==>
                && (r.Completed? <==> old(lives) >= 3 && old(ports)[po].links == {v})
                && (r.Completed? ==> ports == old(ports) - {po})
    {
      hide RunTask, CreateStep;
      FirstCall(c, State(), v, Scan([po] + todo), order, lives);
      if lives == 0 || po !in ports {
        return Aborted;
      }
      lives := lives - 1;
      var linked := ListDirectory(ports[po].links);
      var i := 0;
      while i < |linked|
        invariant 0 <= i <= |linked| && v !in linked[..i]
      {
        if linked[i] == v {
          LastLink(ports[po].links, v);
          :- RemoveLink(po, v, todo, order);
          :- DeletePort(po, v, todo, order);
          return Completed;
        }
        i := i + 1;
      }
      return Completed;
    }

    method VisitPorts(names: seq<string>, v: string, ghost order: seq<string>) returns (r: Outcome)
      modifies this`ports, this`lives
      ensures Continues(old(State()), old(lives), v, Scan(names), order, r, Scan([]))
    {
      for i := 0 to |names|
        invariant Continues(old(State()), old(lives), v, Scan(names), order, Completed, Scan(names[i..]))
      {
        assert names[i..] == [names[i]] + names[i + 1..];
        :- VisitPort(names[i], v, names[i + 1..], order);
      }
      return Completed;
    }

    method RemoveExport(v: string, ghost order: seq<string>) returns (r: Outcome)
      modifies this`subsystems, this`lives
      ensures Continues(old(State()), old(lives), v, Scan([]), order, r, Task.LvRemove)
    {
      hide RunTask;
      FirstCall(c, State(), v, Scan([]), order, lives);
      if lives == 0 {
        return Aborted;
      }
      lives := lives - 1;
      :- DeleteNamespace(v, order);
      r := DeleteSubsystem(v, order);
    }

    method UnpublishVolume(v: string) returns (r: Outcome, ghost order: seq<string>)
      modifies this`subsystems, this`ports, this`lives
      ensures IsListing(order, old(ports.Keys))
      ensures Continues(old(State()), old(lives), v, ListPorts, order, r, Task.LvRemove)
    {
      var names := ListDirectory(ports.Keys);
      order := names;
      hide RunTask;
      FirstCall(c, State(), v, ListPorts, order, lives);
      if lives == 0 {
        return Aborted, order;
      }
      lives := lives - 1;
      r := VisitPorts(names, v, order);
      if r.Completed? {
        r := RemoveExport(v, order);
      }
    }

    /* ctrl_service.py: the handlers. `calls` is how many calls the request gets through before one fails by itself, or
       the service stops for good. */

    method MakeVolume(name: string, capacity: nat) returns (r: Outcome)
      modifies this`volumes, this`subsystems, this`ports, this`lives
      ensures Continues(old(State()), old(lives), name, Task.LvCreate(capacity), [], r, Done(true))
      ensures r.Completed? ==> lives == old(lives) - LeastFree(old(ports.Keys)) - 12
    {
      r := Completed;
      :- LvCreate(name, capacity);
      r := PublishVolume(name);
    }

    /** A copy that fails leaves the volume there and published. */
    method CTRLCreateVolume(name: string, capacity: nat, source: string, calls: nat) returns (r: Outcome)
      requires Valid()
      modifies this
      ensures Valid()
      ensures r.Completed? ==>
                State() == Created(c, old(State()), name, capacity) && name !in old(volumes) && capacity <= c.maxCapacity
      ensures r.Completed? ==> AddsVolume(c, old(State()), State(), name, capacity)
      ensures r.Completed? && source != "" ==>
                source == name || (source in old(volumes) && old(volumes)[source] <= capacity)
      ensures calls >= |old(ports)| + 13 && name !in old(volumes) && capacity <= c.maxCapacity && source == "" ==> r.Completed?
      ensures calls >= |old(ports)| + 14 && name !in old(volumes) && capacity <= c.maxCapacity && source != "" ==>
                (r.Completed? <==> source == name || (source in old(volumes) && old(volumes)[source] <= capacity))
      ensures capacity > c.maxCapacity || name in old(volumes) ==> r.Aborted? && State() == old(State())
      ensures r.Aborted? ==> State() == RunTask(c, old(State()), name, CreateTask(c, capacity), [], calls).0
    {
      hide RunTask, Created, AddsVolume, AfterSerial;
      ghost var s := State();
      CreateOutcome(c, history, name, capacity, calls);
      history := RequestExtendsRun(c, history, BeginCreate(name, capacity), [], calls);
      lives := calls;
      if capacity > c.maxCapacity {
        NoMoreCalls(c, s, name, Done(false), [], calls);
        return Aborted;
      }
      r := MakeVolume(name, capacity);
      if r.Completed? {
        NoMoreCalls(c, State(), name, Done(true), [], lives);
        if source != "" {
          r := PopulateVolume(name, source);
        }
      }
    }

    method CTRLDeleteVolume(v: string, calls: nat) returns (r: Outcome)
      requires Valid()
      modifies this
      ensures Valid()
      ensures r.Completed? ==> State() == Deleted(old(State()), v) && v in old(volumes)
      ensures r.Completed? ==> TakesVolume(old(State()), State(), v)
      ensures v !in old(volumes) ==> r.Aborted? && State() == old(State())
      ensures calls >= 3 * |old(ports)| + 5 && v in old(volumes) ==> r.Completed?
      ensures r.Aborted? ==>
                exists order :: IsListing(order, old(ports.Keys)) &&
                                State() == RunTask(c, old(State()), v, ListPorts, order, calls).0
    {
      hide RunTask, Deleted, TakesVolume, AfterSerial;
      ghost var s := State();
      lives := calls;
      ghost var order;
      r, order := UnpublishVolume(v);
      DeleteOutcome(c, history, v, order, calls);
      history := RequestExtendsRun(c, history, BeginDelete(v), order, calls);
      if r.Completed? {
        r := LvRemove(v, order);
        NoMoreCalls(c, State(), v, Done(true), order, lives);
      }
    }

    /** The first port, in the order of the listings, that links the volume. */
    method GetPortBySubsystem(v: string) returns (p: Option<string>)
      ensures p.None? <==> forall q :: q in ports ==> v !in ports[q].links
      ensures p.Some? ==> p.value in ports && v in ports[p.value].links
    {
      var names := ListDirectory(ports.Keys);
      for i := 0 to |names|
        invariant forall k :: 0 <= k < i ==> v !in ports[names[k]].links
      {
        var linked := ListDirectory(ports[names[i]].links);
        for j := 0 to |linked|
          invariant v !in linked[..j]
        {
          if linked[j] == v {
            assert names[i] in Links(State(), v);
            return Some(names[i]);
          }
        }
      }
      return None;
    }

    method VolumeContext(v: string) returns (context: Option<Endpoint>)
      requires Valid()
      ensures context == EndpointFor(State(), v)
    {
      var po := GetPortBySubsystem(v);
      if po.None? {
        return None;
      }
      OnlyPort(c, history, v, po.value);
      return Some(EndpointOf(ports[po.value]));
    }

    /** The address that an attach request sends on: without a linked port the handler fails. */
    method AttachAddress(v: string) returns (r: Result<Endpoint>)
      requires Valid()
      ensures r == match EndpointFor(State(), v) case Some(e) => Returned(e) case None => Raised
      ensures r.Raised? <==> forall p :: p in ports ==> v !in ports[p].links
      ensures r.Returned? ==> forall p :: p in ports && v in ports[p].links ==>
                                r.value == Endpoint(ports[p].adrfam, ports[p].traddr, ports[p].trsvcid)
      ensures r.Returned? ==> exists n :: 1 <= n && r.value == Endpoint("ipv4", c.traddr, ServiceId(n))
    {
      var p := GetPortBySubsystem(v);
      ContextIs(c, history, v);
      if p.None? {
        return Raised;
      }
      OnlyPort(c, history, v, p.value);
      hide AfterSerial;
      return Returned(EndpointOf(ports[p.value]));
    }

    method DescribeVolumes(volumes: seq<Lvm.Volume>) returns (entries: seq<ListedVolume>)
      requires Valid()
      ensures entries == ListedVolumes(State(), volumes)
    {
      entries := [];
      for i := 0 to |volumes|
        invariant entries == ListedVolumes(State(), volumes[..i])
      {
        var context := VolumeContext(volumes[i].name);
        entries := entries + [ListedVolume(volumes[i].name, volumes[i].size, context)];
        assert volumes[..i + 1][..i] == volumes[..i];
      }
      assert volumes[..|volumes|] == volumes;
    }

    /** One entry for each row that `lvs` printed, in its order. */
    method CTRLListVolumes(returncode: int, stdout: string) returns (r: Result<seq<ListedVolume>>)
      requires Valid()
      ensures r == if returncode == 0 && Lvm.AllRows(Lvm.Body(stdout))
                   then Returned(ListedVolumes(State(), Lvm.ParseRows(Lvm.Body(stdout)))) else Raised
      ensures returncode != 0 ==> r.Raised?
      ensures r.Returned? ==>
                && |r.value| == |Lvm.Body(stdout)|
                && forall i :: 0 <= i < |r.value| ==>
                     && Lvm.ParseRow(Lvm.Body(stdout)[i]) == Returned(Lvm.Volume(r.value[i].volumeId, r.value[i].capacityBytes))
                     && HasContext(ports, r.value[i].volumeId, r.value[i].context)
    {
      var volumes := Lvm.ListVolumes(returncode, stdout);
      if volumes.Raised? {
        return Raised;
      }
      var entries := DescribeVolumes(volumes.value);
      forall v ensures HasContext(ports, v, EndpointFor(State(), v)) {
        ContextIs(c, history, v);
      }
      hide HasContext, EndpointFor, AfterSerial;
      return Returned(entries);
    }
  }

  lemma LastLink(links: set<string>, v: string)
    requires v in links
    ensures links - {v} == {} <==> links == {v}
  {
    assert links == links - {v} + {v};
  }

  lemma CreatedVolumes(c: Config, s: Store, v: string, capacity: nat)
    ensures Created(c, s, v, capacity).volumes == s.volumes[v := capacity]
  {
  }

  lemma ReachableVolumes(c: Config, es: seq<Event>, v: string)
    ensures v in AfterSerial(c, es).store.subsystems ==> v in AfterSerial(c, es).store.volumes
  {
    SerialRunsKeepInv(c, es);
    assert Local(c, AfterSerial(c, es).store, v, TaskOf(AfterSerial(c, es), v));
  }

  lemma {:induction false} ListingLength(order: seq<string>, names: set<string>)
    requires IsListing(order, names)
    ensures |order| == |names|
  {
    if order == [] {
      assert names == {};
    } else {
      var last := order[|order| - 1];
      ListingLength(order[..|order| - 1], names - {last});
    }
  }

  /** How a create request between others ends. */
  lemma CreateOutcome(c: Config, es: seq<Event>, v: string, capacity: nat, calls: nat)
    ensures var s := AfterSerial(c, es).store; var run := RunTask(c, s, v, CreateTask(c, capacity), [], calls);
            && (run.1 == Done(true) ==>
                  && run.0 == Created(c, s, v, capacity) && AddsVolume(c, s, run.0, v, capacity)
                  && run.0.volumes == s.volumes[v := capacity] && v !in s.volumes && capacity <= c.maxCapacity)
            && (calls >= |s.ports| + 13 && v !in s.volumes && capacity <= c.maxCapacity ==> run.1 == Done(true))
            && (capacity > c.maxCapacity || v in s.volumes ==> run.0 == s && run.1 != Done(true))
  {
    hide RunTask, Created, AddsVolume;
    var s := AfterSerial(c, es).store;
    ReachableVolumes(c, es, v);
    CreateIsExact(c, s, v, capacity, [], calls);
    CreatedVolumes(c, s, v, capacity);
    if capacity > c.maxCapacity || v in s.volumes {
      CreateRefused(c, s, v, capacity, [], calls);
    }
  }

  /** How a delete request between others ends. */
  lemma DeleteOutcome(c: Config, es: seq<Event>, v: string, order: seq<string>, calls: nat)
    requires IsListing(order, AfterSerial(c, es).store.ports.Keys)
    ensures var s := AfterSerial(c, es).store; var run := RunTask(c, s, v, ListPorts, order, calls);
            && (run.1 == Done(true) ==> run.0 == Deleted(s, v) && TakesVolume(s, run.0, v) && v in s.volumes)
            && (calls >= 3 * |s.ports| + 5 && v in s.volumes ==> run.1 == Done(true))
            && (v !in s.volumes ==> run.0 == s && run.1 != Done(true))
  {
    hide RunTask, Deleted, TakesVolume, Removable;
    var s := AfterSerial(c, es).store;
    DeleteIsExact(c, s, v, order, calls);
    ListingLength(order, s.ports.Keys);
    SerialRunsKeepInv(c, es);
    ReachableIsRemovable(c, AfterSerial(c, es), v);
    if v !in s.volumes {
      AbsentVolume(c, es, v);
      DeleteOfNothing(c, s, v, ListPorts, order, calls);
    }
  }

  lemma AbsentVolume(c: Config, es: seq<Event>, v: string)
    requires v !in AfterSerial(c, es).store.volumes
    ensures v !in AfterSerial(c, es).store.subsystems && Links(AfterSerial(c, es).store, v) == {}
  {
    SerialRunsKeepInv(c, es);
    assert Local(c, AfterSerial(c, es).store, v, TaskOf(AfterSerial(c, es), v));
  }

  lemma ContextIs(c: Config, es: seq<Event>, v: string)
    ensures var s := AfterSerial(c, es).store; HasContext(s.ports, v, EndpointFor(s, v))
  {
    var s := AfterSerial(c, es).store;
    if Links(s, v) == {} {
      assert forall p :: p in s.ports && v in s.ports[p].links ==> p in Links(s, v);
    } else {
      var p :| p in Links(s, v);
      OnlyPort(c, es, v, p);
      assert forall q :: q in s.ports && v in s.ports[q].links ==> q in Links(s, v);
    }
  }

  /** In a state that serialised requests lead to, any port found for a volume is the only one, and has the endpoint
      that publish configured. */
  lemma OnlyPort(c: Config, es: seq<Event>, v: string, p: string)
    requires p in Links(AfterSerial(c, es).store, v)
    ensures var s := AfterSerial(c, es).store;
            && Links(s, v) == {p}
            && EndpointFor(s, v) == Some(EndpointOf(s.ports[p]))
            && exists n :: 1 <= n && EndpointOf(s.ports[p]) == Endpoint("ipv4", c.traddr, ServiceId(n))
  {
    SerialLinksOneToOne(c, es);
    SerialRunsKeepInv(c, es);
    var s := AfterSerial(c, es).store;
    assert Links(s, v) == {p};
    EndpointIs(s, v, p);
    var n: nat, w: string :| IsPortOf(c, p, s.ports[p], n, w);
    assert EndpointOf(s.ports[p]) == Endpoint("ipv4", c.traddr, ServiceId(n));
  }

  /** The entries of a listing, read as a map, are the catalog: one for each volume, with its size and its endpoint. */
  lemma ListingIsCatalog(s: Store, rows: seq<Lvm.Volume>)
    requires ReportsVolumes(rows, s)
    ensures var entries := ListedVolumes(s, rows);
            && (forall i :: 0 <= i < |entries| ==> IsEntryOf(CatalogOf(s), entries[i]))
            && (forall v :: v in CatalogOf(s) ==> IsListed(entries, v))
            && (forall i, j :: 0 <= i < j < |entries| ==> entries[i].volumeId != entries[j].volumeId)
  {
    EntriesAreCatalog(s, rows, ListedVolumes(s, rows));
  }

  lemma EntriesAreCatalog(s: Store, rows: seq<Lvm.Volume>, entries: seq<ListedVolume>)
    requires ReportsVolumes(rows, s) && |entries| == |rows|
    requires forall i :: 0 <= i < |rows| ==>
               entries[i] == ListedVolume(rows[i].name, rows[i].size, EndpointFor(s, rows[i].name))
    ensures forall i :: 0 <= i < |entries| ==> IsEntryOf(CatalogOf(s), entries[i])
    ensures forall v :: v in CatalogOf(s) ==> IsListed(entries, v)
    ensures forall i, j :: 0 <= i < j < |entries| ==> entries[i].volumeId != entries[j].volumeId
  {
    var m := CatalogOf(s);
    forall v | v in m ensures IsListed(entries, v) {
      var i :| 0 <= i < |rows| && rows[i].name == v;
      assert entries[i].volumeId == v;
    }
    forall i | 0 <= i < |entries| ensures IsEntryOf(m, entries[i]) {
      assert m[rows[i].name] == Entry(rows[i].size, EndpointFor(s, rows[i].name));
    }
  }

  /** So a listing made from the table that `lvs` prints of the volume group is the catalog, in the order of the table. */
  lemma PrintedTableIsCatalog(s: Store, header: string, volumes: seq<Lvm.Volume>, pads: seq<Lvm.Padding>)
    requires Lvm.IsTable(header, volumes, pads) && ReportsVolumes(volumes, s)
    ensures var body := Lvm.Body(Lvm.PrintLines([header] + Lvm.PrintRows(volumes, pads)));
            && Lvm.AllRows(body)
            && var entries := ListedVolumes(s, Lvm.ParseRows(body));
               && |entries| == |volumes|
               && (forall i :: 0 <= i < |entries| ==> entries[i].volumeId == volumes[i].name)
               && (forall i :: 0 <= i < |entries| ==> IsEntryOf(CatalogOf(s), entries[i]))
               && (forall v :: v in CatalogOf(s) ==> IsListed(entries, v))
  {
    Lvm.ListInvertsPrint(header, volumes, pads);
    ListingIsCatalog(s, volumes);
  }
}
