/** The state that the control service keeps in LVM and in the kernel's nvmet directory, and its two handlers that
    change it, one kernel call at a time. */
module Export {
  import opened Text

  /** The settings the service reads from its configuration file. */
  datatype Config = Config(vg: string, ns: string, traddr: string, trtype: string, maxCapacity: nat)

  datatype Namespace = Namespace(devicePath: string, enable: bool)

  datatype Subsystem = Subsystem(allowAnyHost: bool, namespaces: map<string, Namespace>)

  /** An attribute that was never written reads as the empty text. */
  datatype Port = Port(adrfam: string, traddr: string, trsvcid: string, trtype: string, links: set<string>)

  const NEW_PORT := Port("", "", "", "", {})

  datatype Store = Store(volumes: map<string, nat>, subsystems: map<string, Subsystem>, ports: map<string, Port>)

  const EMPTY_STORE := Store(map[], map[], map[])

  function DevicePath(c: Config, v: string): string { "/dev/" + c.vg + "/" + v }

  /** The ports that link the subsystem of `v`. */
  function Links(s: Store, v: string): set<string> {
    set p | p in s.ports && v in s.ports[p].links
  }

  /** What a directory listing may return: every name once, in any order. */
  predicate IsListing(order: seq<string>, names: set<string>) {
    && (forall i :: 0 <= i < |order| ==> order[i] in names)
    && (forall p :: p in names ==> p in order)
    && (forall i, j :: 0 <= i < j < |order| ==> order[i] != order[j])
  }

  /** What a handler does next. A create request goes from LvCreate to Link, a delete request from ListPorts to
      LvRemove; Done says whether every call succeeded. */
  datatype Task =
    | LvCreate(size: nat)
    | MakeSubsystem
    | AllowAnyHost
    | MakeNamespace
    | SetDevicePath
    | Enable
    | PickPort(n: nat)
    | MakePort(n: nat)
    | SetAdrfam(n: nat)
    | SetTraddr(n: nat)
    | SetTrsvcid(n: nat)
    | SetTrtype(n: nat)
    | Link(n: nat)
    | ListPorts
    | Scan(todo: seq<string>)
    | Unlink(port: string, todo: seq<string>)
    | RemovePort(port: string, todo: seq<string>)
    | RemoveNamespace
    | RemoveSubsystem
    | LvRemove
    | Done(ok: bool)

  function CreateTask(c: Config, capacity: nat): Task {
    if capacity > c.maxCapacity then Done(false) else LvCreate(capacity)
  }

  predicate ServiceIdInRange(val: int) { 4420 <= val < 4520 }

  predicate IsTransport(val: string) { val == "rdma" || val == "tcp" }

  function WithSubsystem(s: Store, v: string, ss: Subsystem): Store { s.(subsystems := s.subsystems[v := ss]) }

  function WithPort(s: Store, p: string, po: Port): Store { s.(ports := s.ports[p := po]) }

  /** One call of the create handler for `v`. */
  function CreateStep(c: Config, s: Store, v: string, t: Task): (Store, Task) {
    match t
    case LvCreate(size) =>
      if v in s.volumes then (s, Done(false)) else (s.(volumes := s.volumes[v := size]), MakeSubsystem)
    case MakeSubsystem =>
      (if v in s.subsystems then s else WithSubsystem(s, v, Subsystem(false, map[])), AllowAnyHost)
    case AllowAnyHost =>
      if v !in s.subsystems then (s, Done(false))
      else (WithSubsystem(s, v, s.subsystems[v].(allowAnyHost := true)), MakeNamespace)
    case MakeNamespace =>
      if v !in s.subsystems then (s, Done(false))
      else
        var ss := s.subsystems[v];
        (if c.ns in ss.namespaces then s
         else WithSubsystem(s, v, ss.(namespaces := ss.namespaces[c.ns := Namespace("", false)])), SetDevicePath)
    case SetDevicePath =>
      if v !in s.subsystems || c.ns !in s.subsystems[v].namespaces then (s, Done(false))
      else
        var ss := s.subsystems[v];
        var ns := ss.namespaces[c.ns].(devicePath := DevicePath(c, v));
        (WithSubsystem(s, v, ss.(namespaces := ss.namespaces[c.ns := ns])), Enable)
    case Enable =>
      if v !in s.subsystems || c.ns !in s.subsystems[v].namespaces then (s, Done(false))
      else
        var ss := s.subsystems[v];
        var ns := ss.namespaces[c.ns].(enable := true);
        (WithSubsystem(s, v, ss.(namespaces := ss.namespaces[c.ns := ns])), PickPort(1))
    case PickPort(n) =>
      (s, if Decimal(n) in s.ports then PickPort(n + 1) else MakePort(n))
    case MakePort(n) =>
      (if Decimal(n) in s.ports then s else WithPort(s, Decimal(n), NEW_PORT), SetAdrfam(n))
    case SetAdrfam(n) =>
      if Decimal(n) !in s.ports then (s, Done(false))
      else (WithPort(s, Decimal(n), s.ports[Decimal(n)].(adrfam := "ipv4")), SetTraddr(n))
    case SetTraddr(n) =>
      if Decimal(n) !in s.ports then (s, Done(false))
      else (WithPort(s, Decimal(n), s.ports[Decimal(n)].(traddr := c.traddr)), SetTrsvcid(n))
    case SetTrsvcid(n) =>
      var val := 4420 + n - 1;
      if !ServiceIdInRange(val) then (s, SetTrtype(n))
      else if Decimal(n) !in s.ports then (s, Done(false))
      else (WithPort(s, Decimal(n), s.ports[Decimal(n)].(trsvcid := Decimal(val))), SetTrtype(n))
    case SetTrtype(n) =>
      if !IsTransport(c.trtype) then (s, Link(n))
      else if Decimal(n) !in s.ports then (s, Done(false))
      else (WithPort(s, Decimal(n), s.ports[Decimal(n)].(trtype := c.trtype)), Link(n))
    case Link(n) =>
      if Decimal(n) !in s.ports || v !in s.subsystems then (s, Done(false))
      else
        var po := s.ports[Decimal(n)];
        (WithPort(s, Decimal(n), po.(links := po.links + {v})), Done(true))
    case _ => (s, t)
  }

  /** One call of the delete handler for `v`; `order` is what a listing of the ports would return. */
  function DeleteStep(c: Config, s: Store, v: string, t: Task, order: seq<string>): (Store, Task) {
    match t
    case ListPorts => (s, Scan(order))
    case Scan(todo) =>
      if todo == [] then (s, RemoveNamespace)
      else if todo[0] !in s.ports then (s, Done(false))
      else (s, if v in s.ports[todo[0]].links then Unlink(todo[0], todo[1..]) else Scan(todo[1..]))
    case Unlink(p, todo) =>
      (if p in s.ports then WithPort(s, p, s.ports[p].(links := s.ports[p].links - {v})) else s, RemovePort(p, todo))
    case RemovePort(p, todo) =>
      if p !in s.ports then (s, Scan(todo))
      else if s.ports[p].links != {} then (s, Done(false))
      else (s.(ports := s.ports - {p}), Scan(todo))
    case RemoveNamespace =>
      (if v in s.subsystems
       then WithSubsystem(s, v, s.subsystems[v].(namespaces := s.subsystems[v].namespaces - {c.ns})) else s,
       RemoveSubsystem)
    case RemoveSubsystem =>
      if v !in s.subsystems then (s, LvRemove)
      else if s.subsystems[v].namespaces != map[] || Links(s, v) != {} then (s, Done(false))
      else (s.(subsystems := s.subsystems - {v}), LvRemove)
    case LvRemove =>
      if v !in s.volumes then (s, Done(false)) else (s.(volumes := s.volumes - {v}), Done(true))
    case _ => (s, t)
  }

  predicate IsDeleting(t: Task) {
    t.ListPorts? || t.Scan? || t.Unlink? || t.RemovePort? || t.RemoveNamespace? || t.RemoveSubsystem? || t.LvRemove?
  }

  predicate IsCreating(t: Task) { !IsDeleting(t) && !t.Done? }

  function Step(c: Config, s: Store, v: string, t: Task, order: seq<string>): (Store, Task) {
    if IsDeleting(t) then DeleteStep(c, s, v, t, order) else CreateStep(c, s, v, t)
  }

  /** A handler that gets through at most `lives` calls before one of them fails or the handler stops for good. */
  function RunTask(c: Config, s: Store, v: string, t: Task, order: seq<string>, lives: nat): (Store, Task)
    decreases lives
  {
    if lives == 0 || t.Done? then (s, t)
    else
      var (s', t') := Step(c, s, v, t, order);
      RunTask(c, s', v, t', order, lives - 1)
  }

  /** The requests in flight, by the volume each of them names. */
  datatype System = System(store: Store, tasks: map<string, Task>)

  datatype Event =
    | BeginCreate(v: string, capacity: nat)
    | BeginDelete(v: string)
    | Advance(v: string, order: seq<string>)
    | Stop(v: string)

  function SetTask(tasks: map<string, Task>, v: string, t: Task): map<string, Task> {
    if t.Done? then tasks - {v} else tasks[v := t]
  }

  /** What an event does; one that is not possible in a state leaves it alone. Requests in flight name different volumes:
      a request for a volume with one in flight waits. The service itself does not make it wait; ExportOverlap does
      without this. Stop also stands for a call that fails by itself. */
  function Apply(c: Config, y: System, e: Event): System {
    match e
    case BeginCreate(v, capacity) =>
      if v in y.tasks then y else y.(tasks := SetTask(y.tasks, v, CreateTask(c, capacity)))
    case BeginDelete(v) =>
      if v in y.tasks then y else y.(tasks := y.tasks[v := ListPorts])
    case Advance(v, order) =>
      if v !in y.tasks || (y.tasks[v].ListPorts? && !IsListing(order, y.store.ports.Keys)) then y
      else
        var (s', t') := Step(c, y.store, v, y.tasks[v], order);
        System(s', SetTask(y.tasks, v, t'))
    case Stop(v) => y.(tasks := y.tasks - {v})
  }

  const INITIAL := System(EMPTY_STORE, map[])

  /** The state after a run: any sequence of events, so any interleaving of the calls of handlers for different volumes. */
  function After(c: Config, es: seq<Event>): System {
    if es == [] then INITIAL else Apply(c, After(c, es[..|es| - 1]), es[|es| - 1])
  }

  /** Serialised requests: one begins only when none is in flight. */
  function ApplySerial(c: Config, y: System, e: Event): System {
    if (e.BeginCreate? || e.BeginDelete?) && y.tasks != map[] then y else Apply(c, y, e)
  }

  function AfterSerial(c: Config, es: seq<Event>): System {
    if es == [] then INITIAL else ApplySerial(c, AfterSerial(c, es[..|es| - 1]), es[|es| - 1])
  }
}
