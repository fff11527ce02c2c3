/** Controllers made and deleted by many requests at once: the server answers from a pool of threads, so requests
    interleave between their calls to SNAP. */
module ControllerFleet {
  import opened Wrappers
  import opened FunctionRanges
  import opened ControllerNames

  /** What a create request does next; the function it holds was chosen from a list that may be out of date. */
  datatype Task =
    | ListControllers(pf: Option<int>, vf: Option<int>)
    | MakeSubsystem(f: Fn)
    | MakeController(f: Fn)

  /** The controllers that exist, the create requests in flight by number, and the ids returned (or about to be
      returned) and not deleted since, by the number of their request. */
  datatype Fleet = Fleet(live: set<Fn>, tasks: map<nat, Task>, held: map<nat, string>)

  datatype Event =
    | Begin(request: nat, pf: Option<int>, vf: Option<int>)
    | Advance(request: nat)
    | Fail(request: nat)
    | Delete(id: string)

  /** The device, and how many functions it has. */
  datatype Device = Device(numPf: nat, numVf: nat)

  /** One call of a create request. A request that ends without a controller returns "-1". SNAP refuses a second
      controller on a function. */
  ghost function Step(d: Device, y: Fleet, r: nat): Fleet
    requires r in y.tasks
  {
    match y.tasks[r]
    case ListControllers(pf, vf) =>
      var f := Choice(d.numPf, d.numVf, y.live, pf, vf);
      y.(tasks := if f.pf == -1 then y.tasks - {r} else y.tasks[r := MakeSubsystem(f)])
    case MakeSubsystem(f) =>
      y.(tasks := y.tasks[r := MakeController(f)])
    case MakeController(f) =>
      if f in y.live || !IsNamed(f) then y.(tasks := y.tasks - {r})
      else Fleet(y.live + {f}, y.tasks - {r}, y.held[r := IdOf(f)])
  }

  /** What is left of the ids when the controller of function `f` is deleted. */
  function Remaining(held: map<nat, string>, f: Fn): map<nat, string> {
    map r | r in held && DecodeId(held[r]) != Some(f) :: held[r]
  }

  ghost function Apply(d: Device, y: Fleet, e: Event): Fleet {
    match e
    case Begin(r, pf, vf) =>
      if r in y.tasks || r in y.held then y else y.(tasks := y.tasks[r := ListControllers(pf, vf)])
    case Advance(r) => if r in y.tasks then Step(d, y, r) else y
    case Fail(r) => y.(tasks := y.tasks - {r})
    case Delete(id) =>
      match DecodeId(id)
      case None => y
      case Some(f) => y.(live := y.live - {f}, held := Remaining(y.held, f))
  }

  /** The fleet after a run: any interleaving of the requests' calls. */
  ghost function After(d: Device, es: seq<Event>): Fleet {
    if es == [] then Fleet({}, map[], map[]) else Apply(d, After(d, es[..|es| - 1]), es[|es| - 1])
  }

  ghost predicate IdsNameLive(y: Fleet) {
    && (forall r, r' :: r in y.held && r' in y.held && r != r' ==> y.held[r] != y.held[r'])
    && (forall r :: r in y.held ==> DecodeId(y.held[r]).Some? && DecodeId(y.held[r]).value in y.live)
    && (forall f :: f in y.live ==> exists r :: r in y.held && DecodeId(y.held[r]) == Some(f))
  }

  /** Every function that the range of a physical index holds is one of the first ten. */
  predicate InReach(d: Device, pf: Option<int>) {
    var x := if pf.Some? then pf.value else -1;
    if x < 0 then d.numPf <= 10 && -11 <= x else x < 10 || d.numPf <= x
  }

  predicate AllInReach(d: Device, es: seq<Event>) {
    forall i :: 0 <= i < |es| && es[i].Begin? ==> InReach(d, es[i].pf)
  }

  predicate Deletable(f: Fn) { IsNamed(f) && f.pf < 10 }

  ghost predicate Inv(d: Device, y: Fleet) {
    && IdsNameLive(y)
    && (forall r :: r in y.held ==> exists f :: Deletable(f) && y.held[r] == IdOf(f))
    && (forall r :: r in y.tasks ==>
          match y.tasks[r]
          case ListControllers(pf, _) => InReach(d, pf)
          case MakeSubsystem(f) => Deletable(f)
          case MakeController(f) => Deletable(f))
    && (forall r :: r in y.tasks ==> r !in y.held)
  }

  lemma NewIdNamesLive(y: Fleet, r: nat, f: Fn)
    requires IdsNameLive(y) && r !in y.held && Deletable(f) && f !in y.live
    ensures IdsNameLive(Fleet(y.live + {f}, y.tasks - {r}, y.held[r := IdOf(f)]))
  {
    IdRoundTrip(f);
    hide DecodeId, IdOf;
    var held := y.held[r := IdOf(f)];
    forall g | g in y.live + {f} ensures exists k :: k in held && DecodeId(held[k]) == Some(g) {
      if g == f {
        assert DecodeId(held[r]) == Some(g);
      } else {
        var k :| k in y.held && DecodeId(y.held[k]) == Some(g);
        assert held[k] == y.held[k];
      }
    }
  }

  lemma MakeControllerKeepsInv(d: Device, y: Fleet, r: nat)
    requires Inv(d, y) && r in y.tasks && y.tasks[r].MakeController?
    ensures Inv(d, Step(d, y, r))
  {
    var f := y.tasks[r].f;
    if f !in y.live {
      NewIdNamesLive(y, r, f);
    }
  }

  lemma DeleteKeepsInv(d: Device, y: Fleet, id: string)
    requires Inv(d, y)
    ensures Inv(d, Apply(d, y, Delete(id)))
  {
    hide IdOf, DecodeId;
    var y' := Apply(d, y, Delete(id));
    forall g | g in y'.live ensures exists k :: k in y'.held && DecodeId(y'.held[k]) == Some(g) {
      var k :| k in y.held && DecodeId(y.held[k]) == Some(g);
      assert k in y'.held;
    }
  }

  lemma ChoiceIsDeletable(d: Device, used: set<Fn>, pf: Option<int>, vf: Option<int>)
    requires InReach(d, pf)
    ensures var f := Choice(d.numPf, d.numVf, used, pf, vf); f.pf != -1 ==> Deletable(f)
  {
    ChoiceIsNamed(d.numPf, d.numVf, used, pf, vf);
    IndexRangeCases(if pf.Some? then pf.value else -1, d.numPf);
  }

  lemma ListKeepsInv(d: Device, y: Fleet, r: nat)
    requires Inv(d, y) && r in y.tasks && y.tasks[r].ListControllers?
    ensures Inv(d, Step(d, y, r))
  {
    ChoiceIsDeletable(d, y.live, y.tasks[r].pf, y.tasks[r].vf);
  }

  lemma ApplyKeepsInv(d: Device, y: Fleet, e: Event)
    requires Inv(d, y) && (e.Begin? ==> InReach(d, e.pf))
    ensures Inv(d, Apply(d, y, e))
  {
    match e
    case Advance(r) =>
      if r in y.tasks {
        match y.tasks[r]
        case ListControllers(_, _) => ListKeepsInv(d, y, r);
        case MakeSubsystem(_) =>
        case MakeController(_) => MakeControllerKeepsInv(d, y, r);
      }
    case Delete(id) => DeleteKeepsInv(d, y, id);
    case Begin(_, _, _) =>
    case Fail(_) =>
  }

  lemma {:induction false} RunsKeepInv(d: Device, es: seq<Event>)
    requires AllInReach(d, es)
    ensures Inv(d, After(d, es))
  {
    if es != [] {
      RunsKeepInv(d, es[..|es| - 1]);
      ApplyKeepsInv(d, After(d, es[..|es| - 1]), es[|es| - 1]);
    }
  }

  /** Main result: as long as the physical indices asked for stay within the first ten functions, after every interleaving
      the ids that clients hold are pairwise distinct and decode to exactly the controllers that exist, also when several
      requests chose the same function from old lists. */
  lemma HeldIdsNameLiveControllers(d: Device, es: seq<Event>)
    requires AllInReach(d, es)
    ensures IdsNameLive(After(d, es))
  {
    RunsKeepInv(d, es);
  }

  lemma OneMore(d: Device, es: seq<Event>, e: Event)
    ensures After(d, es + [e]) == Apply(d, After(d, es), e)
  {
    assert (es + [e])[..|es|] == es;
  }

  /** No event of the run deletes the controller of `f`. */
  predicate Spares(es: seq<Event>, f: Fn) {
    forall i :: 0 <= i < |es| && es[i].Delete? ==> DecodeId(es[i].id) != Some(f)
  }

  /** Whoever holds the id of a function goes on to hold it, and nobody else comes to hold an id of that function, until it
      is deleted. */
  lemma {:induction false} HolderKeeps(d: Device, es: seq<Event>, more: seq<Event>, r: nat, f: Fn)
    requires AllInReach(d, es + more) && Spares(more, f)
    requires r in After(d, es).held && DecodeId(After(d, es).held[r]) == Some(f)
    ensures var held := After(d, es + more).held;
            && r in held && held[r] == After(d, es).held[r]
            && forall k :: k in held && DecodeId(held[k]) == Some(f) ==> k == r
    decreases |more|
  {
    hide Inv, Apply, IdsNameLive, DecodeId;
    var y := After(d, es + more);
    if more == [] {
      assert es + more == es;
    } else {
      var before, e := more[..|more| - 1], more[|more| - 1];
      assert es + more == (es + before) + [e];
      HolderKeeps(d, es, before, r, f);
      OneMore(d, es + before, e);
      RunsKeepInv(d, es + before);
      HolderHasEnded(d, After(d, es + before), r);
      ApplyKeepsHolder(d, After(d, es + before), e, r, f);
    }
    RunsKeepInv(d, es + more);
    forall k | k in y.held && DecodeId(y.held[k]) == Some(f) ensures k == r {
      SameFunctionSameId(d, y, k, r);
    }
  }

  lemma HolderHasEnded(d: Device, y: Fleet, r: nat)
    requires Inv(d, y) && r in y.held
    ensures r !in y.tasks
  {
  }

  lemma ApplyKeepsHolder(d: Device, y: Fleet, e: Event, r: nat, f: Fn)
    requires r !in y.tasks && r in y.held && DecodeId(y.held[r]) == Some(f)
    requires e.Delete? ==> DecodeId(e.id) != Some(f)
    ensures r in Apply(d, y, e).held && Apply(d, y, e).held[r] == y.held[r]
  {
    hide DecodeId, IdOf, Choice, IsNamed;
  }

  lemma SameFunctionSameId(d: Device, y: Fleet, k: nat, r: nat)
    requires Inv(d, y) && k in y.held && r in y.held && DecodeId(y.held[k]) == DecodeId(y.held[r])
    ensures k == r
  {
    var f :| Deletable(f) && y.held[k] == IdOf(f);
    var g :| Deletable(g) && y.held[r] == IdOf(g);
    IdRoundTrip(f);
    IdRoundTrip(g);
  }

  /** Main result: of the requests that chose a function, however many and from whatever lists, exactly one gets it: the
      first that goes on to its controller while the function is free holds the id, and is the only one to hold an id of
      that function until it is deleted; one that comes later ends without an id. */
  lemma OneHolder(d: Device, es: seq<Event>, more: seq<Event>, r: nat, f: Fn)
    requires AllInReach(d, es + [Advance(r)] + more) && Spares(more, f)
    requires r in After(d, es).tasks && After(d, es).tasks[r] == MakeController(f)
    ensures IsNamed(f)
    ensures f !in After(d, es).live ==>
              var held := After(d, es + [Advance(r)] + more).held;
              && r in held && held[r] == IdOf(f)
              && forall k :: k in held && DecodeId(held[k]) == Some(f) ==> k == r
    ensures f in After(d, es).live ==>
              r !in After(d, es + [Advance(r)]).tasks && r !in After(d, es + [Advance(r)]).held
  {
    assert AllInReach(d, es) by {
      assert forall i :: 0 <= i < |es| ==> es[i] == (es + [Advance(r)] + more)[i];
    }
    RunsKeepInv(d, es);
    OneMore(d, es, Advance(r));
    MakesOrEnds(d, After(d, es), r, f);
    hide Inv, Apply, DecodeId, IdOf;
    if f !in After(d, es).live {
      HolderKeeps(d, es + [Advance(r)], more, r, f);
    }
  }

  lemma MakesOrEnds(d: Device, y: Fleet, r: nat, f: Fn)
    requires Inv(d, y) && r in y.tasks && y.tasks[r] == MakeController(f)
    ensures IsNamed(f) && DecodeId(IdOf(f)) == Some(f)
    ensures var y' := Apply(d, y, Advance(r));
            if f in y.live then r !in y'.tasks && r !in y'.held else r in y'.held && y'.held[r] == IdOf(f)
  {
    assert Deletable(f);
    IdRoundTrip(f);
  }

  /* Single requests. */

  /** One request by itself, up to its controller. */
  function Request(r: nat, pf: Option<int>, vf: Option<int>): seq<Event> {
    [Begin(r, pf, vf), Advance(r), Advance(r), Advance(r)]
  }

  lemma NoTask(tasks: map<nat, Task>, r: nat, t: Task)
    requires r !in tasks
    ensures tasks[r := t] - {r} == tasks
  {
  }

  /** The same, event by event. */
  lemma RequestEvents(d: Device, es: seq<Event>, r: nat, pf: Option<int>, vf: Option<int>)
    ensures var y1 := Apply(d, After(d, es), Begin(r, pf, vf));
            var y2 := Apply(d, y1, Advance(r));
            var y3 := Apply(d, y2, Advance(r));
            && After(d, es + Request(r, pf, vf)) == Apply(d, y3, Advance(r))
            && After(d, es + Request(r, pf, vf)[..1] + [Fail(r)]) == Apply(d, y1, Fail(r))
            && After(d, es + Request(r, pf, vf)[..2] + [Fail(r)]) == Apply(d, y2, Fail(r))
            && After(d, es + Request(r, pf, vf)[..3] + [Fail(r)]) == Apply(d, y3, Fail(r))
  {
    hide Apply;
    var begin, a := Begin(r, pf, vf), Advance(r);
    var es1 := es + [begin];
    OneMore(d, es, begin);
    OneMore(d, es1, a);
    OneMore(d, es1 + [a], a);
    OneMore(d, es1 + [a] + [a], a);
    OneMore(d, es1, Fail(r));
    OneMore(d, es1 + [a], Fail(r));
    OneMore(d, es1 + [a] + [a], Fail(r));
    assert es + Request(r, pf, vf) == es1 + [a] + [a] + [a];
    assert es + Request(r, pf, vf)[..1] == es1;
    assert es + Request(r, pf, vf)[..2] == es1 + [a];
    assert es + Request(r, pf, vf)[..3] == es1 + [a] + [a];
  }

  function WithTask(y: Fleet, r: nat, t: Task): Fleet { y.(tasks := y.tasks[r := t]) }

  /** The states that a request goes through up to its last call. */
  lemma RequestStates(d: Device, y: Fleet, r: nat, pf: Option<int>, vf: Option<int>)
    requires r !in y.tasks && r !in y.held
    ensures var f := Choice(d.numPf, d.numVf, y.live, pf, vf);
            && Apply(d, y, Begin(r, pf, vf)) == WithTask(y, r, ListControllers(pf, vf))
            && Apply(d, WithTask(y, r, ListControllers(pf, vf)), Advance(r)) ==
               (if f.pf == -1 then y else WithTask(y, r, MakeSubsystem(f)))
            && Apply(d, WithTask(y, r, MakeSubsystem(f)), Advance(r)) == WithTask(y, r, MakeController(f))
            && Apply(d, y, Advance(r)) == y
  {
    hide Choice;
    NoTask(y.tasks, r, ListControllers(pf, vf));
    var f := Choice(d.numPf, d.numVf, y.live, pf, vf);
    assert y.tasks[r := ListControllers(pf, vf)][r := MakeSubsystem(f)] == y.tasks[r := MakeSubsystem(f)];
    assert y.tasks[r := MakeSubsystem(f)][r := MakeController(f)] == y.tasks[r := MakeController(f)];
  }

  lemma FailRestores(d: Device, y: Fleet, r: nat, t: Task)
    requires r !in y.tasks
    ensures Apply(d, WithTask(y, r, t), Fail(r)) == y && Apply(d, y, Fail(r)) == y
  {
    NoTask(y.tasks, r, t);
    assert y.tasks - {r} == y.tasks;
  }

  lemma RequestRun(d: Device, es: seq<Event>, r: nat, pf: Option<int>, vf: Option<int>, f: Fn)
    requires r !in After(d, es).tasks && r !in After(d, es).held
    requires IsNamed(f) && f !in After(d, es).live && f == Choice(d.numPf, d.numVf, After(d, es).live, pf, vf)
    ensures var y := After(d, es);
            After(d, es + Request(r, pf, vf)) == Fleet(y.live + {f}, y.tasks, y.held[r := IdOf(f)])
  {
    hide Choice, IdOf;
    var y := After(d, es);
    RequestEvents(d, es, r, pf, vf);
    RequestStates(d, y, r, pf, vf);
    LastCall(d, y, r, f);
    hide Apply;
  }

  lemma LastCall(d: Device, y: Fleet, r: nat, f: Fn)
    requires r !in y.tasks && IsNamed(f) && f !in y.live
    ensures Apply(d, WithTask(y, r, MakeController(f)), Advance(r)) == Fleet(y.live + {f}, y.tasks, y.held[r := IdOf(f)])
  {
    NoTask(y.tasks, r, MakeController(f));
  }

  /** A request for which no function is left ends without an id. */
  lemma RefusedRun(d: Device, es: seq<Event>, r: nat, pf: Option<int>, vf: Option<int>)
    requires r !in After(d, es).tasks && r !in After(d, es).held
    requires Choice(d.numPf, d.numVf, After(d, es).live, pf, vf) == NO_FUNCTION
    ensures After(d, es + Request(r, pf, vf)) == After(d, es)
  {
    hide Choice, Apply;
    RequestEvents(d, es, r, pf, vf);
    RequestStates(d, After(d, es), r, pf, vf);
  }

  /** A request that fails at one of its calls leaves the fleet as it was. */
  lemma FailedRun(d: Device, es: seq<Event>, r: nat, pf: Option<int>, vf: Option<int>, calls: nat)
    requires r !in After(d, es).tasks && r !in After(d, es).held && calls < 3
    ensures After(d, es + Request(r, pf, vf)[..calls + 1] + [Fail(r)]) == After(d, es)
  {
    hide Choice, Apply, Request, WithTask;
    var y, f := After(d, es), Choice(d.numPf, d.numVf, After(d, es).live, pf, vf);
    RequestEvents(d, es, r, pf, vf);
    RequestStates(d, y, r, pf, vf);
    FailRestores(d, y, r, ListControllers(pf, vf));
    FailRestores(d, y, r, MakeSubsystem(f));
    FailRestores(d, y, r, MakeController(f));
    if calls == 0 {
      assert calls + 1 == 1;
    } else if calls == 1 {
      assert calls + 1 == 2;
    } else {
      assert calls + 1 == 3;
    }
  }

  /* Deleting. */

  /** Main result: a delete of an id that a request holds takes away exactly the function that the id decodes to, which
      exists, and exactly the id of that request. */
  lemma DeleteFrees(d: Device, es: seq<Event>, r: nat)
    requires AllInReach(d, es) && r in After(d, es).held
    ensures var y := After(d, es);
            && DecodeId(y.held[r]).Some? && DecodeId(y.held[r]).value in y.live
            && After(d, es + [Delete(y.held[r])]) ==
               Fleet(y.live - {DecodeId(y.held[r]).value}, y.tasks, y.held - {r})
  {
    RunsKeepInv(d, es);
    var y := After(d, es);
    OneMore(d, es, Delete(y.held[r]));
    OnlyHolder(d, y, r);
    hide Inv, DecodeId;
  }

  lemma HolderNamesLive(d: Device, y: Fleet, r: nat)
    requires Inv(d, y) && r in y.held
    ensures DecodeId(y.held[r]).Some? && DecodeId(y.held[r]).value in y.live
  {
  }

  lemma OnlyHolder(d: Device, y: Fleet, r: nat)
    requires Inv(d, y) && r in y.held
    ensures DecodeId(y.held[r]).Some? && DecodeId(y.held[r]).value in y.live
    ensures Remaining(y.held, DecodeId(y.held[r]).value) == y.held - {r}
  {
    hide Inv, DecodeId, IdOf;
    HolderNamesLive(d, y, r);
    forall k | k in y.held && DecodeId(y.held[k]) == DecodeId(y.held[r]) ensures k == r {
      SameFunctionSameId(d, y, k, r);
    }
  }

  lemma Restored(y: Fleet, r: nat, f: Fn, id: string)
    requires f !in y.live && r !in y.held
    ensures Fleet(y.live + {f} - {f}, y.tasks, y.held[r := id] - {r}) == y
  {
  }

  /** Main result: a create that gets `f`, followed by the delete of its id, gives back the fleet before it, and a further
      create with the same indices gets the same id again. */
  lemma DeleteUndoesRequest(d: Device, es: seq<Event>, r: nat, k: nat, pf: Option<int>, vf: Option<int>, f: Fn)
    requires AllInReach(d, es) && InReach(d, pf)
    requires forall i :: i in {r, k} ==> i !in After(d, es).tasks && i !in After(d, es).held
    requires f == Choice(d.numPf, d.numVf, After(d, es).live, pf, vf) && f != NO_FUNCTION
    ensures IsNamed(f)
    ensures var y := After(d, es); var undone := es + Request(r, pf, vf) + [Delete(IdOf(f))];
            && After(d, es + Request(r, pf, vf)) == Fleet(y.live + {f}, y.tasks, y.held[r := IdOf(f)])
            && After(d, undone) == y
            && After(d, undone + Request(k, pf, vf)) == Fleet(y.live + {f}, y.tasks, y.held[k := IdOf(f)])
  {
    var y, es1 := After(d, es), es + Request(r, pf, vf);
    ChoiceIsNamed(d.numPf, d.numVf, y.live, pf, vf);
    RequestRun(d, es, r, pf, vf, f);
    DeleteFrees(d, es1, r);
    ChoiceIsDeletable(d, y.live, pf, vf);
    IdRoundTrip(f);
    hide DecodeId, IdOf, Choice, Apply, InReach;
    Restored(y, r, f, IdOf(f));
    RequestRun(d, es1 + [Delete(IdOf(f))], k, pf, vf, f);
  }

  /* The condition is exact, for each physical index. */

  /** Every request of the run asks for this physical index. */
  predicate Asks(es: seq<Event>, pf: Option<int>) {
    forall i :: 0 <= i < |es| && es[i].Begin? ==> es[i].pf == pf
  }

  lemma AsksMore(es: seq<Event>, r: nat, pf: Option<int>, vf: Option<int>)
    requires Asks(es, pf)
    ensures Asks(es + Request(r, pf, vf), pf)
  {
  }

  /** The functions with virtual index `w` of the first `k` physical ones. */
  function Column(k: nat, w: int): set<Fn> { set j | 0 <= j < k :: Fn(j, w) }

  lemma NextInColumn(numPf: nat, numVf: nat, pf: Option<int>, vf: Option<int>, m: nat, w: int, k: nat)
    requires Candidates(numPf, numVf, pf, vf) == Column(m, w) && k < m
    ensures Choice(numPf, numVf, Column(k, w), pf, vf) == Fn(k, w)
    ensures Column(k + 1, w) == Column(k, w) + {Fn(k, w)}
  {
    LeastIs(Column(m, w) - Column(k, w), Fn(k, w));
  }

  /** Requests one after the other take the functions of a column in order. */
  lemma {:induction false} TakesColumn(d: Device, pf: Option<int>, vf: Option<int>, m: nat, w: int, k: nat)
    returns (es: seq<Event>)
    requires Candidates(d.numPf, d.numVf, pf, vf) == Column(m, w) && -1 <= w && k <= m
    ensures Asks(es, pf)
    ensures var y := After(d, es); y.tasks == map[] && y.live == Column(k, w) && forall r :: r in y.held ==> r < k
  {
    if k == 0 {
      es := [];
    } else {
      var r := k - 1;
      es := TakesColumn(d, pf, vf, m, w, r);
      NextInColumn(d.numPf, d.numVf, pf, vf, m, w, r);
      RequestRun(d, es, r, pf, vf, Fn(r, w));
      AsksMore(es, r, pf, vf);
      es := es + Request(r, pf, vf);
    }
  }

  lemma OutOfReachBreaks(d: Device, pf: Option<int>) returns (es: seq<Event>)
    requires !InReach(d, pf)
    ensures Asks(es, pf) && !IdsNameLive(After(d, es))
  {
    var x := if pf.Some? then pf.value else -1;
    IndexRangeCases(x, d.numPf);
    if x >= 0 {
      LeastIs({Fn(x, -1)}, Fn(x, -1));
      RequestRun(d, [], 0, pf, None, Fn(x, -1));
      es := [] + Request(0, pf, None);
      assert Fn(x, -1) in After(d, es).live;
    } else {
      var m: nat := Max(d.numPf, -x - 1);
      var virtual := pf.None? && d.numVf > 0;
      var vf := if virtual then Some(0) else None;
      var w := if virtual then 0 else -1;
      IndexRangeCases(0, d.numVf);
      assert Candidates(d.numPf, d.numVf, pf, vf) == Column(m, w);
      es := TakesColumn(d, pf, vf, m, w, 11);
      assert Fn(10, w) in After(d, es).live;
    }
  }

  /** Main result: the ids name the controllers in every run of requests for a physical index exactly when its range
      stays within the first ten functions; for requests without one, exactly when the device has no more than ten. */
  lemma InReachExactly(d: Device, pf: Option<int>)
    ensures (forall es :: Asks(es, pf) ==> IdsNameLive(After(d, es))) <==> InReach(d, pf)
    ensures InReach(d, None) <==> d.numPf <= 10
  {
    if InReach(d, pf) {
      forall es | Asks(es, pf) ensures IdsNameLive(After(d, es)) {
        HeldIdsNameLiveControllers(d, es);
      }
    } else {
      var es := OutOfReachBreaks(d, pf);
    }
  }
}
