/** The BlueField plugin: choosing a function, creating and deleting controllers. */
module DpuPlugin {
  import opened Wrappers
  import opened Text
  import opened FunctionRanges
  import opened ControllerNames
  import opened ControllerFleet

  /** `getAvailableFunctions`, for whatever controllers SNAP lists. */
  method GetAvailableFunctions(numPf: nat, numVf: nat, controllers: seq<string>, pf: Option<int>, vf: Option<int>)
    returns (f: Fn)
    ensures f == Choice(numPf, numVf, UsedBy(controllers), pf, vf)
    ensures if f == Fn(-1, -1) then forall g :: IsOffered(numPf, numVf, pf, vf, g) ==> g in UsedBy(controllers)
            else && IsOffered(numPf, numVf, pf, vf, f) && f !in UsedBy(controllers)
                 && forall g :: IsOffered(numPf, numVf, pf, vf, g) && g !in UsedBy(controllers) ==>
                                  f.pf < g.pf || (f.pf == g.pf && f.vf <= g.vf)
    ensures InDomain(numPf, numVf, pf, vf) ==>
              if f == NO_FUNCTION then forall g :: !IsFree(numPf, numVf, UsedBy(controllers), pf, vf, g)
              else && IsFree(numPf, numVf, UsedBy(controllers), pf, vf, f)
                   && forall g :: IsFree(numPf, numVf, UsedBy(controllers), pf, vf, g) ==> Leq(f, g)
  {
    var controllerFs: set<Fn>, allFs: set<Fn> := {}, {};
    var isPf := vf.None?;
    var isVf := vf.Some? || pf.None?;
    var pfIndex := if pf.None? then -1 else pf.value;
    var vfIndex := if vf.None? then -1 else vf.value;
    var pfs := IndexRange(pfIndex, numPf);
    if isVf {
      var vfs := IndexRange(vfIndex, numVf);
      allFs := allFs + set p, v | p in pfs && v in vfs :: Fn(p, v);
    }
    if isPf {
      allFs := allFs + set p | p in pfs :: Fn(p, -1);
    }
    for i := 0 to |controllers|
      invariant controllerFs == UsedBy(controllers[..i])
    {
      UsedByOneMore(controllers, i);
      var digits := DigitRuns(controllers[i]);
      if |digits| == 2 {
        controllerFs := controllerFs + {Fn(ParseDecimal(digits[1]), -1)};
      } else if |digits| == 3 {
        controllerFs := controllerFs + {Fn(ParseDecimal(digits[1]), ParseDecimal(digits[2]))};
      }
    }
    assert controllers[..|controllers|] == controllers;
    var availableFs := allFs - controllerFs;
    assert availableFs == Candidates(numPf, numVf, pf, vf) - UsedBy(controllers);
    ChoiceIsFirst(numPf, numVf, UsedBy(controllers), pf, vf);
    if InDomain(numPf, numVf, pf, vf) {
      ChoiceRefines(numPf, numVf, UsedBy(controllers), pf, vf);
    }
    if availableFs == {} {
      return NO_FUNCTION;
    }
    f := MinOf(availableFs);
  }

  lemma UsedByOneMore(names: seq<string>, i: nat)
    requires i < |names|
    ensures UsedBy(names[..i + 1]) ==
            UsedBy(names[..i]) + (match ParseName(names[i]) case Some(f) => {f} case None => {})
  {
    var a, b := names[..i], names[..i + 1];
    assert forall k :: 0 <= k < i ==> a[k] == b[k];
    assert b[i] == names[i];
  }

  /** `min` on a set of pairs. */
  method MinOf(s: set<Fn>) returns (f: Fn)
    requires s != {}
    ensures IsLeast(s, f) && f == Least(s)
  {
    var rest := s;
    f :| f in rest;
    rest := rest - {f};
    while rest != {}
      invariant rest <= s && f in s && forall g :: g in s && g !in rest ==> Leq(f, g)
    {
      var g :| g in rest;
      rest := rest - {g};
      if !Leq(f, g) {
        f := g;
      }
    }
    LeastIs(s, f);
  }

  /** The names other than this one. */
  function Without(names: seq<string>, name: string): (r: seq<string>)
    ensures forall n :: n in r <==> n in names && n != name
  {
    if names == [] then []
    else
      var r := Without(names[..|names| - 1], name);
      var last := names[|names| - 1];
      assert names == names[..|names| - 1] + [last];
      if last == name then r else r + [last]
  }

  lemma {:induction false} WithoutAbsent(names: seq<string>, name: string)
    requires name !in names
    ensures Without(names, name) == names
  {
    if names != [] {
      WithoutAbsent(names[..|names| - 1], name);
    }
  }

  /** Deleting the id that a create returned restores the list of controllers, name by name. */
  lemma DeleteUndoesCreate(names: seq<string>, f: Fn)
    requires IsNamed(f) && f.pf < 10 && NameOf(f) !in names
    ensures DecodeId(IdOf(f)).Some?
    ensures Without(names + [NameOf(f)], NameOf(DecodeId(IdOf(f)).value)) == names
  {
    IdRoundTrip(f);
    assert (names + [NameOf(f)])[..|names|] == names;
    WithoutAbsent(names, NameOf(f));
  }

  /** How the name and the id of a function are written. */
  lemma WrittenAs(f: Fn)
    requires IsNamed(f)
    ensures NameOf(f) == "NvmeEmu0pf" + Decimal(f.pf) + (if f.vf == -1 then "" else "vf" + Decimal(f.vf))
    ensures IdOf(f) == Decimal(f.pf) + (if f.vf == -1 then "" else Decimal(f.vf))
  {
  }

  /** How an id is read, and the name it leads to. */
  lemma DecodeWritten(id: string)
    ensures DecodeId(id).None? <==> id == "" || !AllDigits(id)
    ensures DecodeId(id).Some? ==>
              var vf := if |id| == 1 then "" else "vf" + Decimal(ParseDecimal(id[1..]));
              && DecodeId(id) == Some(Fn(ParseDecimal(id[..1]), if |id| == 1 then -1 else ParseDecimal(id[1..])))
              && NameOf(DecodeId(id).value) == "NvmeEmu0pf" + [id[0]] + vf
              && "NvmeEmu0pf" + [id[0]] + vf == PREFIX + Decimal(ParseDecimal(id[..1])) + vf
  {
    if DecodeId(id).Some? {
      assert id[..1] == [id[0]];
      ParseDigit(id[0]);
      DecimalDigit(id[0]);
    }
  }

  /** A delete takes the function of its id away, and gives no request an id. */
  lemma DeleteEvent(d: Device, es: seq<Event>, id: string)
    requires DecodeId(id).Some?
    ensures var y, y' := After(d, es), After(d, es + [Delete(id)]);
            && y'.live == y.live - {DecodeId(id).value} && y'.tasks == y.tasks && y'.held.Keys <= y.held.Keys
  {
    OneMore(d, es, Delete(id));
    hide DecodeId;
  }

  predicate Distinct(names: seq<string>) {
    forall i, j :: 0 <= i < j < |names| ==> names[i] != names[j]
  }

  class Plugin {
    const numPf: nat
    const numVf: nat

    /** The controllers that SNAP lists. */
    var controllers: seq<string>

    /** The functions they stand for. */
    ghost var live: set<Fn>

    /** The run of the fleet that the requests so far add up to. */
    ghost var history: seq<Event>

    function Dev(): Device { Device(numPf, numVf) }

    ghost predicate Valid()
      reads this
    {
      && NamesOf(controllers, live)
      && Distinct(controllers)
      && After(Dev(), history).live == live
      && After(Dev(), history).tasks == map[]
      && forall r :: r in After(Dev(), history).held ==> r < |history|
    }

    constructor (numPf: nat, numVf: nat)
      ensures Valid() && controllers == [] && live == {} && this.numPf == numPf && this.numVf == numVf
    {
      this.numPf, this.numVf := numPf, numVf;
      controllers, live, history := [], {}, [];
    }

    /** `createController`; the flags say whether SNAP answers with its list, and whether the two calls that make something
        succeed. Without the list there is nothing to parse and the method raises. `f` is the function chosen. */
    method CreateController(pf: Option<int>, vf: Option<int>, listed: bool, subsystemMade: bool, controllerMade: bool)
      returns (r: Result<string>, ghost f: Fn)
      requires Valid()
      modifies this
      ensures Valid()
      ensures r.Raised? <==> !listed
      ensures f == Choice(numPf, numVf, old(live), pf, vf)
      ensures if f == Fn(-1, -1) then forall g :: IsOffered(numPf, numVf, pf, vf, g) ==> g in old(live)
              else && IsOffered(numPf, numVf, pf, vf, f) && f !in old(live)
                   && forall g :: IsOffered(numPf, numVf, pf, vf, g) && g !in old(live) ==>
                                    f.pf < g.pf || (f.pf == g.pf && f.vf <= g.vf)
      ensures if listed && f != Fn(-1, -1) && subsystemMade && controllerMade then
                && 0 <= f.pf && -1 <= f.vf && live == old(live) + {f}
                && r == Returned(Decimal(f.pf) + (if f.vf == -1 then "" else Decimal(f.vf))) && r.value != "-1"
                && var name := "NvmeEmu0pf" + Decimal(f.pf) + (if f.vf == -1 then "" else "vf" + Decimal(f.vf));
                   name !in old(controllers) && controllers == old(controllers) + [name]
              else
                (listed ==> r == Returned("-1")) && live == old(live) && controllers == old(controllers)
      ensures old(history) <= history
      ensures var y := After(Dev(), old(history));
              After(Dev(), history) == if r.Returned? && r.value != "-1"
                                       then Fleet(y.live + {f}, y.tasks, y.held[|old(history)| := r.value]) else y
    {
      hide After, Apply, Choice, IsOffered, NamesOf, NameOf, IdOf;
      ghost var request := |history|;
      f := Choice(numPf, numVf, live, pf, vf);
      ChoiceIsFirst(numPf, numVf, live, pf, vf);
      ChoiceIsNamed(numPf, numVf, live, pf, vf);
      if !listed {
        FailsAt(request, pf, vf, 0);
        return Raised, f;
      }
      UsedIsLive(controllers, live);
      var chosen := GetAvailableFunctions(numPf, numVf, controllers, pf, vf);
      if chosen.pf == -1 {
        RefusedRun(Dev(), history, request, pf, vf);
        history := history + Request(request, pf, vf);
        return Returned("-1"), f;
      }
      if !subsystemMade {
        FailsAt(request, pf, vf, 1);
        return Returned("-1"), f;
      }
      if !controllerMade {
        FailsAt(request, pf, vf, 2);
        return Returned("-1"), f;
      }
      NewName(controllers, live, f);
      IdIsNotFailure(f);
      WrittenAs(f);
      assert Decimal(f.pf) + "" == Decimal(f.pf);
      RequestRun(Dev(), history, request, pf, vf, f);
      history := history + Request(request, pf, vf);
      controllers := controllers + [NameOf(chosen)];
      live := live + {f};
      if chosen.vf == -1 {
        return Returned(Decimal(chosen.pf)), f;
      }
      return Returned(Decimal(chosen.pf) + Decimal(chosen.vf)), f;
    }

    /** The request ends with the failure of its call number `calls`. */
    ghost method FailsAt(request: nat, pf: Option<int>, vf: Option<int>, calls: nat)
      requires Valid() && request == |history| && calls < 3
      modifies this`history
      ensures Valid() && old(history) <= history && After(Dev(), history) == After(Dev(), old(history))
    {
      FailedRun(Dev(), history, request, pf, vf, calls);
      history := history + Request(request, pf, vf)[..calls + 1] + [Fail(request)];
    }

    /** `deleteController`: the id decides the name; SNAP removes that controller, if the call succeeds and it exists. */
    method DeleteController(id: string, deleted: bool) returns (r: Outcome)
      requires Valid()
      modifies this
      ensures Valid()
      ensures r.Aborted? <==> id == "" || exists i :: 0 <= i < |id| && id[i] !in "0123456789"
      ensures r.Aborted? <==> DecodeId(id).None?
      ensures if r.Completed? && deleted then
                && live == old(live) - {Fn(ParseDecimal(id[..1]), if |id| == 1 then -1 else ParseDecimal(id[1..]))}
                && var name := "NvmeEmu0pf" + [id[0]] + (if |id| == 1 then "" else "vf" + Decimal(ParseDecimal(id[1..])));
                   controllers == Without(old(controllers), name)
              else
                live == old(live) && controllers == old(controllers)
      ensures history == if r.Completed? && deleted then old(history) + [Delete(id)] else old(history)
    {
      hide After, Apply, NamesOf, NameOf, DecodeId, ParseDecimal, Decimal;
      DigitsAre(id);
      DecodeWritten(id);
      if id == "" || !AllDigits(id) {
        return Aborted;
      }
      var pfIndex := ParseDecimal(id[..1]);
      var controller := PREFIX + Decimal(pfIndex);
      if |id| > 1 {
        var vfIndex := ParseDecimal(id[1..]);
        controller := controller + ("vf" + Decimal(vfIndex));
      } else {
        assert controller == controller + "";
      }
      if deleted {
        DeleteEvent(Dev(), history, id);
        history := history + [Delete(id)];
        OldName(controllers, live, DecodeId(id).value);
        controllers := Without(controllers, controller);
        live := live - {DecodeId(id).value};
      }
      return Completed;
    }
  }

  lemma NewName(names: seq<string>, live: set<Fn>, f: Fn)
    requires NamesOf(names, live) && IsNamed(f) && f !in live
    ensures NameOf(f) !in names
    ensures NamesOf(names + [NameOf(f)], live + {f})
  {
    var names', live' := names + [NameOf(f)], live + {f};
    if NameOf(f) in names {
      var i :| 0 <= i < |names| && names[i] == NameOf(f);
      assert IsNameIn(names[i], live);
      var g :| g in live && IsNamed(g) && names[i] == NameOf(g);
      NameInjective(f, g);
    }
    forall i | 0 <= i < |names'| ensures IsNameIn(names'[i], live') {
      if i < |names| {
        assert IsNameIn(names[i], live);
      }
    }
  }

  lemma OldName(names: seq<string>, live: set<Fn>, f: Fn)
    requires NamesOf(names, live) && IsNamed(f)
    requires Distinct(names)
    ensures NamesOf(Without(names, NameOf(f)), live - {f})
    ensures Distinct(Without(names, NameOf(f)))
  {
    var r := Without(names, NameOf(f));
    forall i | 0 <= i < |r| ensures IsNameIn(r[i], live - {f}) {
      assert r[i] in r && r[i] in names;
      var k :| 0 <= k < |names| && names[k] == r[i];
      assert IsNameIn(names[k], live);
    }
    forall g | g in live - {f} ensures IsNamed(g) && NameOf(g) in r {
      if NameOf(g) == NameOf(f) {
        NameInjective(f, g);
      }
    }
    WithoutDistinct(names, NameOf(f));
  }

  lemma {:induction false} WithoutDistinct(names: seq<string>, name: string)
    requires Distinct(names)
    ensures Distinct(Without(names, name))
  {
    if names != [] {
      var rest := names[..|names| - 1];
      WithoutDistinct(rest, name);
      var last := names[|names| - 1];
      assert last !in rest;
      assert last !in Without(rest, name);
    }
  }
}
