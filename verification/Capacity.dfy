/** How far a device goes: requests without conditions, one after the other, from an empty device. */
module Capacity {
  import opened Wrappers
  import opened FunctionRanges
  import opened ControllerNames
  import opened ControllerFleet

  /** The functions in lexicographic order: each physical one, followed by its virtual ones. */
  function Nth(numVf: nat, k: nat): (f: Fn)
    ensures OnDevice(numVf, f)
  {
    if k == 0 then Fn(0, -1)
    else
      var f := Nth(numVf, k - 1);
      if f.vf + 1 < numVf then Fn(f.pf, f.vf + 1) else Fn(f.pf + 1, -1)
  }

  function PlaceOf(numVf: nat, f: Fn): int { f.pf * (numVf + 1) + f.vf + 1 }

  predicate OnDevice(numVf: nat, f: Fn) { 0 <= f.pf && -1 <= f.vf && (f.vf < numVf || f.vf == -1) }

  lemma {:induction false} PlaceOfNth(numVf: nat, k: nat)
    ensures PlaceOf(numVf, Nth(numVf, k)) == k
  {
    if k > 0 {
      PlaceOfNth(numVf, k - 1);
      var f := Nth(numVf, k - 1);
      assert (f.pf + 1) * (numVf + 1) == f.pf * (numVf + 1) + numVf + 1;
    }
  }

  lemma PlaceOrder(numVf: nat, f: Fn, g: Fn)
    requires OnDevice(numVf, f) && OnDevice(numVf, g)
    ensures PlaceOf(numVf, f) <= PlaceOf(numVf, g) <==> Leq(f, g)
    ensures PlaceOf(numVf, f) == PlaceOf(numVf, g) <==> f == g
  {
    var n := numVf + 1;
    if f.pf < g.pf {
      assert (f.pf + 1) * n == f.pf * n + n;
      Multiples(f.pf + 1, g.pf, n);
    } else if g.pf < f.pf {
      assert (g.pf + 1) * n == g.pf * n + n;
      Multiples(g.pf + 1, f.pf, n);
    }
  }

  lemma {:induction false} Multiples(a: int, b: int, n: nat)
    requires a <= b
    ensures a * n <= b * n
  {
  }

  lemma NthOfPlace(numVf: nat, f: Fn)
    requires OnDevice(numVf, f)
    ensures 0 <= PlaceOf(numVf, f) && Nth(numVf, PlaceOf(numVf, f)) == f
  {
    Multiples(0, f.pf, numVf + 1);
    PlaceOfNth(numVf, PlaceOf(numVf, f));
    PlaceOrder(numVf, Nth(numVf, PlaceOf(numVf, f)), f);
  }

  lemma PlaceBelow(numPf: nat, numVf: nat, f: Fn)
    requires OnDevice(numVf, f)
    ensures PlaceOf(numVf, f) < numPf * (numVf + 1) <==> f.pf < numPf
  {
    if f.pf < numPf {
      assert (f.pf + 1) * (numVf + 1) == f.pf * (numVf + 1) + numVf + 1;
      Multiples(f.pf + 1, numPf, numVf + 1);
    } else {
      Multiples(numPf, f.pf, numVf + 1);
    }
  }

  /** The enumeration goes up strictly. */
  lemma {:induction false} NthIncreases(numVf: nat, j: nat, k: nat)
    requires j < k
    ensures Leq(Nth(numVf, j), Nth(numVf, k)) && Nth(numVf, j) != Nth(numVf, k)
  {
    PlaceOfNth(numVf, j);
    PlaceOfNth(numVf, k);
    PlaceOrder(numVf, Nth(numVf, j), Nth(numVf, k));
  }

  function FirstFns(numVf: nat, k: nat): set<Fn> {
    set j | 0 <= j < k :: Nth(numVf, j)
  }

  /** With the first k functions taken, an unconstrained request gets function number k, while there is one. */
  lemma ChoiceAfterFirst(numPf: nat, numVf: nat, k: nat, capacity: nat)
    requires k <= capacity == numPf * (numVf + 1)
    ensures Choice(numPf, numVf, FirstFns(numVf, k), None, None) == if k < capacity then Nth(numVf, k) else NO_FUNCTION
  {
    var taken := FirstFns(numVf, k);
    var s := Candidates(numPf, numVf, None, None) - taken;
    forall f | f in s ensures k <= PlaceOf(numVf, f) < capacity && Nth(numVf, PlaceOf(numVf, f)) == f {
      CandidatesMatch(numPf, numVf, None, None, f);
      NthOfPlace(numVf, f);
      PlaceBelow(numPf, numVf, f);
      assert forall j: nat :: j < k ==> Nth(numVf, j) in taken;
    }
    if k < capacity {
      var f := Nth(numVf, k);
      PlaceOfNth(numVf, k);
      PlaceBelow(numPf, numVf, f);
      CandidatesMatch(numPf, numVf, None, None, f);
      assert f !in taken by {
        forall j: nat | j < k ensures Nth(numVf, j) != f {
          PlaceOfNth(numVf, j);
        }
      }
      forall g | g in s ensures Leq(f, g) {
        if PlaceOf(numVf, g) > k {
          NthIncreases(numVf, k, PlaceOf(numVf, g));
        }
      }
      LeastIs(s, f);
    } else {
      assert s == {};
    }
  }

  lemma FirstFnsNext(numVf: nat, k: nat)
    ensures FirstFns(numVf, 0) == {}
    ensures FirstFns(numVf, k + 1) == FirstFns(numVf, k) + {Nth(numVf, k)}
    ensures Nth(numVf, k) != NO_FUNCTION
  {
  }

  /* Create requests. */

  /** That many create requests without conditions, one after the other, whose calls all succeed. */
  function Creates(requests: nat): seq<Event> {
    if requests == 0 then [] else Creates(requests - 1) + Request(requests - 1, None, None)
  }

  /** The ids of the first functions, by request. */
  function FirstIds(numVf: nat, k: nat): map<nat, string> {
    map r: nat | r < k :: IdOf(Nth(numVf, r))
  }

  lemma FirstIdsNext(numVf: nat, k: nat)
    ensures FirstIds(numVf, k + 1) == FirstIds(numVf, k)[k := IdOf(Nth(numVf, k))]
  {
  }

  /** Main result: requests get the functions in strictly increasing order and return their ids; exactly
      numPf * (numVf + 1) of them succeed, and every later one ends without an id. */
  lemma {:induction false} DeviceFillsInOrder(d: Device, requests: nat, capacity: nat)
    requires capacity == d.numPf * (d.numVf + 1)
    ensures var k := if requests < capacity then requests else capacity;
            After(d, Creates(requests)) == Fleet(FirstFns(d.numVf, k), map[], FirstIds(d.numVf, k))
    decreases requests
  {
    hide Choice, Nth, IdOf;
    if requests == 0 {
      FirstFnsNext(d.numVf, 0);
    } else {
      var r, es := requests - 1, Creates(requests - 1);
      var k := if r < capacity then r else capacity;
      DeviceFillsInOrder(d, r, capacity);
      ChoiceAfterFirst(d.numPf, d.numVf, k, capacity);
      if r < capacity {
        FirstFnsNext(d.numVf, r);
        FirstIdsNext(d.numVf, r);
        NthIsFree(d.numVf, r);
        RequestRun(d, es, r, None, None, Nth(d.numVf, r));
      } else {
        RefusedRun(d, es, r, None, None);
      }
    }
  }

  lemma NthIsFree(numVf: nat, k: nat)
    ensures Nth(numVf, k) !in FirstFns(numVf, k)
  {
    forall j: nat | j < k ensures Nth(numVf, j) != Nth(numVf, k) {
      NthIncreases(numVf, j, k);
    }
  }
}
