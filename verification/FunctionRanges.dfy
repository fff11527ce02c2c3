/** Which functions of the device a request may get: the range arithmetic, and what it means. */
module FunctionRanges {
  import opened Wrappers

  /** A function of the device: a physical one has virtual index -1. */
  datatype Fn = Fn(pf: int, vf: int)

  const NO_FUNCTION := Fn(-1, -1)

  function Min(a: int, b: int): int { if a <= b then a else b }

  function Max(a: int, b: int): int { if a >= b then a else b }

  function Abs(a: int): nat { if a < 0 then -a else a }

  /** `copysign(n, x)` for whole numbers: zero is positive. */
  function CopySign(n: int, x: int): int { if x < 0 then -n else n }

  /** `range(lo, hi)` */
  function Span(lo: int, hi: int): (r: set<int>)
    ensures forall i :: i in r <==> lo <= i < hi
    decreases hi - lo
  {
    if lo >= hi then {} else {lo} + Span(lo + 1, hi)
  }

  /** `range(max(x, 0), abs(int(min(copysign(n, x), x + 1))))` */
  function IndexRange(x: int, n: nat): set<int> {
    Span(Max(x, 0), Abs(Min(CopySign(n, x), x + 1)))
  }

  /** The indices that an index of a request stands for: itself, or all of them if it is negative. */
  predicate StandsFor(x: int, n: nat, i: int) { 0 <= i < n && (x < 0 || i == x) }

  lemma IndexRangeCases(x: int, n: nat)
    ensures -(n + 1) <= x < 0 ==> IndexRange(x, n) == Span(0, n)
    ensures 0 <= x < n ==> IndexRange(x, n) == {x}
    ensures n <= x ==> IndexRange(x, n) == {}
    ensures x < -(n + 1) ==> IndexRange(x, n) == Span(0, -x - 1)
  {
  }

  /** The range is right down to -(n + 1), and no further. */
  lemma IndexRangeExact(x: int, n: nat)
    ensures (forall i :: i in IndexRange(x, n) <==> StandsFor(x, n, i)) <==> -(n + 1) <= x
  {
    IndexRangeCases(x, n);
    if x < -(n + 1) {
      assert n in IndexRange(x, n) && !StandsFor(x, n, n);
    }
  }

  /** The functions the plugin considers, as it computes them. */
  function Candidates(numPf: nat, numVf: nat, pf: Option<int>, vf: Option<int>): set<Fn> {
    var pfIndex := if pf.Some? then pf.value else -1;
    var vfIndex := if vf.Some? then vf.value else -1;
    var pfs, vfs := IndexRange(pfIndex, numPf), IndexRange(vfIndex, numVf);
    (if vf.Some? || pf.None? then set p, v | p in pfs && v in vfs :: Fn(p, v) else {})
    + (if vf.None? then set p | p in pfs :: Fn(p, -1) else {})
  }

  /** The functions a request asks for: nothing given, any; only a physical index, that physical function; a virtual
      index, virtual functions only. A negative index stands for all. */
  predicate Matches(numPf: nat, numVf: nat, pf: Option<int>, vf: Option<int>, f: Fn) {
    && 0 <= f.pf < numPf
    && -1 <= f.vf < numVf
    && (pf.Some? && pf.value >= 0 ==> f.pf == pf.value)
    && (vf.Some? ==> f.vf >= 0 && (vf.value >= 0 ==> f.vf == vf.value))
    && (vf.None? && pf.Some? ==> f.vf == -1)
  }

  /** When the arithmetic offers exactly the functions that the request asks for: no given index is so far below zero
      that its range runs past the device, unless the other one asks for a function that the device does not have. */
  predicate InDomain(numPf: nat, numVf: nat, pf: Option<int>, vf: Option<int>) {
    && (pf.Some? ==> -(numPf + 1) <= pf.value || (vf.Some? && numVf <= vf.value))
    && (vf.Some? ==> -(numVf + 1) <= vf.value || (pf.Some? && numPf <= pf.value))
  }

  lemma CandidatesMatch(numPf: nat, numVf: nat, pf: Option<int>, vf: Option<int>, f: Fn)
    requires InDomain(numPf, numVf, pf, vf)
    ensures f in Candidates(numPf, numVf, pf, vf) <==> Matches(numPf, numVf, pf, vf, f)
  {
    IndexRangeCases(if pf.Some? then pf.value else -1, numPf);
    IndexRangeCases(if vf.Some? then vf.value else -1, numVf);
  }

  /** A function that is offered and does not match, outside that domain. */
  lemma CandidateOutside(numPf: nat, numVf: nat, pf: Option<int>, vf: Option<int>) returns (f: Fn)
    requires 1 <= numPf && 1 <= numVf && !InDomain(numPf, numVf, pf, vf)
    ensures f in Candidates(numPf, numVf, pf, vf) && !Matches(numPf, numVf, pf, vf, f)
  {
    if pf.Some? && pf.value < -(numPf + 1) && (vf.None? || vf.value < numVf) {
      f := Fn(numPf, if vf.None? then -1 else Max(vf.value, 0));
    } else {
      f := Fn(if pf.None? then 0 else Max(pf.value, 0), numVf);
    }
  }

  /** The condition is exact. */
  lemma CandidatesExact(numPf: nat, numVf: nat, pf: Option<int>, vf: Option<int>)
    requires 1 <= numPf && 1 <= numVf
    ensures (forall f :: f in Candidates(numPf, numVf, pf, vf) <==> Matches(numPf, numVf, pf, vf, f))
            <==> InDomain(numPf, numVf, pf, vf)
  {
    if InDomain(numPf, numVf, pf, vf) {
      forall f ensures f in Candidates(numPf, numVf, pf, vf) <==> Matches(numPf, numVf, pf, vf, f) {
        CandidatesMatch(numPf, numVf, pf, vf, f);
      }
    } else {
      var f := CandidateOutside(numPf, numVf, pf, vf);
    }
  }

  /* The order in which Python compares pairs. */

  predicate Leq(f: Fn, g: Fn) { f.pf < g.pf || (f.pf == g.pf && f.vf <= g.vf) }

  ghost predicate IsLeast(s: set<Fn>, f: Fn) { f in s && forall g :: g in s ==> Leq(f, g) }

  lemma {:induction false} LeastExists(s: set<Fn>) returns (f: Fn)
    requires s != {}
    ensures IsLeast(s, f)
  {
    var g :| g in s;
    if s == {g} {
      f := g;
    } else {
      assert s == (s - {g}) + {g};
      var h := LeastExists(s - {g});
      f := if Leq(g, h) then g else h;
      assert forall k :: k in s ==> k == g || k in s - {g};
    }
  }

  /** `min(s, default=(-1, -1))` */
  ghost function Least(s: set<Fn>): (f: Fn)
    ensures if s == {} then f == NO_FUNCTION else IsLeast(s, f)
  {
    if s == {} then NO_FUNCTION
    else
      assert exists f :: IsLeast(s, f) by {
        var f := LeastExists(s);
      }
      var f :| IsLeast(s, f);
      f
  }

  lemma LeastIs(s: set<Fn>, f: Fn)
    requires IsLeast(s, f)
    ensures Least(s) == f
  {
    assert Leq(f, Least(s)) && Leq(Least(s), f);
  }

  /** What a request gets when the functions in `used` are taken. */
  ghost function Choice(numPf: nat, numVf: nat, used: set<Fn>, pf: Option<int>, vf: Option<int>): Fn {
    Least(Candidates(numPf, numVf, pf, vf) - used)
  }

  ghost predicate IsFree(numPf: nat, numVf: nat, used: set<Fn>, pf: Option<int>, vf: Option<int>, f: Fn) {
    Matches(numPf, numVf, pf, vf, f) && f !in used
  }

  /** The indices that the range expression offers for `x`: itself, or from zero on. */
  predicate OffersIndex(x: int, n: nat, i: int) {
    if x >= 0 then i == x < n else 0 <= i && (i < n || i < -x - 1)
  }

  /** The functions that a request is offered, for any indices: physical ones unless it asks for a virtual index, virtual
      ones unless it asks for a physical index only. */
  predicate IsOffered(numPf: nat, numVf: nat, pf: Option<int>, vf: Option<int>, f: Fn) {
    && OffersIndex(if pf.Some? then pf.value else -1, numPf, f.pf)
    && ((f.vf == -1 && vf.None?)
        || ((vf.Some? || pf.None?) && OffersIndex(if vf.Some? then vf.value else -1, numVf, f.vf)))
  }

  lemma CandidatesAre(numPf: nat, numVf: nat, pf: Option<int>, vf: Option<int>, f: Fn)
    ensures f in Candidates(numPf, numVf, pf, vf) <==> IsOffered(numPf, numVf, pf, vf, f)
  {
    IndexRangeCases(if pf.Some? then pf.value else -1, numPf);
    IndexRangeCases(if vf.Some? then vf.value else -1, numVf);
  }

  /** For every request, the choice is the first function, by physical and then by virtual index, that is offered and not
      used; it is (-1, -1) exactly if there is none. */
  lemma ChoiceIsFirst(numPf: nat, numVf: nat, used: set<Fn>, pf: Option<int>, vf: Option<int>)
    ensures var f := Choice(numPf, numVf, used, pf, vf);
            if f == Fn(-1, -1) then forall g :: IsOffered(numPf, numVf, pf, vf, g) ==> g in used
            else && IsOffered(numPf, numVf, pf, vf, f) && f !in used
                 && forall g :: IsOffered(numPf, numVf, pf, vf, g) && g !in used ==>
                                  f.pf < g.pf || (f.pf == g.pf && f.vf <= g.vf)
  {
    var s, f := Candidates(numPf, numVf, pf, vf) - used, Choice(numPf, numVf, used, pf, vf);
    CandidatesAre(numPf, numVf, pf, vf, f);
    forall g ensures IsOffered(numPf, numVf, pf, vf, g) && g !in used <==> g in s {
      CandidatesAre(numPf, numVf, pf, vf, g);
    }
  }

  /** Main result: the choice is the least function that matches and is free; there is none exactly when it is (-1, -1). */
  lemma ChoiceRefines(numPf: nat, numVf: nat, used: set<Fn>, pf: Option<int>, vf: Option<int>)
    requires InDomain(numPf, numVf, pf, vf)
    ensures var f := Choice(numPf, numVf, used, pf, vf);
            && (f == NO_FUNCTION <==> forall g :: !IsFree(numPf, numVf, used, pf, vf, g))
            && (f != NO_FUNCTION ==>
                  IsFree(numPf, numVf, used, pf, vf, f) && forall g :: IsFree(numPf, numVf, used, pf, vf, g) ==> Leq(f, g))
  {
    var s := Candidates(numPf, numVf, pf, vf) - used;
    forall g ensures g in s <==> IsFree(numPf, numVf, used, pf, vf, g) {
      CandidatesMatch(numPf, numVf, pf, vf, g);
    }
    if s == {} {
      assert forall g :: g !in s;
    }
  }
}
