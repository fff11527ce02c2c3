/** The search for a port number: the least positive number whose decimal text names no port. */
module Ports {
  import opened Text

  /** `s` is how some number from `n` on is printed. */
  predicate PrintsFrom(s: string, n: nat) {
    AllDigits(s) && n <= ParseDecimal(s) && s == Decimal(ParseDecimal(s))
  }

  /** The names that the search has still to pass, starting at `n`; other names do not matter to it. */
  function Ahead(names: set<string>, n: nat): set<string> {
    set s | s in names && PrintsFrom(s, n)
  }

  lemma AheadShrinks(names: set<string>, n: nat)
    requires Decimal(n) in names
    ensures Ahead(names, n) == Ahead(names, n + 1) + {Decimal(n)}
    ensures |Ahead(names, n)| == |Ahead(names, n + 1)| + 1
  {
    DecimalRoundTrip(n);
    assert Decimal(n) !in Ahead(names, n + 1);
  }

  /** The first number from `n` on that is free. Each number passed uses up one of the names ahead. */
  function FreeFrom(names: set<string>, n: nat): (m: nat)
    ensures n <= m <= n + |Ahead(names, n)|
    ensures Decimal(m) !in names
    ensures forall k :: n <= k < m ==> Decimal(k) in names
    decreases |Ahead(names, n)|
  {
    if Decimal(n) !in names then n
    else
      AheadShrinks(names, n);
      FreeFrom(names, n + 1)
  }

  ghost predicate IsLeastFree(names: set<string>, m: nat) {
    1 <= m && Decimal(m) !in names && forall k :: 1 <= k < m ==> Decimal(k) in names
  }

  function LeastFree(names: set<string>): (m: nat)
    ensures IsLeastFree(names, m)
    ensures m <= |names| + 1
  {
    assert Ahead(names, 1) <= names;
    CardinalityOfSubset(Ahead(names, 1), names);
    FreeFrom(names, 1)
  }

  lemma CardinalityOfSubset<T>(a: set<T>, b: set<T>)
    requires a <= b
    ensures |a| <= |b|
  {
    assert b == a + (b - a);
  }

  /** Pigeonhole: the numbers the search has passed are no more than the names there are. */
  lemma PassedNumbers(names: set<string>, n: nat)
    requires 1 <= n && forall k :: 1 <= k < n ==> Decimal(k) in names
    ensures n <= LeastFree(names) <= |names| + 1
  {
    var m := LeastFree(names);
    assert Decimal(m) !in names;
  }
}
