/** The namespace id that the BlueField plugin takes from the end of a target path. */
module NamespaceId {
  import opened Wrappers
  import opened Text

  /** `\d+$` matches `path[i..j]`: `$` holds at the end, and before a line feed that ends the text. */
  predicate IsMatch(path: string, i: nat, j: nat) {
    && i < j <= |path|
    && (forall k :: i <= k < j ==> path[k] in "0123456789")
    && (j == |path| || (j == |path| - 1 && path[j] == '\n'))
  }

  /** What `re.search` returns: the leftmost match, and of those the longest. */
  ghost predicate IsSearchResult(path: string, i: nat, j: nat) {
    && IsMatch(path, i, j)
    && forall i': nat, j': nat :: IsMatch(path, i', j') ==> i < i' || (i == i' && j' <= j)
  }

  /** Where the digits that end `s` begin. */
  function SuffixStart(s: string): (i: nat)
    ensures i <= |s| && AllDigits(s[i..]) && (i > 0 ==> !IsDigit(s[i - 1]))
  {
    if s == "" || !IsDigit(s[|s| - 1]) then |s|
    else
      var i := SuffixStart(s[..|s| - 1]);
      assert s[i..] == s[..|s| - 1][i..] + [s[|s| - 1]];
      i
  }

  function WithoutLineFeed(path: string): string {
    if path != "" && path[|path| - 1] == '\n' then path[..|path| - 1] else path
  }

  /** The digits that end the path, or nothing when there are none (the plugin then raises). */
  function Extract(path: string): Option<string> {
    var body := WithoutLineFeed(path);
    var i := SuffixStart(body);
    if i == |body| then None else Some(body[i..])
  }

  lemma EndsInDigit(path: string, j: nat)
    requires 0 < j <= |path| && IsDigit(path[j - 1])
    requires j == |path| || (j == |path| - 1 && path[j] == '\n')
    ensures WithoutLineFeed(path) == path[..j]
  {
    assert path[..|path|] == path;
  }

  lemma MatchBounds(path: string, i: nat, j: nat)
    requires IsMatch(path, i, j)
    ensures j == |WithoutLineFeed(path)| && SuffixStart(WithoutLineFeed(path)) <= i
  {
    var body := WithoutLineFeed(path);
    forall k | i <= k < j ensures IsDigit(path[k]) {
      DigitIs(path[k]);
    }
    hide IsDigit;
    assert body == path[..j] by {
      EndsInDigit(path, j);
    }
    var b := SuffixStart(body);
    assert b > 0 ==> !IsDigit(path[b - 1]);
  }

  /** The extraction is the regular expression's search, in both directions. */
  lemma ExtractIsSearch(path: string)
    ensures Extract(path).Some? ==>
              exists i: nat, j: nat :: IsSearchResult(path, i, j) && Extract(path).value == path[i..j]
    ensures forall i: nat, j: nat :: IsSearchResult(path, i, j) ==> Extract(path) == Some(path[i..j])
    ensures Extract(path).None? ==> forall i: nat, j: nat :: !IsMatch(path, i, j)
  {
    var body := WithoutLineFeed(path);
    var b, e := SuffixStart(body), |body|;
    assert body[b..] == path[b..e];
    forall i: nat, j: nat | IsMatch(path, i, j) ensures b <= i && j == e && b < e {
      MatchBounds(path, i, j);
    }
    if b < e {
      assert IsMatch(path, b, e);
      assert IsSearchResult(path, b, e);
    }
  }

  predicate EndsInNoDigit(name: string) { name != "" ==> !IsDigit(name[|name| - 1]) }

  lemma {:induction false} SuffixIs(name: string, digits: string)
    requires EndsInNoDigit(name) && AllDigits(digits)
    ensures SuffixStart(name + digits) == |name|
    decreases |digits|
  {
    if digits == "" {
      assert name + digits == name;
    } else {
      var n := |digits| - 1;
      SuffixIs(name, digits[..n]);
      assert IsDigit(digits[n]);
      assert (name + digits)[..|name| + n] == name + digits[..n];
    }
  }

  /** Digits after a name that does not end in a digit come back as they are written, also before a final line feed. */
  lemma ExtractDigits(name: string, digits: string)
    requires EndsInNoDigit(name) && digits != "" && AllDigits(digits)
    ensures Extract(name + digits) == Some(digits)
    ensures Extract(name + digits + "\n") == Some(digits)
  {
    var s := name + digits;
    SuffixIs(name, digits);
    assert s[|name|..] == digits;
    assert s[|s| - 1] == digits[|digits| - 1];
    assert (s + "\n")[..|s|] == s;
  }

  /** `digits` are all the digits that end `name + digits`. */
  predicate IsSplit(name: string, digits: string) {
    && (name != "" ==> name[|name| - 1] !in "0123456789")
    && digits != "" && forall i :: 0 <= i < |digits| ==> digits[i] in "0123456789"
  }

  lemma SplitIs(name: string, digits: string)
    ensures IsSplit(name, digits) <==> EndsInNoDigit(name) && digits != "" && AllDigits(digits)
  {
    DigitsAre(digits);
    if name != "" {
      DigitIs(name[|name| - 1]);
    }
  }

  /** So a number printed after such a name comes back. */
  lemma ExtractPrinted(name: string, n: nat)
    requires name != "" ==> name[|name| - 1] !in "0123456789"
    ensures Extract(name + Decimal(n)) == Some(Decimal(n))
    ensures Extract(name + Decimal(n) + "\n") == Some(Decimal(n))
  {
    DigitsAre(Decimal(n));
    SplitIs(name, Decimal(n));
    ExtractDigits(name, Decimal(n));
  }

  /** Two paths name the same namespace just when they end, but for a final line feed, in the same digits; for numbers
      without leading zeros, in the same number. */
  lemma SameNamespace(name: string, name': string, digits: string, digits': string)
    requires IsSplit(name, digits) && IsSplit(name', digits')
    ensures Extract(name + digits) == Extract(name' + digits') <==> digits == digits'
    ensures Extract(name + digits + "\n") == Extract(name' + digits') <==> digits == digits'
    ensures forall n: nat, n': nat :: digits == Decimal(n) && digits' == Decimal(n') ==> (digits == digits' <==> n == n')
  {
    SplitIs(name, digits);
    SplitIs(name', digits');
    ExtractDigits(name, digits);
    ExtractDigits(name', digits');
    forall n: nat, n': nat | digits == Decimal(n) && digits' == Decimal(n') && digits == digits' ensures n == n' {
      DecimalInjective(n, n');
    }
  }
}
