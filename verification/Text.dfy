/** Decimal text: Python's `str` and `int` on natural numbers, and scans for runs of digits. */
module Text {

  predicate IsDigit(ch: char) { '0' <= ch <= '9' }

  predicate AllDigits(s: string) { forall i :: 0 <= i < |s| ==> IsDigit(s[i]) }

  predicate NoDigits(s: string) { forall i :: 0 <= i < |s| ==> !IsDigit(s[i]) }

  function DigitValue(ch: char): (d: nat)
    requires IsDigit(ch)
    ensures d < 10
  {
    ch as int - '0' as int
  }

  function DigitChar(d: nat): (ch: char)
    requires d < 10
    ensures IsDigit(ch) && DigitValue(ch) == d
  {
    ('0' as int + d) as char
  }

  /** `str(n)`. */
  function Decimal(n: nat): (s: string)
    ensures s != "" && AllDigits(s)
    ensures n < 10 <==> |s| == 1
  {
    if n < 10 then [DigitChar(n)] else Decimal(n / 10) + [DigitChar(n % 10)]
  }

  /** `int(s)` for a string of digits. */
  function ParseDecimal(s: string): nat
    requires AllDigits(s)
  {
    if s == "" then 0 else ParseDecimal(s[..|s| - 1]) * 10 + DigitValue(s[|s| - 1])
  }

  lemma ParseDigit(ch: char)
    requires IsDigit(ch)
    ensures ParseDecimal([ch]) == DigitValue(ch)
  {
    assert [ch][..0] == "";
  }

  lemma {:induction false} DecimalRoundTrip(n: nat)
    ensures ParseDecimal(Decimal(n)) == n
  {
    if n < 10 {
      assert Decimal(n)[..0] == "";
    } else {
      DecimalRoundTrip(n / 10);
      assert Decimal(n)[..|Decimal(n)| - 1] == Decimal(n / 10);
    }
  }

  lemma DecimalInjective(m: nat, n: nat)
    requires Decimal(m) == Decimal(n)
    ensures m == n
  {
    DecimalRoundTrip(m);
    DecimalRoundTrip(n);
  }

  /* The same, written out. */

  lemma DigitIs(ch: char)
    ensures IsDigit(ch) <==> ch in "0123456789"
  {
    if IsDigit(ch) {
      assert "0123456789"[ch as int - '0' as int] == ch;
    }
  }

  lemma DigitsAre(s: string)
    ensures AllDigits(s) <==> forall i :: 0 <= i < |s| ==> s[i] in "0123456789"
  {
    forall i | 0 <= i < |s| ensures IsDigit(s[i]) <==> s[i] in "0123456789" {
      DigitIs(s[i]);
    }
  }

  /** A number is printed by its decimal digits, without leading zeros, and a text of digits is read back by its places. */
  lemma DecimalDigits(n: nat)
    ensures n < 10 ==> Decimal(n) == ["0123456789"[n]]
    ensures 10 <= n ==> Decimal(n) == Decimal(n / 10) + ["0123456789"[n % 10]]
  {
    var d := n % 10;
    assert DigitChar(d) == "0123456789"[d];
  }

  lemma ParseDigits(s: string, d: nat)
    requires AllDigits(s) && d < 10
    ensures AllDigits(s + ["0123456789"[d]])
    ensures ParseDecimal("") == 0 && ParseDecimal(s + ["0123456789"[d]]) == 10 * ParseDecimal(s) + d
  {
    var ch := "0123456789"[d];
    DigitIs(ch);
    assert ch == DigitChar(d);
    assert (s + [ch])[..|s|] == s;
  }

  lemma DecimalDigit(ch: char)
    requires IsDigit(ch)
    ensures Decimal(DigitValue(ch)) == [ch]
  {
  }

  /** The length of the run of digits that starts `s`. */
  function RunLength(s: string): (k: nat)
    ensures k <= |s| && AllDigits(s[..k]) && (k < |s| ==> !IsDigit(s[k]))
  {
    if s == "" || !IsDigit(s[0]) then 0
    else
      var k := 1 + RunLength(s[1..]);
      assert s[..k] == [s[0]] + s[1..][..k - 1];
      k
  }

  /** `re.findall(r'\d+', s)`: the maximal runs of digits, from left to right. */
  function DigitRuns(s: string): (runs: seq<string>)
    ensures forall i :: 0 <= i < |runs| ==> runs[i] != "" && AllDigits(runs[i])
    decreases |s|
  {
    if s == "" then []
    else if !IsDigit(s[0]) then DigitRuns(s[1..])
    else [s[..RunLength(s)]] + DigitRuns(s[RunLength(s)..])
  }

  lemma {:induction false} DigitRunsOfText(a: string, b: string)
    requires NoDigits(a)
    ensures DigitRuns(a + b) == DigitRuns(b)
  {
    if a == "" {
      assert a + b == b;
    } else {
      assert (a + b)[1..] == a[1..] + b;
      DigitRunsOfText(a[1..], b);
    }
  }

  lemma DigitRunsOfNumber(d: string, b: string)
    requires d != "" && AllDigits(d)
    requires b != "" ==> !IsDigit(b[0])
    ensures DigitRuns(d + b) == [d] + DigitRuns(b)
  {
    var s := d + b;
    var k := RunLength(s);
    assert forall i :: 0 <= i < |d| ==> s[i] == d[i];
    assert b != "" ==> s[|d|] == b[0];
    assert forall i :: 0 <= i < k ==> s[i] == s[..k][i];
    assert k == |d|;
    assert s[..|d|] == d && s[|d|..] == b;
  }
}
