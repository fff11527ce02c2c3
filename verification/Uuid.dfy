/** The search for a volume's UUID inside an arbitrary volume id (the form of section 3 of RFC 4122). */
module Uuid {
  import opened Wrappers

  const LENGTH: nat := 36

  predicate IsHex(ch: char) { '0' <= ch <= '9' || 'a' <= ch <= 'f' }

  /** The characters that `\b` takes for parts of words. */
  predicate IsWord(ch: char) { '0' <= ch <= '9' || 'a' <= ch <= 'z' || 'A' <= ch <= 'Z' || ch == '_' }

  predicate IsHyphenOffset(k: int) { k == 8 || k == 13 || k == 18 || k == 23 }

  /** Eight, four, four, four and twelve lower-case hex digits, joined by hyphens. */
  predicate IsUuid(u: string) {
    && |u| == LENGTH
    && forall k :: 0 <= k < LENGTH ==> if IsHyphenOffset(k) then u[k] == '-' else IsHex(u[k])
  }

  /** `\b` holds before position `i`. */
  predicate IsBoundary(s: string, i: nat)
    requires i <= |s|
  {
    (0 < i && IsWord(s[i - 1])) != (i < |s| && IsWord(s[i]))
  }

  predicate MatchesAt(s: string, i: nat) {
    i + LENGTH <= |s| && IsBoundary(s, i) && IsUuid(s[i..i + LENGTH])
  }

  /** The first match at `i` or after. */
  function FindFrom(s: string, i: nat): (r: Option<nat>)
    requires i <= |s|
    ensures r.Some? ==> i <= r.value && MatchesAt(s, r.value) && forall j :: i <= j < r.value ==> !MatchesAt(s, j)
    ensures r.None? ==> forall j :: i <= j ==> !MatchesAt(s, j)
    decreases |s| - i
  {
    if MatchesAt(s, i) then Some(i)
    else if i == |s| then None
    else FindFrom(s, i + 1)
  }

  /** `FindStringSubmatch(s)`: the text of the leftmost match. */
  function FindUuid(s: string): (r: Option<string>)
    ensures r.Some? ==> IsUuid(r.value)
  {
    match FindFrom(s, 0)
    case Some(i) => Some(s[i..i + LENGTH])
    case None => None
  }

  /** A match that starts before position `n` and reaches past it overlaps no UUID placed at `n`: the character
      before `n` would be one of its hyphens, and then offset 8 of the UUID is a hyphen where it has none. */
  lemma NoStraddle(s: string, n: nat, i: nat)
    requires i < n < i + LENGTH
    requires n + LENGTH <= |s| && IsUuid(s[n..n + LENGTH])
    requires !IsWord(s[n - 1])
    ensures !MatchesAt(s, i)
  {
    if i + LENGTH <= |s| {
      var m, u := s[i..i + LENGTH], s[n..n + LENGTH];
      assert m[n - 1 - i] == s[n - 1] && !IsHex(s[n - 1]);
      assert u[8] == s[n + 8] == '-';
      assert n + 8 < i + LENGTH ==> m[n + 8 - i] == s[n + 8];
    }
  }

  lemma MatchInPrefix(prefix: string, rest: string, i: nat)
    requires i + LENGTH <= |prefix|
    ensures MatchesAt(prefix + rest, i) == MatchesAt(prefix, i)
  {
    assert (prefix + rest)[i..i + LENGTH] == prefix[i..i + LENGTH];
  }

  /** The prefixes after which an embedded UUID is what the search finds. */
  predicate Transparent(prefix: string) {
    && (prefix != "" ==> !IsWord(prefix[|prefix| - 1]))
    && FindUuid(prefix).None?
  }

  /** Recovery: a UUID after such a prefix, and before any suffix, is exactly what the search returns. */
  lemma FindsEmbedded(prefix: string, u: string, suffix: string)
    requires Transparent(prefix) && IsUuid(u)
    ensures FindFrom(prefix + u + suffix, 0) == Some(|prefix|)
    ensures FindUuid(prefix + u + suffix) == Some(u)
  {
    var s := prefix + u + suffix;
    var n := |prefix|;
    assert s[n..n + LENGTH] == u;
    assert IsHex(u[0]) && s[n] == u[0];
    assert n > 0 ==> s[n - 1] == prefix[n - 1];
    assert MatchesAt(s, n);
    forall i: nat | i < n ensures !MatchesAt(s, i) {
      if i + LENGTH <= n {
        assert s == prefix + (u + suffix);
        MatchInPrefix(prefix, u + suffix, i);
      } else {
        NoStraddle(s, n, i);
      }
    }
  }

  /** The condition is exact: the search stops at the UUID placed after `prefix` just when the prefix is transparent. */
  lemma FindsEmbeddedIff(prefix: string, u: string, suffix: string)
    requires IsUuid(u)
    ensures FindFrom(prefix + u + suffix, 0) == Some(|prefix|) <==> Transparent(prefix)
  {
    var s := prefix + u + suffix;
    var n := |prefix|;
    if Transparent(prefix) {
      FindsEmbedded(prefix, u, suffix);
    } else if FindFrom(s, 0) == Some(n) {
      assert s[n..n + LENGTH][0] == s[n] == u[0];
      assert IsHex(u[0]);
      assert n > 0 ==> s[n - 1] == prefix[n - 1];
      var i := FindFrom(prefix, 0).value;
      assert s == prefix + (u + suffix);
      MatchInPrefix(prefix, u + suffix, i);
      assert false;
    }
  }

  /** The node proxy derives the same UUID however the id continues, and again from the UUID itself. */
  lemma FindUuidStable(s: string, suffix: string)
    requires FindUuid(s).Some?
    ensures FindUuid(s + suffix) == FindUuid(s)
    ensures FindUuid(FindUuid(s).value) == FindUuid(s)
  {
    var i := FindFrom(s, 0).value;
    var t := s + suffix;
    assert t[i..i + LENGTH] == s[i..i + LENGTH];
    forall j: nat | j <= i ensures MatchesAt(t, j) == MatchesAt(s, j) {
      MatchInPrefix(s, suffix, j);
    }
    var u := FindUuid(s).value;
    FindsEmbedded("", u, "");
    assert "" + u + "" == u;
  }

  /* The search in terms of the pattern itself: `\b[0-9a-f]{8}-[0-9a-f]{4}-[0-9a-f]{4}-[0-9a-f]{4}-[0-9a-f]{12}`. */

  predicate IsGroup(g: string, n: nat) {
    |g| == n && forall k :: 0 <= k < n ==> g[k] in "0123456789abcdef"
  }

  predicate AreGroups(a: string, b: string, c: string, d: string, e: string) {
    IsGroup(a, 8) && IsGroup(b, 4) && IsGroup(c, 4) && IsGroup(d, 4) && IsGroup(e, 12)
  }

  function Join(a: string, b: string, c: string, d: string, e: string): string {
    a + "-" + b + "-" + c + "-" + d + "-" + e
  }

  ghost predicate IsPattern(u: string) {
    exists a, b, c, d, e :: AreGroups(a, b, c, d, e) && u == Join(a, b, c, d, e)
  }

  lemma HexIs(ch: char)
    ensures IsHex(ch) <==> ch in "0123456789abcdef"
  {
    var digits := "0123456789abcdef";
    if IsHex(ch) {
      var k := if ch <= '9' then ch as int - '0' as int else ch as int - 'a' as int + 10;
      assert digits[k] == ch;
    }
  }

  lemma JoinIsUuid(a: string, b: string, c: string, d: string, e: string)
    requires AreGroups(a, b, c, d, e)
    ensures IsUuid(Join(a, b, c, d, e))
  {
    var u := Join(a, b, c, d, e);
    forall k | 0 <= k < 36 ensures if IsHyphenOffset(k) then u[k] == '-' else IsHex(u[k]) {
      HexIs(u[k]);
    }
  }

  lemma HexGroup(u: string, lo: nat, hi: nat)
    requires lo <= hi <= |u| && forall k :: lo <= k < hi ==> IsHex(u[k])
    ensures IsGroup(u[lo..hi], hi - lo)
  {
    var g := u[lo..hi];
    forall k | 0 <= k < hi - lo ensures g[k] in "0123456789abcdef" {
      HexIs(u[lo + k]);
    }
  }

  lemma UuidIsPattern(u: string)
    requires IsUuid(u)
    ensures IsPattern(u)
  {
    var a, b, c, d, e := u[..8], u[9..13], u[14..18], u[19..23], u[24..];
    HexGroup(u, 0, 8);
    HexGroup(u, 9, 13);
    HexGroup(u, 14, 18);
    HexGroup(u, 19, 23);
    HexGroup(u, 24, 36);
    HyphensJoin(u);
    hide IsUuid, IsGroup;
  }

  lemma HyphensJoin(u: string)
    requires |u| == 36 && u[8] == u[13] == u[18] == u[23] == '-'
    ensures u == Join(u[..8], u[9..13], u[14..18], u[19..23], u[24..])
  {
  }

  /** The pattern matches the text `u` at `i`: as it starts with a digit or a letter, `\b` asks that none of the
      characters of words comes before. */
  ghost predicate PatternAt(s: string, i: nat, u: string) {
    && i + |u| <= |s| && s[i..i + |u|] == u && IsPattern(u)
    && (i > 0 ==> var ch := s[i - 1];
          !('0' <= ch <= '9' || 'A' <= ch <= 'Z' || 'a' <= ch <= 'z' || ch == '_'))
  }

  lemma MatchIsPattern(s: string, i: nat)
    ensures MatchesAt(s, i) ==> PatternAt(s, i, s[i..i + 36])
    ensures forall u :: PatternAt(s, i, u) ==> MatchesAt(s, i) && u == s[i..i + 36]
  {
    if MatchesAt(s, i) {
      var u := s[i..i + 36];
      assert u[0] == s[i] && IsHex(u[0]);
      UuidIsPattern(u);
    }
    forall u | PatternAt(s, i, u) ensures MatchesAt(s, i) && u == s[i..i + 36] {
      var a, b, c, d, e :| AreGroups(a, b, c, d, e) && u == Join(a, b, c, d, e);
      JoinIsUuid(a, b, c, d, e);
      assert u[0] == s[i] && IsHex(u[0]);
    }
  }

  /** Main result: what the proxy takes for the UUID is the leftmost match of the pattern, and it takes none exactly if
      the pattern matches nowhere. */
  lemma FindUuidIsSearch(s: string)
    ensures FindUuid(s).Some? ==>
              exists i: nat :: PatternAt(s, i, FindUuid(s).value) && forall j: nat, u :: j < i ==> !PatternAt(s, j, u)
    ensures FindUuid(s).None? ==> forall j: nat, u :: !PatternAt(s, j, u)
  {
    hide PatternAt, MatchesAt;
    forall j: nat, u | !MatchesAt(s, j) ensures !PatternAt(s, j, u) {
      MatchIsPattern(s, j);
    }
    if FindFrom(s, 0).Some? {
      MatchIsPattern(s, FindFrom(s, 0).value);
    }
  }

  /** Main result: five groups of lower-case hex digits, joined by hyphens, are recovered whole wherever they stand in an
      id, if what comes before them ends no word and has no match of its own. */
  lemma FindsGroups(prefix: string, a: string, b: string, c: string, d: string, e: string, suffix: string)
    requires AreGroups(a, b, c, d, e) && FindUuid(prefix).None?
    requires prefix != "" ==>
               var ch := prefix[|prefix| - 1];
               !('0' <= ch <= '9' || 'A' <= ch <= 'Z' || 'a' <= ch <= 'z' || ch == '_')
    ensures FindUuid(prefix + (a + "-" + b + "-" + c + "-" + d + "-" + e) + suffix) ==
            Some(a + "-" + b + "-" + c + "-" + d + "-" + e)
  {
    JoinIsUuid(a, b, c, d, e);
    FindsEmbedded(prefix, Join(a, b, c, d, e), suffix);
  }
}
