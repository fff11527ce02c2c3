/** The table that `lvs` prints, and the parser that reads it back. */
module Lvm {
  import opened Wrappers
  import opened Text

  datatype Volume = Volume(name: string, size: nat)

  predicate IsBreak(ch: char) { ch == '\n' || ch == '\r' }

  predicate IsSpace(ch: char) { ch == ' ' || ch == '\t' || ch == '\n' || ch == '\r' || ch == '\U{000B}' || ch == '\U{000C}' }

  predicate AllSpace(s: string) { forall i :: 0 <= i < |s| ==> IsSpace(s[i]) }

  predicate NoSpace(s: string) { forall i :: 0 <= i < |s| ==> !IsSpace(s[i]) }

  predicate NoBreak(s: string) { forall i :: 0 <= i < |s| ==> !IsBreak(s[i]) }

  /** How many characters of `s` come before its first line break. */
  function LineLength(s: string): (k: nat)
    ensures k <= |s| && NoBreak(s[..k]) && (k < |s| ==> IsBreak(s[k]))
  {
    if s == "" || IsBreak(s[0]) then 0
    else
      var k := 1 + LineLength(s[1..]);
      assert s[..k] == [s[0]] + s[1..][..k - 1];
      k
  }

  /** `splitlines` on bytes: a carriage return before a line feed ends the same line. */
  function SplitLines(s: string): seq<string>
    decreases |s|
  {
    if s == "" then []
    else
      var k := LineLength(s);
      if k == |s| then [s]
      else if s[k] == '\r' && k + 1 < |s| && s[k + 1] == '\n' then [s[..k]] + SplitLines(s[k + 2..])
      else [s[..k]] + SplitLines(s[k + 1..])
  }

  function WordLength(s: string): (k: nat)
    ensures k <= |s| && NoSpace(s[..k]) && (k < |s| ==> IsSpace(s[k]))
  {
    if s == "" || IsSpace(s[0]) then 0
    else
      var k := 1 + WordLength(s[1..]);
      assert s[..k] == [s[0]] + s[1..][..k - 1];
      k
  }

  /** `split()`: the maximal runs of characters that are not white space. */
  function Words(s: string): seq<string>
    decreases |s|
  {
    if s == "" then []
    else if IsSpace(s[0]) then Words(s[1..])
    else [s[..WordLength(s)]] + Words(s[WordLength(s)..])
  }

  /** One row of the table: the first word is the name, the second the size and one more character. */
  function ParseRow(line: string): Result<Volume> {
    var parts := Words(line);
    if |parts| < 2 then Raised
    else
      var size := if parts[1] == "" then "" else parts[1][..|parts[1]| - 1];
      if size == "" || !AllDigits(size) then Raised
      else Returned(Volume(parts[0], ParseDecimal(size)))
  }

  predicate AllRows(lines: seq<string>) { forall i :: 0 <= i < |lines| ==> ParseRow(lines[i]).Returned? }

  function ParseRows(lines: seq<string>): (rows: seq<Volume>)
    requires AllRows(lines)
    ensures |rows| == |lines| && forall i :: 0 <= i < |lines| ==> ParseRow(lines[i]) == Returned(rows[i])
  {
    if lines == [] then []
    else
      var last := lines[|lines| - 1];
      ParseRows(lines[..|lines| - 1]) + [ParseRow(last).value]
  }

  lemma RowsOneMore(lines: seq<string>, i: nat)
    requires i < |lines| && AllRows(lines[..i])
    ensures ParseRow(lines[i]).Raised? ==> !AllRows(lines)
    ensures ParseRow(lines[i]).Returned? ==>
              AllRows(lines[..i + 1]) && ParseRows(lines[..i + 1]) == ParseRows(lines[..i]) + [ParseRow(lines[i]).value]
  {
    hide ParseRow;
    var a, b := lines[..i], lines[..i + 1];
    assert b[..i] == a && b[i] == lines[i];
  }

  /** The table without its header. */
  function Body(stdout: string): seq<string> {
    var lines := SplitLines(stdout);
    if lines == [] then [] else lines[1..]
  }

  /** `listVolumes` on what one run of `lvs` returned. */
  method ListVolumes(returncode: int, stdout: string) returns (r: Result<seq<Volume>>)
    ensures r == if returncode == 0 && AllRows(Body(stdout)) then Returned(ParseRows(Body(stdout))) else Raised
  {
    if returncode != 0 {
      return Raised;
    }
    var lines := Body(stdout);
    var volumes := [];
    for i := 0 to |lines|
      invariant AllRows(lines[..i]) && volumes == ParseRows(lines[..i])
    {
      RowsOneMore(lines, i);
      var row := ParseRow(lines[i]);
      if row.Raised? {
        return Raised;
      }
      volumes := volumes + [row.value];
    }
    assert lines[..|lines|] == lines;
    return Returned(volumes);
  }

  /* Printing. */

  /** A printed row: white space, the name, white space, the size in bytes, `B`, white space. */
  datatype Padding = Padding(left: string, middle: string, right: string)

  predicate IsPadding(p: Padding) {
    IsBlank(p.left) && IsBlank(p.middle) && IsBlank(p.right) && p.middle != ""
  }

  predicate IsBlank(s: string) { forall i :: 0 <= i < |s| ==> s[i] in " \t\U{000B}\U{000C}" }

  predicate IsName(name: string) {
    name != "" && forall i :: 0 <= i < |name| ==> name[i] !in " \t\n\r\U{000B}\U{000C}"
  }

  predicate IsLine(s: string) { forall i :: 0 <= i < |s| ==> s[i] != '\n' && s[i] != '\r' }

  lemma BlankIsSpace(s: string)
    ensures IsBlank(s) ==> AllSpace(s) && NoBreak(s)
  {
  }

  lemma NameIsWord(s: string)
    ensures IsName(s) <==> s != "" && NoSpace(s)
  {
    forall i | 0 <= i < |s| ensures IsSpace(s[i]) <==> s[i] in " \t\n\r\U{000B}\U{000C}" {
      SpaceIs(s[i]);
    }
  }

  lemma SpaceIs(ch: char)
    ensures IsSpace(ch) <==> ch in " \t\n\r\U{000B}\U{000C}"
  {
    var white := " \t\n\r\U{000B}\U{000C}";
    assert white[0] == ' ' && white[1] == '\t' && white[2] == '\n' && white[3] == '\r';
    assert white[4] == '\U{000B}' && white[5] == '\U{000C}';
  }

  function PrintRow(v: Volume, p: Padding): string {
    p.left + (v.name + (p.middle + (Decimal(v.size) + "B" + p.right)))
  }

  /** Each line followed by a line feed. */
  function PrintLines(lines: seq<string>): string {
    if lines == [] then "" else lines[0] + "\n" + PrintLines(lines[1..])
  }

  function PrintRows(volumes: seq<Volume>, pads: seq<Padding>): (rows: seq<string>)
    requires |volumes| == |pads|
    ensures |rows| == |volumes| && forall i :: 0 <= i < |volumes| ==> rows[i] == PrintRow(volumes[i], pads[i])
  {
    seq(|volumes|, i requires 0 <= i < |volumes| => PrintRow(volumes[i], pads[i]))
  }

  predicate IsTable(header: string, volumes: seq<Volume>, pads: seq<Padding>) {
    && IsLine(header)
    && |volumes| == |pads|
    && (forall i :: 0 <= i < |volumes| ==> IsName(volumes[i].name))
    && (forall i :: 0 <= i < |pads| ==> IsPadding(pads[i]))
  }

  lemma {:induction false} WordsAfterSpace(a: string, b: string)
    requires AllSpace(a)
    ensures Words(a + b) == Words(b)
  {
    if a == "" {
      assert a + b == b;
    } else {
      assert (a + b)[1..] == a[1..] + b;
      WordsAfterSpace(a[1..], b);
    }
  }

  lemma WordsAfterWord(w: string, b: string)
    requires IsName(w)
    requires b != "" ==> IsSpace(b[0])
    ensures Words(w + b) == [w] + Words(b)
  {
    var s := w + b;
    NameIsWord(w);
    var k := WordLength(s);
    assert forall i :: 0 <= i < |w| ==> s[i] == w[i];
    assert b != "" ==> s[|w|] == b[0];
    assert forall i :: 0 <= i < k ==> s[i] == s[..k][i];
    assert k == |w|;
    assert s[..|w|] == w && s[|w|..] == b;
  }

  lemma WordsOfRow(name: string, size: string, p: Padding)
    requires IsName(name) && IsName(size) && IsPadding(p)
    ensures Words(p.left + (name + (p.middle + (size + p.right)))) == [name, size]
  {
    BlankIsSpace(p.left);
    BlankIsSpace(p.middle);
    BlankIsSpace(p.right);
    var row3 := size + p.right;
    var row2 := p.middle + row3;
    var row1 := name + row2;
    assert Words(p.right) == [] by {
      WordsAfterSpace(p.right, "");
      assert p.right + "" == p.right;
    }
    WordsAfterWord(size, p.right);
    WordsAfterSpace(p.middle, row3);
    WordsAfterWord(name, row2);
    WordsAfterSpace(p.left, row1);
  }

  lemma ParsePrintedRow(v: Volume, p: Padding)
    requires IsName(v.name) && IsPadding(p)
    ensures ParseRow(PrintRow(v, p)) == Returned(v)
  {
    var size := Decimal(v.size) + "B";
    NameIsWord(size);
    WordsOfRow(v.name, size, p);
    assert size[..|size| - 1] == Decimal(v.size);
    DecimalRoundTrip(v.size);
  }

  lemma {:induction false} SplitPrintedLines(lines: seq<string>)
    requires forall i :: 0 <= i < |lines| ==> NoBreak(lines[i])
    ensures SplitLines(PrintLines(lines)) == lines
  {
    if lines != [] {
      var a, b := lines[0], PrintLines(lines[1..]);
      var s := a + "\n" + b;
      var k := LineLength(s);
      assert forall i :: 0 <= i < |a| ==> s[i] == a[i];
      assert s[|a|] == '\n';
      assert forall i :: 0 <= i < k ==> s[i] == s[..k][i];
      assert k == |a|;
      assert s[..k] == a && s[k + 1..] == b;
      SplitPrintedLines(lines[1..]);
    }
  }

  lemma PrintedRowHasNoBreak(v: Volume, p: Padding)
    requires IsName(v.name) && IsPadding(p)
    ensures NoBreak(PrintRow(v, p))
  {
    BlankIsSpace(p.left);
    BlankIsSpace(p.middle);
    BlankIsSpace(p.right);
    NameIsWord(v.name);
    assert NoBreak(v.name) && NoBreak(Decimal(v.size));
  }

  /** The parser inverts every table of the `lvs` shape. */
  lemma ListInvertsPrint(header: string, volumes: seq<Volume>, pads: seq<Padding>)
    requires IsTable(header, volumes, pads)
    ensures var body := Body(PrintLines([header] + PrintRows(volumes, pads)));
            AllRows(body) && ParseRows(body) == volumes
  {
    var rows := PrintRows(volumes, pads);
    forall i | 0 <= i < |rows| ensures NoBreak(rows[i]) && ParseRow(rows[i]) == Returned(volumes[i]) {
      PrintedRowHasNoBreak(volumes[i], pads[i]);
      ParsePrintedRow(volumes[i], pads[i]);
    }
    SplitPrintedLines([header] + rows);
    assert Body(PrintLines([header] + rows)) == rows;
  }

  /* Every text, not only tables. */

  /** A row that parses: white space, the name, white space, digits, one more character, and after white space anything. */
  ghost predicate IsRow(line: string, v: Volume) {
    exists left, middle, size, last, right :: IsRowOf(line, v, left, middle, size, last, right)
  }

  predicate IsWhite(s: string) { forall i :: 0 <= i < |s| ==> s[i] in " \t\n\r\U{000B}\U{000C}" }

  ghost predicate IsRowOf(line: string, v: Volume, left: string, middle: string, size: string, last: string, right: string)
  {
    && line == left + (v.name + (middle + (size + last + right)))
    && IsWhite(left) && IsName(v.name) && IsWhite(middle) && middle != ""
    && size != "" && (forall i :: 0 <= i < |size| ==> size[i] in "0123456789")
    && AllDigits(size) && v.size == ParseDecimal(size)
    && |last| == 1 && IsName(last) && (right != "" ==> IsWhite(right[..1]))
  }

  lemma WhiteIsSpace(s: string)
    ensures IsWhite(s) <==> AllSpace(s)
  {
    forall i | 0 <= i < |s| ensures IsSpace(s[i]) <==> s[i] in " \t\n\r\U{000B}\U{000C}" {
      SpaceIs(s[i]);
    }
  }

  /** The white space that `s` begins with, and the rest. */
  lemma {:induction false} SkipSpace(s: string) returns (a: string, b: string)
    ensures s == a + b && IsWhite(a) && (b != "" ==> !IsSpace(b[0])) && Words(b) == Words(s)
    ensures s != "" && IsSpace(s[0]) ==> a != ""
  {
    if s == "" || !IsSpace(s[0]) {
      a, b := "", s;
    } else {
      a, b := SkipSpace(s[1..]);
      a := [s[0]] + a;
      WhiteIsSpace([s[0]]);
    }
  }

  /** The word that `s` begins with, and the rest. */
  lemma TakeWord(s: string) returns (w: string, b: string)
    requires s != "" && !IsSpace(s[0])
    ensures s == w + b && IsName(w) && (b != "" ==> IsWhite(b[..1])) && Words(s) == [w] + Words(b)
  {
    var k := WordLength(s);
    w, b := s[..k], s[k..];
    NameIsWord(w);
    if b != "" {
      WhiteIsSpace(b[..1]);
    }
  }

  lemma RowParses(line: string, v: Volume, left: string, middle: string, size: string, last: string, right: string)
    requires IsRowOf(line, v, left, middle, size, last, right)
    ensures ParseRow(line) == Returned(v)
  {
    var word := size + last;
    DigitsAre(size);
    NameIsWord(size);
    NameIsWord(last);
    NameIsWord(word);
    WhiteIsSpace(left);
    WhiteIsSpace(middle);
    if right != "" {
      WhiteIsSpace(right[..1]);
    }
    WordsAfterSpace(left, v.name + (middle + (word + right)));
    WordsAfterWord(v.name, middle + (word + right));
    WordsAfterSpace(middle, word + right);
    WordsAfterWord(word, right);
    assert word[..|word| - 1] == size;
  }

  lemma ParsedIsRow(line: string)
    requires ParseRow(line).Returned?
    ensures IsRow(line, ParseRow(line).value)
  {
    var left, b1 := SkipSpace(line);
    var name, b2 := TakeWord(b1);
    var middle, b3 := SkipSpace(b2);
    var word, right := TakeWord(b3);
    var size, last := word[..|word| - 1], word[|word| - 1..];
    assert Words(line)[..2] == [name, word];
    assert word == size + last;
    DigitsAre(size);
    NameIsWord(word);
    NameIsWord(last);
    if b2 != "" {
      WhiteIsSpace(b2[..1]);
    }
    assert IsRowOf(line, ParseRow(line).value, left, middle, size, last, right);
  }

  /** Main result: a line parses to a name and a size exactly if it is such a row; any other line raises. */
  lemma ParseRowExact(line: string, v: Volume)
    ensures ParseRow(line) == Returned(v) <==> IsRow(line, v)
  {
    if ParseRow(line) == Returned(v) {
      ParsedIsRow(line);
    }
    if IsRow(line, v) {
      var left, middle, size, last, right :| IsRowOf(line, v, left, middle, size, last, right);
      RowParses(line, v, left, middle, size, last, right);
    }
  }

  /** Each line followed by its end. */
  function Ended(lines: seq<string>, ends: seq<string>): string
    requires |lines| == |ends|
  {
    if lines == [] then "" else lines[0] + ends[0] + Ended(lines[1..], ends[1..])
  }

  /** Lines end in a line feed, a carriage return, or both; a carriage return is no end of its own before a line feed. */
  predicate AreEnds(lines: seq<string>, ends: seq<string>) {
    && |lines| == |ends|
    && (forall i :: 0 <= i < |lines| ==> IsLine(lines[i]) && (ends[i] == "\n" || ends[i] == "\r" || ends[i] == "\r\n"))
    && forall i :: 0 <= i < |lines| - 1 && ends[i] == "\r" && lines[i + 1] == "" ==> ends[i + 1] != "\n"
  }

  /** Main result: a text splits into its lines, whichever way they end, and a last one that does not end. */
  lemma {:induction false} SplitEnded(lines: seq<string>, ends: seq<string>, tail: string)
    requires AreEnds(lines, ends) && IsLine(tail)
    ensures SplitLines(Ended(lines, ends) + tail) == lines + (if tail == "" then [] else [tail])
    decreases |lines|
  {
    if lines == [] {
      assert Ended(lines, ends) + tail == tail;
      LastLine(tail);
    } else {
      hide SplitLines, IsLine, AreEnds, Ended;
      var b := Ended(lines[1..], ends[1..]) + tail;
      EndsTail(lines, ends);
      EndedCons(lines, ends, tail);
      if ends[0] == "\r" {
        StartsWithoutFeed(lines[1..], ends[1..], tail);
      }
      FirstLine(lines[0], ends[0], b);
      SplitEnded(lines[1..], ends[1..], tail);
      Prepended(lines, if tail == "" then [] else [tail]);
    }
  }

  lemma Prepended(lines: seq<string>, more: seq<string>)
    requires lines != []
    ensures [lines[0]] + (lines[1..] + more) == lines + more
  {
  }

  lemma EndedCons(lines: seq<string>, ends: seq<string>, tail: string)
    requires |lines| == |ends| && lines != []
    ensures Ended(lines, ends) + tail == lines[0] + ends[0] + (Ended(lines[1..], ends[1..]) + tail)
  {
  }

  lemma EndsTail(lines: seq<string>, ends: seq<string>)
    requires AreEnds(lines, ends) && lines != []
    ensures |lines| == |ends| && AreEnds(lines[1..], ends[1..])
    ensures IsLine(lines[0]) && (ends[0] == "\n" || ends[0] == "\r" || ends[0] == "\r\n")
    ensures ends[0] == "\r" && lines[1..] != [] && lines[1..][0] == "" ==> ends[1..][0] != "\n"
  {
  }

  lemma LastLine(tail: string)
    requires IsLine(tail)
    ensures SplitLines(tail) == if tail == "" then [] else [tail]
  {
    assert LineLength(tail) == |tail|;
  }

  lemma StartsWithoutFeed(lines: seq<string>, ends: seq<string>, tail: string)
    requires AreEnds(lines, ends) && IsLine(tail) && (lines != [] && lines[0] == "" ==> ends[0] != "\n")
    ensures var s := Ended(lines, ends) + tail; s != "" ==> s[0] != '\n'
  {
    var s := Ended(lines, ends) + tail;
    if lines == [] {
      assert s == tail;
    } else {
      assert s == lines[0] + ends[0] + (Ended(lines[1..], ends[1..]) + tail);
    }
  }

  lemma FirstLine(a: string, e: string, b: string)
    requires IsLine(a) && (e == "\n" || e == "\r" || e == "\r\n")
    requires e == "\r" && b != "" ==> b[0] != '\n'
    ensures SplitLines(a + e + b) == [a] + SplitLines(b)
  {
    var s := a + e + b;
    var k := LineLength(s);
    assert forall i :: 0 <= i < |a| ==> s[i] == a[i];
    assert s[|a|] == e[0];
    assert forall i :: 0 <= i < k ==> s[i] == s[..k][i];
    assert k == |a|;
    assert s[..k] == a;
    if e == "\r\n" {
      assert s[k + 1] == '\n' && s[k + 2..] == b;
    } else {
      assert s[k + 1..] == b;
      assert b != "" ==> s[k + 1] == b[0];
    }
  }
}
