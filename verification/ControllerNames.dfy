/** How functions are written: the controller names that SNAP uses, and the controller ids that clients hold. */
module ControllerNames {
  import opened Wrappers
  import opened Text
  import opened FunctionRanges

  /** The functions that have a name. */
  predicate IsNamed(f: Fn) { 0 <= f.pf && -1 <= f.vf }

  const PREFIX := "NvmeEmu0pf"

  function NameOf(f: Fn): string
    requires IsNamed(f)
  {
    PREFIX + Decimal(f.pf) + (if f.vf == -1 then "" else "vf" + Decimal(f.vf))
  }

  /** The function that the allocator reads from a name: two numbers make a physical one, three a virtual one. */
  function ParseName(name: string): Option<Fn> {
    var digits := DigitRuns(name);
    if |digits| == 2 then Some(Fn(ParseDecimal(digits[1]), -1))
    else if |digits| == 3 then Some(Fn(ParseDecimal(digits[1]), ParseDecimal(digits[2])))
    else None
  }

  lemma RunsOfPrefix(rest: string)
    ensures DigitRuns(PREFIX + rest) == ["0"] + DigitRuns("pf" + rest)
  {
    assert PREFIX + rest == "NvmeEmu" + ("0" + ("pf" + rest));
    DigitRunsOfText("NvmeEmu", "0" + ("pf" + rest));
    DigitRunsOfNumber("0", "pf" + rest);
  }

  /** The runs of digits in a name are those of the prefix, of the physical and of the virtual index. */
  lemma RunsOfName(p: string, v: string)
    requires p != "" && AllDigits(p) && AllDigits(v)
    ensures v == "" ==> DigitRuns(PREFIX + p + "") == ["0", p]
    ensures v != "" ==> DigitRuns(PREFIX + p + ("vf" + v)) == ["0", p, v]
  {
    var rest := if v == "" then "" else "vf" + v;
    assert PREFIX + p + rest == PREFIX + (p + rest);
    RunsOfPrefix(p + rest);
    DigitRunsOfText("pf", p + rest);
    DigitRunsOfNumber(p, rest);
    if v != "" {
      DigitRunsOfText("vf", v);
      DigitRunsOfNumber(v, "");
      assert v + "" == v;
    }
  }

  /** For every function, its name gives it back; so names are injective. */
  lemma NameRoundTrip(f: Fn)
    requires IsNamed(f)
    ensures ParseName(NameOf(f)) == Some(f)
    ensures ParseName("NvmeEmu0pf" + Decimal(f.pf) + (if f.vf == -1 then "" else "vf" + Decimal(f.vf))) == Some(f)
  {
    DecimalRoundTrip(f.pf);
    if f.vf == -1 {
      RunsOfName(Decimal(f.pf), "");
    } else {
      DecimalRoundTrip(f.vf);
      RunsOfName(Decimal(f.pf), Decimal(f.vf));
    }
  }

  lemma NameInjective(f: Fn, g: Fn)
    requires IsNamed(f) && IsNamed(g) && NameOf(f) == NameOf(g)
    ensures f == g
  {
    NameRoundTrip(f);
    NameRoundTrip(g);
  }

  /** The functions that a list of controllers takes up. */
  function UsedBy(names: seq<string>): set<Fn> {
    set i | 0 <= i < |names| && ParseName(names[i]).Some? :: ParseName(names[i]).value
  }

  ghost predicate IsNameIn(name: string, live: set<Fn>) { exists f :: f in live && IsNamed(f) && name == NameOf(f) }

  /** The list names exactly these functions. */
  ghost predicate NamesOf(names: seq<string>, live: set<Fn>) {
    && (forall i :: 0 <= i < |names| ==> IsNameIn(names[i], live))
    && (forall f :: f in live ==> IsNamed(f) && NameOf(f) in names)
  }

  lemma UsedIsLive(names: seq<string>, live: set<Fn>)
    requires NamesOf(names, live)
    ensures UsedBy(names) == live
  {
    forall i | 0 <= i < |names| ensures ParseName(names[i]).Some? && ParseName(names[i]).value in live {
      assert IsNameIn(names[i], live);
      var f :| f in live && IsNamed(f) && names[i] == NameOf(f);
      NameRoundTrip(f);
    }
    forall f | f in live ensures f in UsedBy(names) {
      NameRoundTrip(f);
      var i :| 0 <= i < |names| && names[i] == NameOf(f);
    }
  }

  /* Controller ids. */

  /** The id that createController returns. */
  function IdOf(f: Fn): (id: string)
    requires IsNamed(f)
    ensures id != "" && AllDigits(id)
  {
    if f.vf == -1 then Decimal(f.pf) else Decimal(f.pf) + Decimal(f.vf)
  }

  /** How deleteController reads an id: one digit, and a virtual index if there is more. */
  function DecodeId(id: string): (f: Option<Fn>)
    ensures f.Some? ==> IsNamed(f.value) && f.value.pf < 10
  {
    if id == "" || !AllDigits(id) then None
    else Some(Fn(DigitValue(id[0]), if |id| > 1 then ParseDecimal(id[1..]) else -1))
  }

  /** How publishVolume reads an id: it always wants a virtual index. */
  function PublishName(id: string): Option<string> {
    if |id| < 2 || !AllDigits(id) then None
    else Some(NameOf(Fn(DigitValue(id[0]), ParseDecimal(id[1..]))))
  }

  /** Ids come back exactly for the functions of the first ten physical ones. */
  lemma IdRoundTrip(f: Fn)
    requires IsNamed(f)
    ensures DecodeId(IdOf(f)) == Some(f) <==> f.pf < 10
    ensures DecodeId(Decimal(f.pf) + (if f.vf == -1 then "" else Decimal(f.vf))) == Some(f) <==> f.pf < 10
  {
    assert Decimal(f.pf) + "" == Decimal(f.pf);
    if f.pf < 10 {
      var id := IdOf(f);
      assert Decimal(f.pf) == [id[0]];
      if f.vf >= 0 {
        assert id[1..] == Decimal(f.vf);
        DecimalRoundTrip(f.vf);
      }
    }
  }

  lemma IdInjective(f: Fn, g: Fn)
    requires IsNamed(f) && IsNamed(g) && f.pf < 10 && g.pf < 10 && IdOf(f) == IdOf(g)
    ensures f == g
  {
    IdRoundTrip(f);
    IdRoundTrip(g);
  }

  /** From the tenth physical function on, every physical function shares its id with a virtual one. */
  lemma IdAmbiguous(f: Fn)
    requires IsNamed(f) && 10 <= f.pf && f.vf == -1
    ensures var g := Fn(f.pf / 10, f.pf % 10); g != f && IsNamed(g) && IdOf(g) == IdOf(f)
  {
    assert Decimal(f.pf) == Decimal(f.pf / 10) + [DigitChar(f.pf % 10)];
  }

  /** An id is never the failure code. */
  lemma IdIsNotFailure(f: Fn)
    requires IsNamed(f)
    ensures IdOf(f) != "-1"
  {
    assert AllDigits(IdOf(f)) && !IsDigit("-1"[0]);
  }

  /** publishVolume finds the controller of an id exactly for virtual functions of the first ten physical ones; the id
      of a physical function makes it fail. */
  lemma PublishNameExact(f: Fn)
    requires IsNamed(f)
    ensures PublishName(IdOf(f)) == Some(NameOf(f)) <==> f.pf < 10 && 0 <= f.vf
    ensures f.pf < 10 && 0 <= f.vf ==>
              PublishName(Decimal(f.pf) + Decimal(f.vf)) == Some("NvmeEmu0pf" + Decimal(f.pf) + "vf" + Decimal(f.vf))
    ensures f.pf < 10 && f.vf == -1 ==> PublishName(IdOf(f)) == None
  {
    IdRoundTrip(f);
    if 0 <= f.vf {
      var a, b, c := "NvmeEmu0pf" + Decimal(f.pf), "vf", Decimal(f.vf);
      assert a + b + c == a + (b + c);
    }
    if PublishName(IdOf(f)).Some? {
      var g := DecodeId(IdOf(f)).value;
      assert PublishName(IdOf(f)) == Some(NameOf(g));
      if NameOf(g) == NameOf(f) {
        NameInjective(f, g);
      }
    }
  }

  lemma ChoiceIsNamed(numPf: nat, numVf: nat, used: set<Fn>, pf: Option<int>, vf: Option<int>)
    ensures var f := Choice(numPf, numVf, used, pf, vf);
            f != NO_FUNCTION ==> IsNamed(f) && f !in used && f.pf >= 0
    ensures Choice(numPf, numVf, used, pf, vf) == NO_FUNCTION <==> Choice(numPf, numVf, used, pf, vf).pf == -1
  {
  }
}
