/** Per-SNP classification and testing (allele_specific_dnase.py lines 230-327):
    choose the anchor base, handle the degenerate cases, run a binomial test of
    every other base against the anchor and build the report strings. */
module Classify {
  import opened Common
  import opened Text
  import opened Reads
  import opened Alleles

  /** `binom_test(x, n)` of scipy (two-sided, p = 0.5): opaque to the model. */
  type Binom = (nat, nat) -> real

  /** Python's `str(float)`: opaque to the model. */
  type FloatText = real -> string

  /** The base every test is run against, and its count. */
  datatype Anchor = Anchor(base: string, count: nat)

  /** The report fields one SNP carries after line 327. `notQueried` is what the
      SNP adds to `not_queried_count`. */
  datatype SiteReport = SiteReport(
    alleles: seq<Allele>, reportRef: string, reportAlt: string, reportOther: string,
    comment: string, notQueried: nat)

  /** Lines 239-245: the whole report of a SNP with too few reads. */
  const InsufficientReport := SiteReport([], ".:.", ".:.:.", ".:.:.", "Insufficient_Total_Reads;", 1)

  /** Entry `i` is the first among the non-alt entries with the largest count, and that count is positive. */
  ghost predicate IsFirstMax(t: seq<Allele>, alt: string, i: nat)
  {
    && i < |t| && t[i].base != alt && t[i].count > 0
    && (forall j :: 0 <= j < |t| && t[j].base != alt ==> t[j].count <= t[i].count)
    && (forall j :: 0 <= j < i && t[j].base != alt ==> t[j].count < t[i].count)
  }

  /** The running maximum of lines 273-276: start from count 0 and take an entry
      whenever it is not the alt base and its count is strictly larger. */
  function Scan(t: seq<Allele>, alt: string): (r: Option<nat>)
    ensures r.None? ==> forall j :: 0 <= j < |t| && t[j].base != alt ==> t[j].count == 0
    ensures r.Some? ==> IsFirstMax(t, alt, r.value)
  {
    if t == [] then None
    else
      var n := |t| - 1;
      var best := Scan(t[..n], alt);
      var bestCount := if best.Some? then t[best.value].count else 0;
      if t[n].base != alt && t[n].count > bestCount then Some(n) else best
  }

  /** Lines 263-276: the ref base if it was seen, else the substitute the scan
      finds, else the ref base with count 0. */
  function AnchorOf(t: seq<Allele>, ref: string, alt: string): Anchor
  {
    if Has(t, ref) then Anchor(ref, CountOf(t, ref))
    else match Scan(t, alt)
      case None => Anchor(ref, 0)
      case Some(i) => Anchor(t[i].base, t[i].count)
  }

  /** `report_ref` as lines 270 and 278-280 build it. */
  function RefField(t: seq<Allele>, ref: string, a: Anchor): string
  {
    if Has(t, ref) then ref + ":" + NatToString(a.count)
    else ref + ":0" + (if a.base != ref then ";" + a.base + ":" + NatToString(a.count) else "")
  }

  /** The comment line 282 leaves. */
  function RefComment(t: seq<Allele>, ref: string, a: Anchor): string
  {
    if Has(t, ref) then "" else "No_Ref_Reads;Calc_rel_to_" + a.base + ";"
  }

  /** Lines 306-310: every base but the anchor gets the p-value of its count
      against its count plus the anchor's. */
  function TestAll(t: seq<Allele>, a: Anchor, binom: Binom): seq<Allele>
  {
    seq(|t|, i requires 0 <= i < |t| => Test(t[i], a, binom))
  }

  function Test(e: Allele, a: Anchor, binom: Binom): Allele
  {
    if e.base == a.base then e else e.(pvalue := Some(binom(e.count, e.count + a.count)))
  }

  lemma TestAllPrefix(t: seq<Allele>, a: Anchor, binom: Binom, n: nat)
    requires n <= |t|
    ensures TestAll(t, a, binom)[..n] == TestAll(t[..n], a, binom)
  {
  }

  /** `b:count:pvalue;` of line 324; reading a missing p-value is a KeyError. */
  function Segment(e: Allele, fmt: FloatText): Result<string>
  {
    match e.pvalue
    case None => Err(KeyError)
    case Some(p) => Ok(e.base + ":" + NatToString(e.count) + ":" + fmt(p) + ";")
  }

  /** Lines 322-324: the segments of the bases that are neither the anchor nor
      the alt, in table order. */
  function OtherField(t: seq<Allele>, anchor: string, alt: string, fmt: FloatText): Result<string>
  {
    if t == [] then Ok("")
    else
      match OtherField(t[..|t| - 1], anchor, alt, fmt)
      case Err(e) => Err(e)
      case Ok(s) =>
        var e := t[|t| - 1];
        if e.base != anchor && e.base != alt then
          match Segment(e, fmt)
          case Err(err) => Err(err)
          case Ok(seg) => Ok(s + seg)
        else Ok(s)
  }

  /** Lines 286-310: the report after the degenerate branches or the tests. */
  function Stage(t: seq<Allele>, ref: string, alt: string, a: Anchor, binom: Binom): SiteReport
  {
    var refField := RefField(t, ref, a);
    var comment := RefComment(t, ref, a);
    if a.base == ref && !Has(t, ref) then
      SiteReport(t, refField,
        if Has(t, alt) then alt + ":" + NatToString(CountOf(t, alt)) + ":." else ".:.:.",
        ".:.:.",
        comment + (if Has(t, alt) then "Only_Alt_Reads;" else "No_Ref_nor_Alt_Reads;"), 1)
    else if |t| <= 1 then
      SiteReport(t, ".:.", ".:.:.", "", "Insufficient_Alleles;", 1)
    else
      SiteReport(TestAll(t, a, binom), refField, "", "", comment, 0)
  }

  /** Lines 314-319: `report_alt`; reading the p-value of an untested alt is a KeyError. */
  function WithAlt(r: SiteReport, alt: string, fmt: FloatText): Result<SiteReport>
  {
    match Find(r.alleles, alt)
    case None =>
      Ok(r.(reportAlt := alt + ":0:.", comment := r.comment + "No_Alt_Reads;", notQueried := r.notQueried + 1))
    case Some(k) =>
      match r.alleles[k].pvalue
      case None => Err(KeyError)
      case Some(p) => Ok(r.(reportAlt := alt + ":" + NatToString(r.alleles[k].count) + ":" + fmt(p)))
  }

  /** Lines 322-324: `report_other` gets the segments of the other bases. */
  function WithOthers(r: SiteReport, anchor: string, alt: string, fmt: FloatText): Result<SiteReport>
  {
    match OtherField(r.alleles, anchor, alt, fmt)
    case Err(e) => Err(e)
    case Ok(o) => Ok(r.(reportOther := r.reportOther + o))
  }

  /** Lines 262-324 on a counted table `t`. */
  function Analyze(t: seq<Allele>, ref: string, alt: string, binom: Binom, fmt: FloatText): Result<SiteReport>
  {
    var a := AnchorOf(t, ref, alt);
    match WithAlt(Stage(t, ref, alt, a, binom), alt, fmt)
    case Err(e) => Err(e)
    case Ok(r) => WithOthers(r, a.base, alt, fmt)
  }

  /** Lines 248-324 for a SNP with sufficient reads: count, then analyze. */
  function Evaluate(rs: seq<Read>, pos: int, ref: string, alt: string, binom: Binom, fmt: FloatText): Result<SiteReport>
  {
    match BasesAt(rs, pos)
    case Err(e) => Err(e)
    case Ok(bs) => Analyze(Tally(bs), ref, alt, binom, fmt)
  }

  // ---------------------------------------------------------------------------
  // The loops

  /** Lines 263-282, with the scan of lines 273-276 as a loop. */
  method ResolveAnchor(t: seq<Allele>, ref: string, alt: string) returns (a: Anchor, refField: string, comment: string)
    ensures a == AnchorOf(t, ref, alt)
    ensures refField == RefField(t, ref, a) && comment == RefComment(t, ref, a)
  {
    comment := "";
    if Has(t, ref) {
      a := Anchor(ref, CountOf(t, ref));
      refField := ref + ":" + NatToString(a.count);
    } else {
      var best: Option<nat> := None;
      a := Anchor(ref, 0);
      for i := 0 to |t|
        invariant best == Scan(t[..i], alt)
        invariant a == match best case None => Anchor(ref, 0) case Some(j) => Anchor(t[j].base, t[j].count)
      {
        assert t[..i + 1][..i] == t[..i];
        if t[i].base != alt && t[i].count > a.count {
          a := Anchor(t[i].base, t[i].count);
          best := Some(i);
        }
      }
      assert t[..|t|] == t;
      refField := ref + ":0";
      if a.base != ref {
        refField := refField + ";" + a.base + ":" + NatToString(a.count);
      }
      comment := comment + "No_Ref_Reads;Calc_rel_to_" + a.base + ";";
    }
  }

  /** The loop of lines 306-310. */
  method RunTests(t: seq<Allele>, a: Anchor, binom: Binom) returns (u: seq<Allele>)
    ensures u == TestAll(t, a, binom)
  {
    u := t;
    for i := 0 to |t|
      invariant |u| == |t|
      invariant forall j :: 0 <= j < i ==> u[j] == TestAll(t, a, binom)[j]
      invariant forall j :: i <= j < |t| ==> u[j] == t[j]
    {
      if t[i].base == a.base {
        continue;
      }
      u := u[i := u[i].(pvalue := Some(binom(u[i].count, u[i].count + a.count)))];
      assert u[i] == Test(t[i], a, binom);
    }
  }

  /** The loop of lines 322-324. */
  method OtherReport(t: seq<Allele>, anchor: string, alt: string, fmt: FloatText) returns (res: Result<string>)
    ensures res == OtherField(t, anchor, alt, fmt)
  {
    var s := "";
    for i := 0 to |t|
      invariant OtherField(t[..i], anchor, alt, fmt) == Ok(s)
    {
      assert t[..i + 1][..i] == t[..i];
      if t[i].base != anchor && t[i].base != alt {
        if t[i].pvalue.None? {
          OtherFieldStopsAtError(t, anchor, alt, fmt, i + 1);
          return Err(KeyError);
        }
        var seg := t[i].base + ":" + NatToString(t[i].count) + ":" + fmt(t[i].pvalue.value) + ";";
        s := s + seg;
      }
    }
    assert t[..|t|] == t;
    res := Ok(s);
  }

  /** Lines 248-324 for one SNP with sufficient reads, as the script runs them. */
  method AnalyzeSite(rs: seq<Read>, pos: int, ref: string, alt: string, binom: Binom, fmt: FloatText)
    returns (res: Result<SiteReport>)
    ensures res == Evaluate(rs, pos, ref, alt, binom, fmt)
  {
    var counted := CountAlleles(rs, pos);
    if counted.Err? {
      return Err(counted.error);
    }
    res := AnalyzeTable(counted.value, ref, alt, binom, fmt);
  }

  /** Lines 262-324 on the counted table. */
  method AnalyzeTable(t: seq<Allele>, ref: string, alt: string, binom: Binom, fmt: FloatText)
    returns (res: Result<SiteReport>)
    ensures res == Analyze(t, ref, alt, binom, fmt)
  {
    var a, reportRef, comment := ResolveAnchor(t, ref, alt);
    var alleles := t;
    var reportAlt, reportOther := "", "";
    var notQueried: nat := 0;
    if a.base == ref && !Has(t, ref) {
      notQueried := notQueried + 1;
      if Has(t, alt) {
        reportAlt := alt + ":" + NatToString(CountOf(t, alt)) + ":.";
        comment := comment + "Only_Alt_Reads;";
      } else {
        reportAlt := ".:.:.";
        comment := comment + "No_Ref_nor_Alt_Reads;";
      }
      reportOther := ".:.:.";
    } else if |t| <= 1 {
      notQueried := notQueried + 1;
      reportRef := ".:.";
      reportAlt := ".:.:.";
      comment := "Insufficient_Alleles;";
    } else {
      alleles := RunTests(t, a, binom);
    }
    assert SiteReport(alleles, reportRef, reportAlt, reportOther, comment, notQueried) == Stage(t, ref, alt, a, binom);
    var k := Find(alleles, alt);
    if k.None? {
      notQueried := notQueried + 1;
      comment := comment + "No_Alt_Reads;";
      reportAlt := alt + ":0:.";
    } else {
      if alleles[k.value].pvalue.None? {
        return Err(KeyError);
      }
      reportAlt := alt + ":" + NatToString(alleles[k.value].count) + ":" + fmt(alleles[k.value].pvalue.value);
    }
    ghost var r := SiteReport(alleles, reportRef, reportAlt, reportOther, comment, notQueried);
    assert WithAlt(Stage(t, ref, alt, a, binom), alt, fmt) == Ok(r);
    var other := OtherReport(alleles, a.base, alt, fmt);
    if other.Err? {
      return Err(other.error);
    }
    reportOther := reportOther + other.value;
    res := Ok(SiteReport(alleles, reportRef, reportAlt, reportOther, comment, notQueried));
  }

  lemma {:induction false} OtherFieldStopsAtError(t: seq<Allele>, anchor: string, alt: string, fmt: FloatText, n: nat)
    requires n <= |t|
    requires OtherField(t[..n], anchor, alt, fmt).Err?
    ensures OtherField(t, anchor, alt, fmt) == OtherField(t[..n], anchor, alt, fmt)
    decreases |t| - n
  {
    if n < |t| {
      assert t[..n + 1][..n] == t[..n];
      OtherFieldStopsAtError(t, anchor, alt, fmt, n + 1);
    } else {
      assert t[..n] == t;
    }
  }

  // ---------------------------------------------------------------------------
  // Properties

  /** Whether the anchor is still the ref base although no read shows it: the
      test of line 286. */
  predicate Degenerate(t: seq<Allele>, ref: string, alt: string)
  {
    AnchorOf(t, ref, alt).base == ref && !Has(t, ref)
  }

  /** Anchor resolution. A seen ref base is the anchor with its own count and adds
      no comment. Otherwise the comment names the anchor (even when it stays the
      ref base); the anchor stays the ref base exactly when every read shows the
      alt base, and otherwise it is the first non-alt base with the strictly
      largest count. */
  lemma AnchorResolution(t: seq<Allele>, ref: string, alt: string)
    requires Untested(t)
    ensures var a := AnchorOf(t, ref, alt);
      Has(t, ref) ==> (a == Anchor(ref, CountOf(t, ref)) && RefField(t, ref, a) == ref + ":" + NatToString(a.count)
        && RefComment(t, ref, a) == "")
    ensures var a := AnchorOf(t, ref, alt);
      !Has(t, ref) ==> RefComment(t, ref, a) == "No_Ref_Reads;Calc_rel_to_" + a.base + ";"
    ensures !Has(t, ref) ==> (Degenerate(t, ref, alt) <==> forall i :: 0 <= i < |t| ==> t[i].base == alt)
    ensures var a := AnchorOf(t, ref, alt);
      Degenerate(t, ref, alt) ==> a.count == 0 && RefField(t, ref, a) == ref + ":0"
    ensures var a := AnchorOf(t, ref, alt);
      !Has(t, ref) && !Degenerate(t, ref, alt) ==>
        (exists i: nat :: IsFirstMax(t, alt, i) && a == Anchor(t[i].base, t[i].count))
        && RefField(t, ref, a) == ref + ":0;" + a.base + ":" + NatToString(a.count)
  {
    if !Has(t, ref) {
      match Scan(t, alt)
      case None =>
        assert forall i :: 0 <= i < |t| ==> t[i].count >= 1;
      case Some(i) =>
        assert t[i].base != ref;
    }
  }

  /** The degenerate branch: every read showed the alt base. When there was one,
      reading its p-value at line 319 fails; when there was none the table is
      empty and the report is fixed. */
  lemma DegenerateCase(t: seq<Allele>, ref: string, alt: string, binom: Binom, fmt: FloatText)
    requires Untested(t) && Degenerate(t, ref, alt)
    ensures forall i :: 0 <= i < |t| ==> t[i].base == alt
    ensures Has(t, alt) ==> Analyze(t, ref, alt, binom, fmt) == Err(KeyError)
    ensures !Has(t, alt) ==> (t == [] && Analyze(t, ref, alt, binom, fmt) ==
      Ok(SiteReport([], ref + ":0", alt + ":0:.", ".:.:.",
        "No_Ref_Reads;Calc_rel_to_" + ref + ";" + "No_Ref_nor_Alt_Reads;" + "No_Alt_Reads;", 2)))
  {
    AnchorResolution(t, ref, alt);
    if !Has(t, alt) {
      if t != [] {
        assert false;
      }
      assert ".:.:." + "" == ".:.:.";
    }
  }

  /** The single-allele guard: the one base seen is the anchor and gets no test.
      If it is also the alt base (only when ref and alt coincide) line 319 fails;
      otherwise the comment is overwritten and the alt is reported missing. */
  lemma SingleAlleleCase(t: seq<Allele>, ref: string, alt: string, binom: Binom, fmt: FloatText)
    requires Untested(t) && !Degenerate(t, ref, alt) && |t| <= 1
    ensures |t| == 1 && t[0].base == AnchorOf(t, ref, alt).base
    ensures Analyze(t, ref, alt, binom, fmt) ==
      if alt == t[0].base then Err(KeyError)
      else Ok(SiteReport(t, ".:.", alt + ":0:.", "", "Insufficient_Alleles;" + "No_Alt_Reads;", 2))
  {
    AnchorResolution(t, ref, alt);
    if Has(t, ref) {
      assert t[Find(t, ref).value].base == ref;
    }
    var a := AnchorOf(t, ref, alt);
    assert t[0].base == a.base;
    assert t[..0] == [];
    assert OtherField(t[..0], a.base, alt, fmt) == Ok("");
    assert OtherField(t, a.base, alt, fmt) == Ok("");
    assert "" + "" == "";
    assert Stage(t, ref, alt, a, binom) == SiteReport(t, ".:.", ".:.:.", "", "Insufficient_Alleles;", 1);
    if alt != t[0].base {
      assert Find(t, alt) == None;
    }
  }

  /** The base-by-base segments of `report_other` for a tested table: one
      `b:count:pvalue;` per base that is neither the anchor nor the alt, in table order. */
  function OtherText(t: seq<Allele>, a: Anchor, alt: string, binom: Binom, fmt: FloatText): string
  {
    if t == [] then ""
    else
      var e := t[|t| - 1];
      OtherText(t[..|t| - 1], a, alt, binom, fmt)
        + if e.base != a.base && e.base != alt
          then e.base + ":" + NatToString(e.count) + ":" + fmt(binom(e.count, e.count + a.count)) + ";"
          else ""
  }

  /** After the tests, every base other than the anchor and the alt has its
      p-value, so line 324 never fails and yields those bases' segments. */
  lemma {:induction false} OthersOfTested(t: seq<Allele>, a: Anchor, alt: string, binom: Binom, fmt: FloatText)
    ensures OtherField(TestAll(t, a, binom), a.base, alt, fmt) == Ok(OtherText(t, a, alt, binom, fmt))
  {
    if t != [] {
      var n := |t| - 1;
      var u := TestAll(t, a, binom);
      OthersOfTested(t[..n], a, alt, binom, fmt);
      TestAllPrefix(t, a, binom, n);
      assert u[..|u| - 1] == TestAll(t[..n], a, binom);
      var e := t[n];
      assert u[n] == Test(e, a, binom);
      var prev := OtherText(t[..n], a, alt, binom, fmt);
      if e.base != a.base && e.base != alt {
        var seg := e.base + ":" + NatToString(e.count) + ":" + fmt(binom(e.count, e.count + a.count)) + ";";
        assert Segment(u[n], fmt) == Ok(seg);
        assert OtherText(t, a, alt, binom, fmt) == prev + seg;
      } else {
        assert OtherText(t, a, alt, binom, fmt) == prev + "";
        assert prev + "" == prev;
      }
    }
  }

  /** `report_other` of a tested table is empty exactly when every base seen is
      the anchor or the alt. */
  lemma {:induction false} OtherTextEmpty(t: seq<Allele>, a: Anchor, alt: string, binom: Binom, fmt: FloatText)
    ensures OtherText(t, a, alt, binom, fmt) == "" <==>
      forall i :: 0 <= i < |t| ==> t[i].base == a.base || t[i].base == alt
  {
    if t != [] {
      var n := |t| - 1;
      OtherTextEmpty(t[..n], a, alt, binom, fmt);
      assert forall i :: 0 <= i < n ==> t[..n][i] == t[i];
    }
  }

  /** The tests: exactly the anchor entry is left without a p-value, every other
      entry keeps its base and count and gets the test of its count against its
      count plus the anchor's. */
  lemma TestedTable(t: seq<Allele>, a: Anchor, i0: nat, binom: Binom)
    requires Untested(t) && i0 < |t| && t[i0].base == a.base
    ensures var u := TestAll(t, a, binom);
      |u| == |t| && forall i :: 0 <= i < |t| ==> u[i].base == t[i].base && u[i].count == t[i].count
    ensures var u := TestAll(t, a, binom);
      forall i :: 0 <= i < |t| ==> (u[i].pvalue.None? <==> i == i0)
    ensures var u := TestAll(t, a, binom);
      forall i :: 0 <= i < |t| && i != i0 ==> u[i].pvalue == Some(binom(t[i].count, t[i].count + a.count))
  {
  }

  /** `report_alt` after the tests: failing only for an alt that is the anchor. */
  lemma TestedAlt(t: seq<Allele>, a: Anchor, alt: string, binom: Binom, fmt: FloatText, refField: string, comment: string)
    requires Untested(t)
    ensures var staged := SiteReport(TestAll(t, a, binom), refField, "", "", comment, 0);
      WithAlt(staged, alt, fmt) ==
        if !Has(t, alt) then Ok(staged.(reportAlt := alt + ":0:.", comment := comment + "No_Alt_Reads;", notQueried := 1))
        else if alt == a.base then Err(KeyError)
        else
          var c := CountOf(t, alt);
          Ok(staged.(reportAlt := alt + ":" + NatToString(c) + ":" + fmt(binom(c, c + a.count))))
  {
    var u := TestAll(t, a, binom);
    FindSameBases(t, u, alt);
    match Find(t, alt)
    case None =>
    case Some(k) =>
      assert u[k] == Test(t[k], a, binom);
  }

  /** The testing branch. The run fails only when the alt base is the anchor
      (ref and alt coincide); an unseen alt adds `No_Alt_Reads;` and one
      untested SNP; a seen alt is reported with its count and p-value. */
  lemma TestedCase(t: seq<Allele>, ref: string, alt: string, binom: Binom, fmt: FloatText)
    requires Untested(t) && !Degenerate(t, ref, alt) && |t| >= 2
    ensures var a := AnchorOf(t, ref, alt);
      Analyze(t, ref, alt, binom, fmt) ==
        if alt == a.base && Has(t, alt) then Err(KeyError)
        else if !Has(t, alt) then
          Ok(SiteReport(TestAll(t, a, binom), RefField(t, ref, a), alt + ":0:.",
            OtherText(t, a, alt, binom, fmt), RefComment(t, ref, a) + "No_Alt_Reads;", 1))
        else
          var c := CountOf(t, alt);
          Ok(SiteReport(TestAll(t, a, binom), RefField(t, ref, a),
            alt + ":" + NatToString(c) + ":" + fmt(binom(c, c + a.count)),
            OtherText(t, a, alt, binom, fmt), RefComment(t, ref, a), 0))
  {
    var a := AnchorOf(t, ref, alt);
    var rf, cm := RefField(t, ref, a), RefComment(t, ref, a);
    var staged := SiteReport(TestAll(t, a, binom), rf, "", "", cm, 0);
    assert Stage(t, ref, alt, a, binom) == staged;
    TestedAlt(t, a, alt, binom, fmt, rf, cm);
    OthersOfTested(t, a, alt, binom, fmt);
    var others := OtherText(t, a, alt, binom, fmt);
    assert "" + others == others;
  }

  /** When a counted table is analyzed without failure: the run fails exactly
      when the alt base was seen but never tested, and a SNP whose alt was seen
      and tested is always queried, its comment empty exactly when its ref base
      was seen. */
  lemma AnalyzeOutcome(t: seq<Allele>, ref: string, alt: string, binom: Binom, fmt: FloatText)
    requires Untested(t)
    ensures Analyze(t, ref, alt, binom, fmt).Err? <==>
      Has(t, alt) && (Degenerate(t, ref, alt) || |t| <= 1 || alt == AnchorOf(t, ref, alt).base)
    ensures Analyze(t, ref, alt, binom, fmt).Ok? ==>
      var r := Analyze(t, ref, alt, binom, fmt).value;
      |r.alleles| == |t| && forall i :: 0 <= i < |t| ==> r.alleles[i].base == t[i].base && r.alleles[i].count == t[i].count
    ensures Analyze(t, ref, alt, binom, fmt).Ok? && Has(t, alt) ==>
      var r := Analyze(t, ref, alt, binom, fmt).value;
      r.notQueried == 0 && (r.comment == "" <==> Has(t, ref))
  {
    if Degenerate(t, ref, alt) {
      DegenerateCase(t, ref, alt, binom, fmt);
    } else if |t| <= 1 {
      SingleAlleleCase(t, ref, alt, binom, fmt);
      if Has(t, alt) {
        assert t[Find(t, alt).value].base == alt;
      }
    } else {
      TestedCase(t, ref, alt, binom, fmt);
      AnchorResolution(t, ref, alt);
      TestAllKeeps(t, AnchorOf(t, ref, alt), binom);
    }
  }

  lemma TestAllKeeps(t: seq<Allele>, a: Anchor, binom: Binom)
    ensures |TestAll(t, a, binom)| == |t|
    ensures forall i :: 0 <= i < |t| ==> TestAll(t, a, binom)[i].base == t[i].base && TestAll(t, a, binom)[i].count == t[i].count
  {
  }

  /** A table analyzed without failure although the alt base was seen: it went
      through the tests, its alt base is not the anchor, the SNP counts as queried,
      the comment is empty exactly when the ref base was seen, and then the ref
      base is the anchor. */
  lemma AnalyzedSeenAlt(t: seq<Allele>, ref: string, alt: string, binom: Binom, fmt: FloatText)
    requires Untested(t) && Has(t, alt) && Analyze(t, ref, alt, binom, fmt).Ok?
    ensures var r := Analyze(t, ref, alt, binom, fmt).value;
      var a := AnchorOf(t, ref, alt);
      && r.alleles == TestAll(t, a, binom) && alt != a.base && r.notQueried == 0
      && (r.comment == "" <==> Has(t, ref))
      && (Has(t, ref) ==> a == Anchor(ref, CountOf(t, ref)))
  {
    AnalyzeOutcome(t, ref, alt, binom, fmt);
    TestedCase(t, ref, alt, binom, fmt);
    AnchorResolution(t, ref, alt);
  }
}
