/** The text the script prints (allele_specific_dnase.py lines 352-357 and
    397-419): the summary line and one tab-separated line per SNP. */
module Render {
  import opened Common
  import opened Text
  import opened SnpInput
  import opened Classify
  import opened Pipeline
  import opened Fdr

  // ---------------------------------------------------------------------------
  // Summary, lines 352-357

  /** `'# Total SNPs: %s  Queried: %s  Not Queried: %s'`. */
  function SummaryLine(total: nat, notQueried: nat): string
  {
    "# Total SNPs: " + NatToString(total) + "  Queried: " + IntToString(total - notQueried)
      + "  Not Queried: " + NatToString(notQueried)
  }

  /** The summary line read back: `split()` gives its nine words, and fields 3,
      5 and 8 read as the total, the queried count and the not-queried count. */
  lemma SummaryFields(total: nat, notQueried: nat)
    ensures var f := Split(SummaryLine(total, notQueried));
      && f == ["#", "Total", "SNPs:", NatToString(total), "Queried:", IntToString(total - notQueried),
               "Not", "Queried:", NatToString(notQueried)]
      && ParseInt(f[3]) == Some(total as int)
      && ParseInt(f[5]) == Some(total - notQueried)
      && ParseInt(f[8]) == Some(notQueried as int)
  {
    SummarySplits(total, notQueried);
    SummaryNumbers(Split(SummaryLine(total, notQueried)), total, notQueried);
  }

  /** Fields 3, 5 and 8 of the nine summary words read back as numbers. */
  lemma SummaryNumbers(f: seq<string>, total: nat, notQueried: nat)
    requires |f| == 9 && f[3] == NatToString(total) && f[5] == IntToString(total - notQueried)
    requires f[8] == NatToString(notQueried)
    ensures ParseInt(f[3]) == Some(total as int)
    ensures ParseInt(f[5]) == Some(total - notQueried)
    ensures ParseInt(f[8]) == Some(notQueried as int)
  {
    NatFieldRoundTrip(total);
    ParseIntRoundTrip(total - notQueried);
    NatFieldRoundTrip(notQueried);
  }

  /** A count printed with `%d` reads back as itself. */
  lemma NatFieldRoundTrip(n: nat)
    ensures ParseInt(NatToString(n)) == Some(n as int)
  {
    ParseIntRoundTrip(n);
    assert IntToString(n) == NatToString(n);
  }

  lemma SummarySplits(total: nat, notQueried: nat)
    ensures Split(SummaryLine(total, notQueried)) ==
      ["#", "Total", "SNPs:", NatToString(total), "Queried:", IntToString(total - notQueried),
       "Not", "Queried:", NatToString(notQueried)]
  {
    var t, q, n := NatToString(total), IntToString(total - notQueried), NatToString(notQueried);
    assert IsWord(t) && IsWord(q) && IsWord(n) by {
      IntToStringIsWord(total);
      IntToStringIsWord(total - notQueried);
      IntToStringIsWord(notQueried);
    }
    SummaryLineNested(total, notQueried);
    SplitSummaryWords(t, q, n);
  }

  /** `SummaryLine` with its concatenations grouped from the right. */
  lemma SummaryLineNested(total: nat, notQueried: nat)
    ensures SummaryLine(total, notQueried) ==
      "# Total SNPs: " + (NatToString(total) + ("  Queried: " + (IntToString(total - notQueried)
        + ("  Not Queried: " + NatToString(notQueried)))))
  {
  }

  /** The summary line's shape with any three words in the number slots. */
  lemma SplitSummaryWords(t: string, q: string, n: string)
    requires IsWord(t) && IsWord(q) && IsWord(n)
    ensures Split("# Total SNPs: " + (t + ("  Queried: " + (q + ("  Not Queried: " + n))))) ==
      ["#", "Total", "SNPs:", t, "Queried:", q, "Not", "Queried:", n]
  {
    var r3 := "  Not Queried: " + n;
    var r2 := "  Queried: " + (q + r3);
    assert Split(r3) == ["Not", "Queried:", n] by {
      SplitWordThen(n, "");
      assert n + "" == n;
      SplitLiteral3(n);
    }
    assert Split(r2) == ["Queried:", q] + Split(r3) by {
      SplitWordThen(q, r3);
      SplitLiteral2(q + r3);
    }
    assert Split("# Total SNPs: " + (t + r2)) == ["#", "Total", "SNPs:", t] + Split(r2) by {
      SplitWordThen(t, r2);
      SplitLiteral1(t + r2);
    }
  }

  lemma SummaryWords()
    ensures IsWord("#") && IsWord("Total") && IsWord("SNPs:") && IsWord("Queried:") && IsWord("Not")
  {
  }

  lemma SummaryPieces(x: string)
    ensures "# Total SNPs: " + x == "#" + " " + ("Total" + " " + ("SNPs:" + " " + x))
    ensures "  Queried: " + x == " " + (" " + ("Queried:" + " " + x))
    ensures "  Not Queried: " + x == " " + (" " + ("Not" + " " + ("Queried:" + " " + x)))
  {
  }

  /** Three words, each followed by one space, then `x`. */
  lemma SplitThreeWords(a: string, b: string, c: string, x: string)
    requires IsWord(a) && IsWord(b) && IsWord(c)
    ensures Split(a + " " + (b + " " + (c + " " + x))) == [a, b, c] + Split(x)
  {
    SplitWordSpace(c, x);
    SplitWordSpace(b, c + " " + x);
    SplitWordSpace(a, b + " " + (c + " " + x));
  }

  lemma SplitLiteral1(x: string)
    ensures Split("# Total SNPs: " + x) == ["#", "Total", "SNPs:"] + Split(x)
  {
    SummaryPieces(x);
    SummaryWords();
    SplitThreeWords("#", "Total", "SNPs:", x);
  }

  lemma SplitLiteral2(x: string)
    ensures Split("  Queried: " + x) == ["Queried:"] + Split(x)
  {
    var s1 := "Queried:" + " " + x;
    assert Split("  Queried: " + x) == Split(" " + (" " + s1)) by { SummaryPieces(x); }
    assert Split(" " + (" " + s1)) == Split(s1) by { SplitSpaceThen(" " + s1); SplitSpaceThen(s1); }
    assert Split(s1) == ["Queried:"] + Split(x) by { SummaryWords(); SplitWordSpace("Queried:", x); }
  }

  /** Two spaces, then two words each followed by one space, then `x`. */
  lemma SplitSpacedTwoWords(a: string, b: string, x: string)
    requires IsWord(a) && IsWord(b)
    ensures Split(" " + (" " + (a + " " + (b + " " + x)))) == [a, b] + Split(x)
  {
    SplitSpaceThen(" " + (a + " " + (b + " " + x)));
    SplitSpaceThen(a + " " + (b + " " + x));
    SplitWordSpace(b, x);
    SplitWordSpace(a, b + " " + x);
  }

  lemma SplitLiteral3(x: string)
    ensures Split("  Not Queried: " + x) == ["Not", "Queried:"] + Split(x)
  {
    SummaryPieces(x);
    SummaryWords();
    SplitSpacedTwoWords("Not", "Queried:", x);
  }

  lemma SummaryHead(total: nat, notQueried: nat)
    ensures IsPrefix("# Total SNPs: " + NatToString(total) + "  Queried: ", SummaryLine(total, notQueried))
  {
    var head := "# Total SNPs: " + NatToString(total) + "  Queried: ";
    assert SummaryLine(total, notQueried)[..|head|] == head;
  }

  // ---------------------------------------------------------------------------
  // One SNP line, lines 400-416

  /** The p-value column: `str(p)` for a pool member, `.` otherwise. */
  function PColumn(t: Option<Tested>, fmt: FloatText): string
  {
    match t
    case Some(x) => fmt(x.p)
    case None => "."
  }

  /** The q-value column: `str(q)` for a pool member, `.` otherwise. */
  function QColumn(t: Option<Tested>, fmt: FloatText): string
  {
    match t
    case Some(x) => fmt(x.q)
    case None => "."
  }

  /** `report_ref:report_alt`, and `:report_other` when there is one. */
  function CountsColumn(r: SiteReport): string
  {
    r.reportRef + ":" + r.reportAlt + (if r.reportOther != "" then ":" + r.reportOther else "")
  }

  /** The comment column, `.` for an empty comment. */
  function CommentColumn(r: SiteReport): string
  {
    if r.comment == "" then "." else r.comment
  }

  /** The ten columns of a SNP line. */
  function Columns(snp: Snp, r: SiteReport, t: Option<Tested>, fmt: FloatText): seq<string>
  {
    [snp.chr, IntToString(snp.pos), IntToString(snp.pos + 1), snp.id, snp.ref, snp.alt,
     PColumn(t, fmt), QColumn(t, fmt), CountsColumn(r), CommentColumn(r)]
  }

  /** The printed line: its ten columns joined by tabs. */
  function RenderLine(snp: Snp, r: SiteReport, t: Option<Tested>, fmt: FloatText): string
  {
    Join(Columns(snp, r, t, fmt), '\t')
  }

  /** Line 401: the six BED-like columns. */
  function Head(snp: Snp): string
  {
    snp.chr + "\t" + IntToString(snp.pos) + "\t" + IntToString(snp.pos + 1) + "\t" + snp.id
      + "\t" + snp.ref + "\t" + snp.alt
  }

  lemma {:induction false} JoinSnoc(ws: seq<string>, w: string, sep: char)
    requires ws != []
    ensures Join(ws + [w], sep) == Join(ws, sep) + [sep] + w
  {
    if |ws| > 1 {
      assert (ws + [w])[1..] == ws[1..] + [w];
      JoinSnoc(ws[1..], w, sep);
    }
  }

  lemma HeadColumns(snp: Snp)
    ensures Head(snp) == Join([snp.chr, IntToString(snp.pos), IntToString(snp.pos + 1), snp.id, snp.ref, snp.alt], '\t')
  {
    var a, b, c, d, e, f := snp.chr, IntToString(snp.pos), IntToString(snp.pos + 1), snp.id, snp.ref, snp.alt;
    assert Join([a], '\t') == a;
    JoinSnoc([a], b, '\t');
    assert [a] + [b] == [a, b];
    JoinSnoc([a, b], c, '\t');
    assert [a, b] + [c] == [a, b, c];
    JoinSnoc([a, b, c], d, '\t');
    assert [a, b, c] + [d] == [a, b, c, d];
    JoinSnoc([a, b, c, d], e, '\t');
    assert [a, b, c, d] + [e] == [a, b, c, d, e];
    JoinSnoc([a, b, c, d, e], f, '\t');
    assert [a, b, c, d, e] + [f] == [a, b, c, d, e, f];
  }

  lemma TestsStage(ws: seq<string>, t: Option<Tested>, fmt: FloatText, before: string, after: string)
    requires ws != [] && before == Join(ws, '\t')
    requires t.Some? ==> after == before + "\t" + fmt(t.value.p) + "\t" + fmt(t.value.q)
    requires t.None? ==> after == before + "\t.\t."
    ensures after == Join(ws + [PColumn(t, fmt), QColumn(t, fmt)], '\t')
  {
    var p, q := PColumn(t, fmt), QColumn(t, fmt);
    JoinSnoc(ws, p, '\t');
    JoinSnoc(ws + [p], q, '\t');
    assert ws + [p] + [q] == ws + [p, q];
  }

  lemma CountsStage(ws: seq<string>, r: SiteReport, before: string, after: string)
    requires ws != [] && before == Join(ws, '\t')
    requires r.reportOther != "" ==> after == before + "\t" + r.reportRef + ":" + r.reportAlt + ":" + r.reportOther
    requires r.reportOther == "" ==> after == before + "\t" + r.reportRef + ":" + r.reportAlt
    ensures after == Join(ws + [CountsColumn(r)], '\t')
  {
    JoinSnoc(ws, CountsColumn(r), '\t');
  }

  lemma CommentStage(ws: seq<string>, r: SiteReport, before: string, after: string)
    requires ws != [] && before == Join(ws, '\t')
    requires r.comment == "" ==> after == before + "\t" + "."
    requires r.comment != "" ==> after == before + "\t" + r.comment
    ensures after == Join(ws + [CommentColumn(r)], '\t')
  {
    JoinSnoc(ws, CommentColumn(r), '\t');
  }

  lemma ColumnsParts(snp: Snp, r: SiteReport, t: Option<Tested>, fmt: FloatText)
    ensures Columns(snp, r, t, fmt)
      == [snp.chr, IntToString(snp.pos), IntToString(snp.pos + 1), snp.id, snp.ref, snp.alt]
         + [PColumn(t, fmt), QColumn(t, fmt)] + [CountsColumn(r)] + [CommentColumn(r)]
  {
  }

  /** Lines 400-416: the output string, built up as the script adds to it. */
  method RenderSnp(snp: Snp, r: SiteReport, t: Option<Tested>, fmt: FloatText) returns (output: string)
    ensures output == RenderLine(snp, r, t, fmt)
  {
    ghost var ws := [snp.chr, IntToString(snp.pos), IntToString(snp.pos + 1), snp.id, snp.ref, snp.alt];
    output := Head(snp);
    HeadColumns(snp);
    ghost var before := output;
    if t.Some? {
      output := output + "\t" + fmt(t.value.p) + "\t" + fmt(t.value.q);
    } else {
      output := output + "\t.\t.";
    }
    TestsStage(ws, t, fmt, before, output);
    ws := ws + [PColumn(t, fmt), QColumn(t, fmt)];
    before := output;
    output := output + "\t" + r.reportRef + ":" + r.reportAlt;
    if r.reportOther != "" {
      output := output + ":" + r.reportOther;
    }
    CountsStage(ws, r, before, output);
    ws := ws + [CountsColumn(r)];
    before := output;
    output := output + "\t";
    if r.comment == "" {
      output := output + ".";
    } else {
      output := output + r.comment;
    }
    CommentStage(ws, r, before, output);
    ColumnsParts(snp, r, t, fmt);
  }

  /** No column holds a tab: the SNP's own fields, the report strings and the
      text of every float the line shows. */
  ghost predicate TabFree(snp: Snp, r: SiteReport, t: Option<Tested>, fmt: FloatText)
  {
    && '\t' !in snp.chr && '\t' !in snp.id && '\t' !in snp.ref && '\t' !in snp.alt
    && '\t' !in r.reportRef && '\t' !in r.reportAlt && '\t' !in r.reportOther && '\t' !in r.comment
    && (t.Some? ==> '\t' !in fmt(t.value.p) && '\t' !in fmt(t.value.q))
  }

  lemma ColumnsTabFree(snp: Snp, r: SiteReport, t: Option<Tested>, fmt: FloatText)
    requires TabFree(snp, r, t, fmt)
    ensures forall i :: 0 <= i < |Columns(snp, r, t, fmt)| ==> '\t' !in Columns(snp, r, t, fmt)[i]
  {
    IntToStringTabFree(snp.pos);
    IntToStringTabFree(snp.pos + 1);
    assert '\t' !in CountsColumn(r);
    assert '\t' !in PColumn(t, fmt) && '\t' !in QColumn(t, fmt);
    assert '\t' !in CommentColumn(r);
  }

  /** Splitting a printed line at its tabs gives back its ten columns. */
  lemma RenderLineSplits(snp: Snp, r: SiteReport, t: Option<Tested>, fmt: FloatText)
    requires TabFree(snp, r, t, fmt)
    ensures SplitOn(RenderLine(snp, r, t, fmt), '\t') == Columns(snp, r, t, fmt)
  {
    ColumnsTabFree(snp, r, t, fmt);
    SplitOnJoin(Columns(snp, r, t, fmt), '\t');
  }

  /** What a reader of the output finds in the columns of a SNP line: the SNP's
      fields, its position twice (0-based start and end), the p- and q-values
      exactly when it was in the pool (`.` otherwise), and `.` for no comment. */
  lemma ColumnsMeaning(snp: Snp, r: SiteReport, t: Option<Tested>, fmt: FloatText)
    requires t.Some? ==> fmt(t.value.p) != "."
    ensures var cs := Columns(snp, r, t, fmt);
      && |cs| == 10
      && cs[0] == snp.chr && cs[3] == snp.id && cs[4] == snp.ref && cs[5] == snp.alt
      && ParseInt(cs[1]) == Some(snp.pos) && ParseInt(cs[2]) == Some(snp.pos + 1)
      && (cs[6] == "." <==> t.None?)
      && (t.None? ==> cs[7] == ".")
      && (t.Some? ==> cs[6] == fmt(t.value.p) && cs[7] == fmt(t.value.q))
      && (cs[9] == "." <==> r.comment == "" || r.comment == ".")
  {
    ColumnsSnp(snp, r, t, fmt);
    ColumnsTests(snp, r, t, fmt);
  }

  lemma ColumnsSnp(snp: Snp, r: SiteReport, t: Option<Tested>, fmt: FloatText)
    ensures var cs := Columns(snp, r, t, fmt);
      && |cs| == 10
      && cs[0] == snp.chr && cs[3] == snp.id && cs[4] == snp.ref && cs[5] == snp.alt
      && ParseInt(cs[1]) == Some(snp.pos) && ParseInt(cs[2]) == Some(snp.pos + 1)
  {
    var cs := Columns(snp, r, t, fmt);
    assert cs[1] == IntToString(snp.pos) && cs[2] == IntToString(snp.pos + 1);
    ParseIntRoundTrip(snp.pos);
    ParseIntRoundTrip(snp.pos + 1);
  }

  lemma ColumnsTests(snp: Snp, r: SiteReport, t: Option<Tested>, fmt: FloatText)
    requires t.Some? ==> fmt(t.value.p) != "."
    ensures var cs := Columns(snp, r, t, fmt);
      && |cs| == 10
      && (cs[6] == "." <==> t.None?)
      && (t.None? ==> cs[7] == ".")
      && (t.Some? ==> cs[6] == fmt(t.value.p) && cs[7] == fmt(t.value.q))
      && (cs[9] == "." <==> r.comment == "" || r.comment == ".")
  {
  }

  lemma IntToStringTabFree(i: int)
    ensures '\t' !in IntToString(i)
  {
    var n: nat := if i < 0 then -i else i;
    NatToStringDigits(n);
    assert !IsDigit('\t');
  }

  // ---------------------------------------------------------------------------
  // All SNP lines, lines 397-419

  /** The line printed for `k`: its p- and q-values appear exactly when it is in the pool. */
  function LineFor(k: string, snps: map<string, Snp>, reports: map<string, SiteReport>, pool: map<string, Tested>,
    fmt: FloatText): string
    requires k in snps && k in reports
  {
    RenderLine(snps[k], reports[k], if k in pool then Some(pool[k]) else None, fmt)
  }

  /** The lines for `sortedKeys`, one per key, in order. */
  function Rendered(sortedKeys: seq<string>, snps: map<string, Snp>, reports: map<string, SiteReport>,
    pool: map<string, Tested>, fmt: FloatText): seq<string>
    requires Covers(sortedKeys, snps) && Covers(sortedKeys, reports)
  {
    if sortedKeys == [] then []
    else
      var n := |sortedKeys| - 1;
      assert forall k :: k in sortedKeys[..n] ==> k in sortedKeys;
      Rendered(sortedKeys[..n], snps, reports, pool, fmt) + [LineFor(sortedKeys[n], snps, reports, pool, fmt)]
  }

  /** One line per key, in the order of `sortedKeys`. */
  lemma {:induction false} RenderedLines(sortedKeys: seq<string>, snps: map<string, Snp>,
    reports: map<string, SiteReport>, pool: map<string, Tested>, fmt: FloatText)
    requires Covers(sortedKeys, snps) && Covers(sortedKeys, reports)
    ensures var lines := Rendered(sortedKeys, snps, reports, pool, fmt);
      && |lines| == |sortedKeys|
      && forall i :: 0 <= i < |sortedKeys| ==> lines[i] == LineFor(sortedKeys[i], snps, reports, pool, fmt)
  {
    if sortedKeys != [] {
      var n := |sortedKeys| - 1;
      var init := sortedKeys[..n];
      assert forall k :: k in init ==> k in sortedKeys;
      RenderedLines(init, snps, reports, pool, fmt);
      assert forall i :: 0 <= i < n ==> init[i] == sortedKeys[i];
    }
  }

  lemma RenderedSnoc(sortedKeys: seq<string>, snps: map<string, Snp>, reports: map<string, SiteReport>,
    pool: map<string, Tested>, fmt: FloatText, i: nat, line: string)
    requires Covers(sortedKeys, snps) && Covers(sortedKeys, reports) && i < |sortedKeys|
    requires Covers(sortedKeys[..i], snps) && Covers(sortedKeys[..i], reports)
    requires line == LineFor(sortedKeys[i], snps, reports, pool, fmt)
    ensures Covers(sortedKeys[..i + 1], snps) && Covers(sortedKeys[..i + 1], reports)
    ensures Rendered(sortedKeys[..i + 1], snps, reports, pool, fmt)
      == Rendered(sortedKeys[..i], snps, reports, pool, fmt) + [line]
  {
    assert sortedKeys[..i + 1][..i] == sortedKeys[..i];
    assert forall k :: k in sortedKeys[..i + 1] ==> k in sortedKeys;
  }

  /** The print loop of lines 397-419. */
  method RenderAll(sortedKeys: seq<string>, snps: map<string, Snp>, reports: map<string, SiteReport>,
    pool: map<string, Tested>, fmt: FloatText) returns (lines: seq<string>)
    requires Covers(sortedKeys, snps) && Covers(sortedKeys, reports)
    ensures lines == Rendered(sortedKeys, snps, reports, pool, fmt)
  {
    lines := [];
    for i := 0 to |sortedKeys|
      invariant Covers(sortedKeys[..i], snps) && Covers(sortedKeys[..i], reports)
      invariant lines == Rendered(sortedKeys[..i], snps, reports, pool, fmt)
    {
      var key := sortedKeys[i];
      var line := RenderSnp(snps[key], reports[key], if key in pool then Some(pool[key]) else None, fmt);
      RenderedSnoc(sortedKeys, snps, reports, pool, fmt, i, line);
      lines := lines + [line];
    }
    assert sortedKeys[..|sortedKeys|] == sortedKeys;
  }
}
