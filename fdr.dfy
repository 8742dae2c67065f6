/** The FDR step of allele_specific_dnase.py (lines 330-351): which SNPs enter
    the Benjamini-Hochberg pool, and how the adjusted values are matched back
    to their SNPs. */
module Fdr {
  import opened Common
  import opened SnpInput
  import opened Reads
  import opened Alleles
  import opened Classify
  import opened Pipeline

  /** `smm.multipletests(ps, alpha=0.05, method='fdr_bh')[1]`: opaque to the model. */
  type Adjust = seq<real> -> seq<real>

  /** An entry of `valid_tests_dict` once its q-value is set. */
  datatype Tested = Tested(p: real, q: real)

  /** The condition of line 336, evaluated left to right as Python's `and` does:
      an insufficient SNP is passed over before its allele table is touched;
      otherwise reading the alt entry, or its p-value, can raise a KeyError.
      `isNumber` of a float is always true. The result is the alt p-value of a
      SNP that enters the pool, and None for one that does not. */
  function PoolEntry(site: Site, r: SiteReport, alt: string): Result<Option<real>>
  {
    if !site.sufficient then Ok(None)
    else
      match Find(r.alleles, alt)
      case None => Err(KeyError)
      case Some(k) =>
        match r.alleles[k].pvalue
        case None => Err(KeyError)
        case Some(p) => Ok(if r.alleles[k].count > 0 && r.comment == "" then Some(p) else None)
  }

  /** Lines 333-337: the (key, p-value) pairs of the pool, in key order. */
  function Collected(keys: seq<string>, snps: map<string, Snp>, sites: map<string, Site>, reports: map<string, SiteReport>)
    : Result<seq<(string, real)>>
    requires Covers(keys, snps) && Covers(keys, sites) && Covers(keys, reports)
  {
    if keys == [] then Ok([])
    else
      var k := keys[|keys| - 1];
      match Collected(keys[..|keys| - 1], snps, sites, reports)
      case Err(e) => Err(e)
      case Ok(valid) =>
        match PoolEntry(sites[k], reports[k], snps[k].alt)
        case Err(e) => Err(e)
        case Ok(None) => Ok(valid)
        case Ok(Some(p)) => Ok(valid + [(k, p)])
  }

  /** The loop of lines 333-337. */
  method CollectValid(keys: seq<string>, snps: map<string, Snp>, sites: map<string, Site>, reports: map<string, SiteReport>)
    returns (res: Result<seq<(string, real)>>)
    requires Covers(keys, snps) && Covers(keys, sites) && Covers(keys, reports)
    ensures res == Collected(keys, snps, sites, reports)
  {
    var valid: seq<(string, real)> := [];
    for i := 0 to |keys|
      invariant Collected(keys[..i], snps, sites, reports) == Ok(valid)
    {
      assert keys[..i + 1][..i] == keys[..i];
      var k := keys[i];
      var entry := PoolEntry(sites[k], reports[k], snps[k].alt);
      if entry.Err? {
        CollectedStopsAtError(keys, snps, sites, reports, i + 1);
        return Err(entry.error);
      }
      if entry.value.Some? {
        valid := valid + [(k, entry.value.value)];
      }
    }
    assert keys[..|keys|] == keys;
    res := Ok(valid);
  }

  lemma {:induction false} CollectedStopsAtError(keys: seq<string>, snps: map<string, Snp>, sites: map<string, Site>,
                                                 reports: map<string, SiteReport>, n: nat)
    requires Covers(keys, snps) && Covers(keys, sites) && Covers(keys, reports) && n <= |keys|
    requires Collected(keys[..n], snps, sites, reports).Err?
    ensures Collected(keys, snps, sites, reports) == Collected(keys[..n], snps, sites, reports)
    decreases |keys| - n
  {
    if n < |keys| {
      assert keys[..n + 1][..n] == keys[..n];
      CollectedStopsAtError(keys, snps, sites, reports, n + 1);
    } else {
      assert keys[..n] == keys;
    }
  }

  /** Lines 340-351: the keys and p-values are listed in pool order, adjusted
      together, and the i-th adjusted value goes to the i-th key; an adjusted
      list shorter than the pool is an IndexError. */
  function Assigned(valid: seq<(string, real)>, qs: seq<real>): Result<map<string, Tested>>
  {
    if valid == [] then Ok(map[])
    else
      var n := |valid| - 1;
      match Assigned(valid[..n], qs)
      case Err(e) => Err(e)
      case Ok(m) => if n < |qs| then Ok(m[valid[n].0 := Tested(valid[n].1, qs[n])]) else Err(IndexError)
  }

  /** `fdr_pvalues`: the p-values of the pool, in pool order. */
  function PValues(valid: seq<(string, real)>): (ps: seq<real>)
    ensures |ps| == |valid| && forall i :: 0 <= i < |valid| ==> ps[i] == valid[i].1
  {
    if valid == [] then [] else PValues(valid[..|valid| - 1]) + [valid[|valid| - 1].1]
  }

  /** Lines 340-351, with the two loops that build the lists and the one that
      assigns the q-values. */
  method AssignQ(valid: seq<(string, real)>, adjust: Adjust) returns (res: Result<map<string, Tested>>)
    ensures res == Assigned(valid, adjust(PValues(valid)))
  {
    var fdrKeys: seq<string> := [];
    var fdrPValues: seq<real> := [];
    for i := 0 to |valid|
      invariant |fdrKeys| == |fdrPValues| == i
      invariant forall j :: 0 <= j < i ==> fdrKeys[j] == valid[j].0 && fdrPValues[j] == valid[j].1
    {
      fdrKeys := fdrKeys + [valid[i].0];
      fdrPValues := fdrPValues + [valid[i].1];
    }
    assert fdrPValues == PValues(valid);
    var qs := adjust(fdrPValues);
    var pool: map<string, Tested> := map[];
    for i := 0 to |fdrKeys|
      invariant Assigned(valid[..i], qs) == Ok(pool)
    {
      assert valid[..i + 1][..i] == valid[..i];
      if i >= |qs| {
        AssignedStopsAtError(valid, qs, i + 1);
        return Err(IndexError);
      }
      pool := pool[fdrKeys[i] := Tested(fdrPValues[i], qs[i])];
    }
    assert valid[..|valid|] == valid;
    res := Ok(pool);
  }

  lemma {:induction false} AssignedStopsAtError(valid: seq<(string, real)>, qs: seq<real>, n: nat)
    requires n <= |valid|
    requires Assigned(valid[..n], qs).Err?
    ensures Assigned(valid, qs) == Assigned(valid[..n], qs)
    decreases |valid| - n
  {
    if n < |valid| {
      assert valid[..n + 1][..n] == valid[..n];
      AssignedStopsAtError(valid, qs, n + 1);
    } else {
      assert valid[..n] == valid;
    }
  }

  // ---------------------------------------------------------------------------
  // Properties

  /** The q-value association: with enough adjusted values, every pool key gets
      its own p-value and the adjusted value at its own position, and nothing else
      gets an entry; with too few, the run fails. */
  lemma {:induction false} AssignedPairs(valid: seq<(string, real)>, qs: seq<real>)
    requires forall i, j :: 0 <= i < j < |valid| ==> valid[i].0 != valid[j].0
    ensures Assigned(valid, qs).Err? <==> |qs| < |valid|
    ensures Assigned(valid, qs).Ok? ==>
      var m := Assigned(valid, qs).value;
      && (forall k :: k in m <==> exists i :: 0 <= i < |valid| && valid[i].0 == k)
      && (forall i :: 0 <= i < |valid| ==> m[valid[i].0] == Tested(valid[i].1, qs[i]))
  {
    if valid != [] {
      var n := |valid| - 1;
      var init := valid[..n];
      assert forall i :: 0 <= i < n ==> init[i] == valid[i];
      AssignedPairs(init, qs);
      if Assigned(valid, qs).Ok? {
        var m := Assigned(valid, qs).value;
        forall k ensures k in m <==> exists i :: 0 <= i < |valid| && valid[i].0 == k {
          if k == valid[n].0 {
            assert valid[n].0 == k;
          }
        }
      }
    }
  }

  /** Collection fails exactly when some SNP's entry test raises. */
  lemma {:induction false} CollectedFails(keys: seq<string>, snps: map<string, Snp>, sites: map<string, Site>,
                                          reports: map<string, SiteReport>)
    requires Covers(keys, snps) && Covers(keys, sites) && Covers(keys, reports)
    ensures Collected(keys, snps, sites, reports).Err? <==>
      exists j :: 0 <= j < |keys| && PoolEntry(sites[keys[j]], reports[keys[j]], snps[keys[j]].alt).Err?
  {
    if keys != [] {
      var n := |keys| - 1;
      var init := keys[..n];
      assert forall i :: 0 <= i < n ==> init[i] == keys[i];
      CollectedFails(init, snps, sites, reports);
      if Collected(init, snps, sites, reports).Ok? && Collected(keys, snps, sites, reports).Err? {
        assert PoolEntry(sites[keys[n]], reports[keys[n]], snps[keys[n]].alt).Err?;
      }
    }
  }

  /** The pool, as its contents: pairs whose keys appear in `keys` at strictly
      increasing positions, exactly the SNPs whose entry test yields a p-value,
      each with that p-value; no SNP's entry test raised. */
  lemma {:induction false} CollectedPicks(keys: seq<string>, snps: map<string, Snp>, sites: map<string, Site>,
                                          reports: map<string, SiteReport>) returns (idx: seq<nat>)
    requires Covers(keys, snps) && Covers(keys, sites) && Covers(keys, reports)
    requires Collected(keys, snps, sites, reports).Ok?
    ensures var valid := Collected(keys, snps, sites, reports).value;
      && |idx| == |valid|
      && (forall i, j :: 0 <= i < j < |idx| ==> idx[i] < idx[j])
      && (forall i :: 0 <= i < |idx| ==> (idx[i] < |keys| && valid[i].0 == keys[idx[i]]
            && PoolEntry(sites[keys[idx[i]]], reports[keys[idx[i]]], snps[keys[idx[i]]].alt) == Ok(Some(valid[i].1))))
      && (forall j :: 0 <= j < |keys| ==> PoolEntry(sites[keys[j]], reports[keys[j]], snps[keys[j]].alt).Ok?)
      && (forall j :: 0 <= j < |keys| ==>
            (j in idx <==> PoolEntry(sites[keys[j]], reports[keys[j]], snps[keys[j]].alt).value.Some?))
  {
    if keys == [] {
      idx := [];
    } else {
      var n := |keys| - 1;
      var init := keys[..n];
      assert forall i :: 0 <= i < n ==> init[i] == keys[i];
      var idx0 := CollectedPicks(init, snps, sites, reports);
      var k := keys[n];
      if PoolEntry(sites[k], reports[k], snps[k].alt).value.None? {
        idx := idx0;
      } else {
        idx := idx0 + [n];
      }
    }
  }

  /** The entry test on a tested table whose alt base was seen and is not the
      anchor: the SNP enters the pool exactly when its comment is empty, with the
      alt count tested against the alt plus anchor counts. */
  lemma EntryOfTested(t: seq<Allele>, a: Anchor, alt: string, binom: Binom, r: SiteReport, pooled: seq<Read>)
    requires Untested(t) && r.alleles == TestAll(t, a, binom) && Has(t, alt) && alt != a.base
    ensures PoolEntry(Site(pooled, true), r, alt) ==
      Ok(if r.comment == "" then Some(binom(CountOf(t, alt), CountOf(t, alt) + a.count)) else None)
  {
    var u := TestAll(t, a, binom);
    FindSameBases(t, u, alt);
    var k := Find(t, alt).value;
    assert u[k] == Test(t[k], a, binom);
  }

  /** The entry test `e` of a sufficient SNP with allele table `t`, which adds
      `notQueried` to the count: it raises exactly when the alt base was not seen;
      otherwise the SNP was queried and enters the pool exactly when its ref base
      was seen, with the alt count tested against the alt plus ref counts. */
  ghost predicate TableEntry(t: seq<Allele>, ref: string, alt: string, binom: Binom, e: Result<Option<real>>,
    notQueried: nat)
  {
    && (e.Err? <==> !Has(t, alt))
    && (e.Ok? ==> notQueried == 0 && (e.value.Some? <==> Has(t, ref)))
    && (e.Ok? && e.value.Some? ==>
          ref != alt && e.value.value == binom(CountOf(t, alt), CountOf(t, alt) + CountOf(t, ref)))
  }

  /** The entry test on a sufficient SNP whose counted table `t` was analyzed
      without failure into `r`. */
  lemma EntryOfTable(t: seq<Allele>, ref: string, alt: string, binom: Binom, fmt: FloatText, r: SiteReport, pooled: seq<Read>)
    requires Untested(t) && Analyze(t, ref, alt, binom, fmt) == Ok(r)
    ensures TableEntry(t, ref, alt, binom, PoolEntry(Site(pooled, true), r, alt), r.notQueried)
  {
    AnalyzeOutcome(t, ref, alt, binom, fmt);
    if Has(t, alt) {
      AnalyzedSeenAlt(t, ref, alt, binom, fmt);
    }
    EntryOfReport(t, AnchorOf(t, ref, alt), ref, alt, binom, r, pooled);
  }

  /** The entry test on a report `r` whose table keeps the bases and counts of
      `t` and, when the alt base was seen, was tested against an anchor other
      than the alt base. */
  lemma EntryOfReport(t: seq<Allele>, a: Anchor, ref: string, alt: string, binom: Binom, r: SiteReport, pooled: seq<Read>)
    requires Untested(t)
    requires |r.alleles| == |t| && forall i :: 0 <= i < |t| ==> r.alleles[i].base == t[i].base
    requires Has(t, alt) ==>
      && r.alleles == TestAll(t, a, binom) && alt != a.base && r.notQueried == 0
      && (r.comment == "" <==> Has(t, ref))
      && (Has(t, ref) ==> a == Anchor(ref, CountOf(t, ref)))
    ensures TableEntry(t, ref, alt, binom, PoolEntry(Site(pooled, true), r, alt), r.notQueried)
  {
    FindSameBases(t, r.alleles, alt);
    if Has(t, alt) {
      EntryOfTested(t, a, alt, binom, r, pooled);
    }
  }

  /** The test of a pooled SNP whose reads show the bases `bs`: the number of
      reads showing its alt base against the number showing its alt or its ref base. */
  function AltP(bs: seq<string>, ref: string, alt: string, binom: Binom): real
  {
    binom(multiset(bs)[alt], multiset(bs)[alt] + multiset(bs)[ref])
  }

  /** The entry test on a sufficient SNP whose reads show the bases `bs`. */
  lemma EntryOfBases(bs: seq<string>, ref: string, alt: string, binom: Binom, fmt: FloatText, r: SiteReport, pooled: seq<Read>)
    requires Analyze(Tally(bs), ref, alt, binom, fmt) == Ok(r)
    ensures var e := PoolEntry(Site(pooled, true), r, alt);
      && (e.Err? <==> alt !in bs)
      && (e.Ok? ==> r.notQueried == 0 && (e.value.Some? <==> ref in bs))
      && (e.Ok? && e.value.Some? ==> ref != alt && e.value.value == AltP(bs, ref, alt, binom))
  {
    UntestedTally(bs);
    EntryOfTable(Tally(bs), ref, alt, binom, fmt, r, pooled);
    TableToBases(bs, ref, alt, binom, PoolEntry(Site(pooled, true), r, alt), r.notQueried);
  }

  /** The facts of `EntryOfTable` about the table of `bs`, restated about `bs`. */
  lemma TableToBases(bs: seq<string>, ref: string, alt: string, binom: Binom, e: Result<Option<real>>, notQueried: nat)
    requires TableEntry(Tally(bs), ref, alt, binom, e, notQueried)
    ensures && (e.Err? <==> alt !in bs)
      && (e.Ok? ==> notQueried == 0 && (e.value.Some? <==> ref in bs))
      && (e.Ok? && e.value.Some? ==> ref != alt && e.value.value == AltP(bs, ref, alt, binom))
  {
    var t := Tally(bs);
    assert Has(t, alt) <==> alt in bs by { TallyHas(bs, alt); }
    assert Has(t, ref) <==> ref in bs by { TallyHas(bs, ref); }
    assert AltP(bs, ref, alt, binom) == binom(CountOf(t, alt), CountOf(t, alt) + CountOf(t, ref)) by {
      CountOfTally(bs, alt);
      CountOfTally(bs, ref);
    }
  }

  /** What the entry test of line 336 sees after a SNP was classified without
      failure. An insufficient SNP is never pooled. For a sufficient SNP, with `bs`
      the bases its reads show: the test raises exactly when no read shows the alt
      base; otherwise the SNP was queried, it enters the pool exactly when some
      read shows the ref base, and its p-value is then the test of the alt count
      against the alt plus ref counts (ref and alt being different bases). */
  lemma EntryOfOutcome(snp: Snp, site: Site, r: SiteReport, binom: Binom, fmt: FloatText)
    requires SiteOutcome(snp, site, binom, fmt) == Ok(r)
    ensures !site.sufficient ==> r == InsufficientReport && PoolEntry(site, r, snp.alt) == Ok(None)
    ensures site.sufficient ==> BasesAt(site.pooled, snp.pos).Ok?
    ensures site.sufficient ==>
      var bs := BasesAt(site.pooled, snp.pos).value;
      var e := PoolEntry(site, r, snp.alt);
      && (e.Err? <==> snp.alt !in bs)
      && (e.Ok? ==> r.notQueried == 0 && (e.value.Some? <==> snp.ref in bs))
      && (e.Ok? && e.value.Some? ==> snp.ref != snp.alt && e.value.value == AltP(bs, snp.ref, snp.alt, binom))
  {
    if site.sufficient {
      var bs := BasesAt(site.pooled, snp.pos).value;
      assert Analyze(Tally(bs), snp.ref, snp.alt, binom, fmt) == Ok(r);
      assert site == Site(site.pooled, true);
      EntryOfBases(bs, snp.ref, snp.alt, binom, fmt, r, site.pooled);
      var e := PoolEntry(site, r, snp.alt);
      if snp.alt in bs {
        assert e.Ok? && r.notQueried == 0;
        if snp.ref in bs {
          assert e.value.Some?;
          assert snp.ref != snp.alt && e.value.value == AltP(bs, snp.ref, snp.alt, binom);
        } else {
          assert e.value.None?;
        }
      } else {
        assert e.Err?;
      }
    }
  }
}
