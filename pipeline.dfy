/** The stages of allele_specific_dnase.py that walk the whole SNP dictionary:
    pooling filtered reads over all BAM files (lines 182-213), the coverage gate
    (lines 217-223) and classifying every SNP (lines 230-327). Each stage is a
    loop over the dictionary's keys in insertion order. */
module Pipeline {
  import opened Common
  import opened SnpInput
  import opened Reads
  import opened Alleles
  import opened Classify

  /** `bamfile.fetch(chr, start, end)` on one BAM file: the reads pysam returns
      for the region, in its order. Opaque to the model. */
  type Fetch = (string, int, int) -> seq<Read>

  /** What the coverage gate leaves on a SNP: its reads and `flag_sufficient_reads`. */
  datatype Site = Site(pooled: seq<Read>, sufficient: bool)

  /** The reports of every SNP and `not_queried_count`. */
  datatype Classified = Classified(reports: map<string, SiteReport>, notQueried: nat)

  predicate Covers<V>(keys: seq<string>, m: map<string, V>)
  {
    forall k :: k in keys ==> k in m
  }

  ghost predicate DistinctKeys(keys: seq<string>)
  {
    forall i, j :: 0 <= i < j < |keys| ==> keys[i] != keys[j]
  }

  // ---------------------------------------------------------------------------
  // Pooling, lines 182-213

  /** Lines 187-204: the reads one BAM file contributes to `snp`. The region asked
      for is `pos + 1 .. pos + 2`, as line 190 passes it. */
  function FetchFiltered(snp: Snp, fetch: Fetch, cfg: Config): Result<seq<Read>>
  {
    Filtered(fetch(snp.chr, snp.pos + 1, snp.pos + 2), snp.pos, cfg)
  }

  /** Lines 206-210: the reads of one file are appended to what earlier files gave. */
  function AddReads(pool: map<string, seq<Read>>, k: string, kept: seq<Read>): map<string, seq<Read>>
  {
    pool[k := if k in pool then pool[k] + kept else kept]
  }

  /** Lines 186-210 for one BAM file: every SNP in key order. */
  function AddBam(pool: map<string, seq<Read>>, keys: seq<string>, snps: map<string, Snp>, fetch: Fetch, cfg: Config)
    : Result<map<string, seq<Read>>>
    requires Covers(keys, snps)
  {
    if keys == [] then Ok(pool)
    else
      var k := keys[|keys| - 1];
      match AddBam(pool, keys[..|keys| - 1], snps, fetch, cfg)
      case Err(e) => Err(e)
      case Ok(p) =>
        match FetchFiltered(snps[k], fetch, cfg)
        case Err(e) => Err(e)
        case Ok(kept) => Ok(AddReads(p, k, kept))
  }

  /** Lines 182-213: the pooled reads after all BAM files, in file order. */
  function Pooled(bams: seq<Fetch>, keys: seq<string>, snps: map<string, Snp>, cfg: Config)
    : Result<map<string, seq<Read>>>
    requires Covers(keys, snps)
  {
    if bams == [] then Ok(map[])
    else
      match Pooled(bams[..|bams| - 1], keys, snps, cfg)
      case Err(e) => Err(e)
      case Ok(pool) => AddBam(pool, keys, snps, bams[|bams| - 1], cfg)
  }

  /** The reference definition: one SNP's reads are the filtered reads of every
      file, concatenated in file order. */
  function ReadsFor(snp: Snp, bams: seq<Fetch>, cfg: Config): Result<seq<Read>>
  {
    if bams == [] then Ok([])
    else
      match ReadsFor(snp, bams[..|bams| - 1], cfg)
      case Err(e) => Err(e)
      case Ok(prev) =>
        match FetchFiltered(snp, bams[|bams| - 1], cfg)
        case Err(e) => Err(e)
        case Ok(kept) => Ok(prev + kept)
  }

  /** The nested loops of lines 182-213. */
  method PoolReads(keys: seq<string>, snps: map<string, Snp>, bams: seq<Fetch>, cfg: Config)
    returns (res: Result<map<string, seq<Read>>>)
    requires Covers(keys, snps)
    ensures res == Pooled(bams, keys, snps, cfg)
  {
    var pool: map<string, seq<Read>> := map[];
    for b := 0 to |bams|
      invariant Pooled(bams[..b], keys, snps, cfg) == Ok(pool)
    {
      assert bams[..b + 1][..b] == bams[..b];
      var added := PoolBam(pool, keys, snps, bams[b], cfg);
      if added.Err? {
        PooledStopsAtError(bams, keys, snps, cfg, b + 1);
        return Err(added.error);
      }
      pool := added.value;
    }
    assert bams[..|bams|] == bams;
    res := Ok(pool);
  }

  /** The inner loop of lines 186-210: one BAM file, every SNP in key order. */
  method PoolBam(pool: map<string, seq<Read>>, keys: seq<string>, snps: map<string, Snp>, fetch: Fetch, cfg: Config)
    returns (res: Result<map<string, seq<Read>>>)
    requires Covers(keys, snps)
    ensures res == AddBam(pool, keys, snps, fetch, cfg)
  {
    var p := pool;
    for i := 0 to |keys|
      invariant AddBam(pool, keys[..i], snps, fetch, cfg) == Ok(p)
    {
      assert keys[..i + 1][..i] == keys[..i];
      var k := keys[i];
      var kept := FilterReads(fetch(snps[k].chr, snps[k].pos + 1, snps[k].pos + 2), snps[k].pos, cfg);
      if kept.Err? {
        AddBamStopsAtError(pool, keys, snps, fetch, cfg, i + 1);
        return Err(kept.error);
      }
      assert FetchFiltered(snps[k], fetch, cfg) == kept;
      ghost var next := AddReads(p, k, kept.value);
      if k in p {
        p := p[k := p[k] + kept.value];
      } else {
        p := p[k := kept.value];
      }
      assert p == next;
    }
    assert keys[..|keys|] == keys;
    res := Ok(p);
  }

  lemma {:induction false} AddBamStopsAtError(pool: map<string, seq<Read>>, keys: seq<string>, snps: map<string, Snp>,
                                              fetch: Fetch, cfg: Config, n: nat)
    requires Covers(keys, snps) && n <= |keys|
    requires AddBam(pool, keys[..n], snps, fetch, cfg).Err?
    ensures AddBam(pool, keys, snps, fetch, cfg) == AddBam(pool, keys[..n], snps, fetch, cfg)
    decreases |keys| - n
  {
    if n < |keys| {
      assert keys[..n + 1][..n] == keys[..n];
      AddBamStopsAtError(pool, keys, snps, fetch, cfg, n + 1);
    } else {
      assert keys[..n] == keys;
    }
  }

  lemma {:induction false} PooledStopsAtError(bams: seq<Fetch>, keys: seq<string>, snps: map<string, Snp>, cfg: Config, n: nat)
    requires Covers(keys, snps) && n <= |bams|
    requires Pooled(bams[..n], keys, snps, cfg).Err?
    ensures Pooled(bams, keys, snps, cfg) == Pooled(bams[..n], keys, snps, cfg)
    decreases |bams| - n
  {
    if n < |bams| {
      assert bams[..n + 1][..n] == bams[..n];
      PooledStopsAtError(bams, keys, snps, cfg, n + 1);
    } else {
      assert bams[..n] == bams;
    }
  }

  /** One file's pass fails exactly when some SNP's filtering fails. */
  lemma {:induction false} AddBamFails(pool: map<string, seq<Read>>, keys: seq<string>, snps: map<string, Snp>,
                                       fetch: Fetch, cfg: Config)
    requires Covers(keys, snps)
    ensures AddBam(pool, keys, snps, fetch, cfg).Err? <==>
      exists i :: 0 <= i < |keys| && FetchFiltered(snps[keys[i]], fetch, cfg).Err?
  {
    if keys != [] {
      var n := |keys| - 1;
      var init := keys[..n];
      assert forall i :: 0 <= i < n ==> init[i] == keys[i];
      AddBamFails(pool, init, snps, fetch, cfg);
    }
  }

  /** A successful pass appends each SNP's filtered reads to that SNP's entry and
      touches no other entry. */
  lemma AddBamAppends(pool: map<string, seq<Read>>, keys: seq<string>, snps: map<string, Snp>,
                       fetch: Fetch, cfg: Config)
    requires Covers(keys, snps) && DistinctKeys(keys)
    requires AddBam(pool, keys, snps, fetch, cfg).Ok?
    ensures var p := AddBam(pool, keys, snps, fetch, cfg).value;
      && (forall k :: k in p <==> k in pool || k in keys)
      && (forall k :: k in pool && k !in keys ==> p[k] == pool[k])
      && (forall k :: k in keys ==> (FetchFiltered(snps[k], fetch, cfg).Ok?
            && p[k] == (if k in pool then pool[k] else []) + FetchFiltered(snps[k], fetch, cfg).value))
  {
    AddBamKeeps(pool, keys, snps, fetch, cfg);
    AddBamAdds(pool, keys, snps, fetch, cfg);
  }

  lemma {:induction false} AddBamKeeps(pool: map<string, seq<Read>>, keys: seq<string>, snps: map<string, Snp>,
                                       fetch: Fetch, cfg: Config)
    requires Covers(keys, snps)
    requires AddBam(pool, keys, snps, fetch, cfg).Ok?
    ensures var p := AddBam(pool, keys, snps, fetch, cfg).value;
      && (forall k :: k in p <==> k in pool || k in keys)
      && (forall k :: k in pool && k !in keys ==> p[k] == pool[k])
  {
    if keys != [] {
      var n := |keys| - 1;
      var init := keys[..n];
      var k := keys[n];
      assert forall i :: 0 <= i < n ==> init[i] == keys[i];
      assert forall x :: x in keys <==> x in init || x == k;
      AddBamKeeps(pool, init, snps, fetch, cfg);
      var p := AddBam(pool, init, snps, fetch, cfg).value;
      var kept := FetchFiltered(snps[k], fetch, cfg).value;
      assert AddBam(pool, keys, snps, fetch, cfg).value == AddReads(p, k, kept);
    }
  }

  lemma {:induction false} AddBamAdds(pool: map<string, seq<Read>>, keys: seq<string>, snps: map<string, Snp>,
                                      fetch: Fetch, cfg: Config)
    requires Covers(keys, snps) && DistinctKeys(keys)
    requires AddBam(pool, keys, snps, fetch, cfg).Ok?
    ensures var p := AddBam(pool, keys, snps, fetch, cfg).value;
      forall k :: k in keys ==> (FetchFiltered(snps[k], fetch, cfg).Ok? && k in p
        && p[k] == (if k in pool then pool[k] else []) + FetchFiltered(snps[k], fetch, cfg).value)
  {
    if keys != [] {
      var n := |keys| - 1;
      var init := keys[..n];
      var k := keys[n];
      assert forall i :: 0 <= i < n ==> init[i] == keys[i];
      assert forall x :: x in keys <==> x in init || x == k;
      assert k !in init;
      AddBamAdds(pool, init, snps, fetch, cfg);
      AddBamKeeps(pool, init, snps, fetch, cfg);
      var p := AddBam(pool, init, snps, fetch, cfg).value;
      var kept := FetchFiltered(snps[k], fetch, cfg).value;
      assert AddBam(pool, keys, snps, fetch, cfg).value == AddReads(p, k, kept);
      assert k in p <==> k in pool;
      assert k in pool ==> p[k] == pool[k];
    }
  }

  /** The reads pooled for a SNP: after at least one BAM file, every SNP has an
      entry, and it is the concatenation of its filtered reads over the files in
      order; pooling fails exactly when some file's filtering fails for some SNP. */
  lemma {:induction false} PooledSpec(bams: seq<Fetch>, keys: seq<string>, snps: map<string, Snp>, cfg: Config)
    requires Covers(keys, snps) && DistinctKeys(keys)
    ensures Pooled(bams, keys, snps, cfg).Err? <==>
      exists i :: 0 <= i < |keys| && ReadsFor(snps[keys[i]], bams, cfg).Err?
    ensures Pooled(bams, keys, snps, cfg).Ok? ==>
      var p := Pooled(bams, keys, snps, cfg).value;
      && (forall k :: k in p <==> bams != [] && k in keys)
      && (forall k :: k in p ==> p[k] == ReadsFor(snps[k], bams, cfg).value)
  {
    if bams != [] {
      var n := |bams| - 1;
      PooledSpec(bams[..n], keys, snps, cfg);
      match Pooled(bams[..n], keys, snps, cfg)
      case Err(_) =>
        var i :| 0 <= i < |keys| && ReadsFor(snps[keys[i]], bams[..n], cfg).Err?;
        assert ReadsFor(snps[keys[i]], bams, cfg).Err?;
      case Ok(pool) =>
        AddBamFails(pool, keys, snps, bams[n], cfg);
        if AddBam(pool, keys, snps, bams[n], cfg).Ok? {
          AddBamAppends(pool, keys, snps, bams[n], cfg);
        }
        assert forall i :: 0 <= i < |keys| ==> ReadsFor(snps[keys[i]], bams[..n], cfg).Ok?;
        if n == 0 {
          assert forall i :: 0 <= i < |keys| ==> ReadsFor(snps[keys[i]], bams[..n], cfg) == Ok([]);
        }
    }
  }

  // ---------------------------------------------------------------------------
  // The coverage gate, lines 217-223

  /** Lines 218-223 for one SNP. */
  function GateSite(pooled: seq<Read>, minReads: int): Site
  {
    if |pooled| < minReads then Site([], false) else Site(pooled, true)
  }

  /** Lines 217-223: every SNP is flagged; a SNP without a `reads` entry (there
      was no BAM file) is a KeyError. */
  function Gated(pool: map<string, seq<Read>>, keys: seq<string>, minReads: int): Result<map<string, Site>>
  {
    if keys == [] then Ok(map[])
    else
      var k := keys[|keys| - 1];
      match Gated(pool, keys[..|keys| - 1], minReads)
      case Err(e) => Err(e)
      case Ok(sites) =>
        if k !in pool then Err(KeyError) else Ok(sites[k := GateSite(pool[k], minReads)])
  }

  /** The loop of lines 217-223. */
  method Gate(pool: map<string, seq<Read>>, keys: seq<string>, minReads: int) returns (res: Result<map<string, Site>>)
    ensures res == Gated(pool, keys, minReads)
  {
    var sites: map<string, Site> := map[];
    for i := 0 to |keys|
      invariant Gated(pool, keys[..i], minReads) == Ok(sites)
    {
      assert keys[..i + 1][..i] == keys[..i];
      var k := keys[i];
      if k !in pool {
        GatedStopsAtError(pool, keys, minReads, i + 1);
        return Err(KeyError);
      }
      if |pool[k]| < minReads {
        sites := sites[k := Site([], false)];
      } else {
        sites := sites[k := Site(pool[k], true)];
      }
    }
    assert keys[..|keys|] == keys;
    res := Ok(sites);
  }

  lemma {:induction false} GatedStopsAtError(pool: map<string, seq<Read>>, keys: seq<string>, minReads: int, n: nat)
    requires n <= |keys|
    requires Gated(pool, keys[..n], minReads).Err?
    ensures Gated(pool, keys, minReads) == Gated(pool, keys[..n], minReads)
    decreases |keys| - n
  {
    if n < |keys| {
      assert keys[..n + 1][..n] == keys[..n];
      GatedStopsAtError(pool, keys, minReads, n + 1);
    } else {
      assert keys[..n] == keys;
    }
  }

  /** The gate fails exactly when some SNP has no pooled entry. Otherwise a SNP is
      sufficient exactly when it has at least `minReads` reads; a sufficient SNP
      keeps all its reads and an insufficient one keeps none. */
  lemma {:induction false} GatedSpec(pool: map<string, seq<Read>>, keys: seq<string>, minReads: int)
    ensures Gated(pool, keys, minReads).Err? <==> exists k :: k in keys && k !in pool
    ensures Gated(pool, keys, minReads).Ok? ==>
      var sites := Gated(pool, keys, minReads).value;
      && (forall k :: k in sites <==> k in keys)
      && (forall k :: k in sites ==> ((sites[k].sufficient <==> |pool[k]| >= minReads)
            && sites[k].pooled == (if sites[k].sufficient then pool[k] else [])))
  {
    if keys != [] {
      var n := |keys| - 1;
      GatedSpec(pool, keys[..n], minReads);
      assert forall k :: k in keys <==> k in keys[..n] || k == keys[n];
    }
  }

  // ---------------------------------------------------------------------------
  // Classification of every SNP, lines 230-327

  /** Lines 233-324 for one SNP: the fixed report of an insufficient SNP, or the
      analysis of its reads. */
  function SiteOutcome(snp: Snp, site: Site, binom: Binom, fmt: FloatText): Result<SiteReport>
  {
    if !site.sufficient then Ok(InsufficientReport)
    else Evaluate(site.pooled, snp.pos, snp.ref, snp.alt, binom, fmt)
  }

  /** Lines 230-327: the reports in key order and `not_queried_count`; the first
      SNP that raises ends the run. */
  function ClassifiedAll(keys: seq<string>, snps: map<string, Snp>, sites: map<string, Site>, binom: Binom, fmt: FloatText)
    : Result<Classified>
    requires Covers(keys, snps) && Covers(keys, sites)
  {
    if keys == [] then Ok(Classified(map[], 0))
    else
      var k := keys[|keys| - 1];
      match ClassifiedAll(keys[..|keys| - 1], snps, sites, binom, fmt)
      case Err(e) => Err(e)
      case Ok(c) =>
        match SiteOutcome(snps[k], sites[k], binom, fmt)
        case Err(e) => Err(e)
        case Ok(r) => Ok(Classified(c.reports[k := r], c.notQueried + r.notQueried))
  }

  /** The loop of lines 230-327. */
  method ClassifyAll(keys: seq<string>, snps: map<string, Snp>, sites: map<string, Site>, binom: Binom, fmt: FloatText)
    returns (res: Result<Classified>)
    requires Covers(keys, snps) && Covers(keys, sites)
    ensures res == ClassifiedAll(keys, snps, sites, binom, fmt)
  {
    var reports: map<string, SiteReport> := map[];
    var notQueried: nat := 0;
    for i := 0 to |keys|
      invariant ClassifiedAll(keys[..i], snps, sites, binom, fmt) == Ok(Classified(reports, notQueried))
    {
      assert keys[..i + 1][..i] == keys[..i];
      var k := keys[i];
      var outcome := ClassifySite(snps[k], sites[k], binom, fmt);
      if outcome.Err? {
        ClassifiedStopsAtError(keys, snps, sites, binom, fmt, i + 1);
        return Err(outcome.error);
      }
      reports := reports[k := outcome.value];
      notQueried := notQueried + outcome.value.notQueried;
    }
    assert keys[..|keys|] == keys;
    res := Ok(Classified(reports, notQueried));
  }

  /** Lines 233-324 for one SNP. */
  method ClassifySite(snp: Snp, site: Site, binom: Binom, fmt: FloatText) returns (res: Result<SiteReport>)
    ensures res == SiteOutcome(snp, site, binom, fmt)
  {
    if !site.sufficient {
      res := Ok(InsufficientReport);
    } else {
      res := AnalyzeSite(site.pooled, snp.pos, snp.ref, snp.alt, binom, fmt);
    }
  }

  lemma {:induction false} ClassifiedStopsAtError(keys: seq<string>, snps: map<string, Snp>, sites: map<string, Site>,
                                                  binom: Binom, fmt: FloatText, n: nat)
    requires Covers(keys, snps) && Covers(keys, sites) && n <= |keys|
    requires ClassifiedAll(keys[..n], snps, sites, binom, fmt).Err?
    ensures ClassifiedAll(keys, snps, sites, binom, fmt) == ClassifiedAll(keys[..n], snps, sites, binom, fmt)
    decreases |keys| - n
  {
    if n < |keys| {
      assert keys[..n + 1][..n] == keys[..n];
      ClassifiedStopsAtError(keys, snps, sites, binom, fmt, n + 1);
    } else {
      assert keys[..n] == keys;
    }
  }

  /** Sum of what the SNPs `keys` add to `not_queried_count`. */
  function NotQueriedSum(keys: seq<string>, reports: map<string, SiteReport>): nat
    requires Covers(keys, reports)
  {
    if keys == [] then 0 else NotQueriedSum(keys[..|keys| - 1], reports) + reports[keys[|keys| - 1]].notQueried
  }

  lemma {:induction false} NotQueriedSumFrame(keys: seq<string>, reports: map<string, SiteReport>, k: string, r: SiteReport)
    requires Covers(keys, reports) && k !in keys
    ensures NotQueriedSum(keys, reports[k := r]) == NotQueriedSum(keys, reports)
  {
    if keys != [] {
      NotQueriedSumFrame(keys[..|keys| - 1], reports, k, r);
    }
  }

  /** Classification fails exactly when some SNP's own outcome fails. Otherwise
      every SNP gets its own outcome as its report, and `not_queried_count` is the
      sum of what each SNP adds. */
  lemma ClassifiedSpec(keys: seq<string>, snps: map<string, Snp>, sites: map<string, Site>, binom: Binom, fmt: FloatText)
    requires Covers(keys, snps) && Covers(keys, sites) && DistinctKeys(keys)
    ensures ClassifiedAll(keys, snps, sites, binom, fmt).Err? <==>
      exists i :: 0 <= i < |keys| && SiteOutcome(snps[keys[i]], sites[keys[i]], binom, fmt).Err?
    ensures ClassifiedAll(keys, snps, sites, binom, fmt).Ok? ==>
      var c := ClassifiedAll(keys, snps, sites, binom, fmt).value;
      && (forall k :: k in c.reports <==> k in keys)
      && (forall k :: k in keys ==> SiteOutcome(snps[k], sites[k], binom, fmt) == Ok(c.reports[k]))
      && c.notQueried == NotQueriedSum(keys, c.reports)
  {
    ClassifiedFails(keys, snps, sites, binom, fmt);
    if ClassifiedAll(keys, snps, sites, binom, fmt).Ok? {
      ClassifiedReports(keys, snps, sites, binom, fmt);
    }
  }

  lemma {:induction false} ClassifiedFails(keys: seq<string>, snps: map<string, Snp>, sites: map<string, Site>,
                                           binom: Binom, fmt: FloatText)
    requires Covers(keys, snps) && Covers(keys, sites)
    ensures ClassifiedAll(keys, snps, sites, binom, fmt).Err? <==>
      exists i :: 0 <= i < |keys| && SiteOutcome(snps[keys[i]], sites[keys[i]], binom, fmt).Err?
  {
    if keys != [] {
      var n := |keys| - 1;
      var init := keys[..n];
      assert forall i :: 0 <= i < n ==> init[i] == keys[i];
      ClassifiedFails(init, snps, sites, binom, fmt);
    }
  }

  lemma {:induction false} ClassifiedReports(keys: seq<string>, snps: map<string, Snp>, sites: map<string, Site>,
                                             binom: Binom, fmt: FloatText)
    requires Covers(keys, snps) && Covers(keys, sites) && DistinctKeys(keys)
    requires ClassifiedAll(keys, snps, sites, binom, fmt).Ok?
    ensures var c := ClassifiedAll(keys, snps, sites, binom, fmt).value;
      && (forall k :: k in c.reports <==> k in keys)
      && (forall k :: k in keys ==> SiteOutcome(snps[k], sites[k], binom, fmt) == Ok(c.reports[k]))
      && c.notQueried == NotQueriedSum(keys, c.reports)
  {
    if keys != [] {
      var n := |keys| - 1;
      var init := keys[..n];
      var k := keys[n];
      assert forall i :: 0 <= i < n ==> init[i] == keys[i];
      assert forall x :: x in keys <==> x in init || x == k;
      assert k !in init;
      ClassifiedReports(init, snps, sites, binom, fmt);
      var c := ClassifiedAll(init, snps, sites, binom, fmt).value;
      var r := SiteOutcome(snps[k], sites[k], binom, fmt).value;
      assert ClassifiedAll(keys, snps, sites, binom, fmt).value == Classified(c.reports[k := r], c.notQueried + r.notQueried);
      NotQueriedSumFrame(init, c.reports, k, r);
    }
  }
}
