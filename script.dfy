/** The whole run of allele_specific_dnase.py from the parsed command line to the
    printed text: load the SNPs, pool and filter reads from every BAM file, gate
    on coverage, classify every SNP, collect the pool of valid tests, adjust
    their p-values, print the summary, sort and print one line per SNP. */
module Script {
  import opened Common
  import opened SnpInput
  import opened Reads
  import opened Alleles
  import opened Classify
  import opened Pipeline
  import opened Fdr
  import opened Sorting
  import opened Render

  /** What the command line supplies: the SNP file's lines, its format and
      ref/alt columns, one read source per BAM file, the thresholds and
      `args.sortby[0]`. */
  datatype Input = Input(snpLines: seq<string>, format: Format, refCol: int, altCol: int,
                         bams: seq<Fetch>, cfg: Config, sortBy: string)

  /** What the run prints, and the exception that ended it, if any. */
  datatype Outcome = Outcome(printed: seq<string>, crash: Option<Crash>)

  // ---------------------------------------------------------------------------
  // The run as a composition of stages

  /** The text of the run: nothing is printed before the summary line, so a
      crash up to the FDR step prints nothing, and a crash while sorting prints
      the summary alone. */
  function Run(inp: Input, binom: Binom, adjust: Adjust, fmt: FloatText): Outcome
  {
    match Loaded(inp.snpLines, inp.format, inp.refCol, inp.altCol)
    case Err(e) => Outcome([], Some(e))
    case Ok(reg) =>
      LoadedWellFormed(inp.snpLines, inp.format, inp.refCol, inp.altCol);
      Analysed(reg, inp, binom, adjust, fmt)
  }

  /** Steps 2 to 5: pooling, the coverage gate and the classification of every SNP. */
  function Analysed(reg: Registry, inp: Input, binom: Binom, adjust: Adjust, fmt: FloatText): Outcome
    requires WellFormed(reg)
  {
    match Pooled(inp.bams, reg.keys, reg.snps, inp.cfg)
    case Err(e) => Outcome([], Some(e))
    case Ok(pool) =>
      match Gated(pool, reg.keys, inp.cfg.minReads)
      case Err(e) => Outcome([], Some(e))
      case Ok(sites) =>
        GatedSpec(pool, reg.keys, inp.cfg.minReads);
        match ClassifiedAll(reg.keys, reg.snps, sites, binom, fmt)
        case Err(e) => Outcome([], Some(e))
        case Ok(c) =>
          ClassifiedSpec(reg.keys, reg.snps, sites, binom, fmt);
          Reported(reg, sites, c, inp.sortBy, adjust, fmt)
  }

  /** Steps 6 and 7: the pool of valid tests, their q-values, the summary, the
      order of the output and its lines. */
  function Reported(reg: Registry, sites: map<string, Site>, c: Classified, sortBy: string, adjust: Adjust,
    fmt: FloatText): Outcome
    requires WellFormed(reg) && Covers(reg.keys, sites) && Covers(reg.keys, c.reports)
  {
    match Collected(reg.keys, reg.snps, sites, c.reports)
    case Err(e) => Outcome([], Some(e))
    case Ok(valid) =>
      match Assigned(valid, adjust(PValues(valid)))
      case Err(e) => Outcome([], Some(e))
      case Ok(tested) =>
        var summary := SummaryLine(|reg.keys|, c.notQueried);
        match SortedKeys(sortBy, reg.keys, reg.snps, tested)
        case Err(e) => Outcome([summary], Some(e))
        case Ok(sorted) =>
          SortedFromKeys(sortBy, reg.keys, reg.snps, tested);
          Outcome([summary] + Rendered(sorted, reg.snps, c.reports, tested, fmt), None)
  }

  /** Every key the sort returns is a loaded SNP. */
  lemma SortedFromKeys(mode: string, keys: seq<string>, snps: map<string, Snp>, pool: map<string, Tested>)
    requires Covers(keys, snps) && SortedKeys(mode, keys, snps, pool).Ok?
    ensures forall k :: k in SortedKeys(mode, keys, snps, pool).value ==> k in keys
  {
    var out := SortedKeys(mode, keys, snps, pool).value;
    if mode == "pvalue" {
      PValueSortedKeys(keys, pool);
    } else if mode == "position" {
      var es := PositionEntries(keys, snps).value;
      PositionEntriesSpec(keys, snps);
      assert Map(Third, es) == keys;
      SortByMap(Third, es, PositionLe);
    }
    forall k | k in out ensures k in keys {
      assert k in multiset(out);
    }
  }

  /** The script, stage by stage. */
  method RunScript(inp: Input, binom: Binom, adjust: Adjust, fmt: FloatText) returns (out: Outcome)
    ensures out == Run(inp, binom, adjust, fmt)
  {
    var loaded := LoadSnps(inp.snpLines, inp.format, inp.refCol, inp.altCol);
    if loaded.Err? {
      return Outcome([], Some(loaded.error));
    }
    var reg := loaded.value;
    LoadedWellFormed(inp.snpLines, inp.format, inp.refCol, inp.altCol);
    var pooled := PoolReads(reg.keys, reg.snps, inp.bams, inp.cfg);
    if pooled.Err? {
      return Outcome([], Some(pooled.error));
    }
    var gated := Gate(pooled.value, reg.keys, inp.cfg.minReads);
    if gated.Err? {
      return Outcome([], Some(gated.error));
    }
    var sites := gated.value;
    GatedSpec(pooled.value, reg.keys, inp.cfg.minReads);
    var classified := ClassifyAll(reg.keys, reg.snps, sites, binom, fmt);
    if classified.Err? {
      return Outcome([], Some(classified.error));
    }
    var c := classified.value;
    ClassifiedSpec(reg.keys, reg.snps, sites, binom, fmt);
    out := Report(reg, sites, c, inp.sortBy, adjust, fmt);
  }

  /** Steps 6 and 7 of the script. */
  method Report(reg: Registry, sites: map<string, Site>, c: Classified, sortBy: string, adjust: Adjust,
    fmt: FloatText) returns (out: Outcome)
    requires WellFormed(reg) && Covers(reg.keys, sites) && Covers(reg.keys, c.reports)
    ensures out == Reported(reg, sites, c, sortBy, adjust, fmt)
  {
    var collected := CollectValid(reg.keys, reg.snps, sites, c.reports);
    if collected.Err? {
      return Outcome([], Some(collected.error));
    }
    var adjusted := AssignQ(collected.value, adjust);
    if adjusted.Err? {
      return Outcome([], Some(adjusted.error));
    }
    var tested := adjusted.value;
    var summary := SummaryLine(|reg.keys|, c.notQueried);
    var sorted := SortKeys(sortBy, reg.keys, reg.snps, tested);
    if sorted.Err? {
      return Outcome([summary], Some(sorted.error));
    }
    SortedFromKeys(sortBy, reg.keys, reg.snps, tested);
    var lines := RenderAll(sorted.value, reg.snps, c.reports, tested, fmt);
    out := Outcome([summary] + lines, None);
  }

  // ---------------------------------------------------------------------------
  // Properties of a run

  /** The coverage gate in terms of the inputs: every SNP's reads are those its
      BAM files give after filtering, and a SNP is sufficient exactly when they
      number at least `min_reads`. */
  lemma RunSites(inp: Input, reg: Registry, pool: map<string, seq<Read>>, sites: map<string, Site>)
    requires Loaded(inp.snpLines, inp.format, inp.refCol, inp.altCol) == Ok(reg) && WellFormed(reg)
    requires Pooled(inp.bams, reg.keys, reg.snps, inp.cfg) == Ok(pool)
    requires Gated(pool, reg.keys, inp.cfg.minReads) == Ok(sites)
    ensures inp.bams != [] || reg.keys == []
    ensures forall k :: k in reg.keys ==> ReadsFor(reg.snps[k], inp.bams, inp.cfg).Ok?
    ensures forall k :: k in sites <==> k in reg.keys
    ensures forall k :: k in reg.keys ==>
      var rs := ReadsFor(reg.snps[k], inp.bams, inp.cfg).value;
      && (sites[k].sufficient <==> |rs| >= inp.cfg.minReads)
      && sites[k].pooled == (if sites[k].sufficient then rs else [])
  {
    PooledSpec(inp.bams, reg.keys, reg.snps, inp.cfg);
    GatedSpec(pool, reg.keys, inp.cfg.minReads);
    forall k | k in reg.keys ensures ReadsFor(reg.snps[k], inp.bams, inp.cfg).Ok? {
      var i :| 0 <= i < |reg.keys| && reg.keys[i] == k;
    }
  }

  lemma {:induction false} NotQueriedCount(keys: seq<string>, reports: map<string, SiteReport>, sites: map<string, Site>)
    requires Covers(keys, reports) && Covers(keys, sites)
    requires forall k :: k in keys ==> reports[k].notQueried == if sites[k].sufficient then 0 else 1
    ensures NotQueriedSum(keys, reports) == CountWhere(keys, k => k in sites && !sites[k].sufficient)
  {
    if keys != [] {
      NotQueriedCount(keys[..|keys| - 1], reports, sites);
    }
  }

  /** In a run that reaches the FDR step, every sufficient SNP was queried and
      every insufficient one was not: each adds exactly one to its count. */
  lemma QueriedOnce(reg: Registry, sites: map<string, Site>, c: Classified, binom: Binom, fmt: FloatText)
    requires WellFormed(reg) && Covers(reg.keys, sites)
    requires ClassifiedAll(reg.keys, reg.snps, sites, binom, fmt) == Ok(c) && Covers(reg.keys, c.reports)
    requires Collected(reg.keys, reg.snps, sites, c.reports).Ok?
    ensures forall k :: k in reg.keys ==> c.reports[k].notQueried == if sites[k].sufficient then 0 else 1
    ensures c.notQueried == CountWhere(reg.keys, k => k in sites && !sites[k].sufficient)
  {
    ClassifiedSpec(reg.keys, reg.snps, sites, binom, fmt);
    var idx := CollectedPicks(reg.keys, reg.snps, sites, c.reports);
    forall k | k in reg.keys ensures c.reports[k].notQueried == if sites[k].sufficient then 0 else 1 {
      var j :| 0 <= j < |reg.keys| && reg.keys[j] == k;
      EntryOfOutcome(reg.snps[k], sites[k], c.reports[k], binom, fmt);
    }
    NotQueriedCount(reg.keys, c.reports, sites);
  }

  /** The summary line of a run that prints one: the total is the number of
      loaded SNPs and Not Queried is the number of SNPs below the coverage
      threshold, so Queried is the number of SNPs at or above it. */
  lemma RunSummary(inp: Input, binom: Binom, adjust: Adjust, fmt: FloatText, reg: Registry,
    pool: map<string, seq<Read>>, sites: map<string, Site>)
    requires Loaded(inp.snpLines, inp.format, inp.refCol, inp.altCol) == Ok(reg) && WellFormed(reg)
    requires Pooled(inp.bams, reg.keys, reg.snps, inp.cfg) == Ok(pool)
    requires Gated(pool, reg.keys, inp.cfg.minReads) == Ok(sites)
    requires Run(inp, binom, adjust, fmt).printed != []
    ensures Run(inp, binom, adjust, fmt).printed[0] ==
      SummaryLine(|reg.keys|, CountWhere(reg.keys, k => k in sites && !sites[k].sufficient))
  {
    GatedSpec(pool, reg.keys, inp.cfg.minReads);
    var c := ClassifiedAll(reg.keys, reg.snps, sites, binom, fmt).value;
    ClassifiedSpec(reg.keys, reg.snps, sites, binom, fmt);
    QueriedOnce(reg, sites, c, binom, fmt);
  }

  /** The pool in terms of the entry test: its keys are loaded SNPs in load
      order, each once, exactly those whose test yields a p-value, each with
      that p-value; no SNP's test raised. */
  lemma ValidEntries(reg: Registry, sites: map<string, Site>, c: Classified, valid: seq<(string, real)>)
    requires WellFormed(reg) && Covers(reg.keys, sites) && Covers(reg.keys, c.reports)
    requires Collected(reg.keys, reg.snps, sites, c.reports) == Ok(valid)
    ensures forall k :: k in reg.keys ==> PoolEntry(sites[k], c.reports[k], reg.snps[k].alt).Ok?
    ensures forall i :: 0 <= i < |valid| ==> (valid[i].0 in reg.keys &&
      PoolEntry(sites[valid[i].0], c.reports[valid[i].0], reg.snps[valid[i].0].alt) == Ok(Some(valid[i].1)))
    ensures forall k :: k in reg.keys ==>
      (PoolEntry(sites[k], c.reports[k], reg.snps[k].alt).value.Some? <==> exists i :: 0 <= i < |valid| && valid[i].0 == k)
    ensures forall i, j :: 0 <= i < j < |valid| ==> IndexOf(reg.keys, valid[i].0) < IndexOf(reg.keys, valid[j].0)
  {
    var keys := reg.keys;
    var idx := CollectedPicks(keys, reg.snps, sites, c.reports);
    forall k | k in keys ensures PoolEntry(sites[k], c.reports[k], reg.snps[k].alt).Ok? {
      var j :| 0 <= j < |keys| && keys[j] == k;
    }
    forall i | 0 <= i < |valid| ensures IndexOf(keys, valid[i].0) == idx[i] {
      IndexOfDistinct(keys, idx[i]);
    }
    forall k | k in keys ensures
      (PoolEntry(sites[k], c.reports[k], reg.snps[k].alt).value.Some? <==> exists i :: 0 <= i < |valid| && valid[i].0 == k)
    {
      var j :| 0 <= j < |keys| && keys[j] == k;
      if PoolEntry(sites[k], c.reports[k], reg.snps[k].alt).value.Some? {
        assert j in idx;
        var i :| 0 <= i < |idx| && idx[i] == j;
        assert valid[i].0 == k;
      }
      if i :| 0 <= i < |valid| && valid[i].0 == k {
        IndexOfDistinct(keys, j);
        IndexOfDistinct(keys, idx[i]);
        assert idx[i] == j;
      }
    }
  }

  /** A key is in the q-value map exactly when its entry test gave a p-value,
      and then it carries that p-value. */
  lemma TestedEntry(valid: seq<(string, real)>, tested: map<string, Tested>, k: string, e: Option<real>)
    requires forall k :: k in tested <==> exists i :: 0 <= i < |valid| && valid[i].0 == k
    requires forall i :: 0 <= i < |valid| ==> tested[valid[i].0].p == valid[i].1
    requires e.Some? <==> exists i :: 0 <= i < |valid| && valid[i].0 == k
    requires forall i :: 0 <= i < |valid| && valid[i].0 == k ==> e == Some(valid[i].1)
    ensures k in tested <==> e.Some?
    ensures k in tested ==> tested[k].p == e.value
  {
    if k in tested {
      var i :| 0 <= i < |valid| && valid[i].0 == k;
    }
  }

  /** Each SNP's report is its own outcome. */
  lemma ClassifiedEach(keys: seq<string>, snps: map<string, Snp>, sites: map<string, Site>, binom: Binom, fmt: FloatText,
    c: Classified)
    requires Covers(keys, snps) && Covers(keys, sites) && DistinctKeys(keys)
    requires ClassifiedAll(keys, snps, sites, binom, fmt) == Ok(c)
    ensures forall k :: k in keys ==> k in c.reports && SiteOutcome(snps[k], sites[k], binom, fmt) == Ok(c.reports[k])
  {
    ClassifiedSpec(keys, snps, sites, binom, fmt);
  }

  /** One SNP's place in the pool, given how its entry test came out. */
  lemma KeyInPool(snp: Snp, site: Site, r: SiteReport, binom: Binom, fmt: FloatText, e: Option<real>,
    inPool: bool, p: real)
    requires SiteOutcome(snp, site, binom, fmt) == Ok(r)
    requires PoolEntry(site, r, snp.alt) == Ok(e)
    requires (inPool <==> e.Some?) && (inPool ==> p == e.value)
    ensures site.sufficient ==> BasesAt(site.pooled, snp.pos).Ok?
    ensures inPool <==> (site.sufficient && snp.ref in BasesAt(site.pooled, snp.pos).value)
    ensures inPool ==> (site.sufficient &&
      snp.ref != snp.alt && p == AltP(BasesAt(site.pooled, snp.pos).value, snp.ref, snp.alt, binom))
  {
    EntryOfOutcome(snp, site, r, binom, fmt);
  }

  /** The pool of a run that reaches the output: a SNP is in it exactly when it
      was sufficient and some read shows its ref base; its p-value is the test
      of the alt-base count against the alt plus ref counts (ref and alt then
      being different bases), and its q-value is the adjusted value at its
      place in the list handed to the adjustment, which lists the pool in load
      order. */
  lemma PoolMembers(reg: Registry, sites: map<string, Site>, c: Classified, binom: Binom, fmt: FloatText,
    valid: seq<(string, real)>, adjust: Adjust, tested: map<string, Tested>)
    requires WellFormed(reg) && Covers(reg.keys, sites)
    requires ClassifiedAll(reg.keys, reg.snps, sites, binom, fmt) == Ok(c) && Covers(reg.keys, c.reports)
    requires Collected(reg.keys, reg.snps, sites, c.reports) == Ok(valid)
    requires Assigned(valid, adjust(PValues(valid))) == Ok(tested)
    ensures forall k :: k in reg.keys && sites[k].sufficient ==> BasesAt(sites[k].pooled, reg.snps[k].pos).Ok?
    ensures forall k :: k in tested <==> (k in reg.keys && sites[k].sufficient
      && reg.snps[k].ref in BasesAt(sites[k].pooled, reg.snps[k].pos).value)
    ensures forall k :: k in tested ==> (k in reg.keys && sites[k].sufficient &&
      reg.snps[k].ref != reg.snps[k].alt
      && tested[k].p == AltP(BasesAt(sites[k].pooled, reg.snps[k].pos).value, reg.snps[k].ref, reg.snps[k].alt, binom))
    ensures forall i :: 0 <= i < |valid| ==> valid[i].0 in tested && tested[valid[i].0].q == adjust(PValues(valid))[i]
    ensures forall i, j :: 0 <= i < j < |valid| ==> IndexOf(reg.keys, valid[i].0) < IndexOf(reg.keys, valid[j].0)
  {
    var keys := reg.keys;
    TestedOfValid(reg, sites, c, valid, adjust, tested);
    ValidEntries(reg, sites, c, valid);
    ClassifiedEach(keys, reg.snps, sites, binom, fmt, c);
    PoolMembersFrom(keys, reg.snps, sites, c.reports, tested, binom, fmt);
  }

  /** The q-value map in terms of the entry tests: its keys are loaded SNPs,
      exactly those whose entry test gave a p-value, each with that p-value, and
      the q-value at its place in the pool. */
  lemma TestedOfValid(reg: Registry, sites: map<string, Site>, c: Classified, valid: seq<(string, real)>,
    adjust: Adjust, tested: map<string, Tested>)
    requires WellFormed(reg) && Covers(reg.keys, sites) && Covers(reg.keys, c.reports)
    requires Collected(reg.keys, reg.snps, sites, c.reports) == Ok(valid)
    requires Assigned(valid, adjust(PValues(valid))) == Ok(tested)
    ensures forall k :: k in tested ==> k in reg.keys
    ensures forall k :: k in reg.keys ==> PoolEntry(sites[k], c.reports[k], reg.snps[k].alt).Ok?
    ensures forall k :: k in reg.keys ==>
      (k in tested <==> PoolEntry(sites[k], c.reports[k], reg.snps[k].alt).value.Some?)
    ensures forall k :: k in reg.keys && k in tested ==>
      tested[k].p == PoolEntry(sites[k], c.reports[k], reg.snps[k].alt).value.value
    ensures forall i :: 0 <= i < |valid| ==> valid[i].0 in tested && tested[valid[i].0].q == adjust(PValues(valid))[i]
  {
    var keys := reg.keys;
    ValidEntries(reg, sites, c, valid);
    var qs := adjust(PValues(valid));
    forall i, j | 0 <= i < j < |valid| ensures valid[i].0 != valid[j].0 {
      assert IndexOf(keys, valid[i].0) < IndexOf(keys, valid[j].0);
    }
    AssignedPairs(valid, qs);
    forall k | k in keys
      ensures k in tested <==> PoolEntry(sites[k], c.reports[k], reg.snps[k].alt).value.Some?
      ensures k in tested ==> tested[k].p == PoolEntry(sites[k], c.reports[k], reg.snps[k].alt).value.value
    {
      TestedEntry(valid, tested, k, PoolEntry(sites[k], c.reports[k], reg.snps[k].alt).value);
    }
  }

  /** The pool, from each SNP's own outcome and entry test. */
  lemma PoolMembersFrom(keys: seq<string>, snps: map<string, Snp>, sites: map<string, Site>,
    reports: map<string, SiteReport>, tested: map<string, Tested>, binom: Binom, fmt: FloatText)
    requires Covers(keys, snps) && Covers(keys, sites) && Covers(keys, reports)
    requires forall k :: k in tested ==> k in keys
    requires forall k :: k in keys ==> SiteOutcome(snps[k], sites[k], binom, fmt) == Ok(reports[k])
    requires forall k :: k in keys ==> PoolEntry(sites[k], reports[k], snps[k].alt).Ok?
    requires forall k :: k in keys ==> (k in tested <==> PoolEntry(sites[k], reports[k], snps[k].alt).value.Some?)
    requires forall k :: k in keys && k in tested ==> tested[k].p == PoolEntry(sites[k], reports[k], snps[k].alt).value.value
    ensures forall k :: k in keys && sites[k].sufficient ==> BasesAt(sites[k].pooled, snps[k].pos).Ok?
    ensures forall k :: k in tested <==> (k in keys && sites[k].sufficient
      && snps[k].ref in BasesAt(sites[k].pooled, snps[k].pos).value)
    ensures forall k :: k in tested ==> (k in keys && sites[k].sufficient &&
      snps[k].ref != snps[k].alt
      && tested[k].p == AltP(BasesAt(sites[k].pooled, snps[k].pos).value, snps[k].ref, snps[k].alt, binom))
  {
    forall k | k in keys
      ensures sites[k].sufficient ==> BasesAt(sites[k].pooled, snps[k].pos).Ok?
      ensures k in tested <==> (sites[k].sufficient && snps[k].ref in BasesAt(sites[k].pooled, snps[k].pos).value)
      ensures k in tested ==> (sites[k].sufficient &&
        snps[k].ref != snps[k].alt && tested[k].p == AltP(BasesAt(sites[k].pooled, snps[k].pos).value, snps[k].ref, snps[k].alt, binom))
    {
      var e := PoolEntry(sites[k], reports[k], snps[k].alt).value;
      if k in tested {
        KeyInPool(snps[k], sites[k], reports[k], binom, fmt, e, true, tested[k].p);
      } else {
        KeyInPool(snps[k], sites[k], reports[k], binom, fmt, e, false, 0.0);
      }
    }
  }
}
