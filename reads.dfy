/** The per-read filter of allele_specific_dnase.py (lines 188-204). */
module Reads {
  import opened Common

  /** One aligned read as pysam hands it over: the 0-based alignment start
      (`reference_start`), the full read sequence (`query_sequence`), the
      per-base qualities of its aligned part (`query_alignment_qualities`) and
      its mismatch count (the `NM` tag). */
  datatype Read = Read(referenceStart: int, sequence: string, qualities: seq<int>, mismatches: int)

  /** The three filter thresholds of the command line. */
  datatype Config = Config(maxMismatches: int, minQuality: int, minReads: int)

  /** Lines 192-201. Ok(true) keeps the read and Ok(false) skips it; Err is the
      IndexError of an offset that falls outside the quality array. The mismatch
      test comes first, so a read skipped for its mismatches is never indexed. */
  function KeepRead(r: Read, pos: int, cfg: Config): Result<bool>
  {
    if r.mismatches > cfg.maxMismatches then Ok(false)
    else
      match PyIndex(r.qualities, pos - r.referenceStart)
      case None => Err(IndexError)
      case Some(q) => Ok(q >= cfg.minQuality)
  }

  /** The reads of one fetch that pass the filter, in fetch order; the first read
      that raises ends the run. */
  function Filtered(batch: seq<Read>, pos: int, cfg: Config): Result<seq<Read>>
  {
    if batch == [] then Ok([])
    else
      match Filtered(batch[..|batch| - 1], pos, cfg)
      case Err(e) => Err(e)
      case Ok(kept) =>
        match KeepRead(batch[|batch| - 1], pos, cfg)
        case Err(e) => Err(e)
        case Ok(keep) => Ok(if keep then kept + [batch[|batch| - 1]] else kept)
  }

  /** The loop of lines 191-204, appending passing reads to `temp_reads`. */
  method FilterReads(batch: seq<Read>, pos: int, cfg: Config) returns (res: Result<seq<Read>>)
    ensures res == Filtered(batch, pos, cfg)
  {
    var kept: seq<Read> := [];
    for i := 0 to |batch|
      invariant Filtered(batch[..i], pos, cfg) == Ok(kept)
    {
      assert batch[..i + 1][..i] == batch[..i];
      var keep := KeepRead(batch[i], pos, cfg);
      if keep.Err? {
        FilteredStopsAtError(batch, pos, cfg, i + 1);
        return Err(keep.error);
      }
      if keep.value {
        kept := kept + [batch[i]];
      }
    }
    assert batch[..|batch|] == batch;
    res := Ok(kept);
  }

  // ---------------------------------------------------------------------------
  // Properties

  /** Both thresholds are inclusive: a read with exactly the allowed mismatches
      and exactly the minimum quality at the SNP is kept; one more mismatch or
      one less quality point drops it. */
  lemma KeepReadBoundaries(r: Read, pos: int, cfg: Config)
    requires 0 <= pos - r.referenceStart < |r.qualities|
    ensures r.mismatches == cfg.maxMismatches && r.qualities[pos - r.referenceStart] == cfg.minQuality
      ==> KeepRead(r, pos, cfg) == Ok(true)
    ensures r.mismatches == cfg.maxMismatches + 1 ==> KeepRead(r, pos, cfg) == Ok(false)
    ensures r.mismatches <= cfg.maxMismatches && r.qualities[pos - r.referenceStart] == cfg.minQuality - 1
      ==> KeepRead(r, pos, cfg) == Ok(false)
  {
  }

  lemma {:induction false} FilteredStopsAtError(batch: seq<Read>, pos: int, cfg: Config, n: nat)
    requires n <= |batch|
    requires Filtered(batch[..n], pos, cfg).Err?
    ensures Filtered(batch, pos, cfg) == Filtered(batch[..n], pos, cfg)
    decreases |batch| - n
  {
    if n < |batch| {
      assert batch[..n + 1][..n] == batch[..n];
      FilteredStopsAtError(batch, pos, cfg, n + 1);
    } else {
      assert batch[..n] == batch;
    }
  }

  /** Filtering raises exactly when some read within the mismatch budget has its
      SNP offset outside its quality array. */
  lemma {:induction false} FilteredFails(batch: seq<Read>, pos: int, cfg: Config)
    ensures Filtered(batch, pos, cfg).Err? <==>
      exists i :: 0 <= i < |batch| && batch[i].mismatches <= cfg.maxMismatches &&
        PyIndex(batch[i].qualities, pos - batch[i].referenceStart).None?
  {
    if batch != [] {
      var init := batch[..|batch| - 1];
      FilteredFails(init, pos, cfg);
      forall i | 0 <= i < |init| ensures init[i] == batch[i] { }
    }
  }

  ghost predicate Increasing(idx: seq<nat>)
  {
    forall i, j :: 0 <= i < j < |idx| ==> idx[i] < idx[j]
  }

  /** The kept reads are exactly the passing reads, in input order: their
      positions in the input form an increasing sequence that contains every
      passing position and no other. */
  lemma {:induction false} FilteredPicks(batch: seq<Read>, pos: int, cfg: Config) returns (idx: seq<nat>)
    requires Filtered(batch, pos, cfg).Ok?
    ensures |idx| == |Filtered(batch, pos, cfg).value| && Increasing(idx)
    ensures forall i :: 0 <= i < |idx| ==> idx[i] < |batch| && Filtered(batch, pos, cfg).value[i] == batch[idx[i]]
    ensures forall j :: 0 <= j < |batch| ==> (j in idx <==> KeepRead(batch[j], pos, cfg) == Ok(true))
  {
    if batch == [] {
      idx := [];
    } else {
      var n := |batch| - 1;
      var init := batch[..n];
      var idx0 := FilteredPicks(init, pos, cfg);
      forall i | 0 <= i < |init| ensures init[i] == batch[i] { }
      if KeepRead(batch[n], pos, cfg) == Ok(true) {
        idx := idx0 + [n];
      } else {
        idx := idx0;
      }
    }
  }
}
