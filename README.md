# Allele-specific DNase/ATAC signal over SNPs, in Dafny

This project models `dnase_atac_related/allele_specific_dnase.py`, a script that
looks for allelic imbalance in DNase-seq or ATAC-seq reads. Its run has seven steps:

1. Read a SNP file (BED-like or VCF) into a dictionary of SNPs, skipping comment lines and indels.
2. Fetch every SNP's reads from every BAM file. Drop reads with too many mismatches
   (`NM` tag) or a low-quality base at the SNP, and pool the rest.
3. Flag the SNPs with too few pooled reads.
4. Count the bases the reads show at each SNP, in first-seen order.
5. Choose the base every test runs against (the "anchor"). This is the ref base if
   any read shows it, and otherwise the most frequent base that is not the alt.
   Then deal with the degenerate cases and test every other base with a binomial
   test against the anchor.
6. Gather the SNPs whose alt test is valid. Adjust their p-values together
   (Benjamini-Hochberg) and give each SNP its q-value.
7. Print a summary line. Then print one tab-separated line per SNP, sorted by
   p-value or by chromosomal position.

The model follows the script's shape. Each loop of the script is a `method` with
loop invariants. Each method is proved equal to a recursive specification function:
`LoadSnps` equals `Loaded`, `FilterReads` equals `Filtered`, `CountAlleles` equals
`Tally`, `PoolReads` equals `Pooled`, `ClassifyAll` equals `ClassifiedAll`,
`CollectValid` equals `Collected`, `AssignQ` equals `Assigned`, `SortKeys` equals
`SortedKeys` and `RenderAll` equals `Rendered`. Lemmas then say what those functions
mean in terms of the inputs.

The script keeps everything in one nested dictionary. The model keeps it as values:
- the SNP records (`SnpInput.Registry`, whose keys are in insertion order);
- the pooled reads and coverage flags (`Pipeline.Site`);
- the per-SNP report strings and allele table (`Classify.SiteReport`);
- the q-value map (`Fdr.Tested`).

Python dictionaries iterate in insertion order. So the key sequence is explicit, and
a table of alleles is a sequence in first-seen order. Every Python exception the
script can raise on its own data is a `Common.Crash` (`IndexError`, `KeyError` or
`ValueError`). It is carried through `Result`, and the first one ends the run. The
whole run is `Script.Run`, and what it prints is a list of lines.

Modules and files:
- `common.dfy`: Option, Result, crashes, Python indexing.
- `text.dfy`: `split`, `join`, `int()` and `str()`.
- `snp_input.dfy`, `reads.dfy`, `alleles.dfy`, `classify.dfy`: steps 1, 2, 4 and 5 for one SNP.
- `pipeline.dfy`: the loops over the dictionary.
- `fdr.dfy`, `sorting.dfy`, `render.dfy`: steps 6 and 7.
- `script.dfy`: the whole run and properties of whole runs.

## Behaviour of the code that the model keeps

Where the script's comments or its description say one thing and the code does
another, the model follows the code. The cases below are all proved about the model.

- **Indel test (line 158).** The test `len(ref) != 1 | len(alt) != 1` parses as the
  chained comparison `len(ref) != (1 | len(alt)) != 1`. A line is dropped exactly when
  `len(alt) >= 2` and `len(ref)` differs from `len(alt)` rounded up to an odd number
  (`IndelExactly`). The deletion `AC`/`A` is therefore kept, and so is `ACG`/`TT`
  (`IndelExamples`).
- **Keys.** Records are keyed by the fourth field and a later line with the same key
  replaces the record (`LoadedLastWins`). The dictionary lists its keys in the order
  of each key's first record line (`LoadedFirstSeen`). With the default VCF columns,
  the fourth field is the REF allele, so all VCF SNPs that share a ref base share one
  entry (`VcfLineRoundTrip`, `VcfKeyIsRef`). The command line cannot select VCF mode,
  though (see "Left out"), so the VCF branch is modelled only as the code is written.
- **Explicit `-f`.** The option has `nargs=1`, so `-f bed` or `-f vcf` makes
  `SNP_FORMAT` a one-element list. It then equals neither `'bed'` nor `'vcf'`: both
  default columns stay 0 and become -1 (lines 117-133), and lines 163-178 store nothing
  for any line that gets past the indel test. This is `Format.Unrecognised`, and the
  dictionary then stays empty (`UnrecognisedStoresNothing`).
- **Fetch region and offsets.** Reads are fetched over `pos+1 .. pos+2`. The offset
  into a read is `pos - reference_start`, so it can be `-1`, and Python then reads the
  read's last quality, or last base. The model uses Python indexing (`Common.PyIndex`),
  including negative indices. An offset out of range is an `IndexError`. The quality
  is read only for reads within the mismatch budget.
- **No BAM file.** With no BAM file, no SNP gets a `reads` entry, and the coverage
  gate raises a `KeyError` (`GatedSpec`, `RunSites`).
- **Substitute anchor.** When no read shows the ref base, the anchor is the first base
  in first-seen order with the strictly largest count among the non-alt bases
  (`Scan`, `AnchorResolution`). It is the first such base, not the largest one in
  lexicographic order.
- **Crash at line 319.** The alt base's p-value is read there, and it exists only if the
  alt was tested. A run raises a `KeyError` when the alt was seen but not tested. That
  happens in three cases (`AnalyzeOutcome`):
  - every read shows the alt (`DegenerateCase`);
  - only one base was seen (`SingleAlleleCase`);
  - the alt base is the anchor, which needs `ref == alt`.
- **Crash at line 336.** The FDR test is evaluated left to right. For every sufficient
  SNP it reads the alt base's table entry before it looks at the comment. So a
  sufficient SNP with no read showing its alt base raises a `KeyError`
  (`EntryOfOutcome`). The `isNumber` check is always true on a float.
- **Who enters the FDR pool.** In a run that gets past the FDR step, a SNP enters the
  pool exactly when it is sufficient and some read shows its ref base. Its p-value is
  the binomial test of the alt count against the alt count plus the ref count
  (`Script.PoolMembers`).
- **Not-queried count.** Some paths add to `not_queried_count` twice. The degenerate
  and single-allele branches add one, and line 315 adds another. Each of these paths
  crashes later at line 319 or line 336. So in every run that prints, the count is the
  number of insufficient SNPs (`QueriedOnce`, `RunSummary`).
- **Comments after a reset.** `Insufficient_Alleles;` replaces the comment and is then
  followed by `No_Alt_Reads;`. `No_Ref_nor_Alt_Reads;` is also followed by it.
- **Sorting.** `--sortby` has the default string `'pvalue'`, so `args.sortby[0]` is
  `'p'` by default. With the default, or with any value other than `pvalue` or
  `position` given on the command line, the script prints the summary and no SNP line
  (`OtherModeEmpty`).
  - By p-value: `sorted(zip(values, keys))` compares whole pairs, so equal p-values
    are ordered by key string (`PValueOrder`).
  - By position: the sort is stable and compares (chromosome, position) only
    (`PositionOrder`).
  - `re.sub('[c,C]*hr', '', chr)` makes a single pass (`StripChrOnePass`). A label
    that `int()` cannot read raises a `ValueError` (`PositionFails`).
- **Output on a crash.** Nothing is printed before the summary line. A crash before
  that prints nothing, and a crash while sorting prints the summary alone (`Script.Run`).

## Model

| member | source | states |
|---|---|---|
| SnpInput.OrOne | dnase_atac_related/allele_specific_dnase.py:158 | Python's bitwise or of 1 and n is n for odd n and n+1 for even n |
| SnpInput.IndelExactly | dnase_atac_related/allele_specific_dnase.py:158 | a line is counted as an indel iff its alt has two or more characters and its ref length differs from the alt length rounded up to odd |
| SnpInput.IndelExamples | dnase_atac_related/allele_specific_dnase.py:158 | one-base SNPs, the deletion AC/A and ACG/TT are kept; A/GT is dropped as an indel |
| SnpInput.LoadSnps | dnase_atac_related/allele_specific_dnase.py:152-178 | the reading loop yields exactly the dictionary `Loaded` defines, or the first exception |
| SnpInput.LoadedStopsAtError | dnase_atac_related/allele_specific_dnase.py:152-178 | once some line has raised, later lines do not change the outcome |
| SnpInput.LoadedFails | dnase_atac_related/allele_specific_dnase.py:152-178 | loading fails iff some line raises (a missing column or an unreadable position), and then with the first such line's exception |
| SnpInput.LoadedWellFormed | dnase_atac_related/allele_specific_dnase.py:164-178 | the dictionary's key order lists each key once and exactly the keys that have records |
| SnpInput.LoadedKeepsEveryKey | dnase_atac_related/allele_specific_dnase.py:164-178 | every record line's key ends up in the dictionary |
| SnpInput.LoadedFirstSeen | dnase_atac_related/allele_specific_dnase.py:164-178 | key i of the dictionary is first stored by some line l_i, no earlier line stores it, and l_0 < l_1 < ...: keys are in order of first record line |
| SnpInput.FirstRecordExtend | dnase_atac_related/allele_specific_dnase.py:164-178 | a key's first record line stays its first when more lines follow |
| SnpInput.UnrecognisedStoresNothing | dnase_atac_related/allele_specific_dnase.py:163-178 | with a format equal to neither `'bed'` nor `'vcf'`, a load that succeeds stores no key and no record |
| SnpInput.LoadedLastWins | dnase_atac_related/allele_specific_dnase.py:164-178 | the record stored for a key is that of the last line with that key |
| SnpInput.LoadedCountsIndels | dnase_atac_related/allele_specific_dnase.py:158-160 | `indel_count` is the number of lines the indel test drops |
| SnpInput.BedLineRoundTrip | dnase_atac_related/allele_specific_dnase.py:163-170 | a BED line `chr start end name ref alt` with the default columns gives the record keyed by name at 0-based position start |
| SnpInput.VcfLineRoundTrip | dnase_atac_related/allele_specific_dnase.py:171-178 | a VCF line gives the record on `chr`+chrom at pos-1 with its id, keyed by its REF column |
| SnpInput.VcfKeyIsRef | dnase_atac_related/allele_specific_dnase.py:172 | with the default VCF columns every record's key is its ref allele |
| Reads.FilterReads | dnase_atac_related/allele_specific_dnase.py:188-204 | the filter loop returns exactly the reads `Filtered` keeps, or the IndexError it raises |
| Reads.KeepReadBoundaries | dnase_atac_related/allele_specific_dnase.py:194-201 | both thresholds are inclusive: exactly max mismatches and exactly min quality keep a read, one more mismatch or one less quality drops it |
| Reads.FilteredStopsAtError | dnase_atac_related/allele_specific_dnase.py:190-204 | once a read has raised, later reads do not change the outcome |
| Reads.FilteredFails | dnase_atac_related/allele_specific_dnase.py:192-201 | filtering raises iff some read within the mismatch budget has its SNP offset outside its quality array (Python indexing) |
| Reads.FilteredPicks | dnase_atac_related/allele_specific_dnase.py:190-204 | the kept reads are exactly the reads that pass both filters, in fetch order |
| Alleles.Find | dnase_atac_related/allele_specific_dnase.py:256 | the position found is the first entry with that base, and none means no entry has it |
| Alleles.CountAlleles | dnase_atac_related/allele_specific_dnase.py:250-260 | the counting loop yields the table of the bases the reads show, or the IndexError of a read too short |
| Alleles.BasesAtStopsAtError | dnase_atac_related/allele_specific_dnase.py:250-254 | once a read has raised, later reads do not change the outcome |
| Alleles.BasesAtReads | dnase_atac_related/allele_specific_dnase.py:250-254 | reading the bases fails iff some read's offset is outside its sequence; otherwise there is one base per read, that read's base |
| Alleles.BumpCount | dnase_atac_related/allele_specific_dnase.py:256-260 | one more read showing b adds one to b's count and leaves every other count |
| Alleles.BumpBases | dnase_atac_related/allele_specific_dnase.py:256-260 | a seen base keeps the table's bases in place; an unseen one is appended with count 1 |
| Alleles.TallyCounts | dnase_atac_related/allele_specific_dnase.py:250-260 | the table has distinct untested bases with positive counts that sum to the number of reads, each count being the number of reads showing that base |
| Alleles.TallyHas | dnase_atac_related/allele_specific_dnase.py:256 | a base is in the table iff some read shows it |
| Alleles.FirstIndex | dnase_atac_related/allele_specific_dnase.py:256-260 | the index of the first read showing a base |
| Alleles.TallyFirstSeen | dnase_atac_related/allele_specific_dnase.py:256-260 | the table lists bases in the order they were first seen |
| Classify.Scan | dnase_atac_related/allele_specific_dnase.py:273-276 | the scan finds nothing iff every non-alt count is 0, else the first non-alt entry with the largest count |
| Classify.ResolveAnchor | dnase_atac_related/allele_specific_dnase.py:263-282 | the loop picks the anchor `AnchorOf` defines and builds `report_ref` and the comment as lines 270-282 do |
| Classify.AnchorResolution | dnase_atac_related/allele_specific_dnase.py:263-286 | a seen ref base is the anchor with its count and no comment; otherwise the comment names the anchor, which stays the ref base iff every read shows the alt, and is otherwise the first most frequent non-alt base |
| Classify.TestAllPrefix | dnase_atac_related/allele_specific_dnase.py:306-310 | testing a prefix of the table gives the prefix of the tested table |
| Classify.RunTests | dnase_atac_related/allele_specific_dnase.py:306-310 | the test loop gives every base but the anchor its binomial p-value |
| Classify.TestedTable | dnase_atac_related/allele_specific_dnase.py:306-310 | after the tests only the anchor entry lacks a p-value; every other entry keeps base and count and gets binom(count, count + anchor count) |
| Classify.TestAllKeeps | dnase_atac_related/allele_specific_dnase.py:306-310 | the tests keep every entry's base and count |
| Classify.OtherReport | dnase_atac_related/allele_specific_dnase.py:322-324 | the loop builds the other-bases field `OtherField` defines, or the KeyError of an untested base |
| Classify.OtherFieldStopsAtError | dnase_atac_related/allele_specific_dnase.py:322-324 | once a base has raised, later bases do not change the outcome |
| Classify.OthersOfTested | dnase_atac_related/allele_specific_dnase.py:322-324 | after the tests line 324 never raises and gives one `b:count:pvalue;` per base that is neither anchor nor alt |
| Classify.OtherTextEmpty | dnase_atac_related/allele_specific_dnase.py:322-324 | `report_other` is empty iff every base seen is the anchor or the alt |
| Classify.DegenerateCase | dnase_atac_related/allele_specific_dnase.py:286-295 | in the degenerate branch every read shows the alt; a seen alt then raises at line 319, and no reads at all give a fixed report counting twice as not queried |
| Classify.SingleAlleleCase | dnase_atac_related/allele_specific_dnase.py:299-303 | a single seen base is the untested anchor; the run raises if it is the alt, else the comment is reset to `Insufficient_Alleles;No_Alt_Reads;` |
| Classify.TestedAlt | dnase_atac_related/allele_specific_dnase.py:314-319 | `report_alt` after the tests: `alt:0:.` for an unseen alt, a KeyError for an alt that is the anchor, otherwise count and p-value |
| Classify.TestedCase | dnase_atac_related/allele_specific_dnase.py:305-324 | the whole report of the testing branch, by whether the alt was seen and whether it is the anchor |
| Classify.AnalyzeOutcome | dnase_atac_related/allele_specific_dnase.py:262-324 | analysis raises iff the alt was seen but left untested; a success keeps the table's bases and counts, and a seen alt means queried, with an empty comment iff the ref was seen |
| Classify.AnalyzedSeenAlt | dnase_atac_related/allele_specific_dnase.py:262-324 | a success with a seen alt went through the tests, against an anchor that is not the alt and is the ref whenever the ref was seen |
| Classify.AnalyzeTable | dnase_atac_related/allele_specific_dnase.py:262-324 | the per-SNP code after counting computes exactly `Analyze` |
| Classify.AnalyzeSite | dnase_atac_related/allele_specific_dnase.py:248-324 | the per-SNP code of a sufficient SNP computes exactly `Evaluate` |
| Pipeline.PoolBam | dnase_atac_related/allele_specific_dnase.py:186-210 | the loop over SNPs for one BAM file computes exactly `AddBam` |
| Pipeline.PoolReads | dnase_atac_related/allele_specific_dnase.py:181-213 | the nested loops compute exactly `Pooled` |
| Pipeline.AddBamStopsAtError | dnase_atac_related/allele_specific_dnase.py:186-210 | once a SNP has raised, later SNPs do not change the outcome |
| Pipeline.PooledStopsAtError | dnase_atac_related/allele_specific_dnase.py:181-213 | once a file has raised, later files do not change the outcome |
| Pipeline.AddBamFails | dnase_atac_related/allele_specific_dnase.py:186-204 | one file's pass fails iff filtering some SNP's reads fails |
| Pipeline.AddBamAppends | dnase_atac_related/allele_specific_dnase.py:206-210 | a pass appends each SNP's filtered reads to its entry, creating it if absent, and leaves every other entry |
| Pipeline.PooledSpec | dnase_atac_related/allele_specific_dnase.py:181-213 | pooling fails iff some SNP's reads fail in some file; otherwise, given any file, every SNP has an entry that is its filtered reads of all files concatenated in file order |
| Pipeline.Gate | dnase_atac_related/allele_specific_dnase.py:217-223 | the gate loop computes exactly `Gated` |
| Pipeline.GatedStopsAtError | dnase_atac_related/allele_specific_dnase.py:217-223 | once a SNP has raised, later SNPs do not change the outcome |
| Pipeline.GatedSpec | dnase_atac_related/allele_specific_dnase.py:217-223 | the gate raises iff a SNP has no reads entry; otherwise a SNP is sufficient iff it has at least min_reads reads, and an insufficient SNP keeps no reads |
| Pipeline.ClassifySite | dnase_atac_related/allele_specific_dnase.py:233-324 | one pass of the classification loop computes exactly `SiteOutcome` |
| Pipeline.ClassifyAll | dnase_atac_related/allele_specific_dnase.py:230-327 | the classification loop computes exactly `ClassifiedAll` |
| Pipeline.ClassifiedStopsAtError | dnase_atac_related/allele_specific_dnase.py:230-327 | once a SNP has raised, later SNPs do not change the outcome |
| Pipeline.NotQueriedSumFrame | dnase_atac_related/allele_specific_dnase.py:230-327 | a SNP's report counts toward `not_queried_count` only for its own key |
| Pipeline.ClassifiedSpec | dnase_atac_related/allele_specific_dnase.py:230-327 | classification fails iff some SNP's own outcome fails; otherwise every SNP's report is its own outcome and `not_queried_count` is the sum of each SNP's share |
| Fdr.CollectValid | dnase_atac_related/allele_specific_dnase.py:332-337 | the collection loop computes exactly `Collected` |
| Fdr.CollectedStopsAtError | dnase_atac_related/allele_specific_dnase.py:333-337 | once a SNP has raised, later SNPs do not change the outcome |
| Fdr.CollectedFails | dnase_atac_related/allele_specific_dnase.py:336 | collection fails iff some SNP's line-336 test raises |
| Fdr.CollectedPicks | dnase_atac_related/allele_specific_dnase.py:333-337 | the pool holds exactly the SNPs whose line-336 test passes, in key order, each with its alt p-value |
| Fdr.PValues | dnase_atac_related/allele_specific_dnase.py:342-345 | `fdr_pvalues` lists the pool's p-values in pool order |
| Fdr.AssignQ | dnase_atac_related/allele_specific_dnase.py:340-351 | the two list loops, the adjustment and the assignment loop compute exactly `Assigned` |
| Fdr.AssignedStopsAtError | dnase_atac_related/allele_specific_dnase.py:350-351 | once an assignment has raised, later keys do not change the outcome |
| Fdr.AssignedPairs | dnase_atac_related/allele_specific_dnase.py:340-351 | the assignment fails iff fewer q-values than pool members come back; otherwise each pool key gets its own p-value and the q-value at its position, and no other key gets an entry |
| Fdr.EntryOfTested | dnase_atac_related/allele_specific_dnase.py:336 | for a tested table whose seen alt is not the anchor, the SNP enters the pool iff its comment is empty, with binom(alt count, alt count + anchor count) |
| Fdr.EntryOfTable | dnase_atac_related/allele_specific_dnase.py:336 | for a successfully analyzed sufficient SNP, line 336 raises iff the alt was not seen, and otherwise pools the SNP iff the ref was seen |
| Fdr.EntryOfReport | dnase_atac_related/allele_specific_dnase.py:336 | the same, from the facts the analysis establishes about the report |
| Fdr.EntryOfBases | dnase_atac_related/allele_specific_dnase.py:336 | for the bases the reads show: line 336 raises iff no read shows the alt, pools iff some read shows the ref, and the p-value is the alt-against-ref test |
| Fdr.TableToBases | dnase_atac_related/allele_specific_dnase.py:336 | the table form of the entry test restated on the bases the reads show |
| Fdr.EntryOfOutcome | dnase_atac_related/allele_specific_dnase.py:336 | an insufficient SNP is never pooled; a sufficient one raises iff no read shows its alt, else is queried and pooled iff some read shows its ref, with the alt-against-ref p-value and ref differing from alt |
| Sorting.InsertPerm | dnase_atac_related/allele_specific_dnase.py:375 | insertion adds exactly one element |
| Sorting.SortByPerm | dnase_atac_related/allele_specific_dnase.py:375 | the sort permutes its input |
| Sorting.InsertSorted | dnase_atac_related/allele_specific_dnase.py:391-393 | inserting a later element into a stably sorted list keeps it stably sorted |
| Sorting.SortByStable | dnase_atac_related/allele_specific_dnase.py:391-393 | for a total preorder, the sort orders its output and keeps tied elements in input order |
| Sorting.StrLessIrreflexive | dnase_atac_related/allele_specific_dnase.py:375 | no string is smaller than itself |
| Sorting.StrLessTrans | dnase_atac_related/allele_specific_dnase.py:375 | string order is transitive |
| Sorting.StrLessTotal | dnase_atac_related/allele_specific_dnase.py:375 | any two distinct strings are ordered |
| Sorting.PairLeTotalPreorder | dnase_atac_related/allele_specific_dnase.py:375 | comparison of (p-value, key) pairs is a total preorder |
| Sorting.CollectPValueEntries | dnase_atac_related/allele_specific_dnase.py:368-375 | the loop builds the (p-value, key) pairs `PValueEntries` defines |
| Sorting.PValueEntriesKeys | dnase_atac_related/allele_specific_dnase.py:368-373 | each key is paired with its pool p-value, or 1 outside the pool |
| Sorting.Map | dnase_atac_related/allele_specific_dnase.py:375 | a list comprehension: same length, f applied at every index |
| Sorting.RunLen | dnase_atac_related/allele_specific_dnase.py:382 | the longest prefix drawn from `[c,C]` |
| Sorting.StripChrNoMatch | dnase_atac_related/allele_specific_dnase.py:381-382 | a label without `hr` is unchanged by the substitution |
| Sorting.StripChrUcsc | dnase_atac_related/allele_specific_dnase.py:382 | `chr1` becomes `1` |
| Sorting.StripChrOnePass | dnase_atac_related/allele_specific_dnase.py:382 | the substitution makes a single pass: `hhrr` becomes `hr` |
| Sorting.ChrNumberUcsc | dnase_atac_related/allele_specific_dnase.py:380-389 | `chr<n>` reads as chromosome n |
| Sorting.ChrNumberLetters | dnase_atac_related/allele_specific_dnase.py:383-388 | X, Y and M become 23, 24 and 25 |
| Sorting.CollectPositionEntries | dnase_atac_related/allele_specific_dnase.py:379-389 | the loop builds the (chromosome, pos, key) triples `PositionEntries` defines, or the ValueError |
| Sorting.PositionEntriesStopsAtError | dnase_atac_related/allele_specific_dnase.py:379-389 | once a label has raised, later SNPs do not change the outcome |
| Sorting.PositionEntriesSpec | dnase_atac_related/allele_specific_dnase.py:379-389 | the triples exist iff every chromosome label is readable, and then triple i holds key i's chromosome number, position and key |
| Sorting.PValueKeys | dnase_atac_related/allele_specific_dnase.py:375 | the keys of the sorted pairs, in order |
| Sorting.PositionKeys | dnase_atac_related/allele_specific_dnase.py:394-395 | the keys of the sorted triples, in order |
| Sorting.SortKeys | dnase_atac_related/allele_specific_dnase.py:362-395 | the sorting code computes exactly `SortedKeys` |
| Sorting.IndexOfDistinct | dnase_atac_related/allele_specific_dnase.py:368 | in a key list without repeats, the i-th key's position is i |
| Sorting.SortByMap | dnase_atac_related/allele_specific_dnase.py:375 | sorting entries permutes their keys too |
| Sorting.PValueSortedStable | dnase_atac_related/allele_specific_dnase.py:375 | the sorted pairs are ordered, and ties keep key order |
| Sorting.PValueSortedEntries | dnase_atac_related/allele_specific_dnase.py:370-375 | each sorted pair still holds its key's p-value |
| Sorting.PValueSortedKeys | dnase_atac_related/allele_specific_dnase.py:375 | the p-value order lists exactly the SNPs |
| Sorting.PairStrict | dnase_atac_related/allele_specific_dnase.py:375 | with distinct keys the pair order is strict |
| Sorting.PValueOrder | dnase_atac_related/allele_specific_dnase.py:366-375 | sorting by p-value lists every SNP once, in strictly increasing (p-value, key) order, with 1 for a SNP outside the pool |
| Sorting.PositionSortedStable | dnase_atac_related/allele_specific_dnase.py:391-393 | the sorted triples are ordered, and ties keep load order |
| Sorting.PositionSortedEntries | dnase_atac_related/allele_specific_dnase.py:389-393 | each sorted triple still holds its key's chromosome number and position |
| Sorting.PositionPerm | dnase_atac_related/allele_specific_dnase.py:391-395 | the position order lists exactly the SNPs |
| Sorting.PositionSorted | dnase_atac_related/allele_specific_dnase.py:391-395 | the position order is by chromosome number, then position, with SNPs at one place in load order |
| Sorting.PositionOrder | dnase_atac_related/allele_specific_dnase.py:377-395 | with readable labels, sorting by position lists every SNP once, by chromosome then position, stable on ties |
| Sorting.OtherModeEmpty | dnase_atac_related/allele_specific_dnase.py:362-395 | any other sort mode, the default string included, selects no SNP |
| Sorting.PositionFails | dnase_atac_related/allele_specific_dnase.py:379-389 | sorting by position fails iff some chromosome label is unreadable |
| Render.SummaryFields | dnase_atac_related/allele_specific_dnase.py:354-357 | `split()` of the summary line gives its nine words `# Total SNPs: t Queried: q Not Queried: n`, and fields 3, 5 and 8 read back as the total, total minus not-queried, and the not-queried count |
| Render.SummarySplits | dnase_atac_related/allele_specific_dnase.py:357 | the summary line splits into its six fixed words and the three printed numbers, in order |
| Render.SplitSummaryWords | dnase_atac_related/allele_specific_dnase.py:357 | the summary format with any three words in the `%s` slots splits into the fixed words and those three |
| Render.SummaryNumbers | dnase_atac_related/allele_specific_dnase.py:354-357 | fields 3, 5 and 8 of the split summary read back as its three numbers |
| Render.NatFieldRoundTrip | dnase_atac_related/allele_specific_dnase.py:357 | a printed count reads back as itself |
| Render.SplitThreeWords | dnase_atac_related/allele_specific_dnase.py:357 | three words each followed by a space split off the front |
| Render.SplitSpacedTwoWords | dnase_atac_related/allele_specific_dnase.py:357 | two leading spaces vanish and the next two words split off |
| Render.SummaryHead | dnase_atac_related/allele_specific_dnase.py:357 | the summary line's fixed prefix and total |
| Render.HeadColumns | dnase_atac_related/allele_specific_dnase.py:401 | the first part of the line is the six BED-like columns joined by tabs |
| Render.TestsStage | dnase_atac_related/allele_specific_dnase.py:403-406 | the p- and q-value step appends two columns |
| Render.CountsStage | dnase_atac_related/allele_specific_dnase.py:408-410 | the counts step appends one column |
| Render.CommentStage | dnase_atac_related/allele_specific_dnase.py:411-416 | the comment step appends one column |
| Render.ColumnsParts | dnase_atac_related/allele_specific_dnase.py:401-416 | the ten columns in their order |
| Render.RenderSnp | dnase_atac_related/allele_specific_dnase.py:400-416 | the string-building code yields the ten columns joined by tabs |
| Render.ColumnsTabFree | dnase_atac_related/allele_specific_dnase.py:401-416 | no column holds a tab when the fields and float texts do not |
| Render.RenderLineSplits | dnase_atac_related/allele_specific_dnase.py:401-416 | splitting a printed line at its tabs gives back its ten columns |
| Render.ColumnsMeaning | dnase_atac_related/allele_specific_dnase.py:401-416 | the columns hold the SNP's fields, its start and end position, p and q exactly for pool members (`.` otherwise) and `.` for no comment |
| Render.ColumnsSnp | dnase_atac_related/allele_specific_dnase.py:401 | the first six columns hold the SNP's fields, with start and end as numbers |
| Render.ColumnsTests | dnase_atac_related/allele_specific_dnase.py:403-416 | the p- and q-value columns and the comment column |
| Render.IntToStringTabFree | dnase_atac_related/allele_specific_dnase.py:401 | a printed integer holds no tab |
| Render.RenderedLines | dnase_atac_related/allele_specific_dnase.py:398-419 | one line per sorted key, in order |
| Render.RenderedSnoc | dnase_atac_related/allele_specific_dnase.py:398-419 | one more key adds its own line at the end |
| Render.RenderAll | dnase_atac_related/allele_specific_dnase.py:398-419 | the print loop yields exactly the lines `Rendered` defines |
| Script.SortedFromKeys | dnase_atac_related/allele_specific_dnase.py:362-395 | every key the sort returns is a loaded SNP |
| Script.RunScript | dnase_atac_related/allele_specific_dnase.py:146-419 | the script, stage by stage, prints exactly what `Run` defines and ends with the same exception |
| Script.Report | dnase_atac_related/allele_specific_dnase.py:329-419 | steps 6 and 7 compute exactly `Reported` |
| Script.RunSites | dnase_atac_related/allele_specific_dnase.py:181-223 | in a run past the gate some BAM file was given (or no SNP loaded), and a SNP is sufficient iff its filtered reads over all files number at least min_reads |
| Script.NotQueriedCount | dnase_atac_related/allele_specific_dnase.py:239-240 | when each SNP counts 1 iff insufficient, the total is the number of insufficient SNPs |
| Script.QueriedOnce | dnase_atac_related/allele_specific_dnase.py:230-337 | in a run past the FDR collection a SNP counts as not queried iff it is insufficient, once |
| Script.RunSummary | dnase_atac_related/allele_specific_dnase.py:354-357 | a printed summary shows the number of SNPs and, as not queried, the number below the coverage threshold |
| Script.ValidEntries | dnase_atac_related/allele_specific_dnase.py:333-337 | the pool holds loaded SNPs in load order, exactly those whose entry test gives a p-value, with it |
| Script.TestedEntry | dnase_atac_related/allele_specific_dnase.py:350-351 | a key is in the q-value map iff its entry test gave a p-value, carrying it |
| Script.ClassifiedEach | dnase_atac_related/allele_specific_dnase.py:230-327 | each SNP's report is its own outcome |
| Script.KeyInPool | dnase_atac_related/allele_specific_dnase.py:336-337 | one SNP is pooled iff it is sufficient and a read shows its ref, with the alt-against-ref p-value |
| Script.TestedOfValid | dnase_atac_related/allele_specific_dnase.py:333-351 | the q-value map's keys are the SNPs whose entry test gives a p-value, with it and their adjusted value |
| Script.PoolMembersFrom | dnase_atac_related/allele_specific_dnase.py:333-337 | the pool membership of every SNP from its own outcome |
| Script.PoolMembers | dnase_atac_related/allele_specific_dnase.py:329-351 | in a run past the FDR step a SNP is pooled iff sufficient and a read shows its ref; its p-value is binom(alt, alt + ref), its q-value the adjusted value at its place, and the pool is in load order |
| Text.SplitGivesWords | dnase_atac_related/allele_specific_dnase.py:156 | `split()` gives non-empty whitespace-free fields |
| Text.SplitJoin | dnase_atac_related/allele_specific_dnase.py:156 | splitting fields joined by spaces gives them back |
| Text.SplitOnJoin | dnase_atac_related/allele_specific_dnase.py:401-416 | splitting at a separator no field holds gives the fields back |
| Text.NatToStringDigits | dnase_atac_related/allele_specific_dnase.py:357 | `str(n)` is a non-empty digit string whose value is n |
| Text.SplitSpaceThen | dnase_atac_related/allele_specific_dnase.py:357 | a leading space does not change `split()` |
| Text.SplitWordSpace | dnase_atac_related/allele_specific_dnase.py:357 | a word followed by a space splits off as the first field |
| Text.ParseIntRoundTrip | dnase_atac_related/allele_specific_dnase.py:166 | `int(str(i)) == i` for every integer |

## Left out

- Command-line parsing (lines 28-133) is left out. The format, the 0-based ref/alt
  columns and the three thresholds are free fields of `Script.Input`, as are the SNP
  file's lines, the BAM files and `args.sortby[0]`. The options have `nargs=1`, so
  the command line yields plain values only for their defaults. These are: BED
  format, columns 5 and 6 (4 and 5 once 0-based), 2 mismatches, quality 0 and
  10 reads. An explicit value is a one-element list:
  - an explicit `-f` is modelled (`Format.Unrecognised`, see above);
  - an explicit `--refcol` or `--altcol` raises a `TypeError` at line 132 or 133;
  - an explicit `--max_missmatches`, `--min_mapq` or `--min_reads` raises a
    `TypeError` at line 194, 200 or 218, the first time that comparison runs.

  `TypeError` is not a `Common.Crash`. The model lets those inputs be any integers
  instead, so VCF mode and non-default columns and thresholds are modelled as the
  code reads, even though the command line cannot reach them.
- The `isfile` checks and `sys.exit` of lines 96-105 are left out because they are file-system I/O.
- Reading the SNP file, opening and closing BAM files, and `pysam`'s `fetch` are I/O.
  Each BAM file is an opaque function from a region to reads (`Pipeline.Fetch`), and
  a read is the four attributes the script uses.
- `scipy.stats.binom_test`, `statsmodels` `multipletests` and Python's `str(float)`
  are opaque parameters (`Classify.Binom`, `Fdr.Adjust`, `Classify.FloatText`).
  Their numerical values are not modelled. P-values are `real`, so NaN is not represented.
- `Fdr.Adjust`: does not model what `multipletests` does with an empty list. When no
  SNP enters the FDR pool, it presumably fails at line 347 on a division by the
  number of tests, which is 0. That would raise before the summary line, so such
  a run would print nothing. `Script.Run` applies `adjust` to the empty list like any
  other and prints the summary and the SNP lines. This behaviour of `statsmodels`
  is not part of this model, and the failure is not established here.
- `isNumber` (lines 21-26) is always true on the floats `binom_test` returns, so the
  model treats it as true.
- `Text.ParseInt`: does not model the surrounding whitespace, underscores and
  non-ASCII digits that Python's `int()` accepts. The fields it reads come from
  `str.split()` and so have no whitespace.
- `print` is modelled as the list of printed lines in `Script.Outcome`. Output
  buffering and the interleaving with exceptions on the real stream are not modelled.
- The `del` of line 327 only frees memory and does not change the result.
  `valid_pvalue_count` (line 356) is never used. `alpha=0.05` only affects a
  result the script discards.
- `Render.ColumnsMeaning`: assumes that `str()` of a pool p-value is not the
  one-character text `.`, since the real `str(float)` is not part of this model.
- `re.match('^#', line)` is modelled as "the line starts with `#`", and ordinary
  regular expressions are not modelled. `re.sub('[c,C]*hr', '', ...)` is written
  out as the single left-to-right pass it performs.
