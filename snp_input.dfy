/** Reading the SNP file (allele_specific_dnase.py lines 146-178): one record per
    non-comment line, kept in a dictionary keyed by the line's fourth field. */
module SnpInput {
  import opened Common
  import opened Text

  /** `SNP_FORMAT` as lines 163 and 171 compare it. `Unrecognised` is a value equal
      to neither `'bed'` nor `'vcf'`: what an explicit `-f` gives, since `nargs=1`
      makes it a one-element list. */
  datatype Format = Bed | Vcf | Unrecognised

  /** One SNP as the script stores it: `pos` is the 0-based coordinate. */
  datatype Snp = Snp(chr: string, pos: int, id: string, ref: string, alt: string)

  /** What one input line contributes. */
  datatype Parsed = Skipped | Indel | Record(key: string, snp: Snp)

  /** The SNP dictionary: keys in insertion order, their records, and the indel tally. */
  datatype Registry = Registry(keys: seq<string>, snps: map<string, Snp>, indels: nat)

  /** Python's `|` on non-negative integers, bit by bit. */
  function BitOr(a: nat, b: nat): nat
    decreases a + b
  {
    if a == 0 then b
    else if b == 0 then a
    else 2 * BitOr(a / 2, b / 2) + (if a % 2 == 1 || b % 2 == 1 then 1 else 0)
  }

  /** The test at line 158 as Python reads it. `|` binds tighter than `!=`, so
      `len(r) != 1 | len(a) != 1` is the chained comparison
      `len(r) != (1 | len(a)) and (1 | len(a)) != 1`. */
  predicate IsIndel(ref: string, alt: string)
  {
    |ref| != BitOr(1, |alt|) && BitOr(1, |alt|) != 1
  }

  predicate IsCommentLine(line: string)
  {
    line != [] && line[0] == '#'
  }

  /** One line of the SNP file (lines 154-178). `refCol` and `altCol` are the
      0-based column indices (negative ones count from the end, as in Python).
      Both dialects take the dictionary key from the fourth field; a format that
      is neither stores nothing once the indel test has passed. */
  function ParseLine(line: string, format: Format, refCol: int, altCol: int): Result<Parsed>
  {
    if IsCommentLine(line) then Ok(Skipped)
    else
      var f := Split(line);
      var r := PyIndex(f, refCol);
      var a := PyIndex(f, altCol);
      if r.None? || a.None? then Err(IndexError)
      else if IsIndel(r.value, a.value) then Ok(Indel)
      else if format == Unrecognised then Ok(Skipped)
      else
        var posField := PyIndex(f, 1);
        if posField.None? then Err(IndexError)
        else
          var p := ParseInt(posField.value);
          if p.None? then Err(ValueError)
          else if format == Bed then
            var name := PyIndex(f, 3);
            if name.None? then Err(IndexError)
            else Ok(Record(name.value, Snp(f[0], p.value, name.value, r.value, a.value)))
          else
            var id := PyIndex(f, 2);
            if id.None? then Err(IndexError)
            else
              var key := PyIndex(f, 3);
              if key.None? then Err(IndexError)
              else Ok(Record(key.value, Snp("chr" + f[0], p.value - 1, id.value, r.value, a.value)))
  }

  /** Python's `d[k] = v`: a new key goes to the end, an existing key keeps its place. */
  function Store(reg: Registry, k: string, s: Snp): Registry
  {
    Registry(if k in reg.snps then reg.keys else reg.keys + [k], reg.snps[k := s], reg.indels)
  }

  /** The dictionary after reading `lines` in order; the first line that raises ends the run. */
  function Loaded(lines: seq<string>, format: Format, refCol: int, altCol: int): Result<Registry>
  {
    if lines == [] then Ok(Registry([], map[], 0))
    else
      match Loaded(lines[..|lines| - 1], format, refCol, altCol)
      case Err(e) => Err(e)
      case Ok(reg) =>
        match ParseLine(lines[|lines| - 1], format, refCol, altCol)
        case Err(e) => Err(e)
        case Ok(Skipped) => Ok(reg)
        case Ok(Indel) => Ok(reg.(indels := reg.indels + 1))
        case Ok(Record(k, s)) => Ok(Store(reg, k, s))
  }

  ghost predicate WellFormed(reg: Registry)
  {
    && (forall i, j :: 0 <= i < j < |reg.keys| ==> reg.keys[i] != reg.keys[j])
    && (forall k :: k in reg.snps <==> k in reg.keys)
  }

  /** The loop of lines 152-178. */
  method LoadSnps(lines: seq<string>, format: Format, refCol: int, altCol: int) returns (res: Result<Registry>)
    ensures res == Loaded(lines, format, refCol, altCol)
  {
    var reg := Registry([], map[], 0);
    var i := 0;
    while i < |lines|
      invariant 0 <= i <= |lines|
      invariant Loaded(lines[..i], format, refCol, altCol) == Ok(reg)
    {
      assert lines[..i + 1][..i] == lines[..i];
      var parsed := ParseLine(lines[i], format, refCol, altCol);
      match parsed {
        case Err(e) =>
          assert Loaded(lines[..i + 1], format, refCol, altCol) == Err(e);
          LoadedStopsAtError(lines, format, refCol, altCol, i + 1);
          return Err(e);
        case Ok(Skipped) =>
        case Ok(Indel) =>
          reg := reg.(indels := reg.indels + 1);
        case Ok(Record(k, s)) =>
          reg := Store(reg, k, s);
      }
      i := i + 1;
    }
    assert lines[..i] == lines;
    res := Ok(reg);
  }

  // ---------------------------------------------------------------------------
  // Properties

  lemma OrOne(n: nat)
    ensures BitOr(1, n) == if n % 2 == 1 then n else n + 1
  {
    if n > 0 {
      assert BitOr(0, n / 2) == n / 2;
    }
  }

  /** A line is dropped as an indel exactly when its alt has two or more
      characters and its ref length differs from `1 | len(alt)`. */
  lemma IndelExactly(ref: string, alt: string)
    ensures IsIndel(ref, alt) <==>
      |alt| >= 2 && |ref| != (if |alt| % 2 == 1 then |alt| else |alt| + 1)
  {
    OrOne(|alt|);
  }

  /** Both one-base alleles: the line is kept. A two-base ref with a one-base alt
      (a deletion) is kept as well, and so is a three-base ref with a two-base alt,
      although either column would be rejected by `len != 1 or len != 1`. */
  lemma IndelExamples()
    ensures !IsIndel("A", "G")
    ensures !IsIndel("AC", "A") && !(|"AC"| == 1 && |"A"| == 1)
    ensures !IsIndel("ACG", "TT")
    ensures IsIndel("A", "GT")
  {
    OrOne(1);
    OrOne(2);
  }

  lemma {:induction false} LoadedStopsAtError(lines: seq<string>, format: Format, refCol: int, altCol: int, n: nat)
    requires n <= |lines|
    requires Loaded(lines[..n], format, refCol, altCol).Err?
    ensures Loaded(lines, format, refCol, altCol) == Loaded(lines[..n], format, refCol, altCol)
    decreases |lines| - n
  {
    if n < |lines| {
      assert lines[..n + 1][..n] == lines[..n];
      LoadedStopsAtError(lines, format, refCol, altCol, n + 1);
    } else {
      assert lines[..n] == lines;
    }
  }

  /** Loading fails exactly when some line raises, and then with that line's error
      when it is the first one to raise. */
  lemma {:induction false} LoadedFails(lines: seq<string>, format: Format, refCol: int, altCol: int)
    ensures Loaded(lines, format, refCol, altCol).Err? <==>
      exists i :: 0 <= i < |lines| && ParseLine(lines[i], format, refCol, altCol).Err?
    ensures Loaded(lines, format, refCol, altCol).Err? ==>
      exists i :: 0 <= i < |lines| && ParseLine(lines[i], format, refCol, altCol) == Err(Loaded(lines, format, refCol, altCol).error)
        && forall j :: 0 <= j < i ==> ParseLine(lines[j], format, refCol, altCol).Ok?
  {
    if lines != [] {
      var init := lines[..|lines| - 1];
      LoadedFails(init, format, refCol, altCol);
      forall i | 0 <= i < |init| ensures init[i] == lines[i] { }
    }
  }

  /** The dictionary's keys are distinct and are exactly its entries. */
  lemma {:induction false} LoadedWellFormed(lines: seq<string>, format: Format, refCol: int, altCol: int)
    requires Loaded(lines, format, refCol, altCol).Ok?
    ensures WellFormed(Loaded(lines, format, refCol, altCol).value)
  {
    if lines != [] {
      LoadedWellFormed(lines[..|lines| - 1], format, refCol, altCol);
    }
  }

  /** Every record line leaves its key in the dictionary. */
  lemma {:induction false} LoadedKeepsEveryKey(lines: seq<string>, format: Format, refCol: int, altCol: int, i: nat)
    requires Loaded(lines, format, refCol, altCol).Ok?
    requires i < |lines| && ParseLine(lines[i], format, refCol, altCol).Ok?
    requires ParseLine(lines[i], format, refCol, altCol).value.Record?
    ensures ParseLine(lines[i], format, refCol, altCol).value.key in Loaded(lines, format, refCol, altCol).value.snps
  {
    if i < |lines| - 1 {
      var init := lines[..|lines| - 1];
      assert init[i] == lines[i];
      LoadedKeepsEveryKey(init, format, refCol, altCol, i);
    }
  }

  /** Line `i` holds the record stored for `k` and no later line has key `k`. */
  ghost predicate LastRecordAt(lines: seq<string>, format: Format, refCol: int, altCol: int, i: int, k: string, s: Snp)
  {
    && 0 <= i < |lines|
    && ParseLine(lines[i], format, refCol, altCol) == Ok(Record(k, s))
    && forall j :: i < j < |lines| ==> !IsRecordFor(ParseLine(lines[j], format, refCol, altCol), k)
  }

  /** The stored record for a key is the one of the LAST line with that key:
      later duplicates overwrite earlier ones. */
  lemma {:induction false} LoadedLastWins(lines: seq<string>, format: Format, refCol: int, altCol: int, k: string)
    requires Loaded(lines, format, refCol, altCol).Ok?
    requires k in Loaded(lines, format, refCol, altCol).value.snps
    ensures exists i :: LastRecordAt(lines, format, refCol, altCol, i, k, Loaded(lines, format, refCol, altCol).value.snps[k])
  {
    var last := |lines| - 1;
    var reg := Loaded(lines, format, refCol, altCol).value;
    if IsRecordFor(ParseLine(lines[last], format, refCol, altCol), k) {
      assert LastRecordAt(lines, format, refCol, altCol, last, k, reg.snps[k]);
    } else {
      var init := lines[..last];
      var reg0 := Loaded(init, format, refCol, altCol).value;
      assert k in reg0.snps && reg.snps[k] == reg0.snps[k];
      LoadedLastWins(init, format, refCol, altCol, k);
      var i :| LastRecordAt(init, format, refCol, altCol, i, k, reg0.snps[k]);
      assert init[i] == lines[i];
      forall j | i < j < |lines|
        ensures !IsRecordFor(ParseLine(lines[j], format, refCol, altCol), k)
      {
        if j < last {
          assert init[j] == lines[j];
        }
      }
      assert LastRecordAt(lines, format, refCol, altCol, i, k, reg.snps[k]);
    }
  }

  /** Line `i` is the first line with a record for `k`. */
  ghost predicate FirstRecordAt(lines: seq<string>, format: Format, refCol: int, altCol: int, i: int, k: string)
  {
    && 0 <= i < |lines|
    && IsRecordFor(ParseLine(lines[i], format, refCol, altCol), k)
    && forall j :: 0 <= j < i ==> !IsRecordFor(ParseLine(lines[j], format, refCol, altCol), k)
  }

  /** The dictionary lists its keys in the order of their FIRST record lines: a
      key written again keeps its place. `first[i]` is the first line for key `i`. */
  lemma {:induction false} LoadedFirstSeen(lines: seq<string>, format: Format, refCol: int, altCol: int)
    returns (first: seq<nat>)
    requires Loaded(lines, format, refCol, altCol).Ok?
    ensures var keys := Loaded(lines, format, refCol, altCol).value.keys;
      && |first| == |keys|
      && (forall i :: 0 <= i < |keys| ==> FirstRecordAt(lines, format, refCol, altCol, first[i], keys[i]))
      && (forall i, j :: 0 <= i < j < |keys| ==> first[i] < first[j])
  {
    if lines == [] {
      first := [];
    } else {
      var last := |lines| - 1;
      var init := lines[..last];
      var reg0 := Loaded(init, format, refCol, altCol).value;
      var reg := Loaded(lines, format, refCol, altCol).value;
      var first0 := LoadedFirstSeen(init, format, refCol, altCol);
      forall i | 0 <= i < |reg0.keys|
        ensures FirstRecordAt(lines, format, refCol, altCol, first0[i], reg0.keys[i])
      {
        FirstRecordExtend(lines, format, refCol, altCol, first0[i], reg0.keys[i]);
      }
      var p := ParseLine(lines[last], format, refCol, altCol);
      if p.value.Record? && p.value.key !in reg0.snps {
        var k := p.value.key;
        forall j | 0 <= j < last
          ensures !IsRecordFor(ParseLine(lines[j], format, refCol, altCol), k)
        {
          assert init[j] == lines[j];
          if IsRecordFor(ParseLine(init[j], format, refCol, altCol), k) {
            LoadedKeepsEveryKey(init, format, refCol, altCol, j);
          }
        }
        first := first0 + [last];
      } else {
        first := first0;
      }
    }
  }

  lemma FirstRecordExtend(lines: seq<string>, format: Format, refCol: int, altCol: int, i: int, k: string)
    requires lines != [] && FirstRecordAt(lines[..|lines| - 1], format, refCol, altCol, i, k)
    ensures FirstRecordAt(lines, format, refCol, altCol, i, k)
  {
    var init := lines[..|lines| - 1];
    assert init[i] == lines[i];
    forall j | 0 <= j < i ensures !IsRecordFor(ParseLine(lines[j], format, refCol, altCol), k) {
      assert init[j] == lines[j];
    }
  }

  predicate IsRecordFor(p: Result<Parsed>, k: string)
  {
    p.Ok? && p.value.Record? && p.value.key == k
  }

  /** The indel tally counts the lines dropped by the line-158 test. */
  lemma {:induction false} LoadedCountsIndels(lines: seq<string>, format: Format, refCol: int, altCol: int)
    requires Loaded(lines, format, refCol, altCol).Ok?
    ensures Loaded(lines, format, refCol, altCol).value.indels ==
      CountWhere(lines, (l: string) => ParseLine(l, format, refCol, altCol) == Ok(Indel))
  {
    if lines != [] {
      LoadedCountsIndels(lines[..|lines| - 1], format, refCol, altCol);
    }
  }

  lemma IntToStringIsWord(i: int)
    ensures IsWord(IntToString(i))
  {
    var n: nat := if i < 0 then -i else i;
    NatToStringDigits(n);
  }

  lemma JoinStartsWithFirst(ws: seq<string>, sep: char)
    requires ws != [] && ws[0] != []
    ensures Join(ws, sep) != [] && Join(ws, sep)[0] == ws[0][0]
  {
  }

  /** A bed line `chr start end name ref alt` with the default columns (4 and 5)
      gives the record keyed by its name, at 0-based position `start`. */
  lemma BedLineRoundTrip(chr: string, start: int, name: string, ref: string, alt: string)
    requires IsWord(chr) && chr[0] != '#' && IsWord(name)
    requires |ref| == 1 && !IsSpace(ref[0]) && |alt| == 1 && !IsSpace(alt[0])
    ensures ParseLine(Join([chr, IntToString(start), IntToString(start + 1), name, ref, alt], ' '), Bed, 4, 5)
      == Ok(Record(name, Snp(chr, start, name, ref, alt)))
  {
    var ws := [chr, IntToString(start), IntToString(start + 1), name, ref, alt];
    IntToStringIsWord(start);
    IntToStringIsWord(start + 1);
    SplitJoin(ws);
    JoinStartsWithFirst(ws, ' ');
    ParseIntRoundTrip(start);
    OrOne(1);
  }

  /** A vcf line `chrom pos id ref alt` with the default columns (3 and 4) gives a
      record at `pos - 1` on `"chr" + chrom`, but keyed by the fourth field, which
      in this dialect is the REF allele: all vcf SNPs with the same ref share one key. */
  lemma VcfLineRoundTrip(chrom: string, pos: int, id: string, ref: string, alt: string)
    requires IsWord(chrom) && chrom[0] != '#' && IsWord(id)
    requires |ref| == 1 && !IsSpace(ref[0]) && |alt| == 1 && !IsSpace(alt[0])
    ensures ParseLine(Join([chrom, IntToString(pos), id, ref, alt], ' '), Vcf, 3, 4)
      == Ok(Record(ref, Snp("chr" + chrom, pos - 1, id, ref, alt)))
  {
    var ws := [chrom, IntToString(pos), id, ref, alt];
    IntToStringIsWord(pos);
    SplitJoin(ws);
    JoinStartsWithFirst(ws, ' ');
    ParseIntRoundTrip(pos);
    OrOne(1);
  }

  /** A format that is neither bed nor vcf stores no SNP: only the indel tally and
      the exceptions of lines 156-174 remain. */
  lemma {:induction false} UnrecognisedStoresNothing(lines: seq<string>, refCol: int, altCol: int)
    requires Loaded(lines, Unrecognised, refCol, altCol).Ok?
    ensures Loaded(lines, Unrecognised, refCol, altCol).value.keys == []
    ensures Loaded(lines, Unrecognised, refCol, altCol).value.snps == map[]
  {
    if lines != [] {
      UnrecognisedStoresNothing(lines[..|lines| - 1], refCol, altCol);
    }
  }

  /** With the default vcf columns every record is keyed by its own ref allele. */
  lemma VcfKeyIsRef(line: string, k: string, s: Snp)
    requires ParseLine(line, Vcf, 3, 4) == Ok(Record(k, s))
    ensures k == s.ref
  {
  }
}
