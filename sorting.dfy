/** The output order of allele_specific_dnase.py (lines 362-395): by p-value, by
    chromosomal position, or (for any other `--sortby` value) no SNP at all. */
module Sorting {
  import opened Common
  import opened Text
  import opened SnpInput
  import opened Pipeline
  import opened Fdr

  // ---------------------------------------------------------------------------
  // Python's stable sort

  /** `le` is a total preorder: what Python's sort needs of the order it sorts by. */
  ghost predicate TotalPreorder<T(!new)>(le: (T, T) -> bool)
  {
    && (forall a, b :: le(a, b) || le(b, a))
    && (forall a, b, c :: le(a, b) && le(b, c) ==> le(a, c))
  }

  /** Insert `x` after every element of `s` that is not greater than it. */
  function Insert<T>(x: T, s: seq<T>, le: (T, T) -> bool): seq<T>
  {
    if s == [] then [x]
    else if le(s[|s| - 1], x) then s + [x]
    else Insert(x, s[..|s| - 1], le) + [s[|s| - 1]]
  }

  /** Python's `sorted(s)` / `s.sort(key=...)` for the order `le`: a stable sort,
      here by insertion. SortByPerm and SortByStable state what Python promises
      of it: a permutation, ordered by `le`, with tied elements in input order. */
  function SortBy<T>(s: seq<T>, le: (T, T) -> bool): seq<T>
  {
    if s == [] then [] else Insert(s[|s| - 1], SortBy(s[..|s| - 1], le), le)
  }

  /** Sorted by `le`, and elements that `le` cannot tell apart keep increasing `rank`. */
  ghost predicate SortedStable<T>(s: seq<T>, le: (T, T) -> bool, rank: T -> int)
  {
    forall i, j :: 0 <= i < j < |s| ==> le(s[i], s[j]) && (le(s[j], s[i]) ==> rank(s[i]) < rank(s[j]))
  }

  lemma {:induction false} InsertPerm<T>(x: T, s: seq<T>, le: (T, T) -> bool)
    ensures multiset(Insert(x, s, le)) == multiset(s) + multiset{x}
  {
    if s != [] && !le(s[|s| - 1], x) {
      InsertPerm(x, s[..|s| - 1], le);
      assert s == s[..|s| - 1] + [s[|s| - 1]];
    }
  }

  lemma MultisetSnoc<T>(s: seq<T>)
    requires s != []
    ensures multiset(s) == multiset(s[..|s| - 1]) + multiset{s[|s| - 1]}
  {
    assert s == s[..|s| - 1] + [s[|s| - 1]];
  }

  lemma {:induction false} SortByPerm<T>(s: seq<T>, le: (T, T) -> bool)
    ensures multiset(SortBy(s, le)) == multiset(s)
  {
    if s != [] {
      var init, x := s[..|s| - 1], s[|s| - 1];
      SortByPerm(init, le);
      InsertPerm(x, SortBy(init, le), le);
      MultisetSnoc(s);
    }
  }

  lemma SortedSnoc<T>(u: seq<T>, y: T, le: (T, T) -> bool, rank: T -> int)
    requires SortedStable(u, le, rank)
    requires forall i :: 0 <= i < |u| ==> le(u[i], y) && (le(y, u[i]) ==> rank(u[i]) < rank(y))
    ensures SortedStable(u + [y], le, rank)
  {
    var v := u + [y];
    assert forall i :: 0 <= i < |u| ==> v[i] == u[i];
  }

  lemma {:induction false} InsertSorted<T(!new)>(x: T, s: seq<T>, le: (T, T) -> bool, rank: T -> int)
    requires TotalPreorder(le) && SortedStable(s, le, rank)
    requires forall e :: e in s ==> rank(e) < rank(x)
    ensures SortedStable(Insert(x, s, le), le, rank)
  {
    if s == [] {
    } else {
      var n := |s| - 1;
      var init, last := s[..n], s[n];
      if le(last, x) {
        forall i | 0 <= i < |s| ensures le(s[i], x) && (le(x, s[i]) ==> rank(s[i]) < rank(x)) {
          assert s[i] in s;
          if i < n {
            assert le(s[i], last);
          }
        }
        SortedSnoc(s, x, le, rank);
      } else {
        assert forall i :: 0 <= i < n ==> init[i] == s[i];
        forall e | e in init ensures rank(e) < rank(x) {
          assert e in s;
        }
        InsertSorted(x, init, le, rank);
        InsertPerm(x, init, le);
        var u := Insert(x, init, le);
        forall i | 0 <= i < |u| ensures le(u[i], last) && (le(last, u[i]) ==> rank(u[i]) < rank(last)) {
          assert u[i] in multiset(u);
          if u[i] != x {
            assert u[i] in multiset(init);
            var j :| 0 <= j < n && init[j] == u[i];
            assert s[j] == u[i];
          }
        }
        SortedSnoc(u, last, le, rank);
      }
    }
  }

  lemma {:induction false} SortByStable<T(!new)>(s: seq<T>, le: (T, T) -> bool, rank: T -> int)
    requires TotalPreorder(le)
    requires forall i, j :: 0 <= i < j < |s| ==> rank(s[i]) < rank(s[j])
    ensures SortedStable(SortBy(s, le), le, rank)
  {
    if s != [] {
      var n := |s| - 1;
      var init := s[..n];
      assert forall i :: 0 <= i < n ==> init[i] == s[i];
      SortByStable(init, le, rank);
      SortByPerm(init, le);
      forall e | e in SortBy(init, le) ensures rank(e) < rank(s[n]) {
        assert e in multiset(init);
        var j :| 0 <= j < n && init[j] == e;
      }
      InsertSorted(s[n], SortBy(init, le), le, rank);
    }
  }

  // ---------------------------------------------------------------------------
  // Python's order on strings and tuples

  /** Python's `a < b` on strings: code point by code point, a proper prefix first. */
  predicate StrLess(a: string, b: string)
  {
    if a == [] then b != []
    else if b == [] then false
    else if a[0] != b[0] then a[0] < b[0]
    else StrLess(a[1..], b[1..])
  }

  lemma {:induction false} StrLessIrreflexive(a: string)
    ensures !StrLess(a, a)
  {
    if a != [] {
      StrLessIrreflexive(a[1..]);
    }
  }

  lemma {:induction false} StrLessTrans(a: string, b: string, c: string)
    requires StrLess(a, b) && StrLess(b, c)
    ensures StrLess(a, c)
  {
    if a != [] && b != [] && c != [] && a[0] == b[0] == c[0] {
      StrLessTrans(a[1..], b[1..], c[1..]);
    }
  }

  lemma {:induction false} StrLessTotal(a: string, b: string)
    ensures a == b || StrLess(a, b) || StrLess(b, a)
  {
    if a != [] && b != [] && a[0] == b[0] {
      StrLessTotal(a[1..], b[1..]);
      if a[1..] == b[1..] {
        assert a == [a[0]] + a[1..] && b == [b[0]] + b[1..];
      }
    }
  }

  /** Python's `<=` on the pairs `(p-value, key)` that line 375 sorts. */
  predicate PairLe(x: (real, string), y: (real, string))
  {
    x.0 < y.0 || (x.0 == y.0 && (x.1 == y.1 || StrLess(x.1, y.1)))
  }

  lemma PairLeTotalPreorder()
    ensures TotalPreorder(PairLe)
  {
    forall a: (real, string), b: (real, string) ensures PairLe(a, b) || PairLe(b, a) {
      StrLessTotal(a.1, b.1);
    }
    forall a: (real, string), b: (real, string), c: (real, string) | PairLe(a, b) && PairLe(b, c)
      ensures PairLe(a, c)
    {
      if a.0 == b.0 == c.0 && a.1 != b.1 && b.1 != c.1 {
        StrLessTrans(a.1, b.1, c.1);
      }
    }
  }

  /** The comparison of lines 391-393: chromosome number, then position; the key
      travels along but is not compared. */
  predicate PositionLe(x: (int, int, string), y: (int, int, string))
  {
    x.0 < y.0 || (x.0 == y.0 && x.1 <= y.1)
  }

  // ---------------------------------------------------------------------------
  // Sorting by p-value, lines 366-375

  /** Lines 368-373: each SNP paired with its pool p-value, or 1 outside the pool. */
  function PValueEntries(keys: seq<string>, pool: map<string, Tested>): (es: seq<(real, string)>)
    ensures |es| == |keys|
  {
    if keys == [] then []
    else
      var k := keys[|keys| - 1];
      PValueEntries(keys[..|keys| - 1], pool) + [(PoolP(pool, k), k)]
  }

  /** The loop of lines 368-373, zipped as line 375 zips its two lists. */
  method CollectPValueEntries(keys: seq<string>, pool: map<string, Tested>) returns (es: seq<(real, string)>)
    ensures es == PValueEntries(keys, pool)
  {
    var sortKeys: seq<string> := [];
    var sortValues: seq<real> := [];
    for i := 0 to |keys|
      invariant |sortKeys| == |sortValues| == i
      invariant seq(i, j requires 0 <= j < i => (sortValues[j], sortKeys[j])) == PValueEntries(keys[..i], pool)
    {
      assert keys[..i + 1][..i] == keys[..i];
      sortKeys := sortKeys + [keys[i]];
      if keys[i] in pool {
        sortValues := sortValues + [pool[keys[i]].p];
      } else {
        sortValues := sortValues + [1.0];
      }
    }
    assert keys[..|keys|] == keys;
    es := seq(|keys|, j requires 0 <= j < |keys| => (sortValues[j], sortKeys[j]));
  }

  lemma {:induction false} PValueEntriesKeys(keys: seq<string>, pool: map<string, Tested>)
    ensures forall i :: 0 <= i < |keys| ==>
      PValueEntries(keys, pool)[i] == (PoolP(pool, keys[i]), keys[i])
  {
    if keys != [] {
      PValueEntriesKeys(keys[..|keys| - 1], pool);
    }
  }

  /** `[f(e) for e in s]`. */
  function Map<A, B>(f: A -> B, s: seq<A>): (r: seq<B>)
    ensures |r| == |s| && forall i :: 0 <= i < |s| ==> r[i] == f(s[i])
  {
    if s == [] then [] else Map(f, s[..|s| - 1]) + [f(s[|s| - 1])]
  }

  function Second(e: (real, string)): string
  {
    e.1
  }

  function Third(e: (int, int, string)): string
  {
    e.2
  }

  // ---------------------------------------------------------------------------
  // Sorting by position, lines 377-395

  predicate IsRunChar(c: char)
  {
    c == 'c' || c == ',' || c == 'C'
  }

  /** Length of the longest prefix of `s` drawn from the class `[c,C]`. */
  function RunLen(s: string): (n: nat)
    ensures n <= |s| && (forall i :: 0 <= i < n ==> IsRunChar(s[i])) && (n < |s| ==> !IsRunChar(s[n]))
  {
    if s != [] && IsRunChar(s[0]) then 1 + RunLen(s[1..]) else 0
  }

  /** `re.sub('[c,C]*hr', '', s)`: scanning from the left, a match starts at the
      first position from which a run of `c`, `,` or `C` is followed by `hr`; the
      match is removed and the scan goes on after it. */
  function StripChr(s: string): string
    decreases |s|
  {
    if s == [] then []
    else
      var k := RunLen(s);
      if IsPrefix("hr", s[k..]) then StripChr(s[k + 2..]) else [s[0]] + StripChr(s[1..])
  }

  /** Lines 380-389: the chromosome label as a number; a label `int` cannot read
      (after X, Y and M became 23, 24 and 25) raises a ValueError. */
  function ChrNumber(chr: string): Result<int>
  {
    var c := if Contains(chr, "hr") then StripChr(chr) else chr;
    if c == "X" then Ok(23)
    else if c == "Y" then Ok(24)
    else if c == "M" then Ok(25)
    else
      match ParseInt(c)
      case None => Err(ValueError)
      case Some(n) => Ok(n)
  }

  lemma {:induction false} ContainsAt(s: string, k: nat, sub: string)
    requires k <= |s| && IsPrefix(sub, s[k..])
    ensures Contains(s, sub)
  {
    if k > 0 {
      assert s[1..][k - 1..] == s[k..];
      ContainsAt(s[1..], k - 1, sub);
    }
  }

  /** A label without `hr` is left as it is, so the guard of line 381 changes nothing. */
  lemma {:induction false} StripChrNoMatch(s: string)
    requires !Contains(s, "hr")
    ensures StripChr(s) == s
  {
    if s != [] {
      var k := RunLen(s);
      if IsPrefix("hr", s[k..]) {
        ContainsAt(s, k, "hr");
      }
      StripChrNoMatch(s[1..]);
      assert s == [s[0]] + s[1..];
    }
  }

  /** A UCSC label loses its prefix: `chr1` becomes `1`. */
  lemma StripChrUcsc()
    ensures StripChr("chr1") == "1"
  {
    var s := "chr1";
    assert RunLen(s[1..]) == 0;
    assert RunLen(s) == 1;
    assert s[1..] == "hr1" && IsPrefix("hr", s[1..]);
    assert s[3..] == "1";
    assert RunLen("1") == 0;
    assert StripChr("1") == "1";
  }

  /** `re.sub` makes a single pass: in `hhrr` it removes the inner `hr`, leaving `hr`. */
  lemma StripChrOnePass()
    ensures StripChr("hhrr") == "hr"
  {
    var s := "hhrr";
    assert s[..2][1] != "hr"[1];
    assert RunLen(s) == 0 && !IsPrefix("hr", s);
    assert s[1..] == "hrr" && RunLen(s[1..]) == 0 && IsPrefix("hr", s[1..]);
    assert s[1..][2..] == "r";
    assert RunLen("r") == 0 && !IsPrefix("hr", "r");
    assert StripChr("r") == "r";
    assert StripChr(s[1..]) == "r";
  }

  lemma {:induction false} DigitsNoMatch(d: string)
    requires AllDigits(d)
    ensures !Contains(d, "hr")
  {
    if d != [] {
      assert IsDigit(d[0]) && !IsDigit('h');
      assert !IsPrefix("hr", d) by {
        if |d| >= 2 {
          assert d[..2][0] == d[0] != 'h';
        }
      }
      DigitsNoMatch(d[1..]);
    }
  }

  /** A UCSC label `chr<n>` reads as chromosome `n`. */
  lemma ChrNumberUcsc(n: nat)
    ensures ChrNumber("chr" + NatToString(n)) == Ok(n)
  {
    var d := NatToString(n);
    var s := "chr" + d;
    NatToStringDigits(n);
    assert s[1..][..2] == "hr";
    ContainsAt(s, 1, "hr");
    assert RunLen(s[1..]) == 0;
    assert s[3..] == d;
    DigitsNoMatch(d);
    StripChrNoMatch(d);
    assert StripChr(s) == d;
    assert IsDigit(d[0]);
    ParseIntRoundTrip(n);
  }

  /** The sex chromosomes and the mitochondrion follow the autosomes. */
  lemma ChrNumberLetters()
    ensures ChrNumber("chrX") == Ok(23) && ChrNumber("Y") == Ok(24) && ChrNumber("chrM") == Ok(25)
  {
    assert "chrX"[1..][..2] == "hr" && "chrM"[1..][..2] == "hr";
    ContainsAt("chrX", 1, "hr");
    ContainsAt("chrM", 1, "hr");
    assert RunLen("hrX") == 0 && RunLen("X") == 0 && RunLen("hrM") == 0 && RunLen("M") == 0;
    assert StripChr("X") == "X" && StripChr("M") == "M";
    assert "chrX"[3..] == "X" && "chrM"[3..] == "M";
    assert !Contains("", "hr") && !Contains("Y"[1..], "hr");
  }

  /** Lines 379-389: the triples `(chromosome number, pos, key)` in key order;
      the first unreadable chromosome label ends the run. */
  function PositionEntries(keys: seq<string>, snps: map<string, Snp>): Result<seq<(int, int, string)>>
    requires Covers(keys, snps)
  {
    if keys == [] then Ok([])
    else
      var k := keys[|keys| - 1];
      match PositionEntries(keys[..|keys| - 1], snps)
      case Err(e) => Err(e)
      case Ok(es) =>
        match ChrNumber(snps[k].chr)
        case Err(e) => Err(e)
        case Ok(c) => Ok(es + [(c, snps[k].pos, k)])
  }

  /** The loop of lines 379-389. */
  method CollectPositionEntries(keys: seq<string>, snps: map<string, Snp>) returns (res: Result<seq<(int, int, string)>>)
    requires Covers(keys, snps)
    ensures res == PositionEntries(keys, snps)
  {
    var sortValues: seq<(int, int, string)> := [];
    for i := 0 to |keys|
      invariant PositionEntries(keys[..i], snps) == Ok(sortValues)
    {
      assert keys[..i + 1][..i] == keys[..i];
      var k := keys[i];
      var tempChr := snps[k].chr;
      if Contains(tempChr, "hr") {
        tempChr := StripChr(tempChr);
      }
      var c: int;
      if tempChr == "X" {
        c := 23;
      } else if tempChr == "Y" {
        c := 24;
      } else if tempChr == "M" {
        c := 25;
      } else {
        var parsed := ParseInt(tempChr);
        if parsed.None? {
          PositionEntriesStopsAtError(keys, snps, i + 1);
          return Err(ValueError);
        }
        c := parsed.value;
      }
      sortValues := sortValues + [(c, snps[k].pos, k)];
    }
    assert keys[..|keys|] == keys;
    res := Ok(sortValues);
  }

  lemma {:induction false} PositionEntriesStopsAtError(keys: seq<string>, snps: map<string, Snp>, n: nat)
    requires Covers(keys, snps) && n <= |keys|
    requires PositionEntries(keys[..n], snps).Err?
    ensures PositionEntries(keys, snps) == PositionEntries(keys[..n], snps)
    decreases |keys| - n
  {
    if n < |keys| {
      assert keys[..n + 1][..n] == keys[..n];
      PositionEntriesStopsAtError(keys, snps, n + 1);
    } else {
      assert keys[..n] == keys;
    }
  }

  /** The position entries exist exactly when every chromosome label is readable,
      and then entry `i` belongs to key `i`. */
  lemma PositionEntriesSpec(keys: seq<string>, snps: map<string, Snp>)
    requires Covers(keys, snps)
    ensures PositionEntries(keys, snps).Err? <==> exists i :: 0 <= i < |keys| && ChrNumber(snps[keys[i]].chr).Err?
    ensures PositionEntries(keys, snps).Ok? ==>
      var es := PositionEntries(keys, snps).value;
      |es| == |keys| && forall i :: 0 <= i < |keys| ==>
        ChrNumber(snps[keys[i]].chr) == Ok(es[i].0) && es[i].1 == snps[keys[i]].pos && es[i].2 == keys[i]
  {
    PositionEntriesFail(keys, snps);
    if PositionEntries(keys, snps).Ok? {
      PositionEntriesOk(keys, snps);
    }
  }

  lemma {:induction false} PositionEntriesFail(keys: seq<string>, snps: map<string, Snp>)
    requires Covers(keys, snps)
    ensures PositionEntries(keys, snps).Err? <==> exists i :: 0 <= i < |keys| && ChrNumber(snps[keys[i]].chr).Err?
  {
    if keys != [] {
      var n := |keys| - 1;
      assert forall i :: 0 <= i < n ==> keys[..n][i] == keys[i];
      PositionEntriesFail(keys[..n], snps);
    }
  }

  lemma {:induction false} PositionEntriesOk(keys: seq<string>, snps: map<string, Snp>)
    requires Covers(keys, snps) && PositionEntries(keys, snps).Ok?
    ensures var es := PositionEntries(keys, snps).value;
      |es| == |keys| && forall i :: 0 <= i < |keys| ==>
        ChrNumber(snps[keys[i]].chr) == Ok(es[i].0) && es[i].1 == snps[keys[i]].pos && es[i].2 == keys[i]
  {
    if keys != [] {
      var n := |keys| - 1;
      var init := keys[..n];
      assert forall i :: 0 <= i < n ==> init[i] == keys[i];
      PositionEntriesOk(init, snps);
      var es0 := PositionEntries(init, snps).value;
      var c := ChrNumber(snps[keys[n]].chr).value;
      assert PositionEntries(keys, snps).value == es0 + [(c, snps[keys[n]].pos, keys[n])];
    }
  }

  // ---------------------------------------------------------------------------
  // The order of the output, lines 362-395

  /** `sorted_keys`: the keys in output order for `args.sortby[0]`. */
  function SortedKeys(mode: string, keys: seq<string>, snps: map<string, Snp>, pool: map<string, Tested>)
    : Result<seq<string>>
    requires Covers(keys, snps)
  {
    if mode == "pvalue" then Ok(Map(Second, SortBy(PValueEntries(keys, pool), PairLe)))
    else if mode == "position" then
      match PositionEntries(keys, snps)
      case Err(e) => Err(e)
      case Ok(es) => Ok(Map(Third, SortBy(es, PositionLe)))
    else Ok([])
  }

  /** Line 375: the keys of the sorted `(pvalue, key)` pairs, in order. */
  method PValueKeys(sorted: seq<(real, string)>) returns (sortedKeys: seq<string>)
    ensures sortedKeys == Map(Second, sorted)
  {
    sortedKeys := [];
    for i := 0 to |sorted|
      invariant sortedKeys == Map(Second, sorted[..i])
    {
      assert sorted[..i + 1][..i] == sorted[..i];
      sortedKeys := sortedKeys + [sorted[i].1];
    }
    assert sorted[..|sorted|] == sorted;
  }

  /** Lines 394-395: the keys of the sorted position entries, in order. */
  method PositionKeys(sorted: seq<(int, int, string)>) returns (sortedKeys: seq<string>)
    ensures sortedKeys == Map(Third, sorted)
  {
    sortedKeys := [];
    for i := 0 to |sorted|
      invariant sortedKeys == Map(Third, sorted[..i])
    {
      assert sorted[..i + 1][..i] == sorted[..i];
      sortedKeys := sortedKeys + [sorted[i].2];
    }
    assert sorted[..|sorted|] == sorted;
  }

  /** Lines 362-395, as the script runs them. */
  method SortKeys(mode: string, keys: seq<string>, snps: map<string, Snp>, pool: map<string, Tested>)
    returns (res: Result<seq<string>>)
    requires Covers(keys, snps)
    ensures res == SortedKeys(mode, keys, snps, pool)
  {
    var sortedKeys: seq<string> := [];
    if mode == "pvalue" {
      var es := CollectPValueEntries(keys, pool);
      sortedKeys := PValueKeys(SortBy(es, PairLe));
    } else if mode == "position" {
      var entries := CollectPositionEntries(keys, snps);
      if entries.Err? {
        return Err(entries.error);
      }
      sortedKeys := PositionKeys(SortBy(entries.value, PositionLe));
    }
    res := Ok(sortedKeys);
  }

  // ---------------------------------------------------------------------------
  // Properties

  /** The position of `k` in `keys`: the order the script first met the SNPs in. */
  function IndexOf(keys: seq<string>, k: string): int
  {
    if keys == [] then -1
    else if keys[|keys| - 1] == k then |keys| - 1
    else IndexOf(keys[..|keys| - 1], k)
  }

  lemma {:induction false} IndexOfDistinct(keys: seq<string>, i: nat)
    requires DistinctKeys(keys) && i < |keys|
    ensures IndexOf(keys, keys[i]) == i
  {
    var n := |keys| - 1;
    if i < n {
      assert keys[..n][i] == keys[i];
      IndexOfDistinct(keys[..n], i);
    }
  }

  lemma MapAppend<A, B>(f: A -> B, s: seq<A>, t: seq<A>)
    ensures Map(f, s + t) == Map(f, s) + Map(f, t)
  {
  }

  lemma MultisetAppendOne<T>(s: seq<T>, x: T)
    ensures multiset(s + [x]) == multiset(s) + multiset{x}
  {
  }

  lemma {:induction false} InsertMap<A, B>(f: A -> B, x: A, s: seq<A>, le: (A, A) -> bool)
    ensures multiset(Map(f, Insert(x, s, le))) == multiset(Map(f, s)) + multiset{f(x)}
  {
    if s == [] {
      assert Map(f, [x]) == [f(x)];
    } else {
      var init, last := s[..|s| - 1], s[|s| - 1];
      assert s == init + [last];
      MapAppend(f, init, [last]);
      var ms := Map(f, init);
      assert Map(f, s) == ms + [f(last)];
      MultisetAppendOne(ms, f(last));
      if le(last, x) {
        MapAppend(f, s, [x]);
        MultisetAppendOne(Map(f, s), f(x));
      } else {
        var u := Insert(x, init, le);
        InsertMap(f, x, init, le);
        MapAppend(f, u, [last]);
        MultisetAppendOne(Map(f, u), f(last));
      }
    }
  }

  /** Sorting a list of entries permutes their images (their keys, say) too. */
  lemma {:induction false} SortByMap<A, B>(f: A -> B, s: seq<A>, le: (A, A) -> bool)
    ensures multiset(Map(f, SortBy(s, le))) == multiset(Map(f, s))
  {
    if s != [] {
      var init, x := s[..|s| - 1], s[|s| - 1];
      assert s == init + [x];
      SortByMap(f, init, le);
      InsertMap(f, x, SortBy(init, le), le);
      MapAppend(f, init, [x]);
      MultisetAppendOne(Map(f, init), f(x));
    }
  }

  /** The sort key of lines 370-373: the pool p-value, or 1 for a SNP outside the pool. */
  function PoolP(pool: map<string, Tested>, k: string): real
  {
    if k in pool then pool[k].p else 1.0
  }

  /** Stability, stated on the p-value entries: ties keep the order of the keys. */
  lemma PValueSortedStable(keys: seq<string>, pool: map<string, Tested>)
    requires DistinctKeys(keys)
    ensures var sorted := SortBy(PValueEntries(keys, pool), PairLe);
      forall i, j :: 0 <= i < j < |sorted| ==> (PairLe(sorted[i], sorted[j]) &&
        (PairLe(sorted[j], sorted[i]) ==> IndexOf(keys, sorted[i].1) < IndexOf(keys, sorted[j].1)))
  {
    var es := PValueEntries(keys, pool);
    PValueEntriesKeys(keys, pool);
    PairLeTotalPreorder();
    var rank := (e: (real, string)) => IndexOf(keys, e.1);
    forall i, j | 0 <= i < j < |es| ensures rank(es[i]) < rank(es[j]) {
      IndexOfDistinct(keys, i);
      IndexOfDistinct(keys, j);
    }
    SortByStable(es, PairLe, rank);
  }

  /** Every sorted p-value entry still pairs a key with its own p-value. */
  lemma PValueSortedEntries(keys: seq<string>, pool: map<string, Tested>)
    ensures var sorted := SortBy(PValueEntries(keys, pool), PairLe);
      forall i :: 0 <= i < |sorted| ==> sorted[i].0 == PoolP(pool, sorted[i].1)
  {
    var es := PValueEntries(keys, pool);
    PValueEntriesKeys(keys, pool);
    SortByPerm(es, PairLe);
    var sorted := SortBy(es, PairLe);
    forall i | 0 <= i < |sorted| ensures sorted[i].0 == PoolP(pool, sorted[i].1) {
      assert sorted[i] in multiset(es);
      var a :| 0 <= a < |es| && es[a] == sorted[i];
    }
  }

  lemma PValueSortedKeys(keys: seq<string>, pool: map<string, Tested>)
    ensures multiset(Map(Second, SortBy(PValueEntries(keys, pool), PairLe))) == multiset(keys)
  {
    var es := PValueEntries(keys, pool);
    PValueEntriesKeys(keys, pool);
    assert Map(Second, es) == keys;
    SortByMap(Second, es, PairLe);
  }

  /** With distinct keys, `(p, key) <= (p', key')` that is only undone by a later
      key is strict. */
  lemma PairStrict(x: (real, string), y: (real, string), keys: seq<string>)
    requires PairLe(x, y) && (PairLe(y, x) ==> IndexOf(keys, x.1) < IndexOf(keys, y.1))
    ensures x.0 < y.0 || (x.0 == y.0 && StrLess(x.1, y.1))
  {
  }

  /** Sorting by p-value lists every SNP exactly once, in strictly increasing
      order of (p-value, key), where a SNP outside the pool counts as p = 1: equal
      p-values are ordered by key, not by input order. */
  lemma PValueOrder(keys: seq<string>, snps: map<string, Snp>, pool: map<string, Tested>)
    requires Covers(keys, snps) && DistinctKeys(keys)
    ensures SortedKeys("pvalue", keys, snps, pool).Ok?
    ensures multiset(SortedKeys("pvalue", keys, snps, pool).value) == multiset(keys)
    ensures var out := SortedKeys("pvalue", keys, snps, pool).value;
      forall i, j :: 0 <= i < j < |out| ==>
        PoolP(pool, out[i]) < PoolP(pool, out[j]) || (PoolP(pool, out[i]) == PoolP(pool, out[j]) && StrLess(out[i], out[j]))
  {
    var sorted := SortBy(PValueEntries(keys, pool), PairLe);
    PValueSortedKeys(keys, pool);
    PValueSortedStable(keys, pool);
    PValueSortedEntries(keys, pool);
    var out := Map(Second, sorted);
    forall i, j | 0 <= i < j < |out|
      ensures PoolP(pool, out[i]) < PoolP(pool, out[j]) || (PoolP(pool, out[i]) == PoolP(pool, out[j]) && StrLess(out[i], out[j]))
    {
      PairStrict(sorted[i], sorted[j], keys);
    }
  }

  /** Stability, stated on the position entries. */
  lemma PositionSortedStable(keys: seq<string>, es: seq<(int, int, string)>)
    requires DistinctKeys(keys) && Map(Third, es) == keys
    ensures var sorted := SortBy(es, PositionLe);
      forall i, j :: 0 <= i < j < |sorted| ==> (PositionLe(sorted[i], sorted[j]) &&
        (PositionLe(sorted[j], sorted[i]) ==> IndexOf(keys, sorted[i].2) < IndexOf(keys, sorted[j].2)))
  {
    var rank := (e: (int, int, string)) => IndexOf(keys, e.2);
    forall i, j | 0 <= i < j < |es| ensures rank(es[i]) < rank(es[j]) {
      assert es[i].2 == keys[i] && es[j].2 == keys[j];
      IndexOfDistinct(keys, i);
      IndexOfDistinct(keys, j);
    }
    SortByStable(es, PositionLe, rank);
  }

  /** Every sorted position entry still holds its key's chromosome number and position. */
  lemma PositionSortedEntries(keys: seq<string>, snps: map<string, Snp>, es: seq<(int, int, string)>)
    requires Covers(keys, snps) && PositionEntries(keys, snps) == Ok(es)
    ensures var sorted := SortBy(es, PositionLe);
      forall i :: 0 <= i < |sorted| ==> (sorted[i].2 in keys &&
        ChrNumber(snps[sorted[i].2].chr) == Ok(sorted[i].0) && snps[sorted[i].2].pos == sorted[i].1)
  {
    PositionEntriesSpec(keys, snps);
    SortByPerm(es, PositionLe);
    var sorted := SortBy(es, PositionLe);
    forall i | 0 <= i < |sorted| ensures sorted[i].2 in keys &&
      ChrNumber(snps[sorted[i].2].chr) == Ok(sorted[i].0) && snps[sorted[i].2].pos == sorted[i].1
    {
      assert sorted[i] in multiset(es);
      var a :| 0 <= a < |es| && es[a] == sorted[i];
      assert keys[a] in keys;
    }
  }

  /** Sorting by position lists every SNP exactly once, ordered by chromosome
      number and then position; SNPs at the same place keep the order in which
      they were loaded (Python's sort is stable). */
  lemma PositionOrder(keys: seq<string>, snps: map<string, Snp>, pool: map<string, Tested>)
    requires Covers(keys, snps) && DistinctKeys(keys)
    requires forall k :: k in keys ==> ChrNumber(snps[k].chr).Ok?
    ensures SortedKeys("position", keys, snps, pool).Ok?
    ensures multiset(SortedKeys("position", keys, snps, pool).value) == multiset(keys)
    ensures var out := SortedKeys("position", keys, snps, pool).value;
      forall i, j :: 0 <= i < j < |out| ==> (out[i] in keys && out[j] in keys &&
        var ci, cj := ChrNumber(snps[out[i]].chr).value, ChrNumber(snps[out[j]].chr).value;
        var pi, pj := snps[out[i]].pos, snps[out[j]].pos;
        && (ci < cj || (ci == cj && pi <= pj))
        && (ci == cj && pi == pj ==> IndexOf(keys, out[i]) < IndexOf(keys, out[j])))
  {
    PositionEntriesSpec(keys, snps);
    var es := PositionEntries(keys, snps).value;
    PositionPerm(keys, snps, es);
    PositionSorted(keys, snps, es);
  }

  lemma PositionPerm(keys: seq<string>, snps: map<string, Snp>, es: seq<(int, int, string)>)
    requires Covers(keys, snps) && PositionEntries(keys, snps) == Ok(es)
    ensures multiset(Map(Third, SortBy(es, PositionLe))) == multiset(keys)
  {
    PositionEntriesSpec(keys, snps);
    assert Map(Third, es) == keys;
    SortByMap(Third, es, PositionLe);
  }

  lemma PositionSorted(keys: seq<string>, snps: map<string, Snp>, es: seq<(int, int, string)>)
    requires Covers(keys, snps) && DistinctKeys(keys) && PositionEntries(keys, snps) == Ok(es)
    requires forall k :: k in keys ==> ChrNumber(snps[k].chr).Ok?
    ensures var out := Map(Third, SortBy(es, PositionLe));
      forall i, j :: 0 <= i < j < |out| ==> (out[i] in keys && out[j] in keys &&
        var ci, cj := ChrNumber(snps[out[i]].chr).value, ChrNumber(snps[out[j]].chr).value;
        var pi, pj := snps[out[i]].pos, snps[out[j]].pos;
        && (ci < cj || (ci == cj && pi <= pj))
        && (ci == cj && pi == pj ==> IndexOf(keys, out[i]) < IndexOf(keys, out[j])))
  {
    PositionEntriesSpec(keys, snps);
    assert Map(Third, es) == keys;
    PositionSortedStable(keys, es);
    PositionSortedEntries(keys, snps, es);
  }

  /** Any other `--sortby` value (including the default) outputs no SNP lines. */
  lemma OtherModeEmpty(mode: string, keys: seq<string>, snps: map<string, Snp>, pool: map<string, Tested>)
    requires Covers(keys, snps) && mode != "pvalue" && mode != "position"
    ensures SortedKeys(mode, keys, snps, pool) == Ok([])
  {
  }

  /** Sorting by position fails exactly when some chromosome label is unreadable. */
  lemma PositionFails(keys: seq<string>, snps: map<string, Snp>, pool: map<string, Tested>)
    requires Covers(keys, snps)
    ensures SortedKeys("position", keys, snps, pool).Err? <==>
      exists i :: 0 <= i < |keys| && ChrNumber(snps[keys[i]].chr).Err?
  {
    PositionEntriesSpec(keys, snps);
  }
}
