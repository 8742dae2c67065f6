/** Allele counting (allele_specific_dnase.py lines 248-260): the base each read
    shows at the SNP is tallied into `allelic_dict`, kept in insertion order. */
module Alleles {
  import opened Common
  import opened Reads

  /** One entry of `allelic_dict`: a base seen at the SNP, the number of reads
      showing it, and its p-value once it has been tested. */
  datatype Allele = Allele(base: string, count: nat, pvalue: Option<real>)

  /** The position of base `b` in the table: Python's `b in allelic_dict`. */
  function Find(t: seq<Allele>, b: string): (r: Option<nat>)
    ensures r.Some? ==> r.value < |t| && t[r.value].base == b
    ensures r.Some? ==> forall j :: 0 <= j < r.value ==> t[j].base != b
    ensures r.None? ==> forall j :: 0 <= j < |t| ==> t[j].base != b
  {
    if t == [] then None
    else if t[0].base == b then Some(0)
    else match Find(t[1..], b)
      case None => None
      case Some(i) => Some(i + 1)
  }

  predicate Has(t: seq<Allele>, b: string)
  {
    Find(t, b).Some?
  }

  /** `allelic_dict[b]['count']`, with 0 for a base never seen. */
  function CountOf(t: seq<Allele>, b: string): nat
  {
    match Find(t, b)
    case None => 0
    case Some(i) => t[i].count
  }

  /** Line 254: the read's base at the SNP, `read_seq[pos - reference_start]`,
      as a one-character string; None is an IndexError. */
  function BaseAt(r: Read, pos: int): Option<string>
  {
    match PyIndex(r.sequence, pos - r.referenceStart)
    case None => None
    case Some(c) => Some([c])
  }

  /** The bases of all pooled reads at the SNP, in read order; the first read that
      is too short raises an IndexError. */
  function BasesAt(rs: seq<Read>, pos: int): Result<seq<string>>
  {
    if rs == [] then Ok([])
    else
      match BasesAt(rs[..|rs| - 1], pos)
      case Err(e) => Err(e)
      case Ok(bs) =>
        match BaseAt(rs[|rs| - 1], pos)
        case None => Err(IndexError)
        case Some(b) => Ok(bs + [b])
  }

  /** Lines 256-260: one more read showing `b`. */
  function Bump(t: seq<Allele>, b: string): seq<Allele>
  {
    match Find(t, b)
    case Some(i) => t[i := t[i].(count := t[i].count + 1)]
    case None => t + [Allele(b, 1, None)]
  }

  /** The table after counting the bases `bs` in order. */
  function Tally(bs: seq<string>): seq<Allele>
  {
    if bs == [] then [] else Bump(Tally(bs[..|bs| - 1]), bs[|bs| - 1])
  }

  function Sum(t: seq<Allele>): nat
  {
    if t == [] then 0 else Sum(t[..|t| - 1]) + t[|t| - 1].count
  }

  ghost predicate Distinct(t: seq<Allele>)
  {
    forall i, j :: 0 <= i < j < |t| ==> t[i].base != t[j].base
  }

  /** A freshly counted table: distinct bases, every count at least one, nothing tested yet. */
  ghost predicate Untested(t: seq<Allele>)
  {
    Distinct(t) && forall i :: 0 <= i < |t| ==> t[i].count >= 1 && t[i].pvalue == None
  }

  /** The loop of lines 250-260. */
  method CountAlleles(rs: seq<Read>, pos: int) returns (res: Result<seq<Allele>>)
    ensures res == match BasesAt(rs, pos) case Err(e) => Err(e) case Ok(bs) => Ok(Tally(bs))
  {
    var t: seq<Allele> := [];
    ghost var bs: seq<string> := [];
    for i := 0 to |rs|
      invariant BasesAt(rs[..i], pos) == Ok(bs)
      invariant t == Tally(bs)
    {
      assert rs[..i + 1][..i] == rs[..i];
      var b := BaseAt(rs[i], pos);
      if b.None? {
        BasesAtStopsAtError(rs, pos, i + 1);
        return Err(IndexError);
      }
      var k := Find(t, b.value);
      if k.Some? {
        t := t[k.value := t[k.value].(count := t[k.value].count + 1)];
      } else {
        t := t + [Allele(b.value, 1, None)];
      }
      assert (bs + [b.value])[..|bs|] == bs;
      bs := bs + [b.value];
    }
    assert rs[..|rs|] == rs;
    res := Ok(t);
  }

  // ---------------------------------------------------------------------------
  // Properties

  lemma {:induction false} BasesAtStopsAtError(rs: seq<Read>, pos: int, n: nat)
    requires n <= |rs|
    requires BasesAt(rs[..n], pos).Err?
    ensures BasesAt(rs, pos) == BasesAt(rs[..n], pos)
    decreases |rs| - n
  {
    if n < |rs| {
      assert rs[..n + 1][..n] == rs[..n];
      BasesAtStopsAtError(rs, pos, n + 1);
    } else {
      assert rs[..n] == rs;
    }
  }

  /** Counting raises exactly when some read's SNP offset falls outside its sequence;
      otherwise there is one base per read, and it is that read's base. */
  lemma {:induction false} BasesAtReads(rs: seq<Read>, pos: int)
    ensures BasesAt(rs, pos).Err? <==> exists i :: 0 <= i < |rs| && BaseAt(rs[i], pos).None?
    ensures BasesAt(rs, pos).Ok? ==> (|BasesAt(rs, pos).value| == |rs| &&
      forall i :: 0 <= i < |rs| ==> BaseAt(rs[i], pos) == Some(BasesAt(rs, pos).value[i]))
  {
    if rs != [] {
      var init := rs[..|rs| - 1];
      BasesAtReads(init, pos);
      forall i | 0 <= i < |init| ensures init[i] == rs[i] { }
    }
  }

  lemma {:induction false} SumUpdate(t: seq<Allele>, i: nat, e: Allele)
    requires i < |t|
    ensures Sum(t[i := e]) + t[i].count == Sum(t) + e.count
  {
    var n := |t| - 1;
    if i < n {
      assert t[i := e][..n] == t[..n][i := e];
      SumUpdate(t[..n], i, e);
    } else {
      assert t[i := e][..n] == t[..n];
    }
  }

  lemma FindSameBases(t: seq<Allele>, u: seq<Allele>, x: string)
    requires |t| == |u| && forall k :: 0 <= k < |t| ==> t[k].base == u[k].base
    ensures Find(u, x) == Find(t, x)
  {
    match Find(t, x)
    case None =>
    case Some(j) =>
      assert u[j].base == x;
  }

  lemma FindAppend(t: seq<Allele>, a: Allele, x: string)
    ensures Find(t + [a], x) == if Has(t, x) then Find(t, x) else if a.base == x then Some(|t|) else None
  {
    var u := t + [a];
    assert forall k :: 0 <= k < |t| ==> u[k] == t[k];
    match Find(t, x)
    case None =>
      if a.base == x {
        assert u[|t|].base == x;
      }
    case Some(j) =>
      assert u[j].base == x;
  }

  lemma BumpUntested(t: seq<Allele>, b: string)
    requires Untested(t)
    ensures Untested(Bump(t, b))
  {
    match Find(t, b)
    case Some(i) =>
      var u := Bump(t, b);
      assert forall k :: 0 <= k < |t| ==> u[k].base == t[k].base;
    case None =>
  }

  lemma BumpSum(t: seq<Allele>, b: string)
    ensures Sum(Bump(t, b)) == Sum(t) + 1
  {
    match Find(t, b)
    case Some(i) =>
      SumUpdate(t, i, t[i].(count := t[i].count + 1));
    case None =>
      assert Bump(t, b)[..|t|] == t;
  }

  lemma BumpCount(t: seq<Allele>, b: string, x: string)
    ensures CountOf(Bump(t, b), x) == CountOf(t, x) + (if x == b then 1 else 0)
  {
    var u := Bump(t, b);
    match Find(t, b)
    case Some(i) =>
      assert |u| == |t| && forall k :: 0 <= k < |t| ==> u[k].base == t[k].base;
      FindSameBases(t, u, x);
    case None =>
      FindAppend(t, Allele(b, 1, None), x);
  }

  /** Bumping a seen base keeps the bases in place; an unseen one is appended. */
  lemma BumpBases(t: seq<Allele>, b: string)
    ensures Has(t, b) ==> |Bump(t, b)| == |t| && forall i :: 0 <= i < |t| ==> Bump(t, b)[i].base == t[i].base
    ensures !Has(t, b) ==> Bump(t, b) == t + [Allele(b, 1, None)]
  {
  }

  /** Counting `bs` gives a table of distinct, untested bases whose counts are at
      least one. */
  lemma {:induction false} UntestedTally(bs: seq<string>)
    ensures Untested(Tally(bs))
  {
    if bs != [] {
      UntestedTally(bs[..|bs| - 1]);
      BumpUntested(Tally(bs[..|bs| - 1]), bs[|bs| - 1]);
    }
  }

  /** The counts add up to the number of reads. */
  lemma {:induction false} TallySum(bs: seq<string>)
    ensures Sum(Tally(bs)) == |bs|
  {
    if bs != [] {
      TallySum(bs[..|bs| - 1]);
      BumpSum(Tally(bs[..|bs| - 1]), bs[|bs| - 1]);
    }
  }

  /** The count of a base is the number of reads showing it. */
  lemma {:induction false} CountOfTally(bs: seq<string>, b: string)
    ensures CountOf(Tally(bs), b) == multiset(bs)[b]
  {
    if bs != [] {
      var init := bs[..|bs| - 1];
      CountOfTally(init, b);
      BumpCount(Tally(init), bs[|bs| - 1], b);
      assert bs == init + [bs[|bs| - 1]];
    }
  }

  /** Counting `bs` gives a table of distinct, untested bases whose counts are at
      least one, add up to the number of reads, and give for every base exactly
      the number of reads showing it. */
  lemma TallyCounts(bs: seq<string>)
    ensures Untested(Tally(bs))
    ensures Sum(Tally(bs)) == |bs|
    ensures forall b :: CountOf(Tally(bs), b) == multiset(bs)[b]
  {
    UntestedTally(bs);
    TallySum(bs);
    forall b ensures CountOf(Tally(bs), b) == multiset(bs)[b] {
      CountOfTally(bs, b);
    }
  }

  /** A base is in the table exactly when some read shows it. */
  lemma TallyHas(bs: seq<string>, b: string)
    ensures Has(Tally(bs), b) <==> b in bs
  {
    CountOfTally(bs, b);
    match Find(Tally(bs), b)
    case None =>
    case Some(i) =>
      assert multiset(bs)[b] >= 1;
  }

  /** The index of the first read showing `b`. */
  function FirstIndex(bs: seq<string>, b: string): (r: nat)
    requires b in bs
    ensures r < |bs| && bs[r] == b && forall q :: 0 <= q < r ==> bs[q] != b
  {
    if bs[0] == b then 0 else 1 + FirstIndex(bs[1..], b)
  }

  lemma FirstIndexExtend(init: seq<string>, x: string, b: string)
    requires b in init
    ensures b in init + [x] && FirstIndex(init + [x], b) == FirstIndex(init, b)
  {
    var f := FirstIndex(init, b);
    assert (init + [x])[f] == b;
    assert forall q :: 0 <= q < f ==> (init + [x])[q] == init[q];
  }

  /** The table lists bases in the order they were first seen: Python's dict
      insertion order, which the substitute-anchor tie-break relies on. */
  lemma {:induction false} TallyFirstSeen(bs: seq<string>)
    ensures forall i :: 0 <= i < |Tally(bs)| ==> Tally(bs)[i].base in bs
    ensures forall i, j :: 0 <= i < j < |Tally(bs)| ==>
      FirstIndex(bs, Tally(bs)[i].base) < FirstIndex(bs, Tally(bs)[j].base)
  {
    if bs != [] {
      var n := |bs| - 1;
      var init := bs[..n];
      var t := Tally(init);
      var x := bs[n];
      assert bs == init + [x];
      TallyFirstSeen(init);
      BumpBases(t, x);
      var u := Tally(bs);
      assert u == Bump(t, x);
      forall i | 0 <= i < |t| ensures u[i].base == t[i].base && u[i].base in bs
        && FirstIndex(bs, u[i].base) == FirstIndex(init, t[i].base) < n
      {
        FirstIndexExtend(init, x, t[i].base);
      }
      if !Has(t, x) {
        TallyHas(init, x);
        assert x !in init;
        assert FirstIndex(bs, x) == n;
      }
    }
  }
}
