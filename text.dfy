/** The string handling the script relies on: `str.split()`, `str.split(sep)`,
    `'sep'.join`, `int(...)` on a string and `str(...)` of an integer. */
module Text {
  import opened Common

  /** Python's `str.isspace` for one character: what `str.split()` splits on. */
  predicate IsSpace(c: char)
  {
    || '\t' <= c <= '\r'
    || '\U{1C}' <= c <= ' '
    || c == '\U{85}' || c == '\U{A0}' || c == '\U{1680}'
    || '\U{2000}' <= c <= '\U{200A}'
    || c == '\U{2028}' || c == '\U{2029}' || c == '\U{202F}' || c == '\U{205F}' || c == '\U{3000}'
  }

  /** A field that `str.split()` can produce: non-empty and free of whitespace. */
  predicate IsWord(w: string)
  {
    w != [] && forall i :: 0 <= i < |w| ==> !IsSpace(w[i])
  }

  /** Length of the longest whitespace-free prefix of `s`. */
  function WordLen(s: string): (n: nat)
    ensures n <= |s|
    ensures forall i :: 0 <= i < n ==> !IsSpace(s[i])
    ensures n < |s| ==> IsSpace(s[n])
  {
    if s == [] || IsSpace(s[0]) then 0 else 1 + WordLen(s[1..])
  }

  /** Python's `s.split()`: the maximal runs of non-whitespace characters, in order. */
  function Split(s: string): seq<string>
    decreases |s|
  {
    if s == [] then []
    else if IsSpace(s[0]) then Split(s[1..])
    else
      var n := WordLen(s);
      [s[..n]] + Split(s[n..])
  }

  /** Python's `sep.join(ws)` for a one-character separator. */
  function Join(ws: seq<string>, sep: char): string
  {
    if ws == [] then ""
    else if |ws| == 1 then ws[0]
    else ws[0] + [sep] + Join(ws[1..], sep)
  }

  /** Index of the first `c` in `s`, or `|s|` when there is none. */
  function IndexOfChar(s: string, c: char): (i: nat)
    ensures i <= |s|
    ensures forall j :: 0 <= j < i ==> s[j] != c
    ensures i < |s| ==> s[i] == c
  {
    if s == [] || s[0] == c then 0 else 1 + IndexOfChar(s[1..], c)
  }

  /** Python's `s.split(sep)`: the pieces between occurrences of `sep` (always at least one). */
  function SplitOn(s: string, sep: char): seq<string>
    decreases |s|
  {
    var i := IndexOfChar(s, sep);
    if i == |s| then [s] else [s[..i]] + SplitOn(s[i + 1..], sep)
  }

  predicate IsPrefix(p: string, s: string)
  {
    |p| <= |s| && s[..|p|] == p
  }

  /** Python's `sub in s`. */
  predicate Contains(s: string, sub: string)
    decreases |s|
  {
    IsPrefix(sub, s) || (s != [] && Contains(s[1..], sub))
  }

  // ---------------------------------------------------------------------------
  // Integers as text

  predicate IsDigit(c: char)
  {
    '0' <= c <= '9'
  }

  function DigitChar(d: nat): char
    requires d < 10
  {
    (48 + d) as char
  }

  function DigitValue(c: char): nat
    requires IsDigit(c)
  {
    c as int - 48
  }

  /** Python's `str(n)` for a non-negative integer: decimal, no leading zeros. */
  function NatToString(n: nat): string
    decreases n
  {
    if n < 10 then [DigitChar(n)] else NatToString(n / 10) + [DigitChar(n % 10)]
  }

  /** Python's `str(i)` for an integer. */
  function IntToString(i: int): string
  {
    if i < 0 then "-" + NatToString(-i) else NatToString(i)
  }

  predicate AllDigits(s: string)
  {
    forall i :: 0 <= i < |s| ==> IsDigit(s[i])
  }

  function DigitsValue(s: string): nat
    requires AllDigits(s)
  {
    if s == [] then 0 else 10 * DigitsValue(s[..|s| - 1]) + DigitValue(s[|s| - 1])
  }

  /** A non-empty run of ASCII digits, read in base ten. */
  function ParseNat(s: string): Option<nat>
  {
    if s != [] && AllDigits(s) then Some(DigitsValue(s)) else None
  }

  /** Python's `int(s)` on a whitespace-free string: an optional sign followed by
      decimal digits; anything else is a ValueError (None). */
  function ParseInt(s: string): Option<int>
  {
    var signed := s != [] && (s[0] == '-' || s[0] == '+');
    var digits := if signed then s[1..] else s;
    match ParseNat(digits)
    case None => None
    case Some(n) => Some(if signed && s[0] == '-' then -(n as int) else n as int)
  }

  // ---------------------------------------------------------------------------
  // Properties

  /** Every field `str.split()` returns is a word. */
  lemma {:induction false} SplitGivesWords(s: string)
    ensures forall w :: w in Split(s) ==> IsWord(w)
    decreases |s|
  {
    if s == [] {
    } else if IsSpace(s[0]) {
      SplitGivesWords(s[1..]);
    } else {
      var n := WordLen(s);
      SplitGivesWords(s[n..]);
    }
  }

  lemma {:induction false} WordLenOfWordThen(w: string, rest: string)
    requires forall i :: 0 <= i < |w| ==> !IsSpace(w[i])
    requires rest == [] || IsSpace(rest[0])
    ensures WordLen(w + rest) == |w|
  {
    if w != [] {
      assert (w + rest)[1..] == w[1..] + rest;
      WordLenOfWordThen(w[1..], rest);
    }
  }

  lemma SplitWordThen(w: string, rest: string)
    requires IsWord(w)
    requires rest == [] || IsSpace(rest[0])
    ensures Split(w + rest) == [w] + Split(rest)
  {
    WordLenOfWordThen(w, rest);
    assert (w + rest)[..|w|] == w;
    assert (w + rest)[|w|..] == rest;
  }

  /** A leading blank is dropped by `split()`. */
  lemma SplitSpaceThen(rest: string)
    ensures Split(" " + rest) == Split(rest)
  {
    assert (" " + rest)[1..] == rest;
  }

  /** A word followed by a blank is split off whole. */
  lemma SplitWordSpace(w: string, rest: string)
    requires IsWord(w)
    ensures Split(w + " " + rest) == [w] + Split(rest)
  {
    assert w + " " + rest == w + (" " + rest);
    SplitWordThen(w, " " + rest);
    SplitSpaceThen(rest);
  }

  /** Splitting fields joined by single spaces gives the fields back. */
  lemma {:induction false} SplitJoin(ws: seq<string>)
    requires forall i :: 0 <= i < |ws| ==> IsWord(ws[i])
    ensures Split(Join(ws, ' ')) == ws
  {
    if |ws| == 1 {
      SplitWordThen(ws[0], "");
      assert ws[0] + "" == ws[0];
    } else if |ws| > 1 {
      var rest := Join(ws[1..], ' ');
      assert Join(ws, ' ') == ws[0] + ([' '] + rest);
      SplitWordThen(ws[0], [' '] + rest);
      assert ([' '] + rest)[1..] == rest;
      SplitJoin(ws[1..]);
      assert ws == [ws[0]] + ws[1..];
    }
  }

  lemma {:induction false} IndexOfCharAfter(w: string, c: char, rest: string)
    requires forall i :: 0 <= i < |w| ==> w[i] != c
    ensures IndexOfChar(w + [c] + rest, c) == |w|
  {
    if w != [] {
      assert (w + [c] + rest)[1..] == w[1..] + [c] + rest;
      IndexOfCharAfter(w[1..], c, rest);
    }
  }

  lemma SplitOnStep(w: string, sep: char, rest: string)
    requires forall i :: 0 <= i < |w| ==> w[i] != sep
    ensures SplitOn(w + [sep] + rest, sep) == [w] + SplitOn(rest, sep)
  {
    IndexOfCharAfter(w, sep, rest);
    var s := w + [sep] + rest;
    assert s[..|w|] == w;
    assert s[|w| + 1..] == rest;
  }

  /** Splitting at a separator that no field contains gives the fields back: the
      columns of a joined line can be read off again. */
  lemma {:induction false} SplitOnJoin(ws: seq<string>, sep: char)
    requires ws != []
    requires forall i :: 0 <= i < |ws| ==> sep !in ws[i]
    ensures SplitOn(Join(ws, sep), sep) == ws
  {
    var w := ws[0];
    if |ws| == 1 {
      assert IndexOfChar(w, sep) == |w|;
    } else {
      var tail := ws[1..];
      forall i | 0 <= i < |tail|
        ensures sep !in tail[i]
      {
        assert tail[i] == ws[i + 1];
      }
      assert sep !in w;
      SplitOnStep(w, sep, Join(tail, sep));
      SplitOnJoin(tail, sep);
      assert ws == [w] + tail;
    }
  }

  lemma {:induction false} NatToStringDigits(n: nat)
    ensures NatToString(n) != []
    ensures AllDigits(NatToString(n))
    ensures DigitsValue(NatToString(n)) == n
    decreases n
  {
    if n >= 10 {
      NatToStringDigits(n / 10);
      var s := NatToString(n);
      assert s[..|s| - 1] == NatToString(n / 10);
    }
  }

  /** `int(str(i)) == i` for every integer. */
  lemma ParseIntRoundTrip(i: int)
    ensures ParseInt(IntToString(i)) == Some(i)
  {
    var n: nat := if i < 0 then -i else i;
    NatToStringDigits(n);
    var s := IntToString(i);
    if i < 0 {
      assert s[1..] == NatToString(n);
    } else {
      assert IsDigit(s[0]);
    }
  }
}
