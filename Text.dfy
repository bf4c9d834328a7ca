/**
 * Small string and number helpers of the trainer: whitespace trimming as
 * String.prototype.trim does it, clampNum, normalizeCategory, estimateSpeechMs
 * and the decimal rendering of a clue value in the narrated text.
 */
module Text {
  import opened Wrappers

  /** The characters JavaScript's trim() and the regex class \s treat as white space. */
  predicate IsSpace(c: char)
  {
    c == '\t' || c == '\n' || c == '\U{000B}' || c == '\U{000C}' || c == '\r' || c == ' '
    || c == '\U{00A0}' || c == '\U{1680}' || ('\U{2000}' <= c <= '\U{200A}')
    || c == '\U{2028}' || c == '\U{2029}' || c == '\U{202F}' || c == '\U{205F}'
    || c == '\U{3000}' || c == '\U{FEFF}'
  }

  /** The first index at or after i that does not hold white space (|s| if none). */
  function SkipSpace(s: string, i: nat): (n: nat)
    requires i <= |s|
    ensures i <= n <= |s|
    ensures forall k :: i <= k < n ==> IsSpace(s[k])
    ensures n < |s| ==> !IsSpace(s[n])
    decreases |s| - i
  {
    if i < |s| && IsSpace(s[i]) then SkipSpace(s, i + 1) else i
  }

  /** The least index n in [lo, j] such that s[n..j] is all white space. */
  function BackSpace(s: string, lo: nat, j: nat): (n: nat)
    requires lo <= j <= |s|
    ensures lo <= n <= j
    ensures forall k :: n <= k < j ==> IsSpace(s[k])
    ensures n > lo ==> !IsSpace(s[n - 1])
    decreases j
  {
    if j > lo && IsSpace(s[j - 1]) then BackSpace(s, lo, j - 1) else j
  }

  /**
   * String.prototype.trim: the slice s[i..i+|r|] where everything before i
   * and everything after the slice is white space and the slice neither
   * starts nor ends with white space.
   */
  function Trim(s: string): (r: string)
    ensures var i := SkipSpace(s, 0);
      i + |r| <= |s| && r == s[i..i + |r|]
      && (forall k :: 0 <= k < i ==> IsSpace(s[k]))
      && (forall k :: i + |r| <= k < |s| ==> IsSpace(s[k]))
    ensures |r| > 0 ==> !IsSpace(r[0]) && !IsSpace(r[|r| - 1])
  {
    var i := SkipSpace(s, 0);
    var j := BackSpace(s, i, |s|);
    assert j > i ==> !IsSpace(s[i]);
    s[i..j]
  }

  /** A string without white space at either end is its own trim. */
  lemma TrimOfTrimmed(s: string)
    requires |s| == 0 || (!IsSpace(s[0]) && !IsSpace(s[|s| - 1]))
    ensures Trim(s) == s
  {
    var i := SkipSpace(s, 0);
    assert i == 0;
    var j := BackSpace(s, i, |s|);
    assert j == |s|;
    assert s[0..|s|] == s;
  }

  /** Trimming twice is trimming once. */
  lemma TrimIdempotent(s: string)
    ensures Trim(Trim(s)) == Trim(s)
  {
    TrimOfTrimmed(Trim(s));
  }

  /** ASCII toUpperCase; see README for why this suffices for the round names compared here. */
  function UpperChar(c: char): char
  {
    if 'a' <= c <= 'z' then (c as int - 'a' as int + 'A' as int) as char else c
  }

  function ToUpper(s: string): (r: string)
    ensures |r| == |s|
    ensures forall k :: 0 <= k < |s| ==> r[k] == UpperChar(s[k])
  {
    if s == [] then [] else [UpperChar(s[0])] + ToUpper(s[1..])
  }

  /**
   * clampNum(n, lo, hi, fallback): NaN gives the fallback, any number is
   * forced into [lo, hi] by Math.max(lo, Math.min(hi, n)). A number is an
   * integer here; NaN is None.
   */
  function ClampNum(n: Option<int>, lo: int, hi: int, fallback: int): (r: int)
    ensures n.None? ==> r == fallback
    ensures n.Some? ==> r >= lo
    ensures n.Some? && lo <= hi ==> r <= hi
    ensures n.Some? && lo <= n.value <= hi ==> r == n.value
    ensures n.Some? && n.value < lo ==> r == lo
    ensures n.Some? && n.value > hi && lo <= hi ==> r == hi
  {
    match n
    case None => fallback
    case Some(x) =>
      var m := if hi < x then hi else x;
      if lo > m then lo else m
  }

  /** normalizeCategory: a missing (empty) category reads "UNKNOWN"; otherwise the name is trimmed only. */
  function NormalizeCategory(s: string): (r: string)
    ensures s == "" ==> r == "UNKNOWN"
    ensures s != "" ==> r == Trim(s)
    ensures |r| > 0 ==> !IsSpace(r[0]) && !IsSpace(r[|r| - 1])
  {
    if s == "" then "UNKNOWN" else Trim(s)
  }

  /** The grouping key keeps case: "Art" and "ART" are different categories, " Art " and "Art" the same. */
  lemma CategoryKeyIsTrimOnly()
    ensures NormalizeCategory(" Art ") == NormalizeCategory("Art") == "Art"
    ensures NormalizeCategory("Art") != NormalizeCategory("ART")
  {
    var lower, upper, padded := "Art", "ART", " Art ";
    TrimOfTrimmed(lower);
    TrimOfTrimmed(upper);
    assert lower[1] != upper[1];
    assert SkipSpace(padded, 0) == 1 by {
      assert IsSpace(padded[0]) && !IsSpace(padded[1]);
    }
    assert BackSpace(padded, 1, 5) == 4 by {
      assert IsSpace(padded[4]) && !IsSpace(padded[3]);
    }
    assert padded[1..4] == lower;
  }

  /** Normalizing a normalized key changes it only when trimming left nothing: "" then reads as "UNKNOWN". */
  lemma NormalizeCategoryStable(s: string)
    ensures NormalizeCategory(s) != "" ==> NormalizeCategory(NormalizeCategory(s)) == NormalizeCategory(s)
    ensures NormalizeCategory(s) == "" ==> NormalizeCategory(NormalizeCategory(s)) == "UNKNOWN"
  {
    TrimIdempotent(s);
  }

  /** The text split on runs of white space, empty pieces dropped (trim().split(/\s+/).filter(Boolean)). */
  function Words(s: string): (ws: seq<string>)
    ensures forall k :: 0 <= k < |ws| ==> |ws[k]| > 0
    decreases |s|
  {
    if s == [] then []
    else if IsSpace(s[0]) then Words(s[1..])
    else
      var n := WordLength(s);
      [s[..n]] + Words(s[n..])
  }

  /** Length of the run of non-white characters at the front of s. */
  function WordLength(s: string): (n: nat)
    ensures n <= |s|
    ensures forall k :: 0 <= k < n ==> !IsSpace(s[k])
    ensures n < |s| ==> IsSpace(s[n])
  {
    if s == [] || IsSpace(s[0]) then 0 else 1 + WordLength(s[1..])
  }

  function Concat(ws: seq<string>): string
  {
    if ws == [] then [] else ws[0] + Concat(ws[1..])
  }

  /** The text with every white-space character removed. */
  function NonSpace(s: string): string
  {
    if s == [] then [] else (if IsSpace(s[0]) then [] else [s[0]]) + NonSpace(s[1..])
  }

  /** The words hold no white space and, joined, give back every non-white character in order. */
  lemma {:induction false} WordsCoverText(s: string)
    ensures Concat(Words(s)) == NonSpace(s)
    ensures forall k, j :: 0 <= k < |Words(s)| && 0 <= j < |Words(s)[k]| ==> !IsSpace(Words(s)[k][j])
    decreases |s|
  {
    if s == [] {
    } else if IsSpace(s[0]) {
      WordsCoverText(s[1..]);
    } else {
      var n := WordLength(s);
      WordsCoverText(s[n..]);
      NonSpaceSplit(s, n);
      assert Words(s) == [s[..n]] + Words(s[n..]);
      assert Concat(Words(s)) == s[..n] + Concat(Words(s[n..]));
    }
  }

  lemma {:induction false} NonSpaceSplit(s: string, n: nat)
    requires n <= |s|
    requires forall k :: 0 <= k < n ==> !IsSpace(s[k])
    ensures NonSpace(s) == s[..n] + NonSpace(s[n..])
  {
    if n > 0 {
      NonSpaceSplit(s[1..], n - 1);
      assert s[1..][n - 1..] == s[n..];
      assert s[..n] == [s[0]] + s[1..][..n - 1];
    }
  }

  /**
   * estimateSpeechMs: 400 ms per word, clamped to [1200, 12000]. The word
   * count is an integer, so Math.round and the NaN fallback never apply.
   */
  function EstimateSpeechMs(text: string): (r: int)
    ensures 1200 <= r <= 12000
    ensures 3 <= |Words(text)| <= 30 ==> r == 400 * |Words(text)|
    ensures |Words(text)| < 3 ==> r == 1200
    ensures |Words(text)| > 30 ==> r == 12000
  {
    WordsOfTrim(text);
    ClampNum(Some(400 * |Words(Trim(text))|), 1200, 12000, 5000)
  }

  /** Trimming first does not change the words. */
  lemma WordsOfTrim(s: string)
    ensures Words(Trim(s)) == Words(s)
  {
    var i := SkipSpace(s, 0);
    var u := s[i..];
    var r := Trim(s);
    WordsSkipSpace(s, i);
    assert r == u[..|r|];
    WordsDropSpaceEnd(u, |r|);
  }

  /** Leading white space carries no words. */
  lemma {:induction false} WordsSkipSpace(s: string, i: nat)
    requires i <= |s| && forall k :: 0 <= k < i ==> IsSpace(s[k])
    ensures Words(s[i..]) == Words(s)
    decreases i
  {
    if i > 0 {
      WordsSkipSpace(s[1..], i - 1);
      assert s[1..][i - 1..] == s[i..];
    }
  }

  /** Trailing white space carries no words. */
  lemma {:induction false} WordsDropSpaceEnd(s: string, j: nat)
    requires j <= |s| && forall k :: j <= k < |s| ==> IsSpace(s[k])
    ensures Words(s[..j]) == Words(s)
    decreases |s| - j
  {
    if j < |s| {
      var p := s[..|s| - 1];
      WordsDropTrailingSpace(s);
      WordsDropSpaceEnd(p, j);
      assert p[..j] == s[..j];
    } else {
      assert s[..j] == s;
    }
  }

  lemma {:induction false} WordsDropTrailingSpace(s: string)
    requires |s| > 0 && IsSpace(s[|s| - 1])
    ensures Words(s[..|s| - 1]) == Words(s)
    decreases |s|
  {
    var p := s[..|s| - 1];
    if |s| == 1 {
      assert p == [];
    } else if IsSpace(s[0]) {
      WordsDropTrailingSpace(s[1..]);
      assert s[1..][..|s| - 2] == p[1..];
    } else {
      var n := WordLength(s);
      var m := WordLength(p);
      WordLengthPrefix(s, n);
      assert m == n;
      assert p[..m] == s[..n];
      assert Words(p) == [s[..n]] + Words(p[n..]);
      assert Words(s) == [s[..n]] + Words(s[n..]);
      if n == |s| - 1 {
        assert p[n..] == [];
        assert s[n..][1..] == [];
        assert Words(s[n..]) == Words(s[n..][1..]);
      } else {
        var t := s[n..];
        WordsDropTrailingSpace(t);
        assert t[..|t| - 1] == p[n..];
      }
    }
  }

  lemma {:induction false} WordLengthPrefix(s: string, n: nat)
    requires |s| > 0 && IsSpace(s[|s| - 1]) && n == WordLength(s)
    ensures n < |s| && WordLength(s[..|s| - 1]) == n
  {
    var p := s[..|s| - 1];
    var m := WordLength(p);
    assert forall k :: 0 <= k < m ==> !IsSpace(s[k]) by {
      forall k | 0 <= k < m ensures !IsSpace(s[k]) { assert p[k] == s[k]; }
    }
  }

  /** The decimal digit character for d. */
  function DigitChar(d: nat): (c: char)
    requires d < 10
    ensures '0' <= c <= '9'
  {
    "0123456789"[d]
  }

  /** Decimal text of a natural number, most significant digit first, no leading zero. */
  function NatToString(n: nat): (s: string)
    ensures |s| > 0 && (forall k :: 0 <= k < |s| ==> '0' <= s[k] <= '9')
    ensures |s| > 1 ==> s[0] != '0'
    decreases n
  {
    if n < 10 then [DigitChar(n)] else NatToString(n / 10) + [DigitChar(n % 10)]
  }

  /** Template-literal rendering of an integer ("-400" for negative numbers). */
  function IntToString(i: int): (s: string)
    ensures |s| > 0
    ensures i >= 0 ==> s == NatToString(i)
    ensures i < 0 ==> s == "-" + NatToString(-i)
  {
    if i < 0 then "-" + NatToString(-i) else NatToString(i)
  }

  /**
   * The rendering reads back: a leading '-' exactly for negative values,
   * then decimal digits denoting the magnitude.
   */
  lemma IntToStringRoundTrip(i: int)
    ensures var s := IntToString(i);
      && (s[0] == '-' <==> i < 0)
      && var digits := if i < 0 then s[1..] else s;
        && (forall k :: 0 <= k < |digits| ==> '0' <= digits[k] <= '9')
        && DigitsValue(digits) == (if i < 0 then -i else i)
  {
    NatToStringRoundTrip(if i < 0 then -i else i);
    if i < 0 {
      assert IntToString(i)[1..] == NatToString(-i);
    }
  }

  /** The number a string of decimal digits denotes. */
  function DigitsValue(s: string): nat
    requires forall k :: 0 <= k < |s| ==> '0' <= s[k] <= '9'
  {
    if s == [] then 0 else 10 * DigitsValue(s[..|s| - 1]) + (s[|s| - 1] as int - '0' as int)
  }

  /** Reading back the decimal text gives the number: the spoken value is the clue's value. */
  lemma {:induction false} NatToStringRoundTrip(n: nat)
    ensures DigitsValue(NatToString(n)) == n
    decreases n
  {
    if n >= 10 {
      NatToStringRoundTrip(n / 10);
      var s := NatToString(n);
      assert s[..|s| - 1] == NatToString(n / 10);
    }
  }
}
