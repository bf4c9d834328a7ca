/**
 * escapeHtml: five successive replaceAll passes, ampersand first. The
 * lemmas show the chain equals escaping each character on its own, that no
 * markup-significant character survives, and that decoding the five
 * entities gives the original text back.
 */
module Escape {

  /** String.prototype.replaceAll for a one-character pattern. */
  function ReplaceAll(s: string, c: char, rep: string): string
  {
    if s == [] then [] else (if s[0] == c then rep else [s[0]]) + ReplaceAll(s[1..], c, rep)
  }

  function EscapeHtml(s: string): string
  {
    var amp := ReplaceAll(s, '&', "&amp;");
    var lt := ReplaceAll(amp, '<', "&lt;");
    var gt := ReplaceAll(lt, '>', "&gt;");
    var quot := ReplaceAll(gt, '"', "&quot;");
    ReplaceAll(quot, '\'', "&#039;")
  }

  /** The entity a single character becomes. */
  function EscapeChar(c: char): string
  {
    match c
    case '&' => "&amp;"
    case '<' => "&lt;"
    case '>' => "&gt;"
    case '"' => "&quot;"
    case '\'' => "&#039;"
    case _ => [c]
  }

  /** Character-by-character escaping, the reference the replaceAll chain is proved equal to. */
  function EscapeEach(s: string): string
  {
    if s == [] then [] else EscapeChar(s[0]) + EscapeEach(s[1..])
  }

  /** Decodes the five entities escapeHtml produces; any other character is kept. */
  function UnescapeHtml(s: string): string
    decreases |s|
  {
    if s == [] then []
    else if |s| >= 5 && s[..5] == "&amp;" then "&" + UnescapeHtml(s[5..])
    else if |s| >= 4 && s[..4] == "&lt;" then "<" + UnescapeHtml(s[4..])
    else if |s| >= 4 && s[..4] == "&gt;" then ">" + UnescapeHtml(s[4..])
    else if |s| >= 6 && s[..6] == "&quot;" then "\"" + UnescapeHtml(s[6..])
    else if |s| >= 6 && s[..6] == "&#039;" then "'" + UnescapeHtml(s[6..])
    else [s[0]] + UnescapeHtml(s[1..])
  }

  lemma {:induction false} ReplaceAllAbsent(s: string, c: char, rep: string)
    requires c !in s
    ensures ReplaceAll(s, c, rep) == s
  {
    if s != [] {
      ReplaceAllAbsent(s[1..], c, rep);
    }
  }

  lemma {:induction false} ReplaceAllAppend(a: string, b: string, c: char, rep: string)
    ensures ReplaceAll(a + b, c, rep) == ReplaceAll(a, c, rep) + ReplaceAll(b, c, rep)
  {
    if a == [] {
      assert a + b == b;
    } else {
      assert (a + b)[1..] == a[1..] + b;
      ReplaceAllAppend(a[1..], b, c, rep);
    }
  }

  lemma EscapeHtmlAppend(a: string, b: string)
    ensures EscapeHtml(a + b) == EscapeHtml(a) + EscapeHtml(b)
  {
    var amp := ReplaceAll(a + b, '&', "&amp;");
    ReplaceAllAppend(a, b, '&', "&amp;");
    var a1, b1 := ReplaceAll(a, '&', "&amp;"), ReplaceAll(b, '&', "&amp;");
    ReplaceAllAppend(a1, b1, '<', "&lt;");
    var a2, b2 := ReplaceAll(a1, '<', "&lt;"), ReplaceAll(b1, '<', "&lt;");
    ReplaceAllAppend(a2, b2, '>', "&gt;");
    var a3, b3 := ReplaceAll(a2, '>', "&gt;"), ReplaceAll(b2, '>', "&gt;");
    ReplaceAllAppend(a3, b3, '"', "&quot;");
    var a4, b4 := ReplaceAll(a3, '"', "&quot;"), ReplaceAll(b3, '"', "&quot;");
    ReplaceAllAppend(a4, b4, '\'', "&#039;");
  }

  lemma ReplaceAllOne(c: char, p: char, rep: string)
    ensures ReplaceAll([c], p, rep) == if c == p then rep else [c]
  {
    assert [c][1..] == [];
  }

  /** The passes after the one that produced an entity leave that entity alone. */
  lemma EntityUntouched(e: string)
    requires '<' !in e && '>' !in e && '"' !in e && '\'' !in e
    ensures ReplaceAll(e, '<', "&lt;") == e && ReplaceAll(e, '>', "&gt;") == e
    ensures ReplaceAll(e, '"', "&quot;") == e && ReplaceAll(e, '\'', "&#039;") == e
  {
    ReplaceAllAbsent(e, '<', "&lt;");
    ReplaceAllAbsent(e, '>', "&gt;");
    ReplaceAllAbsent(e, '"', "&quot;");
    ReplaceAllAbsent(e, '\'', "&#039;");
  }

  lemma EscapeHtmlChar(c: char)
    ensures EscapeHtml([c]) == EscapeChar(c)
  {
    ReplaceAllOne(c, '&', "&amp;");
    if c == '&' {
      EntityUntouched("&amp;");
      return;
    }
    ReplaceAllOne(c, '<', "&lt;");
    if c == '<' {
      EntityUntouched("&lt;");
      return;
    }
    ReplaceAllOne(c, '>', "&gt;");
    if c == '>' {
      EntityUntouched("&gt;");
      return;
    }
    ReplaceAllOne(c, '"', "&quot;");
    if c == '"' {
      EntityUntouched("&quot;");
      return;
    }
    ReplaceAllOne(c, '\'', "&#039;");
  }

  /** The chain of replaceAll passes escapes every character independently. */
  lemma {:induction false} EscapeHtmlPerChar(s: string)
    ensures EscapeHtml(s) == EscapeEach(s)
  {
    if s == [] {
    } else {
      assert s == [s[0]] + s[1..];
      EscapeHtmlAppend([s[0]], s[1..]);
      EscapeHtmlChar(s[0]);
      EscapeHtmlPerChar(s[1..]);
    }
  }

  /** No '<', '>', '"' or '\'' survives escaping, so the text cannot open a tag or close an attribute. */
  lemma {:induction false} EscapeHtmlSafe(s: string)
    ensures '<' !in EscapeHtml(s) && '>' !in EscapeHtml(s)
    ensures '"' !in EscapeHtml(s) && '\'' !in EscapeHtml(s)
  {
    EscapeHtmlPerChar(s);
    EscapeEachSafe(s);
  }

  lemma {:induction false} EscapeEachSafe(s: string)
    ensures '<' !in EscapeEach(s) && '>' !in EscapeEach(s)
    ensures '"' !in EscapeEach(s) && '\'' !in EscapeEach(s)
  {
    if s != [] {
      EscapeEachSafe(s[1..]);
      EscapeCharSafe(s[0]);
      var head, tail := EscapeChar(s[0]), EscapeEach(s[1..]);
      assert forall x :: x in head + tail ==> x in head || x in tail;
    }
  }

  /** No single escaped character contains an angle bracket or a quote. */
  lemma EscapeCharSafe(c: char)
    ensures '<' !in EscapeChar(c) && '>' !in EscapeChar(c)
    ensures '"' !in EscapeChar(c) && '\'' !in EscapeChar(c)
  {
  }

  /** Decoding the entities undoes escapeHtml: no information is lost. */
  lemma {:induction false} EscapeHtmlRoundTrip(s: string)
    ensures UnescapeHtml(EscapeHtml(s)) == s
  {
    EscapeHtmlPerChar(s);
    EscapeEachRoundTrip(s);
  }

  /** A character that does not start an entity is decoded as itself. */
  lemma UnescapePlain(c: char, rest: string)
    requires c != '&'
    ensures UnescapeHtml([c] + rest) == [c] + UnescapeHtml(rest)
  {
    var e := [c] + rest;
    if |e| >= 4 { assert e[..4][0] == c; }
    if |e| >= 5 { assert e[..5][0] == c; }
    if |e| >= 6 { assert e[..6][0] == c; }
    assert e[1..] == rest;
  }

  lemma {:induction false} EscapeEachRoundTrip(s: string)
    ensures UnescapeHtml(EscapeEach(s)) == s
  {
    if s != [] {
      var c, rest := s[0], EscapeEach(s[1..]);
      var e := EscapeChar(c) + rest;
      assert EscapeEach(s) == e;
      EscapeEachRoundTrip(s[1..]);
      if c == '&' {
        assert e[..5] == "&amp;" && e[5..] == rest;
      } else if c == '<' {
        assert e[..4] == "&lt;" && e[4..] == rest;
        assert |e| >= 5 ==> e[..5][1] != "&amp;"[1];
      } else if c == '>' {
        assert e[..4] == "&gt;" && e[4..] == rest;
        assert |e| >= 5 ==> e[..5][1] != "&amp;"[1];
        assert e[..4][1] != "&lt;"[1];
      } else if c == '"' {
        assert e[..6] == "&quot;" && e[6..] == rest;
        assert e[..5][1] != "&amp;"[1];
        assert e[..4][1] != "&lt;"[1] && e[..4][1] != "&gt;"[1];
      } else if c == '\'' {
        assert e[..6] == "&#039;" && e[6..] == rest;
        assert e[..5][1] != "&amp;"[1];
        assert e[..4][1] != "&lt;"[1] && e[..4][1] != "&gt;"[1];
        assert e[..6][1] != "&quot;"[1];
      } else {
        UnescapePlain(c, rest);
      }
      assert s == [c] + s[1..];
    }
  }
}
