/**
 * parseDelimited: the character-by-character CSV/TSV reader used by the
 * import code. Run is the state machine as a function of the unread text;
 * ParseDelimited is the loop over an index, proved to compute it; the
 * lemmas state what the machine does as a whole: the row count, quoting
 * round-trips, and plain splitting when the text has no quotes.
 */
module Delimited {

  /** The loop variables: finished rows, the row being built, the field being built, quote mode. */
  datatype ParseState = ParseState(rows: seq<seq<string>>, row: seq<string>, field: string, inQuotes: bool)

  const Start := ParseState([], [], "", false)

  /** After the loop: push the last field and the last row. */
  function Finish(st: ParseState): seq<seq<string>>
  {
    st.rows + [st.row + [st.field]]
  }

  /**
   * One pass of the loop body on the unread text s: how many characters it
   * consumes and the state it leaves.
   */
  function Step(s: string, delimiter: char, st: ParseState): (r: (nat, ParseState))
    requires |s| > 0
    ensures 1 <= r.0 <= |s|
  {
    if st.inQuotes then
      if s[0] == '"' && |s| > 1 && s[1] == '"' then (2, st.(field := st.field + "\""))
      else if s[0] == '"' then (1, st.(inQuotes := false))
      else (1, st.(field := st.field + [s[0]]))
    else if s[0] == '"' then (1, st.(inQuotes := true))
    else if s[0] == delimiter then (1, st.(row := st.row + [st.field], field := ""))
    else if s[0] == '\n' then (1, st.(rows := st.rows + [st.row + [st.field]], row := [], field := ""))
    else if s[0] == '\r' then (1, st)
    else (1, st.(field := st.field + [s[0]]))
  }

  /** The rows produced from state st when s is the text not yet read. */
  function Run(s: string, delimiter: char, st: ParseState): seq<seq<string>>
    decreases |s|
  {
    if |s| == 0 then Finish(st)
    else
      var (n, next) := Step(s, delimiter, st);
      Run(s[n..], delimiter, next)
  }

  function Parse(text: string, delimiter: char): seq<seq<string>>
  {
    Run(text, delimiter, Start)
  }

  method ParseDelimited(text: string, delimiter: char) returns (rows: seq<seq<string>>)
    ensures rows == Parse(text, delimiter)
    ensures |rows| >= 1
  {
    rows := [];
    var i, field, row, inQuotes := 0, "", [], false;
    while i < |text|
      invariant 0 <= i <= |text|
      invariant Run(text[i..], delimiter, ParseState(rows, row, field, inQuotes)) == Parse(text, delimiter)
      decreases |text| - i
    {
      var c := text[i];
      ghost var rest := text[i..];
      assert rest[0] == c && rest[1..] == text[i + 1..];
      if inQuotes {
        if c == '"' && i + 1 < |text| && text[i + 1] == '"' {
          assert rest[1] == text[i + 1] && rest[2..] == text[i + 2..];
          field := field + "\"";
          i := i + 2;
          continue;
        }
        if c == '"' {
          inQuotes := false;
          i := i + 1;
          continue;
        }
        field := field + [c];
        i := i + 1;
        continue;
      } else {
        if c == '"' {
          inQuotes := true;
          i := i + 1;
          continue;
        }
        if c == delimiter {
          row := row + [field];
          field := "";
          i := i + 1;
          continue;
        }
        if c == '\n' {
          row := row + [field];
          field := "";
          rows := rows + [row];
          row := [];
          i := i + 1;
          continue;
        }
        if c == '\r' {
          i := i + 1;
          continue;
        }
        field := field + [c];
        i := i + 1;
        continue;
      }
    }
    assert text[i..] == [];
    row := row + [field];
    field := "";
    rows := rows + [row];
  }

  // ---------------------------------------------------------------------
  // Row count: one row per newline read outside quotes, plus the final row.

  /**
   * Newlines that are outside quotes, where quote mode is simply the parity
   * of the '"' characters seen so far (q is the mode on entry).
   */
  function UnquotedNewlines(s: string, q: bool): nat
  {
    if s == [] then 0
    else (if s[0] == '\n' && !q then 1 else 0) + UnquotedNewlines(s[1..], if s[0] == '"' then !q else q)
  }

  lemma {:induction false} RunRowCount(s: string, d: char, st: ParseState)
    requires d != '\n'
    ensures |Run(s, d, st)| == |st.rows| + UnquotedNewlines(s, st.inQuotes) + 1
    decreases |s|
  {
    if |s| > 0 {
      var (n, next) := Step(s, d, st);
      RunRowCount(s[n..], d, next);
      if n == 2 {
        assert s[1..][1..] == s[2..];
        assert UnquotedNewlines(s[1..], false) == UnquotedNewlines(s[2..], true);
      }
    }
  }

  /** The parser always emits a final row: rows = newlines outside quotes + 1. */
  lemma ParseRowCount(text: string, delimiter: char)
    requires delimiter != '\n'
    ensures |Parse(text, delimiter)| == UnquotedNewlines(text, false) + 1
  {
    RunRowCount(text, delimiter, Start);
  }

  // ---------------------------------------------------------------------
  // Round trip: quoting every field and doubling its quotes is undone by the parser.

  /** The field body with every '"' doubled. */
  function DoubleQuotes(f: string): string
  {
    if f == [] then [] else (if f[0] == '"' then "\"\"" else [f[0]]) + DoubleQuotes(f[1..])
  }

  function QuoteField(f: string): string
  {
    "\"" + DoubleQuotes(f) + "\""
  }

  /** A row of quoted fields joined by the delimiter. */
  function JoinRow(r: seq<string>, d: char): string
    requires |r| > 0
  {
    if |r| == 1 then QuoteField(r[0]) else QuoteField(r[0]) + [d] + JoinRow(r[1..], d)
  }

  /** Rows joined by newlines. */
  function JoinTable(t: seq<seq<string>>, d: char): string
    requires |t| > 0 && forall k :: 0 <= k < |t| ==> |t[k]| > 0
  {
    if |t| == 1 then JoinRow(t[0], d) else JoinRow(t[0], d) + "\n" + JoinTable(t[1..], d)
  }

  /** Inside quotes, a doubled quote reads as one '"', and delimiters and newlines are field content. */
  lemma {:induction false} RunQuotedBody(f: string, rest: string, d: char, st: ParseState)
    requires st.inQuotes
    requires rest == [] || rest[0] != '"'
    ensures Run(DoubleQuotes(f) + "\"" + rest, d, st) == Run(rest, d, st.(field := st.field + f, inQuotes := false))
    decreases |f|
  {
    var s := DoubleQuotes(f) + "\"" + rest;
    if f == [] {
      assert s == "\"" + rest;
      assert s[1..] == rest;
      assert st.field + f == st.field;
    } else {
      RunQuotedBody(f[1..], rest, d, st.(field := st.field + [f[0]]));
      RunQuotedBodyCons(f, rest, d, st);
    }
  }

  lemma RunQuotedBodyCons(f: string, rest: string, d: char, st: ParseState)
    requires st.inQuotes && |f| > 0
    requires Run(DoubleQuotes(f[1..]) + "\"" + rest, d, st.(field := st.field + [f[0]]))
          == Run(rest, d, st.(field := st.field + [f[0]] + f[1..], inQuotes := false))
    ensures Run(DoubleQuotes(f) + "\"" + rest, d, st) == Run(rest, d, st.(field := st.field + f, inQuotes := false))
  {
    var s := DoubleQuotes(f) + "\"" + rest;
    var tail := DoubleQuotes(f[1..]) + "\"" + rest;
    assert st.field + [f[0]] + f[1..] == st.field + f;
    if f[0] == '"' {
      assert s == "\"\"" + tail;
      assert s[2..] == tail;
      assert st.field + "\"" == st.field + [f[0]];
    } else {
      assert s == [f[0]] + tail;
      assert s[1..] == tail;
    }
  }

  lemma RunQuotedField(f: string, rest: string, d: char, st: ParseState)
    requires !st.inQuotes
    requires rest == [] || rest[0] != '"'
    ensures Run(QuoteField(f) + rest, d, st) == Run(rest, d, st.(field := st.field + f))
  {
    var s := QuoteField(f) + rest;
    assert s[0] == '"';
    assert s[1..] == DoubleQuotes(f) + "\"" + rest;
    RunQuotedBody(f, rest, d, st.(inQuotes := true));
  }

  /** Outside quotes the delimiter closes the field. */
  lemma RunDelimiter(s: string, d: char, st: ParseState)
    requires |s| > 0 && s[0] == d && d != '"' && !st.inQuotes
    ensures Run(s, d, st) == Run(s[1..], d, st.(row := st.row + [st.field], field := ""))
  {
  }

  /** Outside quotes a newline closes the field and the row. */
  lemma RunNewline(s: string, d: char, st: ParseState)
    requires |s| > 0 && s[0] == '\n' && d != '\n' && !st.inQuotes
    ensures Run(s, d, st) == Run(s[1..], d, st.(rows := st.rows + [st.row + [st.field]], row := [], field := ""))
  {
  }

  /** Outside quotes a carriage return is skipped. */
  lemma RunCarriageReturn(s: string, d: char, st: ParseState)
    requires |s| > 0 && s[0] == '\r' && d != '\r' && !st.inQuotes
    ensures Run(s, d, st) == Run(s[1..], d, st)
  {
  }

  /** Outside quotes any other character is appended to the field. */
  lemma RunOrdinary(s: string, d: char, st: ParseState)
    requires |s| > 0 && s[0] !in {'"', '\n', '\r', d} && !st.inQuotes
    ensures Run(s, d, st) == Run(s[1..], d, st.(field := st.field + [s[0]]))
  {
  }

  /** The state after reading a joined row: every field but the last is in the row, the last is pending. */
  function AfterRow(rows: seq<seq<string>>, acc: seq<string>, r: seq<string>): ParseState
    requires |r| > 0
  {
    ParseState(rows, acc + r[..|r| - 1], r[|r| - 1], false)
  }

  lemma {:induction false} RunJoinRow(r: seq<string>, rest: string, d: char, rows: seq<seq<string>>, acc: seq<string>)
    requires |r| > 0 && d != '"'
    requires rest == [] || rest[0] == '\n'
    ensures Run(JoinRow(r, d) + rest, d, ParseState(rows, acc, "", false)) == Run(rest, d, AfterRow(rows, acc, r))
    decreases |r|
  {
    if |r| == 1 {
      RunJoinRowLast(r, rest, d, rows, acc);
    } else {
      RunJoinRow(r[1..], rest, d, rows, acc + [r[0]]);
      RunJoinRowCons(r, rest, d, rows, acc);
    }
  }

  lemma RunJoinRowLast(r: seq<string>, rest: string, d: char, rows: seq<seq<string>>, acc: seq<string>)
    requires |r| == 1 && d != '"'
    requires rest == [] || rest[0] == '\n'
    ensures Run(JoinRow(r, d) + rest, d, ParseState(rows, acc, "", false)) == Run(rest, d, AfterRow(rows, acc, r))
  {
    var st := ParseState(rows, acc, "", false);
    RunQuotedField(r[0], rest, d, st);
    assert st.(field := st.field + r[0]) == AfterRow(rows, acc, r) by {
      assert "" + r[0] == r[0];
      assert r[..0] == [] && acc + [] == acc;
    }
  }

  lemma RunJoinRowCons(r: seq<string>, rest: string, d: char, rows: seq<seq<string>>, acc: seq<string>)
    requires |r| > 1 && d != '"'
    requires Run(JoinRow(r[1..], d) + rest, d, ParseState(rows, acc + [r[0]], "", false))
          == Run(rest, d, AfterRow(rows, acc + [r[0]], r[1..]))
    ensures Run(JoinRow(r, d) + rest, d, ParseState(rows, acc, "", false)) == Run(rest, d, AfterRow(rows, acc, r))
  {
    var tail := JoinRow(r[1..], d) + rest;
    assert JoinRow(r, d) + rest == QuoteField(r[0]) + ([d] + tail);
    RunJoinRowHead(r[0], tail, d, rows, acc);
    assert AfterRow(rows, acc + [r[0]], r[1..]) == AfterRow(rows, acc, r) by {
      assert acc + [r[0]] + r[1..][..|r| - 2] == acc + r[..|r| - 1];
    }
  }

  /** A quoted field followed by the delimiter adds that field to the row. */
  lemma RunJoinRowHead(f: string, tail: string, d: char, rows: seq<seq<string>>, acc: seq<string>)
    requires d != '"'
    ensures Run(QuoteField(f) + ([d] + tail), d, ParseState(rows, acc, "", false))
         == Run(tail, d, ParseState(rows, acc + [f], "", false))
  {
    var st := ParseState(rows, acc, "", false);
    var after := [d] + tail;
    RunQuotedField(f, after, d, st);
    assert "" + f == f;
    RunDelimiter(after, d, st.(field := f));
    assert after[1..] == tail;
  }

  lemma {:induction false} RunJoinTable(t: seq<seq<string>>, d: char, rows: seq<seq<string>>)
    requires d != '"' && d != '\n'
    requires |t| > 0 && forall k :: 0 <= k < |t| ==> |t[k]| > 0
    ensures Run(JoinTable(t, d), d, ParseState(rows, [], "", false)) == rows + t
    decreases |t|
  {
    var r := t[0];
    if |t| == 1 {
      RunLastRow(r, d, rows);
      assert rows + t == rows + [r];
    } else {
      RunJoinTable(t[1..], d, rows + [r]);
      RunJoinTableCons(t, d, rows);
    }
  }

  lemma RunJoinTableCons(t: seq<seq<string>>, d: char, rows: seq<seq<string>>)
    requires d != '"' && d != '\n'
    requires |t| > 1 && forall k :: 0 <= k < |t| ==> |t[k]| > 0
    requires Run(JoinTable(t[1..], d), d, ParseState(rows + [t[0]], [], "", false)) == rows + [t[0]] + t[1..]
    ensures Run(JoinTable(t, d), d, ParseState(rows, [], "", false)) == rows + t
  {
    var u := JoinTable(t[1..], d);
    assert JoinTable(t, d) == JoinRow(t[0], d) + ("\n" + u);
    RunRowNewline(t[0], u, d, rows);
    assert rows + [t[0]] + t[1..] == rows + t;
  }

  /** A joined row at the end of the text becomes the last row. */
  lemma RunLastRow(r: seq<string>, d: char, rows: seq<seq<string>>)
    requires |r| > 0 && d != '"'
    ensures Run(JoinRow(r, d), d, ParseState(rows, [], "", false)) == rows + [r]
  {
    RunJoinRow(r, [], d, rows, []);
    assert JoinRow(r, d) + [] == JoinRow(r, d);
    assert [] + r[..|r| - 1] + [r[|r| - 1]] == r;
  }

  /** A joined row followed by a newline becomes a finished row. */
  lemma RunRowNewline(r: seq<string>, u: string, d: char, rows: seq<seq<string>>)
    requires |r| > 0 && d != '"' && d != '\n'
    ensures Run(JoinRow(r, d) + ("\n" + u), d, ParseState(rows, [], "", false))
         == Run(u, d, ParseState(rows + [r], [], "", false))
  {
    var rest := "\n" + u;
    RunJoinRow(r, rest, d, rows, []);
    var last := AfterRow(rows, [], r);
    assert last.row + [last.field] == r by {
      assert [] + r[..|r| - 1] + [r[|r| - 1]] == r;
    }
    RunNewline(rest, d, last);
    assert rest[1..] == u;
  }

  /**
   * Any table whose rows are non-empty survives being written with every
   * field quoted and read back: quoted fields may hold the delimiter,
   * newlines, carriage returns and doubled quotes.
   */
  lemma ParseJoinTable(t: seq<seq<string>>, delimiter: char)
    requires delimiter != '"' && delimiter != '\n'
    requires |t| > 0 && forall k :: 0 <= k < |t| ==> |t[k]| > 0
    ensures Parse(JoinTable(t, delimiter), delimiter) == t
  {
    RunJoinTable(t, delimiter, []);
  }

  // ---------------------------------------------------------------------
  // Text without quotes: drop '\r', split rows at '\n', split fields at the delimiter.

  /** s split at every occurrence of sep; always at least one piece. */
  function Split(s: string, sep: char): (parts: seq<string>)
    ensures |parts| >= 1
  {
    if s == [] then [[]]
    else
      var t := Split(s[1..], sep);
      if s[0] == sep then [[]] + t else [[s[0]] + t[0]] + t[1..]
  }

  function DropCR(s: string): string
  {
    if s == [] then [] else (if s[0] == '\r' then [] else [s[0]]) + DropCR(s[1..])
  }

  function SplitFields(lines: seq<string>, d: char): (t: seq<seq<string>>)
    ensures |t| == |lines|
    ensures forall k :: 0 <= k < |t| ==> t[k] == Split(lines[k], d)
  {
    if lines == [] then [] else [Split(lines[0], d)] + SplitFields(lines[1..], d)
  }

  /** The table a quote-free text denotes: carriage returns dropped, rows at '\n', fields at the delimiter. */
  function PlainTable(s: string, d: char): (t: seq<seq<string>>)
    ensures |t| > 0 && forall k :: 0 <= k < |t| ==> |t[k]| > 0
  {
    SplitFields(Split(DropCR(s), '\n'), d)
  }

  /** Put a pending row and field in front of the first row of a table. */
  function Glue(row: seq<string>, field: string, t: seq<seq<string>>): seq<seq<string>>
    requires |t| > 0 && |t[0]| > 0
  {
    [row + [field + t[0][0]] + t[0][1..]] + t[1..]
  }

  lemma PlainTableShape(s: string, d: char)
    ensures |PlainTable(s, d)| > 0 && |PlainTable(s, d)[0]| > 0
  {
  }

  // How the reference table of s is built from that of s[1..], one lemma per kind of first character.

  lemma PlainTableCarriageReturn(s: string, d: char)
    requires |s| > 0 && s[0] == '\r'
    ensures PlainTable(s, d) == PlainTable(s[1..], d)
  {
    assert DropCR(s) == DropCR(s[1..]);
  }

  lemma PlainTableNewline(s: string, d: char)
    requires |s| > 0 && s[0] == '\n'
    ensures PlainTable(s, d) == [[[]]] + PlainTable(s[1..], d)
  {
    var lines' := Split(DropCR(s[1..]), '\n');
    assert DropCR(s) == [s[0]] + DropCR(s[1..]);
    assert DropCR(s)[1..] == DropCR(s[1..]);
    assert Split(DropCR(s), '\n') == [[]] + lines';
    assert SplitFields([[]] + lines', d) == [Split([], d)] + SplitFields(lines', d);
  }

  lemma PlainTableOther(s: string, d: char)
    requires |s| > 0 && s[0] != '\r' && s[0] != '\n'
    ensures var lines, lines' := Split(DropCR(s), '\n'), Split(DropCR(s[1..]), '\n');
      lines[0] == [s[0]] + lines'[0] && PlainTable(s, d) == [Split(lines[0], d)] + PlainTable(s[1..], d)[1..]
  {
    var c := s[0];
    var lines' := Split(DropCR(s[1..]), '\n');
    assert DropCR(s) == [c] + DropCR(s[1..]);
    assert DropCR(s)[1..] == DropCR(s[1..]);
    var lines := Split(DropCR(s), '\n');
    assert lines == [[c] + lines'[0]] + lines'[1..];
    assert SplitFields(lines, d) == [Split(lines[0], d)] + SplitFields(lines'[1..], d);
    assert SplitFields(lines', d) == [Split(lines'[0], d)] + SplitFields(lines'[1..], d);
  }

  lemma PlainTableDelimiter(s: string, d: char)
    requires |s| > 0 && s[0] == d && d != '\r' && d != '\n'
    ensures var t' := PlainTable(s[1..], d); PlainTable(s, d) == [[[]] + t'[0]] + t'[1..]
  {
    PlainTableOther(s, d);
    var lines := Split(DropCR(s), '\n');
    assert lines[0][1..] == Split(DropCR(s[1..]), '\n')[0];
  }

  lemma PlainTableOrdinary(s: string, d: char)
    requires |s| > 0 && s[0] != d && s[0] != '\r' && s[0] != '\n'
    ensures var t' := PlainTable(s[1..], d); PlainTable(s, d) == [[[s[0]] + t'[0][0]] + t'[0][1..]] + t'[1..]
  {
    PlainTableOther(s, d);
    var lines := Split(DropCR(s), '\n');
    assert lines[0][1..] == Split(DropCR(s[1..]), '\n')[0];
  }

  lemma {:induction false} RunPlain(s: string, d: char, st: ParseState)
    requires d != '"' && d != '\n' && d != '\r'
    requires '"' !in s && !st.inQuotes
    ensures PlainTable(s, d) != [] && PlainTable(s, d)[0] != []
    ensures Run(s, d, st) == st.rows + Glue(st.row, st.field, PlainTable(s, d))
    decreases |s|
  {
    PlainTableShape(s, d);
    if |s| == 0 {
      assert DropCR(s) == [];
      assert PlainTable(s, d) == [[[]]];
      assert Glue(st.row, st.field, [[[]]]) == [st.row + [st.field]] by {
        assert st.field + [] == st.field;
        assert st.row + [st.field] + [] == st.row + [st.field];
      }
    } else {
      var c, s' := s[0], s[1..];
      assert '"' !in s';
      if c == '\r' {
        RunPlain(s', d, st);
        RunPlainCarriageReturn(s, d, st);
      } else if c == d {
        RunPlain(s', d, st.(row := st.row + [st.field], field := ""));
        RunPlainDelimiter(s, d, st);
      } else if c == '\n' {
        RunPlain(s', d, st.(rows := st.rows + [st.row + [st.field]], row := [], field := ""));
        RunPlainNewline(s, d, st);
      } else {
        RunPlain(s', d, st.(field := st.field + [c]));
        RunPlainOrdinary(s, d, st);
      }
    }
  }

  lemma RunPlainCarriageReturn(s: string, d: char, st: ParseState)
    requires d != '"' && d != '\n' && d != '\r' && !st.inQuotes
    requires |s| > 0 && s[0] == '\r'
    requires Run(s[1..], d, st) == st.rows + Glue(st.row, st.field, PlainTable(s[1..], d))
    ensures Run(s, d, st) == st.rows + Glue(st.row, st.field, PlainTable(s, d))
  {
    PlainTableCarriageReturn(s, d);
    RunCarriageReturn(s, d, st);
  }

  lemma RunPlainDelimiter(s: string, d: char, st: ParseState)
    requires d != '"' && d != '\n' && d != '\r' && !st.inQuotes
    requires |s| > 0 && s[0] == d
    requires var st' := st.(row := st.row + [st.field], field := "");
      Run(s[1..], d, st') == st'.rows + Glue(st'.row, st'.field, PlainTable(s[1..], d))
    ensures Run(s, d, st) == st.rows + Glue(st.row, st.field, PlainTable(s, d))
  {
    PlainTableDelimiter(s, d);
    RunDelimiter(s, d, st);
    GlueDelimiter(st.row, st.field, PlainTable(s[1..], d));
  }

  lemma RunPlainNewline(s: string, d: char, st: ParseState)
    requires d != '"' && d != '\n' && d != '\r' && !st.inQuotes
    requires |s| > 0 && s[0] == '\n'
    requires var st' := st.(rows := st.rows + [st.row + [st.field]], row := [], field := "");
      Run(s[1..], d, st') == st'.rows + Glue(st'.row, st'.field, PlainTable(s[1..], d))
    ensures Run(s, d, st) == st.rows + Glue(st.row, st.field, PlainTable(s, d))
  {
    var st' := st.(rows := st.rows + [st.row + [st.field]], row := [], field := "");
    RunNewline(s, d, st);
    PlainTableNewline(s, d);
    GlueAfterNewline(st.rows, st.row, st.field, PlainTable(s[1..], d), PlainTable(s, d));
  }

  lemma RunPlainOrdinary(s: string, d: char, st: ParseState)
    requires d != '"' && d != '\n' && d != '\r' && !st.inQuotes
    requires |s| > 0 && s[0] !in {'"', '\n', '\r', d}
    requires var st' := st.(field := st.field + [s[0]]);
      Run(s[1..], d, st') == st'.rows + Glue(st'.row, st'.field, PlainTable(s[1..], d))
    ensures Run(s, d, st) == st.rows + Glue(st.row, st.field, PlainTable(s, d))
  {
    PlainTableOrdinary(s, d);
    RunOrdinary(s, d, st);
    GlueOrdinary(st.row, st.field, s[0], PlainTable(s[1..], d));
  }

  lemma GlueDelimiter(row: seq<string>, field: string, t': seq<seq<string>>)
    requires |t'| > 0 && |t'[0]| > 0
    ensures Glue(row, field, [[[]] + t'[0]] + t'[1..]) == Glue(row + [field], "", t')
  {
    var t := [[[]] + t'[0]] + t'[1..];
    assert t[0][0] == [] && t[0][1..] == t'[0] && t[1..] == t'[1..];
    assert field + [] == field && "" + t'[0][0] == t'[0][0];
    assert t'[0] == [t'[0][0]] + t'[0][1..];
    assert row + [field] + t'[0] == row + [field] + [t'[0][0]] + t'[0][1..];
  }

  lemma GlueOrdinary(row: seq<string>, field: string, c: char, t': seq<seq<string>>)
    requires |t'| > 0 && |t'[0]| > 0
    ensures Glue(row, field, [[[c] + t'[0][0]] + t'[0][1..]] + t'[1..]) == Glue(row, field + [c], t')
  {
    assert field + [c] + t'[0][0] == field + ([c] + t'[0][0]);
  }

  lemma GlueAfterNewline(rows: seq<seq<string>>, row: seq<string>, field: string, t': seq<seq<string>>, t: seq<seq<string>>)
    requires |t'| > 0 && |t'[0]| > 0 && t == [[[]]] + t'
    ensures |t[0]| > 0
    ensures (rows + [row + [field]]) + Glue([], "", t') == rows + Glue(row, field, t)
  {
    GlueNewline(row, field, t');
  }

  lemma GlueNewline(row: seq<string>, field: string, t': seq<seq<string>>)
    requires |t'| > 0 && |t'[0]| > 0
    ensures Glue([], "", t') == t'
    ensures Glue(row, field, [[[]]] + t') == [row + [field]] + t'
  {
    assert "" + t'[0][0] == t'[0][0];
    assert [] + [t'[0][0]] + t'[0][1..] == t'[0];
    assert [t'[0]] + t'[1..] == t';
    var t := [[[]]] + t';
    assert t[0] == [[]] && t[1..] == t';
    assert field + [] == field;
    assert t[0][1..] == [];
    assert row + [field] + [] == row + [field];
  }

  /**
   * Outside quotes the reader is plain splitting: a carriage return is
   * dropped, the delimiter ends a field and a newline ends a row.
   */
  lemma ParsePlainText(text: string, delimiter: char)
    requires delimiter != '"' && delimiter != '\n' && delimiter != '\r'
    requires '"' !in text
    ensures Parse(text, delimiter) == PlainTable(text, delimiter)
  {
    RunPlain(text, delimiter, Start);
    GlueNewline([], "", PlainTable(text, delimiter));
  }
}
