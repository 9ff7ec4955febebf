/**
 `load_summary`: the tab-separated summary the API audit leaves behind, one
 row per endpoint after a header line, read with `strip().splitlines()` and
 `split("\t")`.
 */
module Summary {
  import opened Wrappers
  import opened Seqs
  import opened Text

  /** The characters `str.splitlines` breaks at (`\r\n` counts once). */
  predicate LineBreak(c: char) {
    var n := c as int;
    n == 0x0A || n == 0x0B || n == 0x0C || n == 0x0D || n == 0x1C || n == 0x1D || n == 0x1E
    || n == 0x85 || n == 0x2028 || n == 0x2029
  }

  /** Text holding no line break. */
  predicate NoBreak(s: string) {
    forall i :: 0 <= i < |s| ==> !LineBreak(s[i])
  }

  /** The leftmost line break of `s`. */
  function FindBreak(s: string): (r: Option<nat>)
    ensures r.Some? ==> r.value < |s| && LineBreak(s[r.value]) && NoBreak(s[..r.value])
    ensures r.None? ==> NoBreak(s)
    decreases |s|
  {
    if |s| == 0 then None
    else if LineBreak(s[0]) then Some(0)
    else
      match FindBreak(s[1..])
      case None => None
      case Some(k) =>
        assert s[..k + 1] == [s[0]] + s[1..][..k];
        Some(k + 1)
  }

  lemma {:induction false} FindBreakAt(s: string, k: nat)
    requires k < |s| && LineBreak(s[k]) && NoBreak(s[..k])
    ensures FindBreak(s) == Some(k)
    decreases k
  {
    if k > 0 {
      assert s[0] == s[..k][0];
      assert s[1..][..k - 1] == s[1..k];
      FindBreakAt(s[1..], k - 1);
    }
  }

  /** `s.splitlines()`: the lines of `s` without their breaks; a final break opens no extra line. */
  function SplitLines(s: string): (r: seq<string>)
    ensures r == [] <==> s == ""
    ensures forall k :: 0 <= k < |r| ==> NoBreak(r[k])
    decreases |s|
  {
    if |s| == 0 then []
    else
      match FindBreak(s)
      case None => [s]
      case Some(k) =>
        var next := if s[k] == '\r' && k + 1 < |s| && s[k + 1] == '\n' then k + 2 else k + 1;
        [s[..k]] + SplitLines(s[next..])
  }

  /** Lines free of breaks, joined with `\n`, split back into themselves unless the last one is empty. */
  lemma {:induction false} SplitLinesJoin(lines: seq<string>)
    requires |lines| >= 1 && |lines[|lines| - 1]| > 0
    requires forall k :: 0 <= k < |lines| ==> NoBreak(lines[k])
    ensures SplitLines(Join(lines, '\n')) == lines
    decreases |lines|
  {
    var s := Join(lines, '\n');
    if |lines| == 1 {
      assert FindBreak(s).None?;
    } else {
      var p := lines[0];
      var tail := Join(lines[1..], '\n');
      assert s == p + ['\n'] + tail;
      assert s[..|p|] == p;
      FindBreakAt(s, |p|);
      assert s[|p| + 1..] == tail;
      SplitLinesJoin(lines[1..]);
    }
  }

  /** `\r\n` ends a single line. */
  lemma CrLfOneBreak(a: string, b: string)
    requires NoBreak(a)
    ensures SplitLines(a + "\r\n" + b) == [a] + SplitLines(b)
  {
    var s := a + "\r\n" + b;
    assert s[..|a|] == a;
    assert s[|a|] == '\r' && s[|a| + 1] == '\n';
    FindBreakAt(s, |a|);
    assert s[|a| + 2..] == b;
  }

  // ---------------------------------------------------------------------------
  // Rows

  /** One endpoint of the audit: its name, HTTP status and URL. */
  datatype Row = Row(name: string, status: string, url: string)

  /** The row a line holds: its first three tab-separated fields, when it has at least three. */
  function RowOf(line: string): (r: Option<Row>)
    ensures r.Some? <==> |Split(line, '\t')| >= 3
    ensures r.Some? ==> '\t' !in r.value.name && '\t' !in r.value.status && '\t' !in r.value.url
  {
    var parts := Split(line, '\t');
    if |parts| >= 3 then Some(Row(parts[0], parts[1], parts[2])) else None
  }

  /** The rows of the lines that hold one, in order. */
  function Rows(lines: seq<string>): (r: seq<Row>)
    ensures |r| <= |lines|
    ensures forall row :: row in r <==> exists i :: 0 <= i < |lines| && RowOf(lines[i]) == Some(row)
  {
    if |lines| == 0 then []
    else
      var rest := Rows(lines[1..]);
      assert forall i :: 1 <= i < |lines| ==> lines[i] == lines[1..][i - 1];
      match RowOf(lines[0])
      case None => rest
      case Some(row) => [row] + rest
  }

  /** A line with at least three tab-separated fields. */
  predicate HoldsRow(line: string) {
    RowOf(line).Some?
  }

  /** The rows of lines that each hold one, line for line. */
  function HeldRows(held: seq<string>): (r: seq<Row>)
    requires forall i :: 0 <= i < |held| ==> HoldsRow(held[i])
    ensures |r| == |held|
    ensures forall i :: 0 <= i < |r| ==> RowOf(held[i]) == Some(r[i])
  {
    if |held| == 0 then []
    else
      assert HoldsRow(held[0]);
      assert forall i :: 1 <= i < |held| ==> held[i] == held[1..][i - 1];
      [RowOf(held[0]).value] + HeldRows(held[1..])
  }

  /**
   Row i of the result is the row of the i-th line that holds one: no line is
   skipped, repeated or reordered.
   */
  lemma RowsInLineOrder(lines: seq<string>)
    ensures var r, held := Rows(lines), Filter(lines, HoldsRow);
      |r| == |held| && forall i :: 0 <= i < |r| ==> RowOf(held[i]) == Some(r[i])
  {
    RowsHeld(lines);
  }

  lemma {:induction false} RowsHeld(lines: seq<string>)
    ensures Rows(lines) == HeldRows(Filter(lines, HoldsRow))
    decreases |lines|
  {
    if |lines| > 0 {
      var later := Filter(lines[1..], HoldsRow);
      assert Rows(lines[1..]) == HeldRows(later) by {
        RowsHeld(lines[1..]);
      }
      if HoldsRow(lines[0]) {
        assert Filter(lines, HoldsRow) == [lines[0]] + later;
        assert ([lines[0]] + later)[1..] == later;
      }
    }
  }

  /** `load_summary`: no file gives no rows; otherwise every line after the first that has three fields. */
  function LoadSummary(content: Option<string>): (r: seq<Row>)
    ensures content.None? || Blank(content.value) ==> r == []
    ensures content.Some? ==> forall row :: row in r <==>
      exists i :: 1 <= i < |SplitLines(Strip(content.value))| && RowOf(SplitLines(Strip(content.value))[i]) == Some(row)
  {
    match content
    case None => []
    case Some(text) =>
      var lines := SplitLines(Strip(text));
      if lines == [] then []
      else
        var r := Rows(lines[1..]);
        assert forall i :: 1 <= i < |lines| ==> lines[i] == lines[1..][i - 1];
        r
  }

  // ---------------------------------------------------------------------------
  // Round trip

  /** A row as the audit writes it. */
  function RowLine(row: Row): (line: string)
    ensures line == Join([row.name, row.status, row.url], '\t')
  {
    var line := row.name + "\t" + row.status + "\t" + row.url;
    assert Join([row.url], '\t') == row.url;
    assert Join([row.status, row.url], '\t') == row.status + "\t" + row.url;
    line
  }

  /** Break-free pieces make break-free text. */
  lemma NoBreakConcat(a: string, b: string)
    requires NoBreak(a) && NoBreak(b)
    ensures NoBreak(a + b)
  {
    assert forall i :: |a| <= i < |a + b| ==> (a + b)[i] == b[i - |a|];
  }

  /** A field the summary can carry: no tab, no line break. */
  predicate Field(s: string) {
    '\t' !in s && NoBreak(s)
  }

  predicate FieldsOk(row: Row) {
    Field(row.name) && Field(row.status) && Field(row.url)
  }

  /** A summary file: the header, then one line per row. */
  function Render(header: string, rows: seq<Row>): (text: string)
    ensures header <= text
  {
    var text := Join([header] + Map(rows, RowLine), '\n');
    JoinFirst([header] + Map(rows, RowLine), '\n');
    text
  }

  lemma JoinFirst(parts: seq<string>, sep: char)
    requires |parts| >= 1
    ensures parts[0] <= Join(parts, sep)
  {
  }

  /** A row line splits back into its row. */
  lemma RowOfLine(row: Row)
    requires FieldsOk(row)
    ensures RowOf(RowLine(row)) == Some(row)
    ensures NoBreak(RowLine(row))
  {
    SplitJoin([row.name, row.status, row.url], '\t');
    NoBreakConcat(row.name, "\t");
    NoBreakConcat(row.name + "\t", row.status);
    NoBreakConcat(row.name + "\t" + row.status, "\t");
    NoBreakConcat(row.name + "\t" + row.status + "\t", row.url);
  }

  /** The rows of rendered row lines are the rows themselves. */
  lemma {:induction false} RowsOfLines(rows: seq<Row>)
    requires forall i :: 0 <= i < |rows| ==> FieldsOk(rows[i])
    ensures Rows(Map(rows, RowLine)) == rows
    decreases |rows|
  {
    if |rows| > 0 {
      RowOfLine(rows[0]);
      assert Map(rows, RowLine)[1..] == Map(rows[1..], RowLine);
      RowsOfLines(rows[1..]);
    }
  }

  /**
   What the audit writes, `load_summary` reads back: rows with tab- and
   break-free fields under a header, as long as the strip cannot reach into
   them — the header starts with a non-space character and the file ends
   with one.
   */
  lemma SummaryRoundTrip(header: string, rows: seq<Row>)
    requires NoBreak(header) && |header| > 0 && !IsSpace(header[0])
    requires forall i :: 0 <= i < |rows| ==> FieldsOk(rows[i])
    requires |rows| == 0 ==> !IsSpace(header[|header| - 1])
    requires |rows| > 0 ==> var u := rows[|rows| - 1].url; |u| > 0 && !IsSpace(u[|u| - 1])
    ensures LoadSummary(Some(Render(header, rows))) == rows
  {
    var lines := [header] + Map(rows, RowLine);
    var text := Join(lines, '\n');
    forall k | 0 <= k < |lines| ensures NoBreak(lines[k]) {
      if k > 0 {
        RowOfLine(rows[k - 1]);
      }
    }
    LastLine(header, rows);
    SplitLinesJoin(lines);
    JoinHead(lines, '\n');
    JoinLast(lines, '\n');
    StripPlain(text);
    assert lines[1..] == Map(rows, RowLine);
    RowsOfLines(rows);
  }

  /** The last line of a rendered summary ends with the header's last character or the last URL's. */
  lemma LastLine(header: string, rows: seq<Row>)
    requires |header| > 0
    requires |rows| > 0 ==> |rows[|rows| - 1].url| > 0
    ensures var lines := [header] + Map(rows, RowLine); var last := lines[|lines| - 1];
      |last| > 0 &&
      last[|last| - 1] == if |rows| == 0 then header[|header| - 1] else rows[|rows| - 1].url[|rows[|rows| - 1].url| - 1]
  {
    if |rows| > 0 {
      var row := rows[|rows| - 1];
      assert ([header] + Map(rows, RowLine))[|rows|] == RowLine(row);
    }
  }

  /** A file that ends in a row with an empty URL loses that row: the strip removes its last tab. */
  lemma EmptyLastUrlLost(header: string, rows: seq<Row>, name: string, status: string)
    requires NoBreak(header) && |header| > 0 && !IsSpace(header[0])
    requires forall i :: 0 <= i < |rows| ==> FieldsOk(rows[i])
    requires Field(name) && Field(status) && |status| > 0 && !IsSpace(status[|status| - 1])
    ensures LoadSummary(Some(Render(header, rows + [Row(name, status, "")]))) == rows
  {
    var cut := CutLines(header, rows, name, status);
    CutStrip(header, rows, name, status);
    CutNoBreak(header, rows, name, status);
    SplitLinesJoin(cut);
    LoadLines(Render(header, rows + [Row(name, status, "")]), cut);
    CutRows(header, rows, name, status);
  }

  lemma CutStrip(header: string, rows: seq<Row>, name: string, status: string)
    requires |header| > 0 && !IsSpace(header[0])
    requires |status| > 0 && !IsSpace(status[|status| - 1])
    ensures Strip(Render(header, rows + [Row(name, status, "")])) == Join(CutLines(header, rows, name, status), '\n')
  {
    var cut := CutLines(header, rows, name, status);
    CutRender(header, rows, name, status);
    JoinHead(cut, '\n');
    JoinLast(cut, '\n');
    StripTrailingSpace(Join(cut, '\n'), '\t');
  }

  lemma CutRows(header: string, rows: seq<Row>, name: string, status: string)
    requires forall i :: 0 <= i < |rows| ==> FieldsOk(rows[i])
    requires Field(name) && Field(status)
    ensures Rows(CutLines(header, rows, name, status)[1..]) == rows
  {
    assert CutLines(header, rows, name, status)[1..] == Map(rows, RowLine) + [name + "\t" + status];
    TwoFields(name, status);
    RowsSnoc(Map(rows, RowLine), name + "\t" + status);
    RowsOfLines(rows);
  }

  /** Once the lines are known, the summary is the rows of all but the first. */
  lemma LoadLines(text: string, lines: seq<string>)
    requires SplitLines(Strip(text)) == lines && |lines| >= 1
    ensures LoadSummary(Some(text)) == Rows(lines[1..])
  {
  }

  /** The lines of a summary whose last row lost its final tab. */
  function CutLines(header: string, rows: seq<Row>, name: string, status: string): (r: seq<string>)
    ensures |r| == |rows| + 2 && r[0] == header && r[|r| - 1] == name + "\t" + status
  {
    [header] + Map(rows, RowLine) + [name + "\t" + status]
  }

  lemma CutRender(header: string, rows: seq<Row>, name: string, status: string)
    ensures Render(header, rows + [Row(name, status, "")]) == Join(CutLines(header, rows, name, status), '\n') + "\t"
  {
    var all := rows + [Row(name, status, "")];
    var lines := [header] + Map(all, RowLine);
    var cut := CutLines(header, rows, name, status);
    var n := |lines|;
    var x := name + "\t" + status;
    assert lines[n - 1] == RowLine(all[n - 2]) == x + "\t";
    assert lines == cut[..n - 1] + [x + "\t"];
    JoinExtendLast(cut, '\n', "\t");
  }

  lemma CutNoBreak(header: string, rows: seq<Row>, name: string, status: string)
    requires NoBreak(header) && Field(name) && Field(status)
    requires forall i :: 0 <= i < |rows| ==> FieldsOk(rows[i])
    ensures forall k :: 0 <= k < |rows| + 2 ==> NoBreak(CutLines(header, rows, name, status)[k])
  {
    var cut := CutLines(header, rows, name, status);
    forall k | 0 <= k < |cut| ensures NoBreak(cut[k]) {
      if 0 < k < |cut| - 1 {
        RowOfLine(rows[k - 1]);
        assert cut[k] == RowLine(rows[k - 1]);
      } else if k == |cut| - 1 {
        TwoFields(name, status);
      }
    }
  }

  /** Two fields make a line without a row. */
  lemma TwoFields(name: string, status: string)
    requires Field(name) && Field(status)
    ensures RowOf(name + "\t" + status) == None
    ensures NoBreak(name + "\t" + status)
  {
    assert Join([status], '\t') == status;
    assert Join([name, status], '\t') == name + "\t" + status;
    SplitJoin([name, status], '\t');
    NoBreakConcat(name, "\t");
    NoBreakConcat(name + "\t", status);
  }

  /** A last line without a row adds nothing. */
  lemma {:induction false} RowsSnoc(lines: seq<string>, x: string)
    requires RowOf(x) == None
    ensures Rows(lines + [x]) == Rows(lines)
    decreases |lines|
  {
    if |lines| == 0 {
      assert Rows([x]) == Rows([x][1..]);
    } else {
      assert (lines + [x])[1..] == lines[1..] + [x];
      RowsSnoc(lines[1..], x);
    }
  }
}
