/** Markdown table parsing and layout for the ReportLab backend (parse_markdown_table),
    and the cell wrapper wrap_text_for_table. */
module Tables {
  import opened Wrappers
  import opened Text
  import opened Markup

  /** A separator cell (pdf_docx_api.py:392): non-empty and made only of dashes, colons and
      whitespace. */
  predicate IsSeparatorCell(cell: string) {
    |cell| > 0 && forall i :: 0 <= i < |cell| ==> cell[i] == '-' || cell[i] == ':' || IsSpace(cell[i])
  }

  /** An alignment row such as |---|:---:|---:| */
  predicate IsSeparatorRow(cells: seq<string>) {
    forall i :: 0 <= i < |cells| ==> IsSeparatorCell(cells[i])
  }

  /** The stripped pieces that are not empty, in order. */
  function NonEmptyStripped(pieces: seq<string>): (r: seq<string>)
    ensures |r| <= |pieces|
    ensures forall i :: 0 <= i < |r| ==> r[i] != []
  {
    if pieces == [] then []
    else (if Strip(pieces[0]) != [] then [Strip(pieces[0])] else []) + NonEmptyStripped(pieces[1..])
  }

  /** Each kept piece is trimmed: no whitespace at either end. */
  lemma {:induction false} NonEmptyStrippedTrimmed(pieces: seq<string>)
    ensures forall c :: c in NonEmptyStripped(pieces) ==> !IsSpace(c[0]) && !IsSpace(c[|c| - 1])
  {
    if pieces != [] {
      NonEmptyStrippedTrimmed(pieces[1..]);
    }
  }

  /** The cells of a table line (pdf_docx_api.py:386): the pieces between '|' characters,
      stripped, with the empty ones dropped. */
  function Cells(line: string): seq<string> {
    NonEmptyStripped(SplitOn(line, '|'))
  }

  /** A row is kept when it has a cell and is not an alignment row. */
  predicate KeepsRow(cells: seq<string>) {
    |cells| > 0 && !IsSeparatorRow(cells)
  }

  /** The cells of every line, in order. */
  function CellsAll(lines: seq<string>): (r: seq<seq<string>>)
    ensures |r| == |lines|
  {
    if lines == [] then [] else CellsAll(lines[..|lines| - 1]) + [Cells(lines[|lines| - 1])]
  }

  /** The kept rows among per-line cell lists, in order. */
  function KeptRows(cellLines: seq<seq<string>>): (rows: seq<seq<string>>)
    ensures |rows| <= |cellLines|
  {
    if cellLines == [] then []
    else
      var cells := cellLines[|cellLines| - 1];
      KeptRows(cellLines[..|cellLines| - 1]) + (if KeepsRow(cells) then [cells] else [])
  }

  /** The rows that survive, in line order. */
  function TableRows(lines: seq<string>): (rows: seq<seq<string>>)
    ensures |rows| <= |lines|
  {
    KeptRows(CellsAll(lines))
  }

  /** Every kept row is non-empty and not an alignment row. */
  lemma {:induction false} KeptRowsKept(cellLines: seq<seq<string>>)
    ensures forall row :: row in KeptRows(cellLines) ==> KeepsRow(row)
  {
    if cellLines != [] {
      KeptRowsKept(cellLines[..|cellLines| - 1]);
    }
  }

  lemma {:induction false} KeptRowsAppend(cellLines: seq<seq<string>>, cells: seq<string>)
    ensures KeptRows(cellLines + [cells]) == KeptRows(cellLines) + (if KeepsRow(cells) then [cells] else [])
  {
    assert (cellLines + [cells])[..|cellLines|] == cellLines;
  }

  lemma {:induction false} CellsAllAppend(lines: seq<string>, line: string)
    ensures CellsAll(lines + [line]) == CellsAll(lines) + [Cells(line)]
  {
    assert (lines + [line])[..|lines|] == lines;
  }

  /** An alignment row is dropped wherever it stands; any other line with a cell is kept. */
  lemma {:induction false} TableRowsAppend(lines: seq<string>, line: string)
    ensures IsSeparatorRow(Cells(line)) ==> TableRows(lines + [line]) == TableRows(lines)
    ensures KeepsRow(Cells(line)) ==> TableRows(lines + [line]) == TableRows(lines) + [Cells(line)]
  {
    CellsAllAppend(lines, line);
    KeptRowsAppend(CellsAll(lines), Cells(line));
  }

  /** The rows of the first i + 1 lines extend those of the first i by line i's row, if kept. */
  lemma {:induction false} TableRowsPrefix(lines: seq<string>, i: nat)
    requires i < |lines|
    ensures TableRows(lines[..i + 1])
         == TableRows(lines[..i]) + (if KeepsRow(Cells(lines[i])) then [Cells(lines[i])] else [])
  {
    assert lines[..i + 1] == lines[..i] + [lines[i]];
    CellsAllAppend(lines[..i], lines[i]);
    KeptRowsAppend(CellsAll(lines[..i]), Cells(lines[i]));
  }

  /** The surviving rows are non-empty and none is an alignment row. */
  lemma {:induction false} TableRowsKept(lines: seq<string>)
    ensures forall row :: row in TableRows(lines) ==> |row| > 0 && !IsSeparatorRow(row)
  {
    KeptRowsKept(CellsAll(lines));
  }

  /** A4 width in points (210 mm), and ReportLab's page margins. */
  const PageWidth: real := 595.2755905511812
  const LeftMargin: real := 72.0
  const RightMargin: real := 72.0
  const AvailableWidth: real := PageWidth - LeftMargin - RightMargin
  /** Tables with more columns than this get the small font tier. */
  const WideColumnThreshold: nat := 6

  datatype CellStyle = CellStyle(name: string, fontName: string, fontSize: nat, leading: real)

  /** A cell: a ReportLab Paragraph holding the cell's markup in one of the two cell styles. */
  datatype Cell = Cell(text: string, style: CellStyle)

  /** The ReportLab Table: explicit column widths, the padding of its TableStyle, the cell grid. */
  datatype TableLayout = TableLayout(colWidths: seq<real>, padding: nat, cells: seq<seq<Cell>>)

  function HeaderFontSize(numCols: nat): nat { if numCols > WideColumnThreshold then 7 else 8 }
  function DataFontSize(numCols: nat): nat { if numCols > WideColumnThreshold then 6 else 7 }
  function Padding(numCols: nat): nat { if numCols > WideColumnThreshold then 2 else 3 }

  function HeaderStyle(numCols: nat): CellStyle {
    CellStyle("TableCellHeader", "Helvetica-Bold", HeaderFontSize(numCols), HeaderFontSize(numCols) as real * 1.2)
  }

  function DataStyle(numCols: nat): CellStyle {
    CellStyle("TableCellData", "Helvetica", DataFontSize(numCols), DataFontSize(numCols) as real * 1.2)
  }

  function RowStyle(i: nat, numCols: nat): CellStyle {
    if i == 0 then HeaderStyle(numCols) else DataStyle(numCols)
  }

  function Sum(ws: seq<real>): real {
    if ws == [] then 0.0 else ws[0] + Sum(ws[1..])
  }

  lemma {:induction false} SumConstant(n: nat, w: real)
    ensures Sum(seq(n, _ => w)) == n as real * w
  {
    if n > 0 {
      assert seq(n, _ => w)[1..] == seq(n - 1, _ => w);
      SumConstant(n - 1, w);
    }
  }

  /** The column widths (pdf_docx_api.py:411-426): one equal share of the available width per
      column, so that together they fill it exactly. */
  function ColumnWidths(numCols: nat): (ws: seq<real>)
    requires numCols > 0
    ensures |ws| == numCols
    ensures forall i :: 0 <= i < numCols ==> ws[i] == AvailableWidth / numCols as real
    ensures Sum(ws) == AvailableWidth
    ensures forall i :: 0 <= i < numCols ==> 0.0 < ws[i] <= AvailableWidth
  {
    var w := AvailableWidth / numCols as real;
    SumConstant(numCols, w);
    assert numCols as real * w == AvailableWidth;
    seq(numCols, _ => w)
  }

  /** One row of Paragraph cells, every cell passed through process_bold_text. */
  function RowCells(row: seq<string>, style: CellStyle): (r: seq<Cell>)
    ensures |r| == |row|
  {
    seq(|row|, j requires 0 <= j < |row| => Cell(ProcessBoldText(row[j]), style))
  }

  /** The layout built from the surviving rows: column count from the first row. */
  function Layout(rows: seq<seq<string>>): (t: TableLayout)
    requires |rows| > 0 && |rows[0]| > 0
  {
    var n := |rows[0]|;
    TableLayout(ColumnWidths(n), Padding(n),
      seq(|rows|, i requires 0 <= i < |rows| => RowCells(rows[i], RowStyle(i, n))))
  }

  /** What parse_markdown_table returns: None for no lines or fewer than two surviving rows. */
  function TableSpec(lines: seq<string>): Option<TableLayout> {
    if lines == [] then None
    else
      var rows := TableRows(lines);
      if |rows| < 2 then None
      else
        TableRowsKept(lines);
        assert rows[0] in rows;
        Some(Layout(rows))
  }

  /** Every column of a parsed table has the same width and together they fill the page
      between the margins; the font tier and padding follow the column count. */
  lemma {:induction false} TableSpecWidths(lines: seq<string>)
    requires TableSpec(lines).Some?
    ensures var rows, t := TableRows(lines), TableSpec(lines).value;
      |rows| >= 2 && |t.colWidths| == |rows[0]| > 0 && Sum(t.colWidths) == AvailableWidth
      && (forall i :: 0 <= i < |t.colWidths| ==> t.colWidths[i] == AvailableWidth / |rows[0]| as real)
      && t.padding == (if |rows[0]| > 6 then 2 else 3)
  {
    var rows := TableRows(lines);
    var t := Layout(rows);
    assert TableSpec(lines) == Some(t);
    assert t.colWidths == ColumnWidths(|rows[0]|);
  }

  /** The grid has the rows' shape; row 0 is set in the bold header style, the others in the
      data style, with the sizes of the tier the column count selects. */
  lemma {:induction false} TableSpecStyles(lines: seq<string>, i: nat, j: nat)
    requires TableSpec(lines).Some?
    requires i < |TableRows(lines)| && j < |TableRows(lines)[i]|
    ensures var rows, t := TableRows(lines), TableSpec(lines).value;
      var n := |rows[0]|;
      |t.cells| == |rows| && |t.cells[i]| == |rows[i]|
      && t.cells[i][j].text == ProcessBoldText(rows[i][j])
      && t.cells[i][j].style.fontName == (if i == 0 then "Helvetica-Bold" else "Helvetica")
      && t.cells[i][j].style.fontSize == (if i == 0 then (if n > 6 then 7 else 8) else (if n > 6 then 6 else 7))
  {
    var rows := TableRows(lines);
    var t := Layout(rows);
    assert TableSpec(lines) == Some(t);
    assert t.cells[i] == RowCells(rows[i], RowStyle(i, |rows[0]|));
  }

  /** The markup of every cell of a parsed table is well formed: its only tags are <b> and </b>. */
  lemma {:induction false} TableCellsOnlyBoldTags(lines: seq<string>, i: nat, j: nat)
    requires TableSpec(lines).Some?
    requires i < |TableRows(lines)| && j < |TableRows(lines)[i]|
    ensures OnlyBoldTags(TableSpec(lines).value.cells[i][j].text)
  {
    TableSpecStyles(lines, i, j);
    ProcessBoldOnlyTags(TableRows(lines)[i][j]);
  }

  /** The is_separator loop of parse_markdown_table, with its early exit. */
  method RowIsSeparator(cells: seq<string>) returns (isSeparator: bool)
    ensures isSeparator <==> IsSeparatorRow(cells)
  {
    isSeparator := true;
    var j := 0;
    while j < |cells|
      invariant 0 <= j <= |cells|
      invariant isSeparator && forall k :: 0 <= k < j ==> IsSeparatorCell(cells[k])
    {
      if !IsSeparatorCell(cells[j]) {
        isSeparator := false;
        break;
      }
      j := j + 1;
    }
  }

  /** The row loop of parse_markdown_table. */
  /** The body of the row loop for one line: the line's cells, unless there are none or they
      form an alignment row. */
  method LineRow(line: string) returns (kept: seq<seq<string>>)
    ensures kept == (if KeepsRow(Cells(line)) then [Cells(line)] else [])
  {
    var cells := Cells(line);
    kept := [];
    if |cells| > 0 {
      var isSeparator := RowIsSeparator(cells);
      if !isSeparator {
        kept := [cells];
      }
    }
  }

  method CollectRows(lines: seq<string>) returns (rows: seq<seq<string>>)
    ensures rows == TableRows(lines)
  {
    rows := [];
    var i := 0;
    while i < |lines|
      invariant 0 <= i <= |lines|
      invariant rows == TableRows(lines[..i])
    {
      var kept := LineRow(lines[i]);
      rows := rows + kept;
      TableRowsPrefix(lines, i);
      i := i + 1;
    }
    assert lines[..i] == lines;
  }

  /** One row of table_data: a Paragraph per cell. */
  method BuildRow(row: seq<string>, style: CellStyle) returns (processedRow: seq<Cell>)
    ensures processedRow == RowCells(row, style)
  {
    processedRow := [];
    var c := 0;
    while c < |row|
      invariant 0 <= c <= |row|
      invariant processedRow == RowCells(row, style)[..c]
    {
      processedRow := processedRow + [Cell(ProcessBoldText(row[c]), style)];
      c := c + 1;
    }
  }

  /** The table_data loop: the header style for row 0, the data style for the rest. */
  method BuildTableData(rows: seq<seq<string>>, numCols: nat) returns (tableData: seq<seq<Cell>>)
    ensures tableData == seq(|rows|, i requires 0 <= i < |rows| => RowCells(rows[i], RowStyle(i, numCols)))
  {
    tableData := [];
    var r := 0;
    while r < |rows|
      invariant 0 <= r <= |rows|
      invariant tableData == seq(r, i requires 0 <= i < r => RowCells(rows[i], RowStyle(i, numCols)))
    {
      var style := if r == 0 then HeaderStyle(numCols) else DataStyle(numCols);
      var processedRow := BuildRow(rows[r], style);
      tableData := tableData + [processedRow];
      r := r + 1;
    }
  }

  /** parse_markdown_table */
  method ParseMarkdownTable(lines: seq<string>) returns (t: Option<TableLayout>)
    ensures t == TableSpec(lines)
    ensures t.None? <==> lines == [] || |TableRows(lines)| < 2
  {
    if |lines| == 0 {
      return None;
    }
    var rows := CollectRows(lines);
    if |rows| < 2 {
      return None;
    }
    TableRowsKept(lines);
    assert rows[0] in rows;
    var numCols := |rows[0]|;
    var colWidths := ColumnWidths(numCols);
    var tableData := BuildTableData(rows, numCols);
    t := Some(TableLayout(colWidths, Padding(numCols), tableData));
    assert t == Some(Layout(rows));
  }

  // ---------------------------------------------------------------------------------------
  // wrap_text_for_table

  /** The loop state of wrap_text_for_table: finished lines and the line being filled. */
  datatype WrapState = WrapState(lines: seq<string>, current: string)

  /** One word of the loop. A word that does not fit ends the current line; when there is no
      current line the word alone is cut to maxLength - 3 characters followed by "...". */
  function WrapStep(st: WrapState, word: string, maxLength: int): WrapState {
    if |st.current| + |word| + 1 > maxLength then
      if st.current != [] then WrapState(st.lines + [Strip(st.current)], word)
      else WrapState(st.lines + [PySliceTo(word, maxLength - 3) + "..."], [])
    else if st.current != [] then WrapState(st.lines, st.current + " " + word)
    else WrapState(st.lines, word)
  }

  function WrapFold(words: seq<string>, maxLength: int): WrapState {
    if words == [] then WrapState([], [])
    else WrapStep(WrapFold(words[..|words| - 1], maxLength), words[|words| - 1], maxLength)
  }

  /** The lines of the wrapped text: the loop's lines plus the last current line. */
  function WrapLines(words: seq<string>, maxLength: int): seq<string> {
    var st := WrapFold(words, maxLength);
    if st.current != [] then st.lines + [Strip(st.current)] else st.lines
  }

  /** What wrap_text_for_table returns. */
  function WrapSpec(text: string, maxLength: int): string {
    if |text| <= maxLength then text
    else
      var words := Words(text);
      if words == [] then text else Join(WrapLines(words, maxLength), "<br/>")
  }

  /** The body of the word loop. */
  method WrapWord(lines: seq<string>, currentLine: string, word: string, maxLength: int)
    returns (lines': seq<string>, currentLine': string)
    ensures WrapState(lines', currentLine') == WrapStep(WrapState(lines, currentLine), word, maxLength)
  {
    lines', currentLine' := lines, currentLine;
    if |currentLine| + |word| + 1 > maxLength {
      if currentLine != [] {
        lines' := lines + [Strip(currentLine)];
        currentLine' := word;
      } else {
        lines' := lines + [PySliceTo(word, maxLength - 3) + "..."];
        currentLine' := [];
      }
    } else {
      if currentLine != [] {
        currentLine' := currentLine + " " + word;
      } else {
        currentLine' := word;
      }
    }
  }

  /** wrap_text_for_table (default maxLength 50). */
  method WrapTextForTable(text: string, maxLength: int) returns (r: string)
    ensures r == WrapSpec(text, maxLength)
    ensures |text| <= maxLength ==> r == text
    ensures Words(text) == [] ==> r == text
  {
    if |text| <= maxLength {
      return text;
    }
    var words := Words(text);
    if words == [] {
      return text;
    }
    var lines: seq<string> := [];
    var currentLine: string := [];
    var i := 0;
    while i < |words|
      invariant 0 <= i <= |words|
      invariant WrapState(lines, currentLine) == WrapFold(words[..i], maxLength)
    {
      lines, currentLine := WrapWord(lines, currentLine, words[i], maxLength);
      assert words[..i + 1][..i] == words[..i];
      i := i + 1;
    }
    assert words[..i] == words;
    if currentLine != [] {
      lines := lines + [Strip(currentLine)];
    }
    r := Join(lines, "<br/>");
  }

  predicate NoSpace(w: string) {
    forall i :: 0 <= i < |w| ==> !IsSpace(w[i])
  }

  /** What the loop keeps while every word fits on a line of its own. */
  ghost predicate WrapInvariant(words: seq<string>, maxLength: int, st: WrapState) {
    (words == [] ==> st.lines == [] && st.current == [])
    && (words != [] ==>
          st.current != [] && !IsSpace(st.current[0]) && !IsSpace(st.current[|st.current| - 1])
          && |st.current| <= maxLength
          && Join(st.lines + [st.current], " ") == Join(words, " "))
    && forall i :: 0 <= i < |st.lines| ==> 0 < |st.lines[i]| <= maxLength
  }

  lemma {:induction false} JoinExtendLast(ls: seq<string>, x: string, y: string, sep: string)
    ensures Join(ls + [x + sep + y], sep) == Join(ls + [x], sep) + sep + y
  {
    if ls == [] {
      assert ls + [x + sep + y] == [x + sep + y];
      assert ls + [x] == [x];
    } else {
      JoinSnoc(ls, x + sep + y, sep);
      JoinSnoc(ls, x, sep);
    }
  }

  lemma {:induction false} WrapFoldInvariant(words: seq<string>, maxLength: int)
    requires forall i :: 0 <= i < |words| ==> words[i] != [] && NoSpace(words[i]) && |words[i]| < maxLength
    ensures WrapInvariant(words, maxLength, WrapFold(words, maxLength))
  {
    if words != [] {
      var p, w := words[..|words| - 1], words[|words| - 1];
      assert words == p + [w];
      WrapFoldInvariant(p, maxLength);
      var st := WrapFold(p, maxLength);
      if p == [] {
        assert WrapFold(words, maxLength) == WrapState([], w);
        assert [w] == words;
      } else {
        JoinSnoc(p, w, " ");
        if |st.current| + |w| + 1 > maxLength {
          StripUnchanged(st.current);
          JoinSnoc(st.lines + [st.current], w, " ");
        } else {
          JoinExtendLast(st.lines, st.current, w, " ");
        }
      }
    }
  }

  /** While every word is shorter than maxLength, wrapping only regroups the words: joined back
      with spaces the lines give the words in order, and no line is longer than maxLength. */
  lemma {:induction false} WrapKeepsWords(words: seq<string>, maxLength: int)
    requires forall i :: 0 <= i < |words| ==> words[i] != [] && NoSpace(words[i]) && |words[i]| < maxLength
    ensures Join(WrapLines(words, maxLength), " ") == Join(words, " ")
    ensures forall i :: 0 <= i < |WrapLines(words, maxLength)| ==> 0 < |WrapLines(words, maxLength)[i]| <= maxLength
  {
    WrapFoldInvariant(words, maxLength);
    var st := WrapFold(words, maxLength);
    if words != [] {
      StripUnchanged(st.current);
    }
  }

  /** The text up to its first space: the first word of a line built from words. */
  function FirstWord(s: string): (r: string)
    ensures |r| <= |s|
  {
    if s == [] || s[0] == ' ' then [] else [s[0]] + FirstWord(s[1..])
  }

  lemma {:induction false} FirstWordOfJoin(x: string, y: string)
    ensures FirstWord(x + " " + y) == FirstWord(x)
  {
    if x == [] {
      assert (x + " " + y)[0] == ' ';
    } else if x[0] != ' ' {
      assert (x + " " + y)[1..] == x[1..] + " " + y;
      FirstWordOfJoin(x[1..], y);
    }
  }

  lemma {:induction false} FirstWordOfWord(w: string)
    requires NoSpace(w)
    ensures FirstWord(w) == w
  {
    if w != [] {
      FirstWordOfWord(w[1..]);
    }
  }

  /** Greedy filling: no line could have taken the first word of the line after it. */
  predicate Greedy(ls: seq<string>, maxLength: int) {
    forall i :: 0 <= i < |ls| - 1 ==> |ls[i]| + 1 + |FirstWord(ls[i + 1])| > maxLength
  }

  lemma {:induction false} GreedyExtendLast(ls: seq<string>, x: string, y: string, maxLength: int)
    requires Greedy(ls + [x], maxLength)
    ensures Greedy(ls + [x + " " + y], maxLength)
  {
    var a, b := ls + [x], ls + [x + " " + y];
    forall i | 0 <= i < |b| - 1
      ensures |b[i]| + 1 + |FirstWord(b[i + 1])| > maxLength
    {
      assert b[i] == a[i];
      if i + 1 < |ls| {
        assert b[i + 1] == a[i + 1];
      } else {
        assert a[i + 1] == x && b[i + 1] == x + " " + y;
        FirstWordOfJoin(x, y);
      }
    }
  }

  lemma {:induction false} GreedyPush(ls: seq<string>, x: string, w: string, maxLength: int)
    requires Greedy(ls + [x], maxLength) && NoSpace(w) && |x| + |w| + 1 > maxLength
    ensures Greedy(ls + [x] + [w], maxLength)
  {
    var a, b := ls + [x], ls + [x] + [w];
    FirstWordOfWord(w);
    forall i | 0 <= i < |b| - 1
      ensures |b[i]| + 1 + |FirstWord(b[i + 1])| > maxLength
    {
      if i + 1 < |a| {
        assert b[i] == a[i] && b[i + 1] == a[i + 1];
      } else {
        assert b[i] == x && b[i + 1] == w;
      }
    }
  }

  lemma {:induction false} WrapFoldGreedy(words: seq<string>, maxLength: int)
    requires forall i :: 0 <= i < |words| ==> words[i] != [] && NoSpace(words[i]) && |words[i]| < maxLength
    ensures Greedy(WrapFold(words, maxLength).lines + [WrapFold(words, maxLength).current], maxLength)
  {
    if words != [] {
      var p, w := words[..|words| - 1], words[|words| - 1];
      assert words == p + [w];
      WrapFoldGreedy(p, maxLength);
      WrapFoldInvariant(p, maxLength);
      var st := WrapFold(p, maxLength);
      if p == [] {
        assert WrapFold(words, maxLength) == WrapState([], w);
      } else if |st.current| + |w| + 1 > maxLength {
        StripUnchanged(st.current);
        GreedyPush(st.lines, st.current, w, maxLength);
      } else {
        GreedyExtendLast(st.lines, st.current, w, maxLength);
      }
    }
  }

  /** The wrapping is greedy: with every word shorter than maxLength, each line is ended only
      because the next word did not fit after it. */
  lemma {:induction false} WrapIsGreedy(words: seq<string>, maxLength: int)
    requires forall i :: 0 <= i < |words| ==> words[i] != [] && NoSpace(words[i]) && |words[i]| < maxLength
    ensures forall i :: 0 <= i < |WrapLines(words, maxLength)| - 1 ==>
      |WrapLines(words, maxLength)[i]| + 1 + |FirstWord(WrapLines(words, maxLength)[i + 1])| > maxLength
  {
    WrapFoldGreedy(words, maxLength);
    WrapFoldInvariant(words, maxLength);
    var st := WrapFold(words, maxLength);
    if words != [] {
      StripUnchanged(st.current);
    }
  }

  lemma {:induction false} WordsOfOneWord(w: string)
    requires w != [] && NoSpace(w)
    ensures Words(w) == [w]
  {
    assert LStrip(w) == w;
    assert WordEnd(w, 0) == |w| by { WordEndOfWord(w, 0); }
    assert w[..|w|] == w;
    assert w[|w|..] == [];
    assert Words([]) == [];
  }

  lemma {:induction false} WordEndOfWord(w: string, i: nat)
    requires i <= |w| && NoSpace(w)
    ensures WordEnd(w, i) == |w|
    decreases |w| - i
  {
    if i < |w| {
      WordEndOfWord(w, i + 1);
    }
  }

  /** A single word longer than maxLength is cut to its first maxLength - 3 characters,
      followed by three dots (pdf_docx_api.py:512). */
  lemma {:induction false} WrapTruncatesLongWord(w: string, maxLength: int)
    requires w != [] && NoSpace(w) && |w| > maxLength
    ensures WrapSpec(w, maxLength) == PySliceTo(w, maxLength - 3) + "..."
  {
    WordsOfOneWord(w);
    var x := PySliceTo(w, maxLength - 3) + "...";
    assert WrapFold([w], maxLength) == WrapState([x], []) by {
      assert [w][..0] == [];
    }
    assert WrapLines([w], maxLength) == [x];
  }

  /** Only a word that starts a line is cut: a long word after another word is kept whole. */
  lemma {:induction false} WrapKeepsLongSecondWord(a: string, w: string, maxLength: int)
    requires |a| < maxLength && a != [] && |a| + |w| + 1 > maxLength && NoSpace(w)
    ensures WrapLines([a, w], maxLength) == [Strip(a), w]
  {
    StripUnchanged(w);
    assert WrapFold([a], maxLength) == WrapState([], a) by {
      assert [a][..0] == [];
    }
    assert WrapFold([a, w], maxLength) == WrapState([Strip(a)], w) by {
      assert [a, w][..1] == [a];
    }
  }
}
