/** The python-docx back end's markdown reader (the fallback branch of markdown_to_docx_bytes):
    a line-by-line classifier, sibling of the ReportLab one with rules of its own, that adds
    headings, paragraphs made of runs and tables to a Document. */
module DocxBlocks {
  import opened Wrappers
  import opened Text
  import opened Tables
  import PdfBlocks

  /** A run of text, bold or not. */
  datatype TextRun = TextRun(text: string, bold: bool)

  /** 'Normal', 'List Bullet', 'List Number', or 'Normal' with 9-point Courier New runs. */
  datatype DocStyle = Plain | ListBullet | ListNumber | CodeFont

  /** What the loop adds to the Document: doc.add_heading, doc.add_paragraph, or doc.add_table
      with `cols` columns whose row 0 is set bold. */
  datatype DocBlock = Heading(text: string, level: nat) | Paragraph(runs: seq<TextRun>, style: DocStyle)
                    | DocTable(rows: seq<seq<string>>, cols: nat)

  /** Reading a cell past the table's last column raises IndexError (pdf_docx_api.py:1324). */
  datatype DocxError = IndexError

  /** The text a paragraph shows: its runs' texts one after another. */
  function RunsText(runs: seq<TextRun>): string {
    if runs == [] then [] else runs[0].text + RunsText(runs[1..])
  }

  /** A paragraph added with its text (pdf_docx_api.py:1301) holds one plain run, or none for
      empty text. */
  function TextRuns(text: string): (r: seq<TextRun>)
    ensures |r| <= 1 && (r == [] <==> text == [])
    ensures RunsText(r) == text
    ensures forall i :: 0 <= i < |r| ==> !r[i].bold
  {
    if text == [] then [] else [TextRun(text, false)]
  }

  /** The runs of a line holding a double asterisk (pdf_docx_api.py:1305-1310): the line is cut
      at every "**", empty pieces included, and every second piece is bold. */
  function BoldRuns(line: string): (r: seq<TextRun>)
    ensures |r| == |SplitStr(line, "**")|
  {
    var parts := SplitStr(line, "**");
    seq(|parts|, i requires 0 <= i < |parts| => TextRun(parts[i], i % 2 == 1))
  }

  /** The horizontal rule: fifty underscores (pdf_docx_api.py:1297). */
  const RuleText: string := Repeat("_", 50)

  /** The block a line adds outside code blocks and tables. The prefixes are tested on the
      unstripped line; a blank line adds nothing. */
  function BlockOf(line: string): Option<DocBlock> {
    if "# " <= line then Some(Heading(Strip(line[2..]), 1))
    else if "## " <= line then Some(Heading(Strip(line[3..]), 2))
    else if "### " <= line then Some(Heading(Strip(line[4..]), 3))
    else if "#### " <= line then Some(Heading(Strip(line[5..]), 4))
    else if "- " <= line || "* " <= line then Some(Paragraph(TextRuns(Strip(line[2..])), ListBullet))
    else if PdfBlocks.IsNumbered(line) then Some(Paragraph(TextRuns(Strip(line[3..])), ListNumber))
    else if Strip(line) == "---" then Some(Paragraph([TextRun(RuleText, false)], Plain))
    else if Strip(line) != [] then
      Some(Paragraph(if ContainsStr(line, "**") then BoldRuns(line) else TextRuns(Strip(line)), Plain))
    else None
  }

  /** A fence, a table row (any non-blank line holding '|'), or another line. */
  datatype Role = RowLine | OtherLine(block: Option<DocBlock>)
  datatype Line = Fence | Content(line: string, role: Role)

  function Classify(line: string): Line {
    if "```" <= Strip(line) then Fence
    else if '|' in line && Strip(line) != [] then Content(line, RowLine)
    else Content(line, OtherLine(BlockOf(line)))
  }

  function ClassifyAll(lines: seq<string>): (r: seq<Line>)
    ensures |r| == |lines|
  {
    seq(|lines|, i requires 0 <= i < |lines| => Classify(lines[i]))
  }

  /** The mode variables: in_code_block, code_lines, in_table, table_lines. */
  datatype DocxState = DocxState(inCode: bool, codeLines: seq<string>, inTable: bool, tableLines: seq<string>)

  const Initial: DocxState := DocxState(false, [], false, [])

  predicate Inv(st: DocxState) {
    (!st.inCode ==> st.codeLines == []) && (st.inTable <==> st.tableLines != [])
  }

  /** The code paragraph a closed fence adds, empty or not. */
  function CodeParagraph(codeLines: seq<string>): DocBlock {
    Paragraph(TextRuns(Join(codeLines, "\n")), CodeFont)
  }

  /** Every row fits in the columns of row 0. */
  predicate FitsHeader(rows: seq<seq<string>>)
    requires rows != []
  {
    forall i :: 0 <= i < |rows| ==> |rows[i]| <= |rows[0]|
  }

  /** A pending table when it ends: nothing for fewer than two lines or no surviving row,
      IndexError when a row is wider than row 0, otherwise a table of the surviving rows. */
  function TableBlocks(tableLines: seq<string>): Result<seq<DocBlock>, DocxError> {
    if |tableLines| >= 2 then
      var rows := TableRows(tableLines);
      if rows == [] then Ok([])
      else if FitsHeader(rows) then Ok([DocTable(rows, |rows[0]|)])
      else Err(IndexError)
    else Ok([])
  }

  function Then(r: Result<seq<DocBlock>, DocxError>, more: seq<DocBlock>): Result<seq<DocBlock>, DocxError> {
    match r
    case Ok(blocks) => Ok(blocks + more)
    case Err(e) => Err(e)
  }

  function BlockList(block: Option<DocBlock>): seq<DocBlock> {
    match block
    case Some(b) => [b]
    case None => []
  }

  /** One iteration of the loop: the new mode and what it adds, or the exception it raises. */
  function Step(st: DocxState, line: Line): (DocxState, Result<seq<DocBlock>, DocxError>) {
    match line
    case Fence =>
      if st.inCode then (st.(inCode := false, codeLines := []), Ok([CodeParagraph(st.codeLines)]))
      else (st.(inCode := true), Ok([]))
    case Content(text, role) =>
      if st.inCode then (st.(codeLines := st.codeLines + [text]), Ok([]))
      else
        match role
        case RowLine =>
          (st.(inTable := true, tableLines := (if st.inTable then st.tableLines else []) + [text]), Ok([]))
        case OtherLine(block) =>
          if st.inTable then (st.(inTable := false, tableLines := []), Then(TableBlocks(st.tableLines), BlockList(block)))
          else (st, Ok(BlockList(block)))
  }

  /** After the last line: a pending table is added, an open code block is dropped. */
  function Finish(st: DocxState): Result<seq<DocBlock>, DocxError> {
    if st.inTable then TableBlocks(st.tableLines) else Ok([])
  }

  /** Blocks added before r's, unless the earlier step raised. */
  function Prepend(first: Result<seq<DocBlock>, DocxError>, r: Result<seq<DocBlock>, DocxError>)
    : Result<seq<DocBlock>, DocxError>
  {
    match first
    case Err(e) => Err(e)
    case Ok(blocks) =>
      match r
      case Err(e) => Err(e)
      case Ok(more) => Ok(blocks + more)
  }

  /** What the lines from state st onwards add to the Document. */
  function Emit(st: DocxState, lines: seq<Line>): Result<seq<DocBlock>, DocxError>
    decreases |lines|
  {
    if lines == [] then Finish(st)
    else
      var step := Step(st, lines[0]);
      Prepend(step.1, Emit(step.0, lines[1..]))
  }

  /** The blocks the python-docx branch adds to the Document, or the exception it raises. */
  function DocxDocument(markdownText: string): Result<seq<DocBlock>, DocxError> {
    Emit(Initial, ClassifyAll(SplitOn(markdownText, '\n')))
  }

  // ---------------------------------------------------------------------------------------
  // The loop, proved against Emit

  /** The table-building code: the rows loop, doc.add_table and the cell loop that raises
      once a row is wider than row 0. */
  method AddTable(tableLines: seq<string>) returns (r: Result<seq<DocBlock>, DocxError>)
    requires |tableLines| >= 2
    ensures r == TableBlocks(tableLines)
  {
    var rows := CollectRows(tableLines);
    if rows == [] {
      return Ok([]);
    }
    var cols := |rows[0]|;
    var i := 0;
    while i < |rows|
      invariant 0 <= i <= |rows|
      invariant forall k :: 0 <= k < i ==> |rows[k]| <= cols
    {
      var j := 0;
      while j < |rows[i]|
        invariant 0 <= j <= |rows[i]| && j <= cols
      {
        if j >= cols {
          return Err(IndexError);
        }
        j := j + 1;
      }
      i := i + 1;
    }
    r := Ok([DocTable(rows, cols)]);
  }

  /** The heading, bullet, numbered, rule and plain-text branches. */
  method AddBlock(line: string) returns (block: Option<DocBlock>)
    ensures block == BlockOf(line)
  {
    if "# " <= line {
      block := Some(Heading(Strip(line[2..]), 1));
    } else if "## " <= line {
      block := Some(Heading(Strip(line[3..]), 2));
    } else if "### " <= line {
      block := Some(Heading(Strip(line[4..]), 3));
    } else if "#### " <= line {
      block := Some(Heading(Strip(line[5..]), 4));
    } else if "- " <= line || "* " <= line {
      block := Some(Paragraph(TextRuns(Strip(line[2..])), ListBullet));
    } else if PdfBlocks.IsNumbered(line) {
      block := Some(Paragraph(TextRuns(Strip(line[3..])), ListNumber));
    } else if Strip(line) == "---" {
      block := Some(Paragraph([TextRun(RuleText, false)], Plain));
    } else if Strip(line) != [] {
      var runs := TextRuns(Strip(line));
      if ContainsStr(line, "**") {
        var parts := SplitStr(line, "**");
        runs := [];
        var i := 0;
        while i < |parts|
          invariant 0 <= i <= |parts|
          invariant runs == BoldRuns(line)[..i]
        {
          runs := runs + [TextRun(parts[i], i % 2 == 1)];
          i := i + 1;
        }
        assert BoldRuns(line)[..i] == BoldRuns(line);
      }
      block := Some(Paragraph(runs, Plain));
    } else {
      block := None;
    }
  }

  /** One iteration of the for loop over the lines. */
  method LineStep(st: DocxState, line: string) returns (next: DocxState, added: Result<seq<DocBlock>, DocxError>)
    ensures (next, added) == Step(st, Classify(line))
  {
    next, added := st, Ok([]);
    if "```" <= Strip(line) {
      if st.inCode {
        added := Ok([CodeParagraph(st.codeLines)]);
        next := next.(codeLines := [], inCode := false);
      } else {
        next := next.(inCode := true);
      }
      return;
    }
    if st.inCode {
      next := next.(codeLines := st.codeLines + [line]);
      return;
    }
    if '|' in line && Strip(line) != [] {
      if !st.inTable {
        next := next.(inTable := true, tableLines := []);
      }
      next := next.(tableLines := next.tableLines + [line]);
      return;
    }
    var closed: Result<seq<DocBlock>, DocxError> := Ok([]);
    if st.inTable {
      if |st.tableLines| >= 2 {
        closed := AddTable(st.tableLines);
      }
      next := next.(inTable := false, tableLines := []);
    }
    var block := AddBlock(line);
    assert Classify(line) == Content(line, OtherLine(block));
    assert [] + BlockList(block) == BlockList(block);
    added := Then(closed, BlockList(block));
  }

  lemma {:induction false} EmitResume(before: seq<DocBlock>, st: DocxState, lines: seq<Line>, i: nat, added: seq<DocBlock>)
    requires i < |lines| && Step(st, lines[i]).1 == Ok(added)
    ensures Prepend(Ok(before + added), Emit(Step(st, lines[i]).0, lines[i + 1..]))
         == Prepend(Ok(before), Emit(st, lines[i..]))
  {
    assert lines[i..][0] == lines[i] && lines[i..][1..] == lines[i + 1..];
    match Emit(Step(st, lines[i]).0, lines[i + 1..])
    case Err(_) =>
    case Ok(more) =>
      assert before + added + more == before + (added + more);
  }

  lemma {:induction false} PrependNothing(r: Result<seq<DocBlock>, DocxError>)
    ensures Prepend(Ok([]), r) == r
  {
    match r
    case Err(_) =>
    case Ok(more) =>
      assert [] + more == more;
  }

  lemma {:induction false} EmitRaises(before: seq<DocBlock>, st: DocxState, lines: seq<Line>, i: nat, e: DocxError)
    requires i < |lines| && Step(st, lines[i]).1 == Err(e)
    ensures Prepend(Ok(before), Emit(st, lines[i..])) == Err(e)
  {
    assert lines[i..][0] == lines[i];
  }

  /** The python-docx loop of markdown_to_docx_bytes and the flush of a pending table. */
  method BuildDocx(markdownText: string) returns (r: Result<seq<DocBlock>, DocxError>)
    ensures r == DocxDocument(markdownText)
  {
    var lines := SplitOn(markdownText, '\n');
    ghost var kinds := ClassifyAll(lines);
    var blocks: seq<DocBlock> := [];
    var st := Initial;
    var i := 0;
    assert kinds[0..] == kinds;
    PrependNothing(Emit(Initial, kinds));
    while i < |lines|
      invariant 0 <= i <= |lines|
      invariant Prepend(Ok(blocks), Emit(st, kinds[i..])) == Emit(Initial, kinds)
    {
      var next, added := LineStep(st, lines[i]);
      match added
      case Err(e) =>
        EmitRaises(blocks, st, kinds, i, e);
        return Err(e);
      case Ok(more) =>
        EmitResume(blocks, st, kinds, i, more);
        blocks := blocks + more;
      st := next;
      i := i + 1;
    }
    assert kinds[i..] == [];
    var tail: Result<seq<DocBlock>, DocxError> := Ok([]);
    if st.inTable && |st.tableLines| >= 2 {
      tail := AddTable(st.tableLines);
    }
    r := Prepend(Ok(blocks), tail);
  }
}

module DocxBlocksProps {
  import opened Wrappers
  import opened Text
  import opened Tables
  import opened DocxBlocks

  /** The runs of a line holding "**": their texts joined with "**" give back the whole
      unstripped line, and exactly the odd-indexed runs are bold. */
  lemma {:induction false} BoldRunsSpellLine(line: string)
    ensures var runs := BoldRuns(line);
      Join(seq(|runs|, i requires 0 <= i < |runs| => runs[i].text), "**") == line
      && forall i :: 0 <= i < |runs| ==> (runs[i].bold <==> i % 2 == 1)
  {
    var runs := BoldRuns(line);
    assert seq(|runs|, i requires 0 <= i < |runs| => runs[i].text) == SplitStr(line, "**");
    JoinSplitStr(line, "**");
  }

  predicate AllContent(lines: seq<Line>) {
    forall i :: 0 <= i < |lines| ==> lines[i].Content?
  }

  function Texts(lines: seq<Line>): (r: seq<string>)
    requires AllContent(lines)
    ensures |r| == |lines|
  {
    seq(|lines|, i requires 0 <= i < |lines| => lines[i].line)
  }

  lemma {:induction false} TextsCons(line: Line, lines: seq<Line>)
    requires line.Content? && AllContent(lines)
    ensures AllContent([line] + lines) && Texts([line] + lines) == [line.line] + Texts(lines)
  {
    assert forall i :: 0 < i < |lines| + 1 ==> ([line] + lines)[i] == lines[i - 1];
  }

  lemma {:induction false} EmitCons(st: DocxState, line: Line, rest: seq<Line>)
    ensures Emit(st, [line] + rest) == Prepend(Step(st, line).1, Emit(Step(st, line).0, rest))
  {
    assert ([line] + rest)[0] == line && ([line] + rest)[1..] == rest;
  }

  /** Inside a code block every non-fence line is kept verbatim. */
  lemma {:induction false} EmitCodeBody(st: DocxState, body: seq<Line>, rest: seq<Line>)
    requires st.inCode && AllContent(body)
    ensures Emit(st, body + rest) == Emit(st.(codeLines := st.codeLines + Texts(body)), rest)
    decreases |body|
  {
    if body == [] {
      assert body + rest == rest;
      assert st.codeLines + [] == st.codeLines;
    } else {
      var next := st.(codeLines := st.codeLines + [body[0].line]);
      ConsAppend(body, rest);
      EmitCons(st, body[0], body[1..] + rest);
      assert Step(st, body[0]) == (next, Ok([]));
      PrependNothing(Emit(next, body[1..] + rest));
      assert AllContent(body[1..]);
      EmitCodeBody(next, body[1..], rest);
      TextsCons(body[0], body[1..]);
      SnocAssoc(st.codeLines, body[0].line, Texts(body[1..]));
    }
  }

  /** A closed fence adds one code paragraph, even for an empty block, and leaves a pending
      table pending. */
  lemma {:induction false} ClosedFence(st: DocxState, body: seq<Line>, rest: seq<Line>)
    requires Inv(st) && !st.inCode && AllContent(body)
    ensures Emit(st, [Fence] + body + [Fence] + rest) == Prepend(Ok([CodeParagraph(Texts(body))]), Emit(st, rest))
  {
    var inside := st.(inCode := true);
    assert [Fence] + body + [Fence] + rest == [Fence] + (body + ([Fence] + rest));
    EmitCons(st, Fence, body + ([Fence] + rest));
    PrependNothing(Emit(inside, body + ([Fence] + rest)));
    EmitCodeBody(inside, body, [Fence] + rest);
    var full := inside.(codeLines := inside.codeLines + Texts(body));
    assert full.codeLines == Texts(body);
    EmitCons(full, Fence, rest);
    assert full.(inCode := false, codeLines := []) == st;
  }

  /** A fence never closed drops its lines: only a pending table is still added. */
  lemma {:induction false} UnclosedFence(st: DocxState, body: seq<Line>)
    requires Inv(st) && !st.inCode && AllContent(body)
    ensures Emit(st, [Fence] + body) == Finish(st)
  {
    var inside := st.(inCode := true);
    assert [Fence] + body == [Fence] + (body + []);
    EmitCons(st, Fence, body + []);
    PrependNothing(Emit(inside, body + []));
    EmitCodeBody(inside, body, []);
  }

  predicate AllRows(lines: seq<Line>) {
    forall i :: 0 <= i < |lines| ==> lines[i].Content? && lines[i].role == RowLine
  }

  /** Outside a code block, consecutive table rows are gathered unstripped. */
  lemma {:induction false} EmitRows(st: DocxState, rows: seq<Line>, rest: seq<Line>)
    requires Inv(st) && !st.inCode && AllRows(rows)
    ensures Emit(st, rows + rest)
         == Emit(st.(inTable := st.inTable || rows != [], tableLines := st.tableLines + Texts(rows)), rest)
    decreases |rows|
  {
    if rows == [] {
      assert rows + rest == rest;
      assert st.tableLines + [] == st.tableLines;
      assert st.(inTable := st.inTable, tableLines := st.tableLines) == st;
    } else {
      var next := st.(inTable := true, tableLines := st.tableLines + [rows[0].line]);
      ConsAppend(rows, rest);
      EmitCons(st, rows[0], rows[1..] + rest);
      assert Step(st, rows[0]) == (next, Ok([]));
      PrependNothing(Emit(next, rows[1..] + rest));
      assert AllRows(rows[1..]);
      EmitRows(next, rows[1..], rest);
      TextsCons(rows[0], rows[1..]);
      SnocAssoc(st.tableLines, rows[0].line, Texts(rows[1..]));
    }
  }

  /** Table rows ended by another line: the table (or its IndexError) comes first, then
      what the ending line adds. */
  lemma {:induction false} TableThenLine(rows: seq<Line>, line: string, block: Option<DocBlock>, rest: seq<Line>)
    requires AllRows(rows) && rows != []
    ensures Emit(Initial, rows + [Content(line, OtherLine(block))] + rest)
         == Prepend(Then(TableBlocks(Texts(rows)), BlockList(block)), Emit(Initial, rest))
  {
    var other := Content(line, OtherLine(block));
    assert rows + [other] + rest == rows + ([other] + rest);
    EmitRows(Initial, rows, [other] + rest);
    var pending := Initial.(inTable := true, tableLines := Texts(rows));
    assert Initial.tableLines + Texts(rows) == Texts(rows);
    EmitCons(pending, other, rest);
    assert pending.(inTable := false, tableLines := []) == Initial;
  }

  /** A single table line is dropped: a table needs at least two lines. */
  lemma {:induction false} SingleLineTableDropped(row: Line, line: string, block: Option<DocBlock>, rest: seq<Line>)
    requires row.Content? && row.role == RowLine
    ensures Emit(Initial, [row, Content(line, OtherLine(block))] + rest)
         == Prepend(Ok(BlockList(block)), Emit(Initial, rest))
  {
    assert [row, Content(line, OtherLine(block))] + rest == [row] + [Content(line, OtherLine(block))] + rest;
    TableThenLine([row], line, block, rest);
    assert Texts([row]) == [row.line];
    assert [] + BlockList(block) == BlockList(block);
  }

  /** Unlike the ReportLab reader, one surviving row is enough for a table. */
  lemma OneRowTable(tableLines: seq<string>)
    requires |tableLines| >= 2 && |TableRows(tableLines)| == 1
    ensures TableBlocks(tableLines) == Ok([DocTable(TableRows(tableLines), |TableRows(tableLines)[0]|)])
  {
  }

  /** A row wider than row 0 makes the whole conversion raise IndexError. */
  lemma WideRowRaises(tableLines: seq<string>, i: nat)
    requires |tableLines| >= 2 && i < |TableRows(tableLines)|
    requires |TableRows(tableLines)[i]| > |TableRows(tableLines)[0]|
    ensures TableBlocks(tableLines) == Err(IndexError)
  {
  }

  /** Any non-blank line holding '|' is a table row, a heading included. */
  lemma {:induction false} PipeLineIsRow(line: string)
    requires '|' in line && !("```" <= Strip(line))
    ensures Classify(line) == Content(line, RowLine)
  {
    StripEmpty(line);
    var k :| 0 <= k < |line| && line[k] == '|';
    assert !IsSpace(line[k]);
  }

  /** The block prefixes are matched on the unstripped line: a line that starts with
      whitespace is never a heading, bullet or numbered item, only a plain paragraph, a rule,
      or nothing. */
  lemma IndentedLineIsPlain(line: string)
    requires |line| > 0 && IsSpace(line[0])
    ensures BlockOf(line).None? || (BlockOf(line).value.Paragraph? && BlockOf(line).value.style == Plain)
  {
  }

  /** A blank line adds nothing. */
  lemma {:induction false} BlankLineAddsNothing(line: string)
    requires Strip(line) == []
    ensures Classify(line) == Content(line, OtherLine(None))
  {
    StripEmpty(line);
    if line != [] {
      var c := line[0];
      assert IsSpace(c);
      assert c != '#' && c != '-' && c != '*' && !('1' <= c <= '9');
      assert !PdfBlocks.IsNumbered(line);
    }
    assert BlockOf(line) == None;
    assert forall k :: 0 <= k < |line| ==> line[k] != '|';
  }
}
