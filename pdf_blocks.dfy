/** The ReportLab back end's markdown reader (markdown_to_pdf_bytes_reportlab): the document
    title scan and the line-by-line classifier that turns the markdown into a list of
    flowables (paragraphs in named styles, tables, spacers and diagram images). */
module PdfBlocks {
  import opened Wrappers
  import opened Text
  import opened Markup
  import opened Tables
  import Mermaid

  // ---------------------------------------------------------------------------------------
  // The document title

  /** The title used in the page header: the text of the first stripped line starting "# ",
      or "Document". */
  function DocumentTitle(lines: seq<string>): string {
    if lines == [] then "Document"
    else
      var line := Strip(lines[0]);
      if "# " <= line then Strip(line[2..]) else DocumentTitle(lines[1..])
  }

  /** The title loop, with its break. */
  method FindTitle(lines: seq<string>) returns (documentTitle: string)
    ensures documentTitle == DocumentTitle(lines)
  {
    documentTitle := "Document";
    var i := 0;
    while i < |lines|
      invariant 0 <= i <= |lines|
      invariant DocumentTitle(lines) == DocumentTitle(lines[i..])
    {
      var line := Strip(lines[i]);
      if "# " <= line {
        documentTitle := Strip(line[2..]);
        assert lines[i..][0] == lines[i];
        return;
      }
      assert lines[i..][1..] == lines[i + 1..];
      i := i + 1;
    }
  }

  /** The first line whose stripped form starts "# " gives the title, whatever follows. */
  lemma {:induction false} TitleFromFirstHeading(lines: seq<string>, i: nat)
    requires i < |lines| && "# " <= Strip(lines[i])
    requires forall k :: 0 <= k < i ==> !("# " <= Strip(lines[k]))
    ensures DocumentTitle(lines) == Strip(Strip(lines[i])[2..])
  {
    if i > 0 {
      assert !("# " <= Strip(lines[0]));
      forall k | 0 <= k < i - 1
        ensures !("# " <= Strip(lines[1..][k]))
      {
        assert lines[1..][k] == lines[k + 1];
      }
      TitleFromFirstHeading(lines[1..], i - 1);
    }
  }

  /** Without such a line the title stays "Document". */
  lemma {:induction false} TitleDefault(lines: seq<string>)
    requires forall k :: 0 <= k < |lines| ==> !("# " <= Strip(lines[k]))
    ensures DocumentTitle(lines) == "Document"
  {
    if lines != [] {
      assert !("# " <= Strip(lines[0]));
      forall k | 0 <= k < |lines| - 1
        ensures !("# " <= Strip(lines[1..][k]))
      {
        assert lines[1..][k] == lines[k + 1];
      }
      TitleDefault(lines[1..]);
    }
  }

  // ---------------------------------------------------------------------------------------
  // Flowables

  /** The paragraph styles of the sample style sheet the classifier uses. */
  datatype ParaStyle = TitleStyle | HeadingStyle | SubHeadingStyle | SubSubHeadingStyle
                     | NormalStyle | BulletStyle | CodeStyle

  /** A flowable: a Paragraph with its style, a parsed Table, a Spacer(1, height), or the
      image drawn from a diagram's source. */
  datatype Element = Para(text: string, style: ParaStyle) | TableBlock(layout: TableLayout)
                   | Spacer(height: nat) | DiagramImage(source: string)

  /** The height in points of the spacer added after blank lines, tables and diagrams. */
  const Gap: nat := 12

  /** The number of leading two-space pairs of the unstripped line. */
  function IndentLevel(s: string): (n: nat)
    ensures 2 * n <= |s|
  {
    if "  " <= s then 1 + IndentLevel(s[2..]) else 0
  }

  /** IndentLevel counts exactly the leading pairs: they are there, and no further pair is. */
  lemma {:induction false} IndentLevelSpec(s: string)
    ensures Repeat("  ", IndentLevel(s)) <= s
    ensures !("  " <= s[2 * IndentLevel(s)..])
  {
    if "  " <= s {
      IndentLevelSpec(s[2..]);
      assert s == s[..2] + s[2..];
      assert s[2..][2 * IndentLevel(s[2..])..] == s[2 * IndentLevel(s)..];
    } else {
      assert s[0..] == s;
    }
  }

  /** The while loop that strips leading pairs off original_line. */
  method CountIndent(line: string) returns (indentLevel: nat)
    ensures indentLevel == IndentLevel(line)
  {
    indentLevel := 0;
    var originalLine := line;
    while "  " <= originalLine
      invariant |originalLine| <= |line|
      invariant indentLevel + IndentLevel(originalLine) == IndentLevel(line)
      decreases |originalLine|
    {
      indentLevel := indentLevel + 1;
      originalLine := originalLine[2..];
    }
  }

  /** The bullet's text (pdf_docx_api.py:992): two spaces per indent level, then the bullet
      sign and a space, then the text. */
  function BulletText(indentLevel: nat, text: string): (r: string)
    ensures r == Repeat("  ", indentLevel) + "• " + text
  {
    if indentLevel > 0 then Repeat("  ", indentLevel) + "• " + text else "• " + text
  }

  predicate IsNumbered(line: string) {
    "1. " <= line || "2. " <= line || "3. " <= line || "4. " <= line || "5. " <= line
    || "6. " <= line || "7. " <= line || "8. " <= line || "9. " <= line
  }

  /** The paragraph a text line becomes, from its stripped form `line` and its unstripped
      form `original`: headings keep their text as written, bullets, numbered items and plain
      text go through process_bold_text. Numbered items and plain text come out alike. */
  function TextElement(original: string, line: string): Element {
    if "#### " <= line then Para(Strip(line[5..]), SubSubHeadingStyle)
    else if "### " <= line then Para(Strip(line[4..]), SubHeadingStyle)
    else if "## " <= line then Para(Strip(line[3..]), HeadingStyle)
    else if "# " <= line then Para(Strip(line[2..]), TitleStyle)
    else if "- " <= line || "* " <= line then
      Para(BulletText(IndentLevel(original), ProcessBoldText(Strip(line[2..]))), BulletStyle)
    else if IsNumbered(line) then Para(ProcessBoldText(line), NormalStyle)
    else Para(ProcessBoldText(line), NormalStyle)
  }

  // ---------------------------------------------------------------------------------------
  // Line classification

  /** What a line that is not a fence does outside a code block. */
  datatype Role = TableRow | BlankLine | TextLine(element: Element)

  /** A fence with its language, or any other line with its unstripped text (kept verbatim
      inside a code block) and its role outside one. */
  datatype Line = Fence(language: string) | Content(original: string, role: Role)

  /** A table row holds '|' and does not start with '#'. */
  predicate IsTableRow(line: string) {
    '|' in line && !("#" <= line)
  }

  function Classify(original: string): Line {
    var line := Strip(original);
    if "```" <= line then Fence(Strip(line[3..]))
    else if IsTableRow(line) then Content(original, TableRow)
    else if line == [] then Content(original, BlankLine)
    else Content(original, TextLine(TextElement(original, line)))
  }

  function ClassifyAll(lines: seq<string>): (r: seq<Line>)
    ensures |r| == |lines|
  {
    seq(|lines|, i requires 0 <= i < |lines| => Classify(lines[i]))
  }

  // ---------------------------------------------------------------------------------------
  // The state machine

  /** The mode variables: in_code_block, code_lines, code_language, in_table, table_lines. */
  datatype PdfState = PdfState(inCode: bool, codeLines: seq<string>, codeLanguage: string,
                               inTable: bool, tableLines: seq<string>)

  const Initial: PdfState := PdfState(false, [], "", false, [])

  /** Code lines are only held inside a code block, and a table is open exactly when it has
      lines. */
  predicate Inv(st: PdfState) {
    (!st.inCode ==> st.codeLines == []) && (st.inTable <==> st.tableLines != [])
  }

  /** A pending table: its ReportLab Table and a spacer, or nothing when it does not parse. */
  function TableOut(tableLines: seq<string>): seq<Element> {
    match TableSpec(tableLines)
    case Some(t) => [TableBlock(t), Spacer(Gap)]
    case None => []
  }

  /** A closed code block with lines: a Mermaid block becomes the drawn image and a spacer, or
      its placeholder in the code style when it cannot be drawn; any other block becomes one
      code paragraph. `rendered` says whether render_mermaid_diagram returned image data and
      the image could be embedded. */
  function CodeBlock(codeLines: seq<string>, language: string, rendered: string -> bool): seq<Element> {
    var codeText := Join(codeLines, "\n");
    if language != [] && Mermaid.IsMermaidDiagram(codeText, language) then
      if rendered(codeText) then [DiagramImage(codeText), Spacer(Gap)]
      else [Para(Mermaid.CreateMermaidPlaceholder(codeText), CodeStyle)]
    else [Para(codeText, CodeStyle)]
  }

  /** The flowables of a line's role outside a code block, once a pending table is closed. */
  function RoleElements(role: Role): seq<Element> {
    match role
    case TableRow => []
    case BlankLine => [Spacer(Gap)]
    case TextLine(e) => [e]
  }

  /** One iteration of the loop: the new mode and the flowables appended. */
  function Step(st: PdfState, line: Line, rendered: string -> bool): (PdfState, seq<Element>) {
    match line
    case Fence(language) =>
      if st.inCode then
        if st.codeLines != [] then
          (st.(inCode := false, codeLines := [], codeLanguage := ""),
           CodeBlock(st.codeLines, st.codeLanguage, rendered))
        else (st.(inCode := false), [])
      else (st.(inCode := true, codeLanguage := language), [])
    case Content(original, role) =>
      if st.inCode then (st.(codeLines := st.codeLines + [original]), [])
      else if role.TableRow? then
        (st.(inTable := true, tableLines := (if st.inTable then st.tableLines else []) + [original]), [])
      else if st.inTable then
        (st.(inTable := false, tableLines := []), TableOut(st.tableLines) + RoleElements(role))
      else (st, RoleElements(role))
  }

  /** After the last line: a left-over code block as plain code, then a left-over table. */
  function Finish(st: PdfState): seq<Element> {
    (if st.codeLines != [] then [Para(Join(st.codeLines, "\n"), CodeStyle)] else [])
    + TableOut(st.tableLines)
  }

  /** The flowables from state st onwards. */
  function Run(st: PdfState, lines: seq<Line>, rendered: string -> bool): seq<Element>
    decreases |lines|
  {
    if lines == [] then Finish(st)
    else
      var step := Step(st, lines[0], rendered);
      step.1 + Run(step.0, lines[1..], rendered)
  }

  /** The elements list markdown_to_pdf_bytes_reportlab hands to doc.build. */
  function PdfElements(markdownText: string, rendered: string -> bool): seq<Element> {
    Run(Initial, ClassifyAll(SplitOn(markdownText, '\n')), rendered)
  }

  // ---------------------------------------------------------------------------------------
  // The loop, proved against Run

  /** The table-closing branch: parse the pending lines and append the table with a spacer. */
  method CloseTable(tableLines: seq<string>) returns (appended: seq<Element>)
    ensures appended == TableOut(tableLines)
  {
    appended := [];
    if tableLines != [] {
      var table := ParseMarkdownTable(tableLines);
      if table.Some? {
        appended := [TableBlock(table.value), Spacer(Gap)];
      }
    }
  }

  /** The fence branch when a code block ends. */
  method CloseCode(codeLines: seq<string>, codeLanguage: string, rendered: string -> bool)
    returns (appended: seq<Element>)
    requires codeLines != []
    ensures appended == CodeBlock(codeLines, codeLanguage, rendered)
  {
    var codeText := Join(codeLines, "\n");
    if codeLanguage != [] && Mermaid.IsMermaidDiagram(codeText, codeLanguage) {
      var imageData := rendered(codeText);
      if imageData {
        appended := [DiagramImage(codeText), Spacer(Gap)];
      } else {
        var placeholder := Mermaid.CreateMermaidPlaceholder(codeText);
        appended := [Para(placeholder, CodeStyle)];
      }
    } else {
      appended := [Para(codeText, CodeStyle)];
    }
  }

  /** The headings, bullets, numbered and plain branches for a non-blank stripped line. */
  method TextParagraph(original: string, line: string) returns (e: Element)
    ensures e == TextElement(original, line)
  {
    if "#### " <= line {
      e := Para(Strip(line[5..]), SubSubHeadingStyle);
    } else if "### " <= line {
      e := Para(Strip(line[4..]), SubHeadingStyle);
    } else if "## " <= line {
      e := Para(Strip(line[3..]), HeadingStyle);
    } else if "# " <= line {
      e := Para(Strip(line[2..]), TitleStyle);
    } else if "- " <= line || "* " <= line {
      var text := ProcessBoldText(Strip(line[2..]));
      var indentLevel := CountIndent(original);
      var bulletText := if indentLevel > 0 then Repeat("  ", indentLevel) + "• " + text else "• " + text;
      e := Para(bulletText, BulletStyle);
    } else if IsNumbered(line) {
      e := Para(ProcessBoldText(line), NormalStyle);
    } else {
      e := Para(ProcessBoldText(line), NormalStyle);
    }
  }

  /** One iteration of the for loop over the lines. */
  method LineStep(st: PdfState, original: string, rendered: string -> bool)
    returns (next: PdfState, appended: seq<Element>)
    ensures (next, appended) == Step(st, Classify(original), rendered)
  {
    next, appended := st, [];
    var line := Strip(original);
    if "```" <= line {
      if st.inCode {
        if st.codeLines != [] {
          appended := CloseCode(st.codeLines, st.codeLanguage, rendered);
          next := next.(codeLines := [], codeLanguage := "");
        }
        next := next.(inCode := false);
      } else {
        next := next.(codeLanguage := Strip(line[3..]), inCode := true);
      }
      return;
    }
    if st.inCode {
      next := next.(codeLines := st.codeLines + [original]);
      return;
    }
    if '|' in line && !("#" <= line) {
      if !st.inTable {
        next := next.(inTable := true, tableLines := []);
      }
      next := next.(tableLines := next.tableLines + [original]);
      return;
    } else if st.inTable {
      appended := CloseTable(st.tableLines);
      next := next.(inTable := false, tableLines := []);
    }
    if line == [] {
      assert Classify(original) == Content(original, BlankLine);
      assert [] + [Spacer(Gap)] == [Spacer(Gap)];
      appended := appended + [Spacer(Gap)];
      return;
    }
    var e := TextParagraph(original, line);
    assert Classify(original) == Content(original, TextLine(e));
    assert [] + [e] == [e];
    appended := appended + [e];
  }

  /** The two flushes after the loop: a left-over code block, then a left-over table. */
  method FlushRemaining(st: PdfState) returns (appended: seq<Element>)
    ensures appended == Finish(st)
  {
    appended := [];
    if st.codeLines != [] {
      var codeText := Join(st.codeLines, "\n");
      appended := [Para(codeText, CodeStyle)];
    }
    var table := CloseTable(st.tableLines);
    appended := appended + table;
  }

  lemma {:induction false} RunResume(before: seq<Element>, appended: seq<Element>, st: PdfState, next: PdfState,
                  lines: seq<Line>, i: nat, rendered: string -> bool)
    requires i < |lines|
    requires (next, appended) == Step(st, lines[i], rendered)
    ensures (before + appended) + Run(next, lines[i + 1..], rendered) == before + Run(st, lines[i..], rendered)
  {
    assert lines[i..][0] == lines[i] && lines[i..][1..] == lines[i + 1..];
  }

  /** The classifier loop of markdown_to_pdf_bytes_reportlab and the flushes after it. */
  method MarkdownToElements(markdownText: string, rendered: string -> bool) returns (elements: seq<Element>)
    ensures elements == PdfElements(markdownText, rendered)
  {
    var lines := SplitOn(markdownText, '\n');
    ghost var kinds := ClassifyAll(lines);
    elements := [];
    var st := Initial;
    var i := 0;
    assert kinds[0..] == kinds;
    while i < |lines|
      invariant 0 <= i <= |lines|
      invariant elements + Run(st, kinds[i..], rendered) == Run(Initial, kinds, rendered)
    {
      var next, appended := LineStep(st, lines[i], rendered);
      RunResume(elements, appended, st, next, kinds, i, rendered);
      elements := elements + appended;
      st := next;
      i := i + 1;
    }
    assert kinds[i..] == [];
    var remaining := FlushRemaining(st);
    elements := elements + remaining;
  }
}

module PdfBlocksProps {
  import opened Text
  import opened Markup
  import opened PdfBlocks

  /** The loop starts in a state that keeps the invariant, and every step keeps it. */
  lemma StepKeepsInv(st: PdfState, line: Line, rendered: string -> bool)
    requires Inv(st)
    ensures Inv(Initial) && Inv(Step(st, line, rendered).0)
  {
  }

  /** Outside a code block the stored language plays no part: the next fence replaces it. */
  lemma {:induction false} RunIgnoresLanguage(st: PdfState, language: string, lines: seq<Line>,
                                               rendered: string -> bool)
    requires !st.inCode
    ensures Run(st, lines, rendered) == Run(st.(codeLanguage := language), lines, rendered)
    decreases |lines|
  {
    if lines != [] && lines[0].Content? {
      var next := Step(st, lines[0], rendered).0;
      RunIgnoresLanguage(next, language, lines[1..], rendered);
      assert Step(st.(codeLanguage := language), lines[0], rendered).0 == next.(codeLanguage := language);
    }
  }

  predicate AllContent(lines: seq<Line>) {
    forall i :: 0 <= i < |lines| ==> lines[i].Content?
  }

  /** The unstripped texts of non-fence lines. */
  function Originals(lines: seq<Line>): (r: seq<string>)
    requires AllContent(lines)
    ensures |r| == |lines|
  {
    seq(|lines|, i requires 0 <= i < |lines| => lines[i].original)
  }

  lemma {:induction false} OriginalsCons(line: Line, lines: seq<Line>)
    requires line.Content? && AllContent(lines)
    ensures AllContent([line] + lines) && Originals([line] + lines) == [line.original] + Originals(lines)
  {
    assert forall i :: 0 < i < |lines| + 1 ==> ([line] + lines)[i] == lines[i - 1];
  }

  lemma {:induction false} RunCons(st: PdfState, line: Line, rest: seq<Line>, rendered: string -> bool)
    ensures Run(st, [line] + rest, rendered)
         == Step(st, line, rendered).1 + Run(Step(st, line, rendered).0, rest, rendered)
  {
    assert ([line] + rest)[0] == line && ([line] + rest)[1..] == rest;
  }

  /** Inside a code block every line other than a fence is kept verbatim, unstripped,
      whatever it would be outside one. */
  lemma {:induction false} RunCodeBody(st: PdfState, body: seq<Line>, rest: seq<Line>, rendered: string -> bool)
    requires st.inCode && AllContent(body)
    ensures Run(st, body + rest, rendered) == Run(st.(codeLines := st.codeLines + Originals(body)), rest, rendered)
    decreases |body|
  {
    if body == [] {
      assert body + rest == rest;
      assert st.codeLines + [] == st.codeLines;
    } else {
      var next := st.(codeLines := st.codeLines + [body[0].original]);
      ConsAppend(body, rest);
      RunCons(st, body[0], body[1..] + rest, rendered);
      assert Step(st, body[0], rendered) == (next, []);
      assert AllContent(body[1..]);
      RunCodeBody(next, body[1..], rest, rendered);
      OriginalsCons(body[0], body[1..]);
      SnocAssoc(st.codeLines, body[0].original, Originals(body[1..]));
    }
  }

  /** A closed fence: its lines become one code block (a diagram, its placeholder, or a code
      paragraph), an empty one becomes nothing, and everything else about the state, a table
      still pending included, is as before. So a fence inside a table's lines puts the code
      block ahead of that table. */
  lemma {:induction false} ClosedFence(st: PdfState, language: string, body: seq<Line>, closing: string, rest: seq<Line>,
                    rendered: string -> bool)
    requires Inv(st) && !st.inCode && AllContent(body)
    ensures Run(st, [Fence(language)] + body + [Fence(closing)] + rest, rendered)
         == (if body != [] then CodeBlock(Originals(body), language, rendered) else []) + Run(st, rest, rendered)
  {
    var inside := st.(inCode := true, codeLanguage := language);
    var all := [Fence(language)] + body + [Fence(closing)] + rest;
    assert all[0] == Fence(language) && all[1..] == body + ([Fence(closing)] + rest);
    RunCodeBody(inside, body, [Fence(closing)] + rest, rendered);
    var full := inside.(codeLines := inside.codeLines + Originals(body));
    assert full.codeLines == Originals(body);
    assert ([Fence(closing)] + rest)[0] == Fence(closing) && ([Fence(closing)] + rest)[1..] == rest;
    if body != [] {
      assert full.(inCode := false, codeLines := [], codeLanguage := "") == st.(codeLanguage := "");
      RunIgnoresLanguage(st, "", rest, rendered);
    } else {
      assert full.(inCode := false) == st.(codeLanguage := language);
      RunIgnoresLanguage(st, language, rest, rendered);
    }
  }

  /** A fence never closed: its lines are flushed as one plain code paragraph, a Mermaid
      block included, and a pending table follows it. */
  lemma {:induction false} UnclosedFence(st: PdfState, language: string, body: seq<Line>, rendered: string -> bool)
    requires Inv(st) && !st.inCode && AllContent(body)
    ensures Run(st, [Fence(language)] + body, rendered)
         == (if body != [] then [Para(Join(Originals(body), "\n"), CodeStyle)] else []) + TableOut(st.tableLines)
  {
    var inside := st.(inCode := true, codeLanguage := language);
    var all := [Fence(language)] + body;
    assert all[0] == Fence(language) && all[1..] == body + [];
    RunCodeBody(inside, body, [], rendered);
    assert inside.codeLines + Originals(body) == Originals(body);
  }

  predicate AllRows(lines: seq<Line>) {
    forall i :: 0 <= i < |lines| ==> lines[i].Content? && lines[i].role == TableRow
  }

  /** Outside a code block, consecutive table rows are gathered unstripped into the open table. */
  lemma {:induction false} RunRows(st: PdfState, rows: seq<Line>, rest: seq<Line>, rendered: string -> bool)
    requires Inv(st) && !st.inCode && AllRows(rows)
    ensures Run(st, rows + rest, rendered)
         == Run(st.(inTable := st.inTable || rows != [], tableLines := st.tableLines + Originals(rows)), rest, rendered)
    decreases |rows|
  {
    if rows == [] {
      assert rows + rest == rest;
      assert st.tableLines + [] == st.tableLines;
      assert st.(inTable := st.inTable, tableLines := st.tableLines) == st;
    } else {
      var next := st.(inTable := true, tableLines := st.tableLines + [rows[0].original]);
      assert AllRows(rows[1..]);
      ConsAppend(rows, rest);
      RunRowStep(st, rows[0], rows[1..] + rest, rendered);
      RunRows(next, rows[1..], rest, rendered);
      OriginalsCons(rows[0], rows[1..]);
      SnocAssoc(st.tableLines, rows[0].original, Originals(rows[1..]));
    }
  }

  /** One table row outside a code block is buffered and emits nothing. */
  lemma {:induction false} RunRowStep(st: PdfState, row: Line, tail: seq<Line>, rendered: string -> bool)
    requires Inv(st) && !st.inCode && row.Content? && row.role == TableRow
    ensures Run(st, [row] + tail, rendered)
         == Run(st.(inTable := true, tableLines := st.tableLines + [row.original]), tail, rendered)
  {
    RunCons(st, row, tail, rendered);
    assert Step(st, row, rendered) == (st.(inTable := true, tableLines := st.tableLines + [row.original]), []);
  }

  /** A run of table rows ended by another line: the table is emitted first, and then the
      line that ended it is handled as it would be anywhere else. */
  lemma {:induction false} TableThenLine(rows: seq<Line>, original: string, role: Role, rest: seq<Line>, rendered: string -> bool)
    requires AllRows(rows) && rows != [] && role != TableRow
    ensures Run(Initial, rows + [Content(original, role)] + rest, rendered)
         == TableOut(Originals(rows)) + RoleElements(role) + Run(Initial, rest, rendered)
  {
    assert rows + [Content(original, role)] + rest == rows + ([Content(original, role)] + rest);
    RunRows(Initial, rows, [Content(original, role)] + rest, rendered);
    var pending := Initial.(inTable := true, tableLines := Originals(rows));
    assert Initial.tableLines + Originals(rows) == Originals(rows);
    assert ([Content(original, role)] + rest)[0] == Content(original, role);
    assert ([Content(original, role)] + rest)[1..] == rest;
    assert pending.(inTable := false, tableLines := []) == Initial;
  }

  /** Table rows still open at the end of the input are emitted as the last table. */
  lemma {:induction false} TrailingTable(rows: seq<Line>, rendered: string -> bool)
    requires AllRows(rows)
    ensures Run(Initial, rows, rendered) == TableOut(Originals(rows))
  {
    RunRows(Initial, rows, [], rendered);
    assert rows + [] == rows;
    assert Initial.tableLines + Originals(rows) == Originals(rows);
  }

  /** The order of the rules, as each kind of line is classified: fences first, then table
      rows (a '|' and no leading '#'), then blank lines. */
  lemma ClassifyRules(original: string)
    ensures var t := Strip(original);
      && ("```" <= t ==> Classify(original) == Fence(Strip(t[3..])))
      && (!("```" <= t) && '|' in t && !("#" <= t) ==> Classify(original) == Content(original, TableRow))
      && (t == [] ==> Classify(original) == Content(original, BlankLine))
  {
  }

  /** The four heading levels, keyed on "#### ", "### ", "## " and "# ": their text is the
      rest of the stripped line, stripped, and is not passed through process_bold_text, even
      when it holds a '|'. */
  lemma {:induction false} HeadingRule(original: string, level: nat)
    requires 1 <= level <= 4
    requires var t := Strip(original); (|t| > level && t[level] == ' '
      && forall k :: 0 <= k < level ==> t[k] == '#')
    ensures var t := Strip(original);
      Classify(original) == Content(original, TextLine(Para(Strip(t[level + 1..]), HeadingStyleOf(level))))
  {
    var t := Strip(original);
    assert t[0] == '#';
    assert "#" <= t && !("```" <= t);
    HeadingElement(original, t, level);
  }

  /** The style of each heading level. */
  function HeadingStyleOf(level: nat): ParaStyle {
    if level == 1 then TitleStyle else if level == 2 then HeadingStyle
    else if level == 3 then SubHeadingStyle else SubSubHeadingStyle
  }

  lemma {:induction false} HeadingElement(original: string, t: string, level: nat)
    requires 1 <= level <= 4
    requires |t| > level && t[level] == ' ' && forall k :: 0 <= k < level ==> t[k] == '#'
    ensures TextElement(original, t) == Para(Strip(t[level + 1..]), HeadingStyleOf(level))
  {
    if level == 4 {
      assert t[..5] == "#### ";
      Heading4(original, t);
    } else if level == 3 {
      assert t[..4] == "### ";
      Heading3(original, t);
    } else if level == 2 {
      assert t[..3] == "## ";
      Heading2(original, t);
    } else {
      assert t[..2] == "# ";
      Heading1(original, t);
    }
  }

  lemma {:induction false} Heading4(original: string, t: string)
    requires |t| >= 5 && t[..5] == "#### "
    ensures TextElement(original, t) == Para(Strip(t[5..]), SubSubHeadingStyle)
  {
    assert "#### " <= t;
  }

  lemma {:induction false} Heading3(original: string, t: string)
    requires |t| >= 4 && t[..4] == "### "
    ensures TextElement(original, t) == Para(Strip(t[4..]), SubHeadingStyle)
  {
    assert t[3] == ' ';
    assert "### " <= t && !("#### " <= t);
  }

  lemma {:induction false} Heading2(original: string, t: string)
    requires |t| >= 3 && t[..3] == "## "
    ensures TextElement(original, t) == Para(Strip(t[3..]), HeadingStyle)
  {
    assert t[2] == ' ';
    assert "## " <= t && !("#### " <= t) && !("### " <= t);
  }

  lemma {:induction false} Heading1(original: string, t: string)
    requires |t| >= 2 && t[..2] == "# "
    ensures TextElement(original, t) == Para(Strip(t[2..]), TitleStyle)
  {
    assert t[1] == ' ';
    assert "# " <= t && !("#### " <= t) && !("### " <= t) && !("## " <= t);
  }

  /** A bullet keeps its indent as leading pairs of spaces before the bullet sign, and its
      text goes through process_bold_text. */
  lemma {:induction false} BulletRule(original: string)
    requires var t := Strip(original); ("- " <= t || "* " <= t) && '|' !in t
    ensures var t := Strip(original);
      Classify(original)
      == Content(original, TextLine(Para(Repeat("  ", IndentLevel(original)) + "• " + ProcessBoldText(Strip(t[2..])), BulletStyle)))
  {
    var t := Strip(original);
    assert !("```" <= t) by { assert t[0] != '`'; }
    assert !("#" <= t) by { assert t[0] != '#'; }
  }

  /** A line that is none of the special kinds becomes a Normal paragraph whose only tags are
      the <b> and </b> process_bold_text inserts. */
  lemma {:induction false} ParagraphRule(original: string)
    requires var t := Strip(original); (t != [] && '|' !in t && t[0] != '#' && t[0] != '`'
      && !("- " <= t || "* " <= t))
    ensures var t := Strip(original);
      Classify(original) == Content(original, TextLine(Para(ProcessBoldText(t), NormalStyle)))
      && OnlyBoldTags(ProcessBoldText(t))
  {
    ProcessBoldOnlyTags(Strip(original));
  }
}
