/** Mermaid handling shared by the backends: recognising a Mermaid fence (is_mermaid_diagram),
    the text placeholder used when no image can be drawn (create_mermaid_placeholder), and the
    fence preprocessor of the HTML path (process_mermaid_diagrams_in_markdown). */
module Mermaid {
  import opened Text

  // ---------------------------------------------------------------------------------------
  // is_mermaid_diagram

  /** The fence language, lowercased, is "mermaid" or "mmd"; the code itself is not consulted. */
  predicate IsMermaidDiagram(code: string, language: string) {
    language != [] && (Lower(language) == "mermaid" || Lower(language) == "mmd")
  }

  lemma LowerIdempotent(s: string)
    ensures Lower(Lower(s)) == Lower(s)
  {
  }

  /** Recognition ignores letter case in the language and ignores the diagram source. */
  lemma {:induction false} IsMermaidCaseInsensitive(code: string, other: string, language: string)
    ensures IsMermaidDiagram(code, Lower(language)) == IsMermaidDiagram(other, language)
  {
    LowerIdempotent(language);
  }

  /** Any capitalisation of the two names is recognised; an empty language or another name,
      even one starting with "mermaid", is not. */
  lemma {:induction false} IsMermaidExamples(code: string)
    ensures IsMermaidDiagram(code, "Mermaid") && IsMermaidDiagram(code, "MMD")
    ensures !IsMermaidDiagram(code, "") && !IsMermaidDiagram(code, "mermaidjs")
  {
    assert Lower("Mermaid") == "mermaid";
    assert Lower("MMD") == "mmd";
  }

  // ---------------------------------------------------------------------------------------
  // create_mermaid_placeholder

  const Unavailable: string := " - Mermaid diagram rendering not available]"

  /** The diagram keywords in the order they are tried, each with the name it selects. */
  const DiagramKinds: seq<(string, string)> := [
    ("graph", "Flowchart"), ("sequenceDiagram", "Sequence Diagram"),
    ("classDiagram", "Class Diagram"), ("stateDiagram", "State Diagram"),
    ("erDiagram", "Entity Relationship Diagram"), ("journey", "User Journey"),
    ("gantt", "Gantt Chart"), ("pie", "Pie Chart")]

  /** The first line of the stripped diagram source (str.split always yields a first part). */
  function FirstLine(code: string): string {
    SplitOn(Strip(code), '\n')[0]
  }

  /** Reference lookup: the name of the first keyword in kinds that begins line, else "Diagram". */
  function KindName(line: string, kinds: seq<(string, string)>): (name: string)
    ensures name == "Diagram" || exists i :: 0 <= i < |kinds| && name == kinds[i].1
    ensures (forall i :: 0 <= i < |kinds| ==> !(kinds[i].0 <= line)) ==> name == "Diagram"
  {
    if kinds == [] then "Diagram"
    else if kinds[0].0 <= line then kinds[0].1
    else KindName(line, kinds[1..])
  }

  lemma {:induction false} KindNameStep(line: string, kinds: seq<(string, string)>, i: nat)
    requires i < |kinds|
    ensures KindName(line, kinds[i..]) == if kinds[i].0 <= line then kinds[i].1 else KindName(line, kinds[i + 1..])
  {
    assert kinds[i..][1..] == kinds[i + 1..];
  }

  /** The last two keywords of the lookup. */
  lemma {:induction false} KindNameChainLast(line: string)
    ensures KindName(line, DiagramKinds[6..]) ==
      if "gantt" <= line then "Gantt Chart"
      else if "pie" <= line then "Pie Chart"
      else "Diagram"
  {
    var k := DiagramKinds;
    KindNameStep(line, k, 6);
    KindNameStep(line, k, 7);
    assert k[8..] == [];
  }

  /** The last four keywords of the lookup. */
  lemma {:induction false} KindNameChainTail(line: string)
    ensures KindName(line, DiagramKinds[4..]) ==
      if "erDiagram" <= line then "Entity Relationship Diagram"
      else if "journey" <= line then "User Journey"
      else if "gantt" <= line then "Gantt Chart"
      else if "pie" <= line then "Pie Chart"
      else "Diagram"
  {
    var k := DiagramKinds;
    KindNameStep(line, k, 4);
    KindNameStep(line, k, 5);
    KindNameChainLast(line);
  }

  /** The lookup over DiagramKinds, written out keyword by keyword. */
  lemma {:induction false} KindNameChain(line: string)
    ensures KindName(line, DiagramKinds) ==
      if "graph" <= line then "Flowchart"
      else if "sequenceDiagram" <= line then "Sequence Diagram"
      else if "classDiagram" <= line then "Class Diagram"
      else if "stateDiagram" <= line then "State Diagram"
      else if "erDiagram" <= line then "Entity Relationship Diagram"
      else if "journey" <= line then "User Journey"
      else if "gantt" <= line then "Gantt Chart"
      else if "pie" <= line then "Pie Chart"
      else "Diagram"
  {
    var k := DiagramKinds;
    assert k[0..] == k;
    KindNameStep(line, k, 0);
    KindNameStep(line, k, 1);
    KindNameStep(line, k, 2);
    KindNameStep(line, k, 3);
    KindNameChainTail(line);
  }

  /** The placeholder text: the elif chain over the first line's prefix, case-sensitively. */
  function CreateMermaidPlaceholder(code: string): (r: string)
    ensures r == "[" + KindName(FirstLine(code), DiagramKinds) + Unavailable
  {
    var firstLine := FirstLine(code);
    var diagramType :=
      if "graph" <= firstLine then "Flowchart"
      else if "sequenceDiagram" <= firstLine then "Sequence Diagram"
      else if "classDiagram" <= firstLine then "Class Diagram"
      else if "stateDiagram" <= firstLine then "State Diagram"
      else if "erDiagram" <= firstLine then "Entity Relationship Diagram"
      else if "journey" <= firstLine then "User Journey"
      else if "gantt" <= firstLine then "Gantt Chart"
      else if "pie" <= firstLine then "Pie Chart"
      else "Diagram";
    KindNameChain(firstLine);
    "[" + diagramType + Unavailable
  }

  /** A prefix without a newline is a prefix of the first line. */
  lemma {:induction false} PrefixOfFirstPart(p: string, s: string)
    requires p <= s && '\n' !in p
    ensures p <= SplitOn(s, '\n')[0]
  {
    if p != [] {
      assert p[0] == s[0] && p[0] != '\n';
      assert p[1..] <= s[1..];
      PrefixOfFirstPart(p[1..], s[1..]);
    }
  }

  /** The placeholder always has the fixed frame; the name is one of the table's or "Diagram". */
  lemma {:induction false} PlaceholderShape(code: string)
    ensures var r := CreateMermaidPlaceholder(code);
      r[0] == '[' && Unavailable <= r[|r| - |Unavailable|..]
      && exists t :: (t == "Diagram" || exists i :: 0 <= i < |DiagramKinds| && t == DiagramKinds[i].1)
                      && r == "[" + t + Unavailable
  {
    var t := KindName(FirstLine(code), DiagramKinds);
    var r := CreateMermaidPlaceholder(code);
    assert r[|r| - |Unavailable|..] == Unavailable;
  }

  /** A source whose stripped text starts with "sequenceDiagram" is announced as one. */
  lemma {:induction false} SequenceDiagramPlaceholder(code: string)
    requires "sequenceDiagram" <= Strip(code)
    ensures CreateMermaidPlaceholder(code) == "[" + "Sequence Diagram" + Unavailable
  {
    var line := FirstLine(code);
    PrefixOfFirstPart("sequenceDiagram", Strip(code));
    assert line[0] == 's';
    KindNameChain(line);
    assert !("graph" <= line);
    assert KindName(line, DiagramKinds) == "Sequence Diagram";
  }

  /** A first line that starts with none of the keywords gives the generic name. */
  lemma {:induction false} UnknownDiagramPlaceholder(code: string)
    requires forall i :: 0 <= i < |DiagramKinds| ==> !(DiagramKinds[i].0 <= FirstLine(code))
    ensures CreateMermaidPlaceholder(code) == "[" + "Diagram" + Unavailable
  {
    assert KindName(FirstLine(code), DiagramKinds) == "Diagram";
  }

  // ---------------------------------------------------------------------------------------
  // process_mermaid_diagrams_in_markdown

  /** A line whose stripped form starts with three backticks opens or closes a fence. */
  predicate IsFence(line: string) {
    "```" <= Strip(line)
  }

  /** The fence's language (pdf_docx_api.py:366): what follows the three backticks of the
      stripped line, stripped again. */
  function FenceLanguage(line: string): string
    requires IsFence(line)
  {
    Strip(Strip(line)[3..])
  }

  /** How the loop sees a line: a fence with the language written after its backticks, or text. */
  datatype LineKind = FenceLine(language: string) | TextLine(line: string)

  function Classify(line: string): LineKind {
    if IsFence(line) then FenceLine(FenceLanguage(line)) else TextLine(line)
  }

  function ClassifyAll(lines: seq<string>): (kinds: seq<LineKind>)
    ensures |kinds| == |lines|
  {
    seq(|lines|, i requires 0 <= i < |lines| => Classify(lines[i]))
  }

  /** The mode variables of the loop: in_code_block, code_lines, code_language. */
  datatype FenceState = FenceState(inCode: bool, codeLines: seq<string>, language: string)

  const Outside: FenceState := FenceState(false, [], "")

  /** What a closed fence becomes: one HTML entry for a Mermaid diagram, otherwise the fence
      re-emitted with its language and its body lines verbatim. */
  function EmitFence(language: string, body: seq<string>): (out: seq<string>)
    ensures |out| >= 1
  {
    if language != [] && IsMermaidDiagram(Join(body, "\n"), language) then
      ["<div class=\"mermaid\">\n" + Join(body, "\n") + "\n</div>"]
    else ["```" + language] + body + ["```"]
  }

  /** One line of the loop: the new mode and the lines it appends to processed_lines. */
  function FenceStep(st: FenceState, kind: LineKind): (FenceState, seq<string>) {
    match kind
    case FenceLine(language) =>
      if st.inCode then (Outside, EmitFence(st.language, st.codeLines))
      else (FenceState(true, [], language), [])
    case TextLine(line) =>
      if st.inCode then (FenceState(true, st.codeLines + [line], st.language), [])
      else (st, [line])
  }

  /** The lines emitted from state st onwards; a fence left open at the end emits nothing. */
  function RunFences(st: FenceState, kinds: seq<LineKind>): seq<string>
    decreases |kinds|
  {
    if kinds == [] then []
    else
      var step := FenceStep(st, kinds[0]);
      step.1 + RunFences(step.0, kinds[1..])
  }

  /** What process_mermaid_diagrams_in_markdown returns. */
  function PreprocessSpec(text: string): string {
    Join(RunFences(Outside, ClassifyAll(SplitOn(text, '\n'))), "\n")
  }

  lemma {:induction false} RunFencesCons(st: FenceState, kind: LineKind, rest: seq<LineKind>)
    ensures RunFences(st, [kind] + rest) == FenceStep(st, kind).1 + RunFences(FenceStep(st, kind).0, rest)
  {
    assert ([kind] + rest)[0] == kind && ([kind] + rest)[1..] == rest;
  }

  /** After one step, the lines emitted so far plus what the rest emits are unchanged. */
  lemma {:induction false} RunFencesResume(before: seq<string>, after: seq<string>, st: FenceState, next: FenceState,
                        kinds: seq<LineKind>, i: nat)
    requires i < |kinds|
    requires after == before + FenceStep(st, kinds[i]).1 && next == FenceStep(st, kinds[i]).0
    ensures after + RunFences(next, kinds[i + 1..]) == before + RunFences(st, kinds[i..])
  {
    assert kinds[i..] == [kinds[i]] + kinds[i + 1..];
    RunFencesCons(st, kinds[i], kinds[i + 1..]);
  }

  /** The body of the loop for one line: the new in_code_block, code_lines and code_language,
      and the lines appended to processed_lines. */
  method FenceLineStep(inCodeBlock: bool, codeLines: seq<string>, codeLanguage: string, line: string)
    returns (inCode': bool, codeLines': seq<string>, codeLanguage': string, appended: seq<string>)
    ensures (FenceState(inCode', codeLines', codeLanguage'), appended)
         == FenceStep(FenceState(inCodeBlock, codeLines, codeLanguage), Classify(line))
  {
    inCode', codeLines', codeLanguage', appended := inCodeBlock, codeLines, codeLanguage, [];
    if "```" <= Strip(line) {
      if inCodeBlock {
        if codeLanguage != [] && IsMermaidDiagram(Join(codeLines, "\n"), codeLanguage) {
          var mermaidCode := Join(codeLines, "\n");
          appended := ["<div class=\"mermaid\">\n" + mermaidCode + "\n</div>"];
        } else {
          appended := ["```" + codeLanguage];
          appended := appended + codeLines;
          appended := appended + ["```"];
        }
        codeLines' := [];
        codeLanguage' := "";
        inCode' := false;
      } else {
        var language := Strip(Strip(line)[3..]);
        codeLanguage' := language;
        inCode' := true;
        codeLines' := [];
      }
    } else if inCodeBlock {
      codeLines' := codeLines + [line];
    } else {
      appended := [line];
    }
  }

  /** process_mermaid_diagrams_in_markdown */
  method ProcessMermaidDiagramsInMarkdown(markdownText: string) returns (r: string)
    ensures r == PreprocessSpec(markdownText)
  {
    var lines := SplitOn(markdownText, '\n');
    ghost var kinds := ClassifyAll(lines);
    var processedLines: seq<string> := [];
    var inCodeBlock := false;
    var codeLines: seq<string> := [];
    var codeLanguage: string := "";
    var i := 0;
    assert kinds[0..] == kinds;
    while i < |lines|
      invariant 0 <= i <= |lines|
      invariant processedLines + RunFences(FenceState(inCodeBlock, codeLines, codeLanguage), kinds[i..])
                == RunFences(Outside, kinds)
    {
      ghost var st := FenceState(inCodeBlock, codeLines, codeLanguage);
      ghost var before := processedLines;
      var appended;
      inCodeBlock, codeLines, codeLanguage, appended := FenceLineStep(inCodeBlock, codeLines, codeLanguage, lines[i]);
      processedLines := processedLines + appended;
      RunFencesResume(before, processedLines, st, FenceState(inCodeBlock, codeLines, codeLanguage), kinds, i);
      i := i + 1;
    }
    assert kinds[i..] == [];
    assert processedLines + [] == processedLines;
    r := Join(processedLines, "\n");
  }

  predicate NoFence(lines: seq<string>) {
    forall i :: 0 <= i < |lines| ==> !IsFence(lines[i])
  }

  /** Text kinds of the given lines. */
  function Texts(lines: seq<string>): (kinds: seq<LineKind>)
    ensures |kinds| == |lines|
  {
    seq(|lines|, i requires 0 <= i < |lines| => TextLine(lines[i]))
  }

  /** Lines without a fence are all classified as text. */
  lemma ClassifyNoFence(lines: seq<string>)
    requires NoFence(lines)
    ensures ClassifyAll(lines) == Texts(lines)
  {
  }

  lemma ClassifyAllAppend(a: seq<string>, b: seq<string>)
    ensures ClassifyAll(a + b) == ClassifyAll(a) + ClassifyAll(b)
  {
  }

  /** Outside a fence, text lines pass through unchanged and in order. */
  lemma {:induction false} RunTexts(lines: seq<string>)
    ensures RunFences(Outside, Texts(lines)) == lines
  {
    if lines != [] {
      RunTexts(lines[1..]);
      assert Texts(lines) == [TextLine(lines[0])] + Texts(lines[1..]);
      RunFencesCons(Outside, TextLine(lines[0]), Texts(lines[1..]));
      assert [lines[0]] + lines[1..] == lines;
    }
  }

  /** Inside a fence, text lines are buffered and emit nothing. */
  lemma {:induction false} RunBody(codeLines: seq<string>, language: string, body: seq<string>, rest: seq<LineKind>)
    ensures RunFences(FenceState(true, codeLines, language), Texts(body) + rest)
         == RunFences(FenceState(true, codeLines + body, language), rest)
    decreases |body|
  {
    if body == [] {
      assert Texts(body) + rest == rest && codeLines + body == codeLines;
    } else {
      assert Texts(body) + rest == [TextLine(body[0])] + (Texts(body[1..]) + rest);
      RunFencesCons(FenceState(true, codeLines, language), TextLine(body[0]), Texts(body[1..]) + rest);
      RunBody(codeLines + [body[0]], language, body[1..], rest);
      assert codeLines + [body[0]] + body[1..] == codeLines + body;
    }
  }

  /** A closed fence becomes EmitFence of its language and body lines, and the scan resumes
      outside any fence after it; the language of the closing fence plays no part. */
  lemma {:induction false} RunClosedFence(language: string, body: seq<string>, closing: string, rest: seq<LineKind>)
    ensures RunFences(Outside, [FenceLine(language)] + Texts(body) + [FenceLine(closing)] + rest)
         == EmitFence(language, body) + RunFences(Outside, rest)
  {
    var tail := [FenceLine(closing)] + rest;
    assert [FenceLine(language)] + Texts(body) + [FenceLine(closing)] + rest
        == [FenceLine(language)] + (Texts(body) + tail);
    RunFencesCons(Outside, FenceLine(language), Texts(body) + tail);
    RunBody([], language, body, tail);
    assert [] + body == body;
    RunFencesCons(FenceState(true, body, language), FenceLine(closing), rest);
  }

  /** A fence that is never closed is dropped together with its body. */
  lemma {:induction false} RunUnclosedFence(language: string, body: seq<string>)
    ensures RunFences(Outside, [FenceLine(language)] + Texts(body)) == []
  {
    assert Texts(body) + [] == Texts(body);
    RunFencesCons(Outside, FenceLine(language), Texts(body));
    RunBody([], language, body, []);
  }

  /** A closed Mermaid fence becomes the single entry <div class="mermaid">, then its lines
      joined by newlines, then </div>. */
  lemma {:induction false} MermaidFenceBecomesDiv(language: string, body: seq<string>, closing: string, rest: seq<LineKind>)
    requires Lower(language) == "mermaid" || Lower(language) == "mmd"
    ensures RunFences(Outside, [FenceLine(language)] + Texts(body) + [FenceLine(closing)] + rest)
         == ["<div class=\"mermaid\">\n" + Join(body, "\n") + "\n</div>"] + RunFences(Outside, rest)
  {
    RunClosedFence(language, body, closing, rest);
    assert |Lower(language)| == |language|;
  }

  /** Any other closed fence is re-emitted as three backticks and its language, its body lines
      verbatim, then three backticks. */
  lemma {:induction false} OtherFenceReemitted(language: string, body: seq<string>, closing: string, rest: seq<LineKind>)
    requires Lower(language) != "mermaid" && Lower(language) != "mmd"
    ensures RunFences(Outside, [FenceLine(language)] + Texts(body) + [FenceLine(closing)] + rest)
         == ["```" + language] + body + ["```"] + RunFences(Outside, rest)
  {
    RunClosedFence(language, body, closing, rest);
  }

  /** A line is classified as a fence exactly when its stripped form starts with backticks,
      and then carries the stripped text after them as its language. */
  lemma ClassifyFence(line: string)
    ensures Classify(line).FenceLine? <==> IsFence(line)
    ensures IsFence(line) ==> Classify(line) == FenceLine(Strip(Strip(line)[3..]))
    ensures !IsFence(line) ==> Classify(line) == TextLine(line)
  {
  }

  /** Outside a fence, a line that is not a fence passes through unchanged, before the rest. */
  lemma {:induction false} RunPlainLine(line: string, rest: seq<string>)
    requires !IsFence(line)
    ensures RunFences(Outside, ClassifyAll([line] + rest)) == [line] + RunFences(Outside, ClassifyAll(rest))
  {
    ClassifyAllAppend([line], rest);
    RunFencesCons(Outside, TextLine(line), ClassifyAll(rest));
  }

  /** Markdown without a fence line comes back unchanged. */
  lemma {:induction false} PreprocessWithoutFences(text: string)
    requires NoFence(SplitOn(text, '\n'))
    ensures PreprocessSpec(text) == text
  {
    ClassifyNoFence(SplitOn(text, '\n'));
    RunTexts(SplitOn(text, '\n'));
    JoinSplitOn(text, '\n');
  }
}
