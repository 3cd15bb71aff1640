/** Back-end selection: markdown_to_pdf_bytes, the control flow of markdown_to_docx_bytes and
    the three-method chain of render_mermaid_diagram. Library availability is a parameter, and
    every library call (WeasyPrint, ReportLab, pandoc, mmdc, the two web services) is an
    abstract outcome: the bytes it produced or the exception it raised. */
module Backends {
  import opened Wrappers
  import opened Text
  import DocxBlocks
  import PdfBlocks

  newtype byte = x: int | 0 <= x < 256
  type Bytes = seq<byte>

  /** What one library call did. */
  datatype Attempt = Produced(data: Bytes) | Raised

  datatype Backend = WeasyPrint | ReportLab | Pandoc | PythonDocx

  datatype Rendered = Rendered(data: Bytes, backend: Backend)

  /** RuntimeError raised by the module itself, an exception escaping from a back end, or the
      IndexError of the python-docx table code. */
  datatype RenderError = RuntimeError(message: string) | BackendRaised(backend: Backend) | DocxIndexError

  const PdfUnavailable: string :=
    "PDF rendering is not available. Neither WeasyPrint nor ReportLab is installed. "
    + "Please install ReportLab (pip install reportlab) or use DOCX rendering instead."

  const DocxUnavailable: string := "No DOCX backend available. Install pypandoc (recommended) or python-docx."

  function FromAttempt(a: Attempt, backend: Backend): (r: Result<Rendered, RenderError>)
    ensures r.Ok? <==> a.Produced?
    ensures r.Ok? ==> r.value == Rendered(a.data, backend)
    ensures r.Err? ==> r.error == BackendRaised(backend)
  {
    match a
    case Produced(data) => Ok(Rendered(data, backend))
    case Raised => Err(BackendRaised(backend))
  }

  // ---------------------------------------------------------------------------------------
  // PDF

  /** markdown_to_pdf_bytes_reportlab: the document title and the element list of the markdown
      reader, handed to the document build, which `build` stands for (it yields the bytes or
      raises). */
  function ReportLabBranch(markdownText: string, rendered: string -> bool,
                           build: (string, seq<PdfBlocks.Element>) -> Attempt)
    : (r: Result<Rendered, RenderError>)
    ensures var a := build(PdfBlocks.DocumentTitle(SplitOn(markdownText, '\n')),
                           PdfBlocks.PdfElements(markdownText, rendered));
      (r.Ok? <==> a.Produced?) && (r.Ok? ==> r.value == Rendered(a.data, ReportLab))
      && (r.Err? ==> r.error == BackendRaised(ReportLab))
  {
    FromAttempt(build(PdfBlocks.DocumentTitle(SplitOn(markdownText, '\n')),
                      PdfBlocks.PdfElements(markdownText, rendered)), ReportLab)
  }

  /** markdown_to_pdf_bytes: WeasyPrint whenever it is installed, ReportLab only otherwise. */
  function MarkdownToPdf(weasyAvailable: bool, reportlabAvailable: bool, weasy: Attempt,
                         markdownText: string, rendered: string -> bool,
                         build: (string, seq<PdfBlocks.Element>) -> Attempt)
    : (r: Result<Rendered, RenderError>)
    ensures weasyAvailable ==> r == FromAttempt(weasy, WeasyPrint)
    ensures !weasyAvailable && reportlabAvailable ==> r == ReportLabBranch(markdownText, rendered, build)
    ensures r.Ok? ==> (r.value.backend == WeasyPrint <==> weasyAvailable)
    ensures r.Ok? && r.value.backend == ReportLab ==> !weasyAvailable && reportlabAvailable
    ensures r == Err(RuntimeError(PdfUnavailable)) <==> !weasyAvailable && !reportlabAvailable
  {
    if weasyAvailable then FromAttempt(weasy, WeasyPrint)
    else if reportlabAvailable then ReportLabBranch(markdownText, rendered, build)
    else Err(RuntimeError(PdfUnavailable))
  }

  // ---------------------------------------------------------------------------------------
  // DOCX

  /** Which removals the finally clause of markdown_to_docx_bytes attempted. */
  datatype DocxCleanup = DocxCleanup(outputRemoval: bool, referenceRemoval: bool)

  /** The python-docx branch: the blocks of the markdown reader, saved by `save`, or the
      IndexError its table code raises. */
  function PythonDocxBranch(markdownText: string, save: seq<DocxBlocks.DocBlock> -> Bytes)
    : (r: Result<Rendered, RenderError>)
    ensures r.Ok? <==> DocxBlocks.DocxDocument(markdownText).Ok?
    ensures r.Ok? ==> r.value == Rendered(save(DocxBlocks.DocxDocument(markdownText).value), PythonDocx)
    ensures r.Err? ==> r.error == DocxIndexError
  {
    match DocxBlocks.DocxDocument(markdownText)
    case Ok(blocks) => Ok(Rendered(save(blocks), PythonDocx))
    case Err(_) => Err(DocxIndexError)
  }

  /** markdown_to_docx_bytes. `reference` says whether _create_reference_docx saved a
      reference document (it only can when python-docx is installed, and it never raises);
      `outputRemovalRaises` says whether os.remove of the pandoc output file raises, which
      skips the removal of the reference document. */
  function MarkdownToDocx(pandocAvailable: bool, docxAvailable: bool, reference: bool, pandoc: Attempt,
                          outputRemovalRaises: bool, markdownText: string,
                          save: seq<DocxBlocks.DocBlock> -> Bytes)
    : (r: (Result<Rendered, RenderError>, DocxCleanup))
    ensures pandocAvailable && pandoc.Produced? ==> r.0 == Ok(Rendered(pandoc.data, Pandoc))
    ensures !(pandocAvailable && pandoc.Produced?) && docxAvailable ==> r.0 == PythonDocxBranch(markdownText, save)
    ensures r.0 == Err(RuntimeError(DocxUnavailable)) <==> !(pandocAvailable && pandoc.Produced?) && !docxAvailable
    ensures r.1.outputRemoval <==> pandocAvailable
    ensures r.1.referenceRemoval <==> pandocAvailable && docxAvailable && reference && !outputRemovalRaises
  {
    var cleanup :=
      DocxCleanup(pandocAvailable, pandocAvailable && docxAvailable && reference && !outputRemovalRaises);
    if pandocAvailable && pandoc.Produced? then (Ok(Rendered(pandoc.data, Pandoc)), cleanup)
    else if docxAvailable then (PythonDocxBranch(markdownText, save), cleanup)
    else (Err(RuntimeError(DocxUnavailable)), cleanup)
  }

  // ---------------------------------------------------------------------------------------
  // Mermaid rendering

  /** Method 1, mmdc: it ran (exit code, whether the PNG file still exists, its bytes), it was
      missing or timed out, or something else raised after `mmdSet`/`pngSet` temp paths had
      been recorded. */
  datatype CliOutcome =
    | CliRan(returnCode: int, pngExists: bool, png: Bytes)
    | CliUnavailable
    | CliAborted(mmdSet: bool, pngSet: bool)

  /** Methods 2 and 3: an HTTP response, or any exception (all of them are caught). */
  datatype WebOutcome = Response(status: int, content: Bytes) | WebRaised

  /** Which removals the finally clause of render_mermaid_diagram attempted. */
  datatype MermaidCleanup = MermaidCleanup(mmdRemoval: bool, pngRemoval: bool)

  predicate CliSucceeded(cli: CliOutcome) {
    cli.CliRan? && cli.returnCode == 0 && cli.pngExists && |cli.png| > 0
  }

  predicate WebSucceeded(web: WebOutcome) {
    web.Response? && web.status == 200 && |web.content| > 0
  }

  /** The image render_mermaid_diagram returns and the removals its finally clause attempts;
      `mmdRemovalRaises` says whether removing the .mmd file raises, which skips the PNG. */
  function RenderSpec(available: bool, cli: CliOutcome, ink: WebOutcome, kroki: WebOutcome, mmdRemovalRaises: bool)
    : (Option<Bytes>, MermaidCleanup)
  {
    if !available then (None, MermaidCleanup(false, false))
    else
      var mmdSet := if cli.CliAborted? then cli.mmdSet else true;
      var pngSet := if cli.CliAborted? then cli.pngSet else true;
      var pngExists := if cli.CliRan? then cli.pngExists else true;
      var cleanup := MermaidCleanup(mmdSet, pngSet && pngExists && !(mmdSet && mmdRemovalRaises));
      var image :=
        if CliSucceeded(cli) then Some(cli.png)
        else if cli.CliAborted? then None
        else if WebSucceeded(ink) then Some(ink.content)
        else if WebSucceeded(kroki) then Some(kroki.content)
        else None;
      (image, cleanup)
  }

  /** One web method: the response body on status 200 with content, otherwise nothing. */
  method WebAttempt(web: WebOutcome) returns (image: Option<Bytes>)
    ensures image.Some? <==> WebSucceeded(web)
    ensures image.Some? ==> image.value == web.content
  {
    image := None;
    match web {
      case Response(status, content) =>
        if status == 200 && |content| > 0 {
          image := Some(content);
        }
      case WebRaised =>
    }
  }

  /** render_mermaid_diagram: the three methods tried in order, then the finally clause. */
  method RenderMermaidDiagram(available: bool, cli: CliOutcome, ink: WebOutcome, kroki: WebOutcome,
                              mmdRemovalRaises: bool)
    returns (image: Option<Bytes>, cleanup: MermaidCleanup)
    ensures (image, cleanup) == RenderSpec(available, cli, ink, kroki, mmdRemovalRaises)
    ensures image.Some? ==> |image.value| > 0
  {
    if !available {
      return None, MermaidCleanup(false, false);
    }
    var mmdSet := false;
    var pngSet := false;
    var pngExists := true;
    var done := false;
    image := None;
    // Method 1
    match cli {
      case CliRan(code, present, png) =>
        mmdSet, pngSet, pngExists := true, true, present;
        if code == 0 && present && |png| > 0 {
          image, done := Some(png), true;
        }
      case CliUnavailable =>
        mmdSet, pngSet := true, true;
      case CliAborted(m, p) =>
        // the outer handler returns None
        mmdSet, pngSet, done := m, p, true;
    }
    // Method 2
    if !done {
      image := WebAttempt(ink);
      done := image.Some?;
    }
    // Method 3
    if !done {
      image := WebAttempt(kroki);
    }
    // finally: both removals share one try, so a raising .mmd removal skips the PNG
    var mmdRemoval := mmdSet;
    var pngRemoval := false;
    if !(mmdSet && mmdRemovalRaises) && pngSet && pngExists {
      pngRemoval := true;
    }
    cleanup := MermaidCleanup(mmdRemoval, pngRemoval);
  }
}

module BackendsProps {
  import opened Wrappers
  import DocxBlocks
  import opened Backends

  /** A failing WeasyPrint is not rescued by ReportLab: with WeasyPrint installed the result
      does not depend on ReportLab at all. */
  lemma PdfNoFallback(reportlabA: bool, reportlabB: bool, weasy: Attempt, markdownText: string,
                      rendered: string -> bool, buildA: (string, seq<PdfBlocks.Element>) -> Attempt,
                      buildB: (string, seq<PdfBlocks.Element>) -> Attempt)
    ensures MarkdownToPdf(true, reportlabA, weasy, markdownText, rendered, buildA)
         == MarkdownToPdf(true, reportlabB, weasy, markdownText, rendered, buildB)
    ensures weasy.Raised? ==>
      MarkdownToPdf(true, reportlabA, weasy, markdownText, rendered, buildA) == Err(BackendRaised(WeasyPrint))
  {
  }

  /** A successful pandoc conversion is returned as is, whatever python-docx would do. */
  lemma DocxPandocWins(docxAvailable: bool, reference: bool, data: Bytes, outputRemovalRaises: bool,
                       markdownText: string, save: seq<DocxBlocks.DocBlock> -> Bytes)
    ensures MarkdownToDocx(true, docxAvailable, reference, Produced(data), outputRemovalRaises, markdownText, save).0
         == Ok(Rendered(data, Pandoc))
  {
  }

  /** A failed pandoc conversion falls through: the result is what it would be without pandoc. */
  lemma DocxPandocFallsThrough(docxAvailable: bool, reference: bool, outputRemovalRaises: bool,
                               markdownText: string, save: seq<DocxBlocks.DocBlock> -> Bytes, other: Attempt)
    ensures MarkdownToDocx(true, docxAvailable, reference, Raised, outputRemovalRaises, markdownText, save).0
         == MarkdownToDocx(false, docxAvailable, reference, other, outputRemovalRaises, markdownText, save).0
  {
  }

  /** The pandoc output file is always removed once created, on success and on failure; the
      reference document too unless removing the output file raised. */
  lemma DocxCleanupAttempted(pandocAvailable: bool, docxAvailable: bool, reference: bool, pandoc: Attempt,
                             outputRemovalRaises: bool, markdownText: string,
                             save: seq<DocxBlocks.DocBlock> -> Bytes)
    ensures var cleanup := MarkdownToDocx(pandocAvailable, docxAvailable, reference, pandoc,
                                          outputRemovalRaises, markdownText, save).1;
      (cleanup.outputRemoval <==> pandocAvailable)
      && (cleanup.referenceRemoval <==> pandocAvailable && docxAvailable && reference && !outputRemovalRaises)
  {
  }

  /** RuntimeError exactly when pandoc did not deliver and python-docx is missing. */
  lemma {:induction false} DocxRuntimeError(pandocAvailable: bool, docxAvailable: bool, reference: bool, pandoc: Attempt,
                         outputRemovalRaises: bool, markdownText: string,
                         save: seq<DocxBlocks.DocBlock> -> Bytes)
    ensures MarkdownToDocx(pandocAvailable, docxAvailable, reference, pandoc, outputRemovalRaises, markdownText, save).0
         == Err(RuntimeError(DocxUnavailable))
        <==> !(pandocAvailable && pandoc.Produced?) && !docxAvailable
  {
    var r := MarkdownToDocx(pandocAvailable, docxAvailable, reference, pandoc, outputRemovalRaises, markdownText, save).0;
    if docxAvailable && !(pandocAvailable && pandoc.Produced?) {
      assert r == PythonDocxBranch(markdownText, save);
    }
  }

  /** Without a pandoc result, python-docx saves the reader's blocks: the bytes `save` makes of
      DocxDocument, or its IndexError. */
  lemma {:induction false} DocxFallsToPythonDocx(pandocAvailable: bool, reference: bool, pandoc: Attempt,
                              outputRemovalRaises: bool, markdownText: string,
                              save: seq<DocxBlocks.DocBlock> -> Bytes)
    requires !(pandocAvailable && pandoc.Produced?)
    ensures var r := MarkdownToDocx(pandocAvailable, true, reference, pandoc, outputRemovalRaises, markdownText, save).0;
      (r.Ok? <==> DocxBlocks.DocxDocument(markdownText).Ok?)
      && (r.Ok? ==> r.value == Rendered(save(DocxBlocks.DocxDocument(markdownText).value), PythonDocx))
      && (r.Err? ==> r.error == DocxIndexError)
  {
    assert MarkdownToDocx(pandocAvailable, true, reference, pandoc, outputRemovalRaises, markdownText, save).0
        == PythonDocxBranch(markdownText, save);
  }

  /** The first method that delivers wins, and a later one is only tried after the earlier
      ones failed without aborting. */
  lemma RenderOrder(cli: CliOutcome, ink: WebOutcome, kroki: WebOutcome, mmdRemovalRaises: bool)
    ensures CliSucceeded(cli) ==> RenderSpec(true, cli, ink, kroki, mmdRemovalRaises).0 == Some(cli.png)
    ensures !cli.CliAborted? && !CliSucceeded(cli) && WebSucceeded(ink)
      ==> RenderSpec(true, cli, ink, kroki, mmdRemovalRaises).0 == Some(ink.content)
    ensures !cli.CliAborted? && !CliSucceeded(cli) && !WebSucceeded(ink) && WebSucceeded(kroki)
      ==> RenderSpec(true, cli, ink, kroki, mmdRemovalRaises).0 == Some(kroki.content)
  {
  }

  /** An exception in method 1 other than a timeout or a missing mmdc returns None at once:
      neither web service is consulted. */
  lemma CliAbortSkipsWeb(mmdSet: bool, pngSet: bool, ink: WebOutcome, kroki: WebOutcome, mmdRemovalRaises: bool)
    ensures RenderSpec(true, CliAborted(mmdSet, pngSet), ink, kroki, mmdRemovalRaises).0 == None
  {
  }

  /** None exactly when rendering is unavailable, method 1 aborted, or no method delivered. */
  lemma RenderNone(available: bool, cli: CliOutcome, ink: WebOutcome, kroki: WebOutcome, mmdRemovalRaises: bool)
    ensures RenderSpec(available, cli, ink, kroki, mmdRemovalRaises).0 == None
        <==> !available || (!CliSucceeded(cli) && (cli.CliAborted? || (!WebSucceeded(ink) && !WebSucceeded(kroki))))
  {
  }

  /** Every temp file recorded and still present is removed in the finally clause, on every
      path, unless removing the .mmd file raised. */
  lemma RenderCleanup(cli: CliOutcome, ink: WebOutcome, kroki: WebOutcome)
    ensures var cleanup := RenderSpec(true, cli, ink, kroki, false).1;
      (cleanup.mmdRemoval <==> !cli.CliAborted? || cli.mmdSet)
      && (cleanup.pngRemoval <==> (if cli.CliAborted? then cli.pngSet else !cli.CliRan? || cli.pngExists))
  {
  }
}
