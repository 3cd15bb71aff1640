# Markdown to PDF/DOCX renderer: a Dafny model of its rendering core

`pdf_docx_api.py` is a small web service. It turns a markdown document into PDF or DOCX bytes.
This project models the logic of its rendering pipeline in Dafny and proves properties of that
model. The library calls and the HTTP layer are not modelled. The pipeline pieces are these:

- **Request validators** (module `Sanitize`). `sanitize_markdown` removes control characters and
  normalises line endings. `sanitize_filename` never returns an empty name. `sanitize_css` removes
  control characters.
- **Bold markup for ReportLab** (module `Markup`). `process_bold_text` escapes `&`, `<` and `>`,
  then turns each lazily matched `**…**` pair, and then each `__…__` pair, into `<b>…</b>`.
- **Table parsing and layout** (module `Tables`). `parse_markdown_table` splits rows on `|` and
  drops empty cells and separator rows. It refuses a table with fewer than two rows. Every column
  gets the same width, and a table with more than six columns uses the smaller font tier.
  The module also models `wrap_text_for_table`, the greedy word wrapper for cells.
- **Mermaid handling** (module `Mermaid`). `is_mermaid_diagram` recognises a diagram by its
  language. `create_mermaid_placeholder` builds the placeholder text. The fence preprocessor of
  the HTML path (`process_mermaid_diagrams_in_markdown`) turns each closed mermaid fence into a
  `<div class="mermaid">` block.
- **Wide-table tagging of the HTML** (module `Html`). `post_process_html_tables` counts the cell
  tags of each table's first row. A table with more than six of them gets ` data-wide="true"` on
  its opening tag.
- **The ReportLab markdown reader** (modules `PdfBlocks`, `PdfBlocksProps`). It finds the
  document title, then runs a line-by-line state machine over code fences, tables, headings,
  bullets, numbered items and paragraphs. The result is the list of flowables handed to
  `doc.build`.
- **The python-docx markdown reader** (modules `DocxBlocks`, `DocxBlocksProps`). This sibling
  state machine has rules of its own. It tests headings on the unstripped line, has no `#`
  exclusion for table rows, needs two buffered table lines, drops an unclosed code block and
  splits bold runs on `**`.
- **Back-end selection** (modules `Backends`, `BackendsProps`). It covers `markdown_to_pdf_bytes`,
  the control flow of `markdown_to_docx_bytes` with its clean-up, and the three-method chain of
  `render_mermaid_diagram` with its `finally` clause. Library availability is a parameter. Each
  library call is an abstract outcome: the bytes it produced or the exception it raised.

`Text` holds the models of the Python string operations the code relies on. These are
`strip`/`lstrip`/`rstrip` over Python's whitespace set, `split(sep)`, `split()`, `join`,
slicing with a possibly negative end, and `lower`. `Wrappers` holds `Option` and `Result`.

Each loop in the source is a `method` with a `while` loop. The method is proved equal to a
specification function: a left fold of a one-step function over the classified lines. The
properties are then proved as lemmas about that function. Examples are what a closed fence
becomes, what ends a table, and what is left at the end of input. Pure code in the source
(the validators, `process_bold_text`, the placeholder, the width and font plan, the PDF
back-end branching) is modelled as functions.

The code gives every table column the same width. It has exactly two font tiers (header/data
7/6 with padding 2 above six columns, 8/7 with padding 3 otherwise). The python-docx table
accepts a single surviving row.

## Model

| member | source | states |
|---|---|---|
| Sanitize.SanitizeMarkdownClean | pdf_docx_api.py:95-109 | no stripped control character and no carriage return survives |
| Sanitize.SanitizeMarkdownIdempotent | pdf_docx_api.py:95-109 | cleaning twice is cleaning once, and clean text is returned unchanged |
| Sanitize.SanitizeMarkdownKeeps | pdf_docx_api.py:104-107 | every character other than a stripped control, `\r` or `\n` is kept, as many times as it occurs in the input |
| Sanitize.SanitizeMarkdownAppend | pdf_docx_api.py:104-107 | text without `\r` is cleaned piece by piece: cleaning a concatenation concatenates the cleaned pieces |
| Sanitize.SanitizeMarkdownCrLf | pdf_docx_api.py:107 | a CRLF pair between two such pieces becomes a single `\n` |
| Sanitize.RemoveControlSound | pdf_docx_api.py:104 | keeps only characters of the input that are not stripped controls, and changes nothing in clean text |
| Sanitize.RemoveControlAppend | pdf_docx_api.py:104 | the removal works character by character: it distributes over concatenation |
| Sanitize.RemoveControlChar | pdf_docx_api.py:104 | a single character is dropped exactly when it lies in the class `[\x00-\x08\x0B\x0C\x0E-\x1F\x7F]` |
| Sanitize.RemoveControlCounts | pdf_docx_api.py:104 | a character outside the class occurs in the result as often as in the input, and one inside it not at all |
| Sanitize.RemoveForbiddenSound | pdf_docx_api.py:119 | keeps only characters of the input that are not forbidden in filenames, and changes nothing in a clean name |
| Sanitize.RemoveForbiddenAppend | pdf_docx_api.py:119 | the filename removal distributes over concatenation |
| Sanitize.RemoveForbiddenCounts | pdf_docx_api.py:119 | an allowed character occurs in the result as often as in the input, and a forbidden one not at all |
| Sanitize.NormalizeSound | pdf_docx_api.py:107 | no `\r` remains, only `\n` is introduced, and text without `\r` is unchanged |
| Sanitize.NormalizeCrLf | pdf_docx_api.py:107 | a CRLF pair becomes one `\n` |
| Sanitize.NormalizeLoneCr | pdf_docx_api.py:107 | a `\r` not followed by `\n` becomes `\n` |
| Sanitize.NormalizeOther | pdf_docx_api.py:107 | any other character is copied |
| Sanitize.NormalizeTwoPasses | pdf_docx_api.py:107 | the alternation `\r\n\|\r` equals replacing every CRLF pair first and then every remaining `\r` |
| Sanitize.NormalizeAppend | pdf_docx_api.py:107 | text without `\r` is normalised piece by piece |
| Sanitize.NormalizeCounts | pdf_docx_api.py:107 | normalisation keeps every character other than `\r` and `\n`, as often as it occurs |
| Sanitize.SanitizeFilename | pdf_docx_api.py:111-124 | "document" for None or for a name with nothing left after removal and strip; otherwise the stripped name without forbidden characters, never empty and without surrounding whitespace |
| Sanitize.SanitizeFilenameClean | pdf_docx_api.py:111-124 | a clean, trimmed, non-empty name is returned as given |
| Sanitize.SanitizeFilenameIdempotent | pdf_docx_api.py:111-124 | sanitising a sanitised name changes nothing |
| Sanitize.SanitizeCss | pdf_docx_api.py:126-136 | None stays None; otherwise the CSS with exactly the stripped control characters removed |
| Sanitize.SanitizeCssKeeps | pdf_docx_api.py:126-136 | the CSS validator works piece by piece, keeps every other character as often as it occurs, and is idempotent |
| Markup.EscapeEach | pdf_docx_api.py:534-535 | the escaped text holds no '<' and no '>' |
| Markup.EscapeHtmlPerChar | pdf_docx_api.py:534-535 | the three chained replaces escape each character independently, '&' first |
| Markup.UnescapeEscape | pdf_docx_api.py:534-535 | the escaping loses nothing: unescaping it gives back the text |
| Markup.CloseAt | pdf_docx_api.py:538 | the closing delimiter found lies inside the text, after the opening one |
| Markup.CloseAtIsLazy | pdf_docx_api.py:538 | the match is the shortest one: no newline and no earlier closing delimiter lies between the two |
| Markup.CloseAtNone | pdf_docx_api.py:538 | no match means every later closing delimiter has a newline before it |
| Markup.CloseAtIs | pdf_docx_api.py:538 | the first closing delimiter with no newline before it is the one matched |
| Markup.SubBoldPair | pdf_docx_api.py:538-541 | a delimiter, a span free of newlines and delimiters, and a delimiter become `<b>`span`</b>`, and the substitution resumes after it |
| Markup.ProcessBoldSpan | pdf_docx_api.py:528-543 | `**x**`, for x free of `*`, `_`, `<`, `>`, `&` and newlines, comes out as `<b>x</b>` |
| Markup.SubBoldKeepsTags | pdf_docx_api.py:538-541 | one substitution pass keeps the property that every angle bracket belongs to a `<b>`/`</b>` tag |
| Markup.ProcessBoldOnlyTags | pdf_docx_api.py:528-543 | every '<' and '>' in the result belongs to an inserted `<b>` or `</b>` tag |
| Markup.RestoreSubBold | pdf_docx_api.py:538 | replacing the tags by the delimiter again undoes a substitution pass |
| Markup.BoldFirstPassLossless | pdf_docx_api.py:534-538 | after escaping and the `**` pass, the original text can be recovered |
| Markup.SubBoldNoDelimiter | pdf_docx_api.py:538-541 | text without the delimiter's character is left as it is |
| Markup.ProcessBoldPlainText | pdf_docx_api.py:528-543 | text with no '*' and no '_' is only escaped |
| Mermaid.IsMermaidCaseInsensitive | pdf_docx_api.py:634-636 | the verdict depends only on the lower-cased language, never on the code |
| Mermaid.IsMermaidExamples | pdf_docx_api.py:634-636 | "Mermaid" and "MMD" are recognised; an empty language and "mermaidjs" are not |
| Mermaid.KindName | pdf_docx_api.py:645-661 | the name is "Diagram" or one of the listed names, and "Diagram" when no prefix matches |
| Mermaid.KindNameChain | pdf_docx_api.py:645-661 | the kind is the first prefix match in the order graph, sequenceDiagram, classDiagram, stateDiagram, erDiagram, journey, gantt, pie |
| Mermaid.CreateMermaidPlaceholder | pdf_docx_api.py:639-663 | the placeholder is "[" + the kind of the first line of the stripped source + " - Mermaid diagram rendering not available]" |
| Mermaid.PlaceholderShape | pdf_docx_api.py:639-663 | every placeholder is bracketed and names "Diagram" or a listed kind |
| Mermaid.SequenceDiagramPlaceholder | pdf_docx_api.py:648-649 | a source starting "sequenceDiagram" yields "[Sequence Diagram - …]" |
| Mermaid.UnknownDiagramPlaceholder | pdf_docx_api.py:645 | a first line matching no prefix yields "[Diagram - …]" |
| Mermaid.FenceLineStep | pdf_docx_api.py:346-372 | one loop iteration updates the mode variables and appends the output lines as the fence rules say |
| Mermaid.ProcessMermaidDiagramsInMarkdown | pdf_docx_api.py:338-374 | the loop computes the fence-by-fence specification of the preprocessor |
| Mermaid.RunTexts | pdf_docx_api.py:371-372 | lines outside fences pass through unchanged and in order |
| Mermaid.RunClosedFence | pdf_docx_api.py:347-364 | a closed fence contributes exactly its re-emission, and processing resumes outside after it |
| Mermaid.RunUnclosedFence | pdf_docx_api.py:365-374 | a fence never closed is dropped with its whole body |
| Mermaid.MermaidFenceBecomesDiv | pdf_docx_api.py:349-353 | a closed fence in a mermaid/mmd language becomes one `<div class="mermaid">` entry holding the body |
| Mermaid.OtherFenceReemitted | pdf_docx_api.py:354-358 | any other closed fence is re-emitted as "```"+language, the body verbatim, then "```" |
| Mermaid.ClassifyFence | pdf_docx_api.py:346-366 | a line is a fence exactly when its stripped form starts "```", and the language is the stripped rest |
| Mermaid.RunPlainLine | pdf_docx_api.py:371-372 | a non-fence line at the top level is copied to the output first |
| Mermaid.PreprocessWithoutFences | pdf_docx_api.py:338-374 | markdown with no fence line comes back unchanged |
| Html.FindCharFirst | pdf_docx_api.py:305 | the search finds the first occurrence, or reports that there is none |
| Html.FindStrFirst | pdf_docx_api.py:305-313 | the substring search finds the leftmost occurrence, or reports that there is none |
| Html.MatchTable | pdf_docx_api.py:305 | a match spans an opening `<table…>` up to the first `</table>` after it, inside the text |
| Html.MatchTableIff | pdf_docx_api.py:305 | the match found is exactly the one whose tag ends at the first '>' after `<table` and whose content ends at the first `</table>` after that; there is none when no such pair exists |
| Html.SearchRowSkip | pdf_docx_api.py:312-313 | the row search passes over positions where no `<tr` starts |
| Html.FirstRowOfRow | pdf_docx_api.py:312-316 | in table content whose first `<tr` starts a row tag, the first row's content is the body before the first `</tr>` after that tag |
| Html.WideIffFirstRowCells | pdf_docx_api.py:312-322 | a table is wide exactly when that first row holds more than six cell tags |
| Html.CountCellsTag | pdf_docx_api.py:318 | each `<th…>` or `<td…>` tag counts as one cell |
| Html.CountCellsNoTag | pdf_docx_api.py:318 | text with no tag has no cells |
| Html.ProcessTableInserts | pdf_docx_api.py:307-330 | a wide table gets the attribute right before its opening tag closes; any other table is kept as matched |
| Html.ProcessTableLength | pdf_docx_api.py:307-330 | the processed table's length is the match's length, plus the attribute's length when the table is wide |
| Html.PostProcessLength | pdf_docx_api.py:300-335 | the result's length is the input's length plus one attribute's length per wide table |
| Html.PostProcessUnchanged | pdf_docx_api.py:300-335 | HTML with no wide table is returned unchanged |
| Html.NoTableUnchanged | pdf_docx_api.py:300-335 | HTML with no `<table` is returned unchanged |
| Tables.NonEmptyStripped | pdf_docx_api.py:386 | the cells kept from a split line are never empty |
| Tables.NonEmptyStrippedTrimmed | pdf_docx_api.py:386 | every kept cell is trimmed at both ends |
| Tables.KeptRowsKept | pdf_docx_api.py:387-397 | every kept row passes the row test |
| Tables.TableRowsAppend | pdf_docx_api.py:383-397 | a new line appends its cells unless they are empty or a separator row |
| Tables.TableRowsKept | pdf_docx_api.py:383-397 | every surviving row is non-empty and not made only of `-`, `:` and whitespace |
| Tables.RowIsSeparator | pdf_docx_api.py:389-395 | the flag loop finds a separator row exactly when every cell is one |
| Tables.LineRow | pdf_docx_api.py:386-397 | one line contributes its cells exactly when the row test keeps them |
| Tables.CollectRows | pdf_docx_api.py:383-397 | the rows loop collects the surviving rows of the table lines |
| Tables.ColumnWidths | pdf_docx_api.py:402-426 | every column gets the same positive width, and the widths sum to the A4 width less the margins |
| Tables.SumConstant | pdf_docx_api.py:426 | n equal widths sum to n times the width |
| Tables.TableSpecWidths | pdf_docx_api.py:399-426 | a parsed table has at least two rows, one width per column of row 0, widths summing to the available width, and padding 2 above six columns and 3 otherwise |
| Tables.TableSpecStyles | pdf_docx_api.py:412-463 | every cell holds its text after process_bold_text; row 0 uses bold Helvetica and the rest plain Helvetica, at 7/6 points above six columns and 8/7 otherwise |
| Tables.TableCellsOnlyBoldTags | pdf_docx_api.py:447-463 | no cell of a parsed table holds markup other than `<b>` tags |
| Tables.BuildRow | pdf_docx_api.py:447-463 | a row becomes its cells in one style |
| Tables.BuildTableData | pdf_docx_api.py:447-463 | the table data gives row 0 the header style and every other row the data style |
| Tables.ParseMarkdownTable | pdf_docx_api.py:377-488 | the function computes the table plan, and returns None exactly for no lines or fewer than two surviving rows |
| Tables.WrapWord | pdf_docx_api.py:504-518 | one word updates lines and current_line as the wrapping rule says |
| Tables.WrapTextForTable | pdf_docx_api.py:491-525 | the loop computes the wrapping specification; short text and text without words come back unchanged |
| Tables.WrapFoldInvariant | pdf_docx_api.py:501-523 | with words shorter than the limit, the lines so far and the current line hold the words in order, each line within the limit |
| Tables.WrapKeepsWords | pdf_docx_api.py:491-525 | with words shorter than the limit, the lines re-join to the words in order and each is non-empty and within the limit |
| Tables.FirstWordOfJoin | pdf_docx_api.py:515-516 | appending a space and a word keeps a line's first word |
| Tables.WrapFoldGreedy | pdf_docx_api.py:501-518 | with words shorter than the limit, no finished line could have taken the first word of the line after it |
| Tables.WrapIsGreedy | pdf_docx_api.py:491-525 | the wrapping is greedy: each line of the result ends only because the next line's first word did not fit after it |
| Tables.WrapTruncatesLongWord | pdf_docx_api.py:511-512 | a single word over the limit becomes word[:max_length-3] + "..." |
| Tables.WrapKeepsLongSecondWord | pdf_docx_api.py:506-509 | a word that would overflow the current line starts a new line |
| PdfBlocks.FindTitle | pdf_docx_api.py:747-754 | the title loop computes the title specification |
| PdfBlocks.TitleFromFirstHeading | pdf_docx_api.py:749-753 | the title is the stripped rest of the first stripped line starting "# " |
| PdfBlocks.TitleDefault | pdf_docx_api.py:747 | with no such line the title is "Document" |
| PdfBlocks.IndentLevel | pdf_docx_api.py:987-990 | the indent never exceeds half the line's length |
| PdfBlocks.IndentLevelSpec | pdf_docx_api.py:987-990 | the indent counts exactly the leading two-space pairs of the unstripped line |
| PdfBlocks.CountIndent | pdf_docx_api.py:986-990 | the while loop computes the indent level |
| PdfBlocks.BulletText | pdf_docx_api.py:991-994 | the bullet text is the indent pairs, then "• ", then the text |
| PdfBlocks.CloseTable | pdf_docx_api.py:950-956 | closing a table appends the parsed table and a spacer, or nothing when it does not parse |
| PdfBlocks.CloseCode | pdf_docx_api.py:884-927 | closing a code block appends the diagram and a spacer, the placeholder, or the code paragraph |
| PdfBlocks.TextParagraph | pdf_docx_api.py:968-1006 | a text line becomes its heading, bullet, numbered or plain paragraph |
| PdfBlocks.LineStep | pdf_docx_api.py:876-1006 | one loop iteration updates the mode variables and appends flowables as the step function says |
| PdfBlocks.FlushRemaining | pdf_docx_api.py:1009-1018 | after the loop, a left-over code block and a left-over table are appended |
| PdfBlocks.RunResume | pdf_docx_api.py:876-1006 | appending one step's flowables continues the rest of the run |
| PdfBlocks.MarkdownToElements | pdf_docx_api.py:868-1018 | the loop computes the flowable list of the specification |
| PdfBlocksProps.StepKeepsInv | pdf_docx_api.py:876-1006 | code lines are only held inside a code block, and a table is open exactly when it has lines |
| PdfBlocksProps.RunIgnoresLanguage | pdf_docx_api.py:931-937 | outside a code block the stored language has no effect |
| PdfBlocksProps.RunCodeBody | pdf_docx_api.py:939-941 | inside a code block every line is kept unstripped, whatever it looks like |
| PdfBlocksProps.ClosedFence | pdf_docx_api.py:883-937 | a closed fence adds its code block, or nothing for an empty one, and leaves a pending table open |
| PdfBlocksProps.UnclosedFence | pdf_docx_api.py:1009-1018 | an unclosed fence is flushed as plain code, followed by the pending table |
| PdfBlocksProps.RunRows | pdf_docx_api.py:945-951 | consecutive table rows are buffered unstripped, and nothing is emitted for them |
| PdfBlocksProps.RunRowStep | pdf_docx_api.py:945-951 | a table row opens the table or extends it |
| PdfBlocksProps.TableThenLine | pdf_docx_api.py:952-960 | the line that ends a table emits the table first, then is classified itself |
| PdfBlocksProps.TrailingTable | pdf_docx_api.py:1013-1018 | a table at the end of input is emitted |
| PdfBlocksProps.ClassifyRules | pdf_docx_api.py:878-965 | the fence test comes first, then the table-row test (a '\|' and no leading '#'), then the blank-line test |
| PdfBlocksProps.HeadingRule | pdf_docx_api.py:968-980 | a line with 1 to 4 '#' and a space becomes a heading of that level, its text not passed through process_bold_text |
| PdfBlocksProps.HeadingElement | pdf_docx_api.py:968-980 | a heading prefix gives the heading paragraph of its level |
| PdfBlocksProps.BulletRule | pdf_docx_api.py:982-996 | a "- " or "* " line becomes an indented bullet with bold markup processed |
| PdfBlocksProps.ParagraphRule | pdf_docx_api.py:1004-1006 | any other text line becomes a normal paragraph with bold markup processed and only `<b>` tags in it |
| DocxBlocks.TextRuns | pdf_docx_api.py:1301 | a plain paragraph is one non-bold run spelling the text, or no run for empty text |
| DocxBlocks.BoldRuns | pdf_docx_api.py:1303-1309 | there is one run per part of the split on `**` |
| DocxBlocks.AddTable | pdf_docx_api.py:1252-1271 | the table code adds the table, nothing, or raises IndexError as the table specification says |
| DocxBlocks.AddBlock | pdf_docx_api.py:1277-1309 | a line outside code and tables adds its heading, list item, rule or paragraph |
| DocxBlocks.LineStep | pdf_docx_api.py:1223-1309 | one loop iteration updates the mode variables and adds blocks as the step function says |
| DocxBlocks.EmitResume | pdf_docx_api.py:1223-1309 | adding one step's blocks continues the rest of the document |
| DocxBlocks.EmitRaises | pdf_docx_api.py:1263-1265 | once a step raises, the whole document raises |
| DocxBlocks.BuildDocx | pdf_docx_api.py:1214-1329 | the loop and the final table code compute the document specification |
| DocxBlocksProps.BoldRunsSpellLine | pdf_docx_api.py:1303-1309 | the runs spell the line when joined by `**`, and exactly the odd-indexed ones are bold |
| DocxBlocksProps.EmitCodeBody | pdf_docx_api.py:1239-1241 | inside a code block every line is kept as it is |
| DocxBlocksProps.ClosedFence | pdf_docx_api.py:1223-1237 | a closed fence adds one code paragraph, even for an empty body |
| DocxBlocksProps.UnclosedFence | pdf_docx_api.py:1312-1329 | an unclosed code block is dropped; only a pending table is still added |
| DocxBlocksProps.EmitRows | pdf_docx_api.py:1244-1249 | consecutive rows are buffered, and nothing is added for them |
| DocxBlocksProps.TableThenLine | pdf_docx_api.py:1250-1309 | the line that ends a table adds the table first, then its own block |
| DocxBlocksProps.SingleLineTableDropped | pdf_docx_api.py:1252 | a table of one buffered line adds nothing |
| DocxBlocksProps.OneRowTable | pdf_docx_api.py:1252-1271 | a single surviving row is enough for a table |
| DocxBlocksProps.WideRowRaises | pdf_docx_api.py:1263-1265 | a row wider than row 0 raises IndexError |
| DocxBlocksProps.PipeLineIsRow | pdf_docx_api.py:1244 | any non-fence line with '\|' is a table row, '#' or not |
| DocxBlocksProps.IndentedLineIsPlain | pdf_docx_api.py:1277-1309 | a line starting with whitespace is never a heading or list item |
| DocxBlocksProps.BlankLineAddsNothing | pdf_docx_api.py:1277-1309 | a blank line adds nothing |
| Backends.FromAttempt | pdf_docx_api.py:1041-1048 | a back end's result is its bytes, or the exception escaping from it |
| Backends.ReportLabBranch | pdf_docx_api.py:742-1036 | the ReportLab branch returns the bytes the build makes of the reader's title and element list, or the exception it raises |
| Backends.MarkdownToPdf | pdf_docx_api.py:1038-1054 | with WeasyPrint installed, its bytes or its exception; otherwise with ReportLab, the ReportLab branch; RuntimeError exactly when neither is installed |
| Backends.MarkdownToDocx | pdf_docx_api.py:1133-1338 | pandoc's bytes when it produced them; otherwise the python-docx branch when installed; RuntimeError exactly when neither delivers; and the clean-up attempted |
| Backends.PythonDocxBranch | pdf_docx_api.py:1181-1334 | the python-docx branch saves the reader's blocks, or raises its IndexError |
| Backends.WebAttempt | pdf_docx_api.py:583-616 | a web method yields the response body exactly on status 200 with content |
| Backends.RenderMermaidDiagram | pdf_docx_api.py:546-631 | the attempts and the clean-up follow the three-method chain, and any image returned is non-empty |
| BackendsProps.PdfNoFallback | pdf_docx_api.py:1041-1044 | with WeasyPrint installed, ReportLab plays no part, not even when WeasyPrint raises |
| BackendsProps.DocxPandocWins | pdf_docx_api.py:1156-1167 | a successful pandoc conversion is the result |
| BackendsProps.DocxPandocFallsThrough | pdf_docx_api.py:1168-1181 | a failed pandoc conversion gives the same result as no pandoc at all |
| BackendsProps.DocxCleanupAttempted | pdf_docx_api.py:1172-1179 | with pandoc, removal of the output file is always attempted, and of the reference document only when it exists and the first removal did not raise |
| BackendsProps.DocxRuntimeError | pdf_docx_api.py:1336-1338 | RuntimeError is raised exactly when pandoc did not produce bytes and python-docx is missing |
| BackendsProps.DocxFallsToPythonDocx | pdf_docx_api.py:1181-1334 | without a pandoc result, the bytes are what `save` makes of the python-docx reader's blocks, or its IndexError |
| BackendsProps.RenderOrder | pdf_docx_api.py:556-616 | mmdc is tried first, then mermaid.ink, then Kroki, and the first success wins |
| BackendsProps.CliAbortSkipsWeb | pdf_docx_api.py:557-622 | an exception in method 1 other than a timeout or a missing mmdc skips methods 2 and 3 |
| BackendsProps.RenderNone | pdf_docx_api.py:546-631 | no image exactly when rendering is unavailable, or method 1 failed and either aborted or both web methods failed |
| BackendsProps.RenderCleanup | pdf_docx_api.py:623-631 | the finally clause removes each temp file that was created and still exists |

## Left out

- The FastAPI application, its routes, request decoding and the mapping of errors to HTTP
  status codes (pdf_docx_api.py:83-87, 1341-1489). This is HTTP plumbing with no logic of its own.
- The import-time probing of optional libraries (pdf_docx_api.py:24-80). The availability flags
  are parameters instead.
- The third-party renderers are not modelled: markdown-it, Pygments, WeasyPrint `write_pdf`,
  ReportLab `Paragraph`/`Table`/`TableStyle` internals, pypandoc and python-docx. They are
  opaque values or abstract outcomes (`PdfBlocks.Element`, `DocxBlocks.DocBlock`,
  `Backends.Attempt`, the `save` parameter).
- `markdown_to_html` and the CSS and HTML templates (pdf_docx_api.py:139-297). They hold no logic
  beyond the library calls and `post_process_html_tables`, which is modelled.
- `_create_reference_docx` (pdf_docx_api.py:1057-1130) is only its outcome: whether a reference
  document exists, as the `reference` parameter.
- The page decoration of `NumberedCanvas` and `NumberedDocTemplate` (pdf_docx_api.py:666-739).
  It is font-metric and floating-point drawing.
- The sizing of diagram images with PIL (pdf_docx_api.py:896-917). `PdfBlocks.CodeBlock` takes
  a parameter `rendered` saying whether an image was produced and embedded. If so, the model
  records a `DiagramImage` holding the diagram source, without its dimensions.
- Inside `render_mermaid_diagram`, these are not modelled: writing the temp files, running
  `mmdc`, the HTTP requests, base64 and zlib encoding, and the printed diagnostics. Each method is
  an abstract outcome (`CliOutcome`, `WebOutcome`).
- The python-docx section header and footer set-up (pdf_docx_api.py:1189-1212). It only sets
  fixed texts and has its own exception handlers.
- The creation of pandoc's temp output file (pdf_docx_api.py:1139-1140) is assumed to succeed.
- The table widths are exact reals. A4's width is the decimal 595.2755905511812, and Python's
  floating-point rounding is not modelled.
- The ReportLab table style commands (pdf_docx_api.py:464-486) are constants and are not
  modelled. The model keeps only the per-cell font and the padding.
- Text.Lower: only ASCII letters are lowered, which leaves the comparison with "mermaid" and
  "mmd" unaffected.
- Sanitize.SanitizeMarkdownIdempotent: the validators' type check (a non-string raises
  ValueError) is excluded by typing, since the input is always a string.
- Backends.MarkdownToPdf: the WeasyPrint result is an abstract outcome. `markdown_to_html` is
  not part of this model, so the bytes are not tied to the HTML it renders.
- Backends.RenderSpec: the function has no `ensures` of its own. It is stated by
  `Backends.RenderMermaidDiagram` and the `BackendsProps.Render*` lemmas.
- PdfBlocksProps.ClosedFence, PdfBlocksProps.UnclosedFence, DocxBlocksProps.ClosedFence,
  DocxBlocksProps.UnclosedFence: the fence lemmas are stated over already classified lines
  (a fence, then body lines that are not fences). They are not stated over raw markdown text.
- Markup.ProcessBoldOnlyTags: the lemma states which tags the result can hold. It does not
  state the round trip back to the input, which is proved for the `**` pass alone
  (`Markup.BoldFirstPassLossless`).
- Tables.WrapKeepsWords, Tables.WrapIsGreedy: they are proved for words shorter than the
  limit. For longer words, only the truncation cases are stated (`Tables.WrapTruncatesLongWord`,
  `Tables.WrapKeepsLongSecondWord`).
