/** The wide-table pass over the rendered HTML (post_process_html_tables): every
    <table ...>...</table> whose first row holds more than six <th>/<td> tags gets
    data-wide="true" added to its opening tag. The regular expressions are modelled by the
    scans they perform: a greedy [^>]* stops at the first '>', a lazy (.*?) before a literal
    stops at the first occurrence of that literal. */
module Html {
  import opened Wrappers

  /** The attribute the pass appends, with its leading space. */
  const WideAttr: string := " data-wide=\"true\""
  const TableOpen: string := "<table"
  const TableClose: string := "</table>"
  /** Tables with more header cells than this are tagged. */
  const WideCellThreshold: nat := 6

  /** The first index at or after `from` holding c. */
  function FindChar(s: string, c: char, from: nat): (r: Option<nat>)
    ensures r.Some? ==> from <= r.value < |s| && s[r.value] == c
    decreases |s| - from
  {
    if from >= |s| then None
    else if s[from] == c then Some(from)
    else FindChar(s, c, from + 1)
  }

  /** FindChar finds the first occurrence, and finds nothing only when there is none. */
  lemma {:induction false} FindCharFirst(s: string, c: char, from: nat)
    ensures FindChar(s, c, from).Some? ==> forall k :: from <= k < FindChar(s, c, from).value ==> s[k] != c
    ensures FindChar(s, c, from).None? ==> forall k :: from <= k < |s| ==> s[k] != c
    decreases |s| - from
  {
    if from < |s| && s[from] != c {
      FindCharFirst(s, c, from + 1);
    }
  }

  /** The first c at or after `from` is the one FindChar finds. */
  lemma {:induction false} FindCharIs(s: string, c: char, from: nat, q: nat)
    requires from <= q < |s| && s[q] == c
    requires forall k :: from <= k < q ==> s[k] != c
    ensures FindChar(s, c, from) == Some(q)
    decreases q - from
  {
    if from < q {
      FindCharIs(s, c, from + 1, q);
    }
  }

  /** sub occurs in s at index k. */
  predicate StartsAt(s: string, sub: string, k: nat) {
    k + |sub| <= |s| && s[k..k + |sub|] == sub
  }

  /** The first index at or after `from` where sub starts. */
  function FindStr(s: string, sub: string, from: nat): (r: Option<nat>)
    ensures r.Some? ==> from <= r.value && StartsAt(s, sub, r.value)
    decreases |s| - from
  {
    if from + |sub| > |s| then None
    else if StartsAt(s, sub, from) then Some(from)
    else FindStr(s, sub, from + 1)
  }

  /** FindStr finds the first occurrence, and finds nothing only when there is none. */
  lemma {:induction false} FindStrFirst(s: string, sub: string, from: nat)
    ensures FindStr(s, sub, from).Some? ==>
      forall k :: from <= k < FindStr(s, sub, from).value ==> !StartsAt(s, sub, k)
    ensures FindStr(s, sub, from).None? ==> forall k :: from <= k ==> !StartsAt(s, sub, k)
    decreases |s| - from
  {
    if from + |sub| <= |s| && !StartsAt(s, sub, from) {
      FindStrFirst(s, sub, from + 1);
    }
  }

  /** The first occurrence at or after `from` is the one FindStr finds. */
  lemma {:induction false} FindStrIs(s: string, sub: string, from: nat, e: nat)
    requires from <= e && StartsAt(s, sub, e)
    requires forall k :: from <= k < e ==> !StartsAt(s, sub, k)
    ensures FindStr(s, sub, from) == Some(e)
    decreases e - from
  {
    if from < e {
      FindStrIs(s, sub, from + 1, e);
    }
  }

  /** A match of the table pattern (pdf_docx_api.py:305) at the start of the text: `close` is
      the index of the '>' ending the opening tag, `end` the index where "</table>" starts. */
  datatype TableMatch = TableMatch(close: nat, end: nat)

  function MatchTable(s: string): (r: Option<TableMatch>)
    ensures r.Some? ==> |TableOpen| <= r.value.close < r.value.end && r.value.end + |TableClose| <= |s|
  {
    if TableOpen <= s then
      match FindChar(s, '>', |TableOpen|)
      case None => None
      case Some(q) =>
        match FindStr(s, TableClose, q + 1)
        case None => None
        case Some(e) => Some(TableMatch(q, e))
    else None
  }

  /** What the match of the table pattern at the start of s is: the opening tag's '>' is
      the first one after "<table", and the closing tag is the first "</table>" after it. */
  predicate IsTableMatch(s: string, m: TableMatch) {
    TableOpen <= s
    && |TableOpen| <= m.close < |s| && s[m.close] == '>'
    && (forall k :: |TableOpen| <= k < m.close ==> s[k] != '>')
    && m.close < m.end && StartsAt(s, TableClose, m.end)
    && (forall k :: m.close < k < m.end ==> !StartsAt(s, TableClose, k))
  }

  /** MatchTable finds exactly that match, and finds none when there is none. */
  lemma {:induction false} MatchTableIff(s: string, m: TableMatch)
    ensures MatchTable(s) == Some(m) <==> IsTableMatch(s, m)
  {
    if MatchTable(s) == Some(m) {
      FindCharFirst(s, '>', |TableOpen|);
      FindStrFirst(s, TableClose, m.close + 1);
    }
    if IsTableMatch(s, m) {
      FindCharIs(s, '>', |TableOpen|, m.close);
      FindStrIs(s, TableClose, m.close + 1, m.end);
    }
  }

  /** The content of the first row found from position p on (pdf_docx_api.py:312-316): the text
      between the '>' of a "<tr" tag and the first "</tr>" after it, line breaks included. */
  function SearchRow(t: string, p: nat): (r: Option<string>)
    decreases |t| - p
  {
    if p >= |t| then None
    else if "<tr" <= t[p..] then
      match FindChar(t, '>', p + 3)
      case None => SearchRow(t, p + 1)
      case Some(q) =>
        match FindStr(t, "</tr>", q + 1)
        case None => SearchRow(t, p + 1)
        case Some(e) => Some(t[q + 1..e])
    else SearchRow(t, p + 1)
  }

  /** The first row's content. */
  function FirstRow(t: string): Option<string> {
    SearchRow(t, 0)
  }

  /** Positions where no "<tr" starts are passed over. */
  lemma {:induction false} SearchRowSkip(t: string, p: nat, q: nat)
    requires p <= q <= |t|
    requires forall k :: p <= k < q ==> !("<tr" <= t[k..])
    ensures SearchRow(t, p) == SearchRow(t, q)
    decreases q - p
  {
    if p < q {
      SearchRowSkip(t, p + 1, q);
    }
  }

  /** A "<tr" at p whose tag closes at q, followed by a "</tr>" at e that is the first after q:
      the search from p yields the text between q and e. */
  lemma {:induction false} SearchRowAt(t: string, p: nat, q: nat, e: nat)
    requires p + 3 <= q < e && e + 5 <= |t| && "<tr" <= t[p..]
    requires t[q] == '>' && forall k :: p + 3 <= k < q ==> t[k] != '>'
    requires StartsAt(t, "</tr>", e) && forall k :: q + 1 <= k < e ==> !StartsAt(t, "</tr>", k)
    ensures SearchRow(t, p) == Some(t[q + 1..e])
  {
    FindCharIs(t, '>', p + 3, q);
    FindStrIs(t, "</tr>", q + 1, e);
  }

  /** A tag's attributes free of '>' end at the first '>' after them. */
  lemma {:induction false} TagCloseAt(t: string, from: nat, attributes: string)
    requires '>' !in attributes && from + |attributes| < |t|
    requires t[from..from + |attributes| + 1] == attributes + ">"
    ensures t[from + |attributes|] == '>'
    ensures forall k :: from <= k < from + |attributes| ==> t[k] != '>'
  {
    var u := attributes + ">";
    assert t[from + |attributes|] == t[from..from + |attributes| + 1][|attributes|];
    forall k | from <= k < from + |attributes|
      ensures t[k] != '>'
    {
      assert t[k] == u[k - from] == attributes[k - from];
    }
  }

  /** A body with no "</tr>" of its own is ended by the "</tr>" written after it. */
  lemma {:induction false} RowCloseAt(t: string, from: nat, body: string)
    requires forall k :: 0 <= k < |body| ==> !StartsAt(body + "</tr>", "</tr>", k)
    requires from + |body| + 5 <= |t| && t[from..from + |body| + 5] == body + "</tr>"
    ensures StartsAt(t, "</tr>", from + |body|)
    ensures forall k :: from <= k < from + |body| ==> !StartsAt(t, "</tr>", k)
    ensures t[from..from + |body|] == body
  {
    var u := t[from..from + |body| + 5];
    var e := from + |body|;
    assert forall i :: 0 <= i < |u| ==> u[i] == t[from + i];
    forall k | from <= k < e
      ensures !StartsAt(t, "</tr>", k)
    {
      var j := k - from;
      assert t[k..k + 5] == u[j..j + 5];
      assert !StartsAt(u, "</tr>", j);
    }
    assert t[e..e + 5] == u[|body|..];
    assert t[from..e] == u[..|body|];
  }

  /** A slice of a slice is a slice. */
  lemma {:induction false} SliceOfSlice(t: string, p: nat, w: string, i: nat, j: nat)
    requires p + |w| <= |t| && t[p..p + |w|] == w && i <= j <= |w|
    ensures t[p + i..p + j] == w[i..j]
  {
    assert forall k :: 0 <= k < |w| ==> w[k] == t[p + k];
  }

  /** The three pieces of a row: its tag opening, the attributes with the tag's '>', and the
      body with the closing tag. */
  lemma RowPieces(attributes: string, body: string)
    ensures var w := "<tr" + attributes + ">" + body + "</tr>";
      w[..3] == "<tr" && w[3..4 + |attributes|] == attributes + ">"
      && w[4 + |attributes|..] == body + "</tr>"
  {
  }

  /** A row tag with attributes free of '>', a body free of "</tr>", and "</tr>": the search
      from the tag yields the body. */
  lemma {:induction false} RowAt(t: string, p: nat, attributes: string, body: string)
    requires '>' !in attributes
    requires forall k :: 0 <= k < |body| ==> !StartsAt(body + "</tr>", "</tr>", k)
    requires p + |attributes| + |body| + 9 <= |t|
    requires t[p..p + |attributes| + |body| + 9] == "<tr" + attributes + ">" + body + "</tr>"
    ensures SearchRow(t, p) == Some(body)
  {
    var w := "<tr" + attributes + ">" + body + "</tr>";
    var a := |attributes|;
    var q := p + 3 + a;
    var e := q + 1 + |body|;
    RowPieces(attributes, body);
    SliceOfSlice(t, p, w, 0, 3);
    assert t[p..][..3] == t[p..p + 3];
    SliceOfSlice(t, p, w, 3, 4 + a);
    TagCloseAt(t, p + 3, attributes);
    SliceOfSlice(t, p, w, 4 + a, |w|);
    RowCloseAt(t, q + 1, body);
    SearchRowAt(t, p, q, e);
  }

  /** No "<tr" starts inside the prefix, not even one running into the row tag after it. */
  lemma {:induction false} NoRowInPrefix(pre: string, tail: string)
    requires forall k :: 0 <= k < |pre| ==> !StartsAt(pre + "<tr", "<tr", k)
    requires "<tr" <= tail
    ensures SearchRow(pre + tail, 0) == SearchRow(pre + tail, |pre|)
  {
    var t := pre + tail;
    assert t[..|pre| + 3] == pre + "<tr";
    forall k | 0 <= k < |pre|
      ensures !("<tr" <= t[k..])
    {
      assert t[k..k + 3] == (pre + "<tr")[k..k + 3];
      if "<tr" <= t[k..] {
        assert t[k..][..3] == t[k..k + 3];
        assert StartsAt(pre + "<tr", "<tr", k);
      }
    }
    SearchRowSkip(t, 0, |pre|);
  }

  /** The first "<tr" of the table content starts a row whose tag has no '>' in its
      attributes: the row's content is what lies between that '>' and the first "</tr>". */
  lemma {:induction false} FirstRowOfRow(pre: string, attributes: string, body: string, rest: string)
    requires forall k :: 0 <= k < |pre| ==> !StartsAt(pre + "<tr", "<tr", k)
    requires '>' !in attributes
    requires forall k :: 0 <= k < |body| ==> !StartsAt(body + "</tr>", "</tr>", k)
    ensures FirstRow(pre + "<tr" + attributes + ">" + body + "</tr>" + rest) == Some(body)
  {
    var row := "<tr" + attributes + ">" + body + "</tr>";
    var t := pre + (row + rest);
    assert t == pre + "<tr" + attributes + ">" + body + "</tr>" + rest;
    NoRowInPrefix(pre, row + rest);
    assert t[|pre|..|pre| + |row|] == row;
    RowAt(t, |pre|, attributes, body);
  }

  /** The number of header and data cell tags in h (pdf_docx_api.py:318): matches do not
      overlap, and the scan resumes after the '>' of each one. */
  function CountCells(h: string): (n: nat)
    ensures n <= |h|
    decreases |h|
  {
    if h == [] then 0
    else if "<th" <= h || "<td" <= h then
      match FindChar(h, '>', 3)
      case None => CountCells(h[1..])
      case Some(q) => 1 + CountCells(h[q + 1..])
    else CountCells(h[1..])
  }

  /** A cell tag with attributes free of '>' is counted once, and the scan resumes after it. */
  lemma {:induction false} CountCellsTag(tag: string, attributes: string, rest: string)
    requires tag == "<th" || tag == "<td"
    requires '>' !in attributes
    ensures CountCells(tag + attributes + ">" + rest) == 1 + CountCells(rest)
  {
    var h := tag + attributes + ">" + rest;
    var q := 3 + |attributes|;
    assert h[..3] == tag;
    assert h[q] == '>';
    assert forall k :: 3 <= k < q ==> h[k] == attributes[k - 3];
    FindCharIs(h, '>', 3, q);
    assert h[q + 1..] == rest;
  }

  /** Text without '<' holds no cell tag. */
  lemma {:induction false} CountCellsNoTag(h: string)
    requires '<' !in h
    ensures CountCells(h) == 0
    decreases |h|
  {
    if h != [] {
      assert h[0] != '<';
      CountCellsNoTag(h[1..]);
    }
  }

  /** Whether the matched table's first row has more than six cells. */
  predicate IsWide(s: string, m: TableMatch)
    requires m.close < m.end <= |s|
  {
    var inner := s[m.close + 1..m.end];
    FirstRow(inner).Some? && CountCells(FirstRow(inner).value) > WideCellThreshold
  }

  /** A table is wide exactly when the first row of its content has more than six cell tags. */
  lemma {:induction false} WideIffFirstRowCells(s: string, m: TableMatch, pre: string, attributes: string, body: string,
                             rest: string)
    requires m.close < m.end <= |s|
    requires s[m.close + 1..m.end] == pre + "<tr" + attributes + ">" + body + "</tr>" + rest
    requires forall k :: 0 <= k < |pre| ==> !StartsAt(pre + "<tr", "<tr", k)
    requires '>' !in attributes
    requires forall k :: 0 <= k < |body| ==> !StartsAt(body + "</tr>", "</tr>", k)
    ensures IsWide(s, m) <==> CountCells(body) > WideCellThreshold
  {
    FirstRowOfRow(pre, attributes, body, rest);
    WideByFirstRow(s, m, body);
  }

  lemma WideByFirstRow(s: string, m: TableMatch, body: string)
    requires m.close < m.end <= |s| && FirstRow(s[m.close + 1..m.end]) == Some(body)
    ensures IsWide(s, m) <==> CountCells(body) > WideCellThreshold
  {
  }

  /** process_table: the whole match, or for a wide table the opening tag rebuilt from its
      attributes with data-wide="true", then the content and the closing tag. */
  function ProcessTable(s: string, m: TableMatch): string
    requires |TableOpen| <= m.close < m.end && m.end + |TableClose| <= |s|
  {
    var attributes := s[|TableOpen|..m.close];
    var inner := s[m.close + 1..m.end];
    if IsWide(s, m) then TableOpen + attributes + WideAttr + ">" + inner + TableClose
    else s[..m.end + |TableClose|]
  }

  /** Every table in the HTML processed in turn (pdf_docx_api.py:333): matches are tried at
      every position from the left, and the scan resumes after each match. */
  function PostProcessHtmlTables(s: string): string
    decreases |s|
  {
    if s == [] then []
    else
      match MatchTable(s)
      case Some(m) => ProcessTable(s, m) + PostProcessHtmlTables(s[m.end + |TableClose|..])
      case None => [s[0]] + PostProcessHtmlTables(s[1..])
  }

  /** The number of tables the pass tags. */
  function WideCount(s: string): nat
    decreases |s|
  {
    if s == [] then 0
    else
      match MatchTable(s)
      case Some(m) => (if IsWide(s, m) then 1 else 0) + WideCount(s[m.end + |TableClose|..])
      case None => WideCount(s[1..])
  }

  /** A matched table is copied unchanged, except that a wide one gets the attribute inserted
      just before the '>' of its opening tag. */
  lemma {:induction false} ProcessTableInserts(s: string, m: TableMatch)
    requires MatchTable(s) == Some(m)
    ensures ProcessTable(s, m)
         == if IsWide(s, m) then s[..m.close] + WideAttr + s[m.close..m.end + |TableClose|]
            else s[..m.end + |TableClose|]
  {
    if IsWide(s, m) {
      var k := m.end + |TableClose|;
      assert StartsAt(s, TableClose, m.end);
      assert s[..|TableOpen|] == TableOpen;
      assert s[..m.close] == TableOpen + s[|TableOpen|..m.close];
      assert s[m.close..k] == ">" + s[m.close + 1..m.end] + TableClose;
    }
  }

  lemma ProcessTableLength(s: string, m: TableMatch)
    requires |TableOpen| <= m.close < m.end && m.end + |TableClose| <= |s|
    ensures |ProcessTable(s, m)| == m.end + |TableClose| + (if IsWide(s, m) then |WideAttr| else 0)
  {
  }

  /** The pass only inserts: the text grows by the attribute's length for every tagged table. */
  lemma {:induction false} PostProcessLength(s: string)
    ensures |PostProcessHtmlTables(s)| == |s| + |WideAttr| * WideCount(s)
    decreases |s|
  {
    if s != [] {
      match MatchTable(s)
      case Some(m) =>
        var rest := s[m.end + |TableClose|..];
        ProcessTableLength(s, m);
        PostProcessLength(rest);
        assert |s| == m.end + |TableClose| + |rest|;
        assert WideCount(s) == (if IsWide(s, m) then 1 else 0) + WideCount(rest);
        assert |WideAttr| * WideCount(s) == (if IsWide(s, m) then |WideAttr| else 0) + |WideAttr| * WideCount(rest);
      case None =>
        PostProcessLength(s[1..]);
    }
  }

  /** When no table is wide the HTML comes back unchanged. */
  lemma {:induction false} PostProcessUnchanged(s: string)
    requires WideCount(s) == 0
    ensures PostProcessHtmlTables(s) == s
    decreases |s|
  {
    if s != [] {
      match MatchTable(s)
      case Some(m) =>
        var k := m.end + |TableClose|;
        PostProcessUnchanged(s[k..]);
        assert s == s[..k] + s[k..];
      case None =>
        PostProcessUnchanged(s[1..]);
        assert s == [s[0]] + s[1..];
    }
  }

  /** HTML without an opening table tag has no wide table. */
  lemma {:induction false} NoTableNoWide(s: string)
    requires forall i :: 0 <= i <= |s| ==> !(TableOpen <= s[i..])
    ensures WideCount(s) == 0
    decreases |s|
  {
    if s != [] {
      assert !(TableOpen <= s[0..]);
      assert s[0..] == s;
      assert forall i :: 0 <= i <= |s[1..]| ==> s[1..][i..] == s[i + 1..];
      NoTableNoWide(s[1..]);
    }
  }

  /** So such HTML passes through unchanged. */
  lemma {:induction false} NoTableUnchanged(s: string)
    requires forall i :: 0 <= i <= |s| ==> !(TableOpen <= s[i..])
    ensures PostProcessHtmlTables(s) == s
  {
    NoTableNoWide(s);
    PostProcessUnchanged(s);
  }
}
