/** process_bold_text: HTML escaping followed by the two bold substitutions that turn
    **text** and __text__ into <b>text</b> for ReportLab's paragraph markup. */
module Markup {
  import opened Wrappers
  import opened Text

  /** Every occurrence of the character c replaced by rep. */
  function ReplaceChar(s: string, c: char, rep: string): (r: string) {
    if s == [] then [] else (if s[0] == c then rep else [s[0]]) + ReplaceChar(s[1..], c, rep)
  }

  lemma {:induction false} ReplaceCharAppend(a: string, b: string, c: char, rep: string)
    ensures ReplaceChar(a + b, c, rep) == ReplaceChar(a, c, rep) + ReplaceChar(b, c, rep)
  {
    if a == [] {
      assert a + b == b;
    } else {
      assert (a + b)[0] == a[0] && (a + b)[1..] == a[1..] + b;
      ReplaceCharAppend(a[1..], b, c, rep);
    }
  }

  lemma ReplaceCharAbsent(s: string, c: char, rep: string)
    requires c !in s
    ensures ReplaceChar(s, c, rep) == s
  {
  }

  /** The three replace calls in their source order: '&' first, then '<', then '>'. */
  function EscapeHtml(s: string): string {
    ReplaceChar(ReplaceChar(ReplaceChar(s, '&', "&amp;"), '<', "&lt;"), '>', "&gt;")
  }

  /** The entity for one character: a reference definition of escaping, character by character. */
  function EscapeChar(c: char): string {
    if c == '&' then "&amp;" else if c == '<' then "&lt;" else if c == '>' then "&gt;" else [c]
  }

  function EscapeEach(s: string): (r: string)
    ensures '<' !in r && '>' !in r
  {
    if s == [] then [] else EscapeChar(s[0]) + EscapeEach(s[1..])
  }

  /** Escaping adds no character other than those of the entities. */
  lemma {:induction false} EscapeEachChars(s: string)
    ensures forall c :: c in EscapeEach(s) ==> c in s || c in "&amp;lgt"
  {
    if s != [] {
      EscapeEachChars(s[1..]);
      assert forall c :: c in s[1..] ==> c in s;
    }
  }

  lemma {:induction false} EscapeHtmlAppend(a: string, b: string)
    ensures EscapeHtml(a + b) == EscapeHtml(a) + EscapeHtml(b)
  {
    ReplaceCharAppend(a, b, '&', "&amp;");
    var a1, b1 := ReplaceChar(a, '&', "&amp;"), ReplaceChar(b, '&', "&amp;");
    ReplaceCharAppend(a1, b1, '<', "&lt;");
    ReplaceCharAppend(ReplaceChar(a1, '<', "&lt;"), ReplaceChar(b1, '<', "&lt;"), '>', "&gt;");
  }

  lemma {:induction false} ReplaceCharSingle(x: char, c: char, rep: string)
    ensures ReplaceChar([x], c, rep) == if x == c then rep else [x]
  {
    assert [x][1..] == [];
  }

  lemma {:induction false} EscapeHtmlChar(c: char)
    ensures EscapeHtml([c]) == EscapeChar(c)
  {
    var a1 := ReplaceChar([c], '&', "&amp;");
    var a2 := ReplaceChar(a1, '<', "&lt;");
    ReplaceCharSingle(c, '&', "&amp;");
    if c == '&' {
      ReplaceCharAbsent(a1, '<', "&lt;");
      ReplaceCharAbsent(a2, '>', "&gt;");
    } else {
      ReplaceCharSingle(c, '<', "&lt;");
      if c == '<' {
        ReplaceCharAbsent(a2, '>', "&gt;");
      } else {
        ReplaceCharSingle(c, '>', "&gt;");
      }
    }
  }

  /** Because '&' is replaced before '<' and '>', no entity produced by the later calls is
      escaped again: the three passes equal one pass that escapes each character once. */
  lemma {:induction false} EscapeHtmlPerChar(s: string)
    ensures EscapeHtml(s) == EscapeEach(s)
  {
    if s == [] {
    } else {
      calc {
        EscapeHtml(s);
        { assert s == [s[0]] + s[1..]; }
        EscapeHtml([s[0]] + s[1..]);
        { EscapeHtmlAppend([s[0]], s[1..]); EscapeHtmlChar(s[0]); }
        EscapeChar(s[0]) + EscapeHtml(s[1..]);
        { EscapeHtmlPerChar(s[1..]); }
        EscapeEach(s);
      }
    }
  }

  /** The inverse of the escaping: each entity back to its character. */
  function Unescape(s: string): string {
    if s == [] then []
    else if "&amp;" <= s then "&" + Unescape(s[5..])
    else if "&lt;" <= s then "<" + Unescape(s[4..])
    else if "&gt;" <= s then ">" + Unescape(s[4..])
    else [s[0]] + Unescape(s[1..])
  }

  lemma {:induction false} UnescapeEscapeChar(c: char, rest: string)
    ensures Unescape(EscapeChar(c) + rest) == [c] + Unescape(rest)
  {
    var e := EscapeChar(c) + rest;
    if c == '&' {
      assert e[..5] == "&amp;" && e[5..] == rest;
    } else if c == '<' {
      assert e[1] == 'l' && e[..4] == "&lt;" && e[4..] == rest;
    } else if c == '>' {
      assert e[1] == 'g' && e[..4] == "&gt;" && e[4..] == rest;
    } else {
      assert e[0] == c && e[1..] == rest;
    }
  }

  /** Escaping loses nothing: unescaping its result gives the source text back. */
  lemma {:induction false} UnescapeEscape(s: string)
    ensures Unescape(EscapeHtml(s)) == s
  {
    EscapeHtmlPerChar(s);
    UnescapeEscapeEach(s);
  }

  lemma {:induction false} UnescapeEscapeEach(s: string)
    ensures Unescape(EscapeEach(s)) == s
  {
    if s != [] {
      UnescapeEscapeChar(s[0], EscapeEach(s[1..]));
      UnescapeEscapeEach(s[1..]);
    }
  }

  /** The lazy group of the bold pattern: the first position k >= j at which the closing
      delimiter d starts, provided no line break comes before it ('.' does not match '\n'). */
  function CloseAt(s: string, j: nat, d: string): (r: Option<nat>)
    requires |d| > 0 && j <= |s|
    ensures r.Some? ==> j <= r.value && r.value + |d| <= |s| && d <= s[r.value..]
    decreases |s| - j
  {
    if j + |d| > |s| then None
    else if d <= s[j..] then Some(j)
    else if s[j] == '\n' then None
    else CloseAt(s, j + 1, d)
  }

  /** The match is the shortest one: no line break and no earlier delimiter before it. */
  lemma {:induction false} CloseAtIsLazy(s: string, j: nat, d: string)
    requires |d| > 0 && j <= |s| && CloseAt(s, j, d).Some?
    ensures '\n' !in s[j..CloseAt(s, j, d).value]
    ensures forall k :: j <= k < CloseAt(s, j, d).value ==> !(d <= s[k..])
    decreases |s| - j
  {
    var r := CloseAt(s, j, d).value;
    if r != j {
      CloseAtIsLazy(s, j + 1, d);
      assert s[j..r] == [s[j]] + s[j + 1..r];
    }
  }

  /** No match means every later delimiter is preceded by a line break. */
  lemma {:induction false} CloseAtNone(s: string, j: nat, d: string)
    requires |d| > 0 && j <= |s| && CloseAt(s, j, d).None?
    ensures forall k :: j <= k && k + |d| <= |s| && d <= s[k..] ==> '\n' in s[j..k]
    decreases |s| - j
  {
    if j + |d| <= |s| {
      assert !(d <= s[j..]);
      if s[j] != '\n' {
        CloseAtNone(s, j + 1, d);
        forall k | j <= k && k + |d| <= |s| && d <= s[k..]
          ensures '\n' in s[j..k]
        {
          assert k != j;
          assert s[j..k] == [s[j]] + s[j + 1..k];
        }
      } else {
        forall k | j <= k && k + |d| <= |s| && d <= s[k..]
          ensures '\n' in s[j..k]
        {
          assert k != j;
          assert s[j..k][0] == '\n';
        }
      }
    }
  }

  /** Conversely, the first delimiter with no line break before it is the match. */
  lemma {:induction false} CloseAtIs(s: string, j: nat, d: string, e: nat)
    requires |d| > 0 && j <= e && e + |d| <= |s| && d <= s[e..]
    requires forall k :: j <= k < e ==> !(d <= s[k..]) && s[k] != '\n'
    ensures CloseAt(s, j, d) == Some(e)
    decreases e - j
  {
    if j < e {
      CloseAtIs(s, j + 1, d, e);
    }
  }

  /** Whether the bold pattern matches at the start of s. */
  predicate OpensBold(s: string, d: string)
    requires |d| > 0
  {
    |s| >= |d| && d <= s && CloseAt(s, |d|, d).Some?
  }

  /** One scanning step at the start of a non-empty s: the text it produces (the bold span of
      a match, or the first character copied) and the number of characters it consumes. */
  function BoldStep(s: string, d: string): (r: (string, nat))
    requires |d| > 0 && s != []
    ensures 0 < r.1 <= |s|
  {
    if OpensBold(s, d) then
      var k := CloseAt(s, |d|, d).value;
      ("<b>" + s[|d|..k] + "</b>", k + |d|)
    else ([s[0]], 1)
  }

  /** The bold substitution for a literal delimiter d (pdf_docx_api.py:538, 541): scanning left
      to right, each shortest delimiter pair with no line break inside becomes a bold span, and
      scanning resumes after it. */
  function SubBold(s: string, d: string): string
    requires |d| > 0
    decreases |s|
  {
    if s == [] then []
    else
      var step := BoldStep(s, d);
      step.0 + SubBold(s[step.1..], d)
  }

  lemma {:induction false} ConcatFour(a: string, b: string, c: string, e: string)
    ensures a + b + c + e == a + (b + c + e)
  {
  }

  lemma {:induction false} DropPrefix(d: string, u: string, k: nat)
    requires |d| <= k <= |d| + |u|
    ensures (d + u)[k..] == u[k - |d|..]
  {
  }

  /** The closing delimiter after such a span is the one the lazy group stops at. */
  lemma {:induction false} PairCloses(x: string, rest: string, d: string)
    requires |d| > 0 && '\n' !in x
    requires forall k :: 0 <= k < |x| ==> !(d <= (x + d + rest)[k..])
    ensures CloseAt(d + (x + d + rest), |d|, d) == Some(|d| + |x|)
  {
    var u := x + d + rest;
    var s := d + u;
    var e := |d| + |x|;
    forall k | |d| <= k < e
      ensures !(d <= s[k..]) && s[k] != '\n'
    {
      DropPrefix(d, u, k);
      assert u[k - |d|] == x[k - |d|];
    }
    DropPrefix(d, u, e);
    assert u[|x|..] == d + rest;
    CloseAtIs(s, |d|, d, e);
  }

  /** Where the pieces of such a pair sit in the text that holds it. */
  lemma {:induction false} PairPieces(x: string, rest: string, d: string)
    requires |d| > 0 && '\n' !in x
    requires forall k :: 0 <= k < |x| ==> !(d <= (x + d + rest)[k..])
    ensures var s := d + x + d + rest;
      d <= s && CloseAt(s, |d|, d) == Some(|d| + |x|) &&
      s[|d|..|d| + |x|] == x && s[|d| + |x| + |d|..] == rest
  {
    var u := x + d + rest;
    ConcatFour(d, x, d, rest);
    PairCloses(x, rest, d);
    DropPrefix(d, u, |d| + |x| + |d|);
    assert u[|x| + |d|..] == rest;
    assert (d + u)[|d|..|d| + |x|] == u[..|x|] == x;
  }

  /** One step of the substitution at the first match. */
  lemma {:induction false} SubBoldAt(s: string, d: string, y: string)
    requires |d| > 0 && OpensBold(s, d)
    requires y == SubBold(s[CloseAt(s, |d|, d).value + |d|..], d)
    ensures SubBold(s, d) == "<b>" + s[|d|..CloseAt(s, |d|, d).value] + "</b>" + y
  {
  }

  /** One step of the substitution where no match starts: the first character is copied. */
  lemma {:induction false} SubBoldCopy(s: string, d: string)
    requires |d| > 0 && s != [] && !OpensBold(s, d)
    ensures SubBold(s, d) == [s[0]] + SubBold(s[1..], d)
  {
  }

  /** A delimiter, a span without line breaks or delimiters, and a delimiter become one bold
      span, and the substitution resumes after it. */
  lemma {:induction false} SubBoldPair(x: string, rest: string, d: string)
    requires |d| > 0 && '\n' !in x
    requires forall k :: 0 <= k < |x| ==> !(d <= (x + d + rest)[k..])
    ensures SubBold(d + x + d + rest, d) == "<b>" + x + "</b>" + SubBold(rest, d)
  {
    PairPieces(x, rest, d);
    SubBoldAt(d + x + d + rest, d, SubBold(rest, d));
  }

  /** process_bold_text */
  function ProcessBoldText(text: string): string {
    SubBold(SubBold(EscapeHtml(text), "**"), "__")
  }

  /** The text reads as plain characters other than '<' and '>', interleaved with the two
      tags <b> and </b>: every angle bracket belongs to a bold tag. */
  predicate OnlyBoldTags(r: string)
    decreases |r|
  {
    r == []
    || ("<b>" <= r && OnlyBoldTags(r[3..]))
    || ("</b>" <= r && OnlyBoldTags(r[4..]))
    || (r[0] != '<' && r[0] != '>' && OnlyBoldTags(r[1..]))
  }

  lemma {:induction false} NoAnglesOnlyBoldTags(s: string)
    requires '<' !in s && '>' !in s
    ensures OnlyBoldTags(s)
  {
    if s != [] {
      assert s[0] in s;
      assert forall c :: c in s[1..] ==> c in s;
      NoAnglesOnlyBoldTags(s[1..]);
    }
  }

  lemma {:induction false} OnlyBoldTagsAppend(a: string, b: string)
    requires OnlyBoldTags(a) && OnlyBoldTags(b)
    ensures OnlyBoldTags(a + b)
    decreases |a|
  {
    if a == [] {
      assert a + b == b;
    } else if "<b>" <= a && OnlyBoldTags(a[3..]) {
      assert (a + b)[3..] == a[3..] + b;
      OnlyBoldTagsAppend(a[3..], b);
    } else if "</b>" <= a && OnlyBoldTags(a[4..]) {
      assert (a + b)[4..] == a[4..] + b;
      OnlyBoldTagsAppend(a[4..], b);
    } else {
      assert (a + b)[1..] == a[1..] + b;
      OnlyBoldTagsAppend(a[1..], b);
    }
  }

  predicate IsTagChar(c: char) {
    c == '<' || c == '/' || c == 'b' || c == '>'
  }

  lemma ConcatCharAt(a: string, c: char, b: string)
    ensures (a + [c] + b)[|a|] == c
  {
  }

  lemma PrefixAt(p: string, r: string)
    ensures p <= r ==> forall i :: 0 <= i < |p| ==> r[i] == p[i]
  {
  }

  /** A character that cannot occur in a tag splits a well-formed text into two well-formed ones. */
  lemma {:induction false} OnlyBoldTagsSplit(a: string, c: char, b: string)
    requires !IsTagChar(c) && OnlyBoldTags(a + [c] + b)
    ensures OnlyBoldTags(a) && OnlyBoldTags(b)
    decreases |a|
  {
    var r := a + [c] + b;
    if a == [] {
      assert r == [c] + b && r[0] == c && r[1..] == b;
    } else if "<b>" <= r && OnlyBoldTags(r[3..]) {
      ConcatCharAt(a, c, b);
      PrefixAt("<b>", r);
      assert r[3..] == a[3..] + [c] + b;
      OnlyBoldTagsSplit(a[3..], c, b);
      assert "<b>" <= a;
    } else if "</b>" <= r && OnlyBoldTags(r[4..]) {
      ConcatCharAt(a, c, b);
      PrefixAt("</b>", r);
      assert r[4..] == a[4..] + [c] + b;
      OnlyBoldTagsSplit(a[4..], c, b);
      assert "</b>" <= a;
    } else {
      assert r[0] == a[0];
      assert r[1..] == a[1..] + [c] + b;
      OnlyBoldTagsSplit(a[1..], c, b);
    }
  }

  /** A leading character that cannot start the delimiter is copied unchanged. */
  lemma {:induction false} SubBoldSkip(x: char, t: string, d: string)
    requires |d| > 0 && x != d[0]
    ensures SubBold([x] + t, d) == [x] + SubBold(t, d)
  {
    assert !(d <= [x] + t);
    assert ([x] + t)[1..] == t;
    SubBoldCopy([x] + t, d);
  }

  /** The delimiters the source uses: two characters, neither of which occurs in a tag. */
  predicate IsBoldDelimiter(d: string) {
    |d| == 2 && !IsTagChar(d[0]) && !IsTagChar(d[1])
  }

  /** A prefix without the delimiter's first character is copied unchanged. */
  lemma {:induction false} SubBoldSkipPrefix(p: string, t: string, d: string)
    requires |d| > 0 && d[0] !in p
    ensures SubBold(p + t, d) == p + SubBold(t, d)
    decreases |p|
  {
    if p == [] {
      assert p + t == t;
    } else {
      assert p[0] in p;
      assert forall c :: c in p[1..] ==> c in p;
      var u := p[1..] + t;
      calc {
        SubBold(p + t, d);
        { assert p + t == [p[0]] + u; }
        SubBold([p[0]] + u, d);
        { SubBoldSkip(p[0], u, d); }
        [p[0]] + SubBold(u, d);
        { SubBoldSkipPrefix(p[1..], t, d); }
        [p[0]] + (p[1..] + SubBold(t, d));
        { assert [p[0]] + p[1..] == p; }
        p + SubBold(t, d);
      }
    }
  }

  /** A tag already in the text is copied through a bold substitution unchanged. */
  lemma {:induction false} SubBoldCopiesTag(tag: string, t: string, d: string)
    requires IsBoldDelimiter(d) && (tag == "<b>" || tag == "</b>")
    ensures SubBold(tag + t, d) == tag + SubBold(t, d)
  {
    assert forall i :: 0 <= i < |tag| ==> IsTagChar(tag[i]);
    SubBoldSkipPrefix(tag, t, d);
  }

  /** A leading character that cannot occur in a tag can be dropped from well-formed text. */
  lemma {:induction false} OnlyBoldTagsDropFirst(s: string)
    requires s != [] && !IsTagChar(s[0]) && OnlyBoldTags(s)
    ensures OnlyBoldTags(s[1..])
  {
    assert s == [] + [s[0]] + s[1..];
    OnlyBoldTagsSplit([], s[0], s[1..]);
  }

  /** The pieces around a bold match of well-formed text are well-formed. */
  lemma {:induction false} OnlyBoldTagsAroundMatch(s: string, d: string, k: nat)
    requires IsBoldDelimiter(d) && OnlyBoldTags(s)
    requires 2 <= k && k + 2 <= |s| && s[..2] == d && s[k..k + 2] == d
    ensures OnlyBoldTags(s[2..k]) && OnlyBoldTags(s[k + 2..])
  {
    OnlyBoldTagsDropFirst(s);
    OnlyBoldTagsDropFirst(s[1..]);
    assert s[1..][1..] == s[2..];
    var m := s[2..];
    assert m == s[2..k] + [s[k]] + s[k + 1..];
    OnlyBoldTagsSplit(s[2..k], s[k], s[k + 1..]);
    OnlyBoldTagsDropFirst(s[k + 1..]);
    assert s[k + 1..][1..] == s[k + 2..];
  }

  lemma {:induction false} OnlyBoldTagsSpan(x: string, y: string)
    requires OnlyBoldTags(x) && OnlyBoldTags(y)
    ensures OnlyBoldTags("<b>" + x + "</b>" + y)
  {
    assert OnlyBoldTags("<b>") by { assert "<b>"[3..] == []; }
    assert OnlyBoldTags("</b>") by { assert "</b>"[4..] == []; }
    OnlyBoldTagsAppend("<b>", x);
    OnlyBoldTagsAppend("<b>" + x, "</b>");
    OnlyBoldTagsAppend("<b>" + x + "</b>", y);
  }

  /** The step of SubBoldKeepsTags at a match, given the property for the text after it. */
  lemma {:induction false} KeepsTagsAtMatch(s: string, d: string)
    requires IsBoldDelimiter(d) && OnlyBoldTags(s) && OpensBold(s, d)
    requires OnlyBoldTags(SubBold(s[CloseAt(s, |d|, d).value + |d|..], d))
    ensures OnlyBoldTags(SubBold(s, d))
  {
    var k := CloseAt(s, |d|, d).value;
    assert s[k..k + 2] == d;
    OnlyBoldTagsAroundMatch(s, d, k);
    OnlyBoldTagsSpan(s[2..k], SubBold(s[k + 2..], d));
    SubBoldAt(s, d, SubBold(s[k + 2..], d));
  }

  /** A bold substitution whose delimiter has no tag character keeps every angle bracket inside a tag. */
  lemma {:induction false} SubBoldKeepsTags(s: string, d: string)
    requires IsBoldDelimiter(d) && OnlyBoldTags(s)
    ensures OnlyBoldTags(SubBold(s, d))
    decreases |s|
  {
    if s == [] {
    } else if "<b>" <= s && OnlyBoldTags(s[3..]) {
      assert s == "<b>" + s[3..];
      SubBoldCopiesTag("<b>", s[3..], d);
      SubBoldKeepsTags(s[3..], d);
      assert ("<b>" + SubBold(s[3..], d))[3..] == SubBold(s[3..], d);
    } else if "</b>" <= s && OnlyBoldTags(s[4..]) {
      assert s == "</b>" + s[4..];
      SubBoldCopiesTag("</b>", s[4..], d);
      SubBoldKeepsTags(s[4..], d);
      assert ("</b>" + SubBold(s[4..], d))[4..] == SubBold(s[4..], d);
    } else if OpensBold(s, d) {
      var k := CloseAt(s, |d|, d).value;
      assert s[k..k + 2] == d;
      OnlyBoldTagsAroundMatch(s, d, k);
      SubBoldKeepsTags(s[k + 2..], d);
      KeepsTagsAtMatch(s, d);
    } else {
      SubBoldKeepsTags(s[1..], d);
      var u := SubBold(s[1..], d);
      SubBoldCopy(s, d);
      assert ([s[0]] + u)[1..] == u;
    }
  }

  /** Every '<' or '>' in the result of process_bold_text belongs to an inserted <b> or </b> tag. */
  lemma {:induction false} ProcessBoldOnlyTags(text: string)
    ensures OnlyBoldTags(ProcessBoldText(text))
  {
    EscapeHtmlPerChar(text);
    NoAnglesOnlyBoldTags(EscapeHtml(text));
    SubBoldKeepsTags(EscapeHtml(text), "**");
    SubBoldKeepsTags(SubBold(EscapeHtml(text), "**"), "__");
  }

  /** Reads each bold tag back as the delimiter it replaced. */
  function RestoreBold(r: string, d: string): string
    decreases |r|
  {
    if r == [] then []
    else if "<b>" <= r then d + RestoreBold(r[3..], d)
    else if "</b>" <= r then d + RestoreBold(r[4..], d)
    else [r[0]] + RestoreBold(r[1..], d)
  }

  lemma {:induction false} RestoreBoldPlain(x: string, z: string, d: string)
    requires '<' !in x
    ensures RestoreBold(x + z, d) == x + RestoreBold(z, d)
  {
    if x == [] {
      assert x + z == z;
    } else {
      assert x[0] in x;
      assert forall c :: c in x[1..] ==> c in x;
      var w := x[1..] + z;
      calc {
        RestoreBold(x + z, d);
        { assert x + z == [x[0]] + w; RestoreSkip(x[0], w, d); }
        [x[0]] + RestoreBold(w, d);
        { RestoreBoldPlain(x[1..], z, d); }
        [x[0]] + (x[1..] + RestoreBold(z, d));
        { assert [x[0]] + x[1..] == x; }
        x + RestoreBold(z, d);
      }
    }
  }

  lemma {:induction false} RestoreSkip(c: char, w: string, d: string)
    requires c != '<'
    ensures RestoreBold([c] + w, d) == [c] + RestoreBold(w, d)
  {
    var r := [c] + w;
    assert r[0] == c && r[1..] == w;
    assert !("<b>" <= r) && !("</b>" <= r);
  }

  lemma {:induction false} MatchPieces(s: string, d: string, k: nat)
    requires |d| <= k && k + |d| <= |s| && d <= s && d <= s[k..]
    ensures s == d + s[|d|..k] + d + s[k + |d|..]
  {
    assert s[k..k + |d|] == d;
    assert s == s[..|d|] + s[|d|..k] + s[k..k + |d|] + s[k + |d|..];
  }

  lemma {:induction false} RestoreSpan(x: string, y: string, d: string)
    requires '<' !in x
    ensures RestoreBold("<b>" + x + "</b>" + y, d) == d + x + d + RestoreBold(y, d)
  {
    var out := "<b>" + x + "</b>" + y;
    assert out == "<b>" + (x + ("</b>" + y));
    assert out[..3] == "<b>" && out[3..] == x + ("</b>" + y);
    RestoreBoldPlain(x, "</b>" + y, d);
    var t := "</b>" + y;
    assert t[1] == '/' && t[..4] == "</b>" && t[4..] == y;
  }

  /** On text without '<', a bold substitution is reversible: reading the tags back as the
      delimiter gives the input again, so the substitution only replaces delimiter pairs. */
  lemma {:induction false} RestoreSubBold(s: string, d: string)
    requires |d| > 0 && '<' !in s
    ensures RestoreBold(SubBold(s, d), d) == s
    decreases |s|
  {
    if OpensBold(s, d) {
      var k := CloseAt(s, |d|, d).value;
      var x, rest := s[|d|..k], s[k + |d|..];
      assert forall c :: c in x ==> c in s;
      assert forall c :: c in rest ==> c in s;
      RestoreSubBold(rest, d);
      RestoreSpan(x, SubBold(rest, d), d);
      MatchPieces(s, d, k);
    } else if s != [] {
      assert s[0] in s;
      var y := SubBold(s[1..], d);
      assert forall c :: c in s[1..] ==> c in s;
      RestoreSubBold(s[1..], d);
      assert ([s[0]] + y)[1..] == y;
    }
  }

  /** The escaping and the ** substitution together lose nothing of the cell or line text. */
  lemma {:induction false} BoldFirstPassLossless(text: string)
    ensures Unescape(RestoreBold(SubBold(EscapeHtml(text), "**"), "**")) == text
  {
    EscapeHtmlPerChar(text);
    RestoreSubBold(EscapeHtml(text), "**");
    UnescapeEscape(text);
  }

  lemma {:induction false} SubBoldNoDelimiter(s: string, d: string)
    requires |d| > 0 && d[0] !in s
    ensures SubBold(s, d) == s
    decreases |s|
  {
    if s != [] {
      assert s[0] in s;
      assert forall c :: c in s[1..] ==> c in s;
      SubBoldSkip(s[0], s[1..], d);
      SubBoldNoDelimiter(s[1..], d);
    }
  }

  /** Text without '*' or '_' is only escaped. */
  lemma {:induction false} ProcessBoldPlainText(text: string)
    requires '*' !in text && '_' !in text
    ensures ProcessBoldText(text) == EscapeHtml(text)
  {
    var e := EscapeHtml(text);
    EscapeHtmlPerChar(text);
    EscapeEachChars(text);
    assert '*' !in e && '_' !in e;
    SubBoldNoDelimiter(e, "**");
    SubBoldNoDelimiter(e, "__");
  }

  /** A span between two ** delimiters that holds no markup character and no line break of
      its own comes out as one bold span. */
  lemma {:induction false} ProcessBoldSpan(x: string)
    requires forall c :: c in x ==> c !in "*_<>&\n"
    ensures ProcessBoldText("**" + x + "**") == "<b>" + x + "</b>"
  {
    EscapeBoldSpan(x);
    FirstPassBoldSpan(x);
    SecondPassBoldSpan(x);
  }

  lemma {:induction false} EscapeBoldSpan(x: string)
    requires forall c :: c in x ==> c !in "*_<>&\n"
    ensures EscapeHtml("**" + x + "**") == "**" + x + "**"
  {
    var s := "**" + x + "**";
    assert forall c :: c in s ==> c in x || c == '*';
    ReplaceCharAbsent(s, '&', "&amp;");
    ReplaceCharAbsent(s, '<', "&lt;");
    ReplaceCharAbsent(s, '>', "&gt;");
  }

  lemma {:induction false} FirstPassBoldSpan(x: string)
    requires forall c :: c in x ==> c !in "*_<>&\n"
    ensures SubBold("**" + x + "**", "**") == "<b>" + x + "</b>"
  {
    forall k | 0 <= k < |x|
      ensures !("**" <= (x + "**" + [])[k..])
    {
      assert (x + "**" + [])[k..][0] == x[k];
      assert x[k] in x;
    }
    assert '\n' !in x;
    SubBoldPair(x, [], "**");
    assert "**" + x + "**" == "**" + x + "**" + [];
  }

  lemma {:induction false} SecondPassBoldSpan(x: string)
    requires forall c :: c in x ==> c !in "*_<>&\n"
    ensures SubBold("<b>" + x + "</b>", "__") == "<b>" + x + "</b>"
  {
    var b := "<b>" + x + "</b>";
    assert forall c :: c in b ==> c in x || c in "<b>/";
    SubBoldNoDelimiter(b, "__");
  }
}
