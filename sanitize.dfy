/** The field validators of the render request: control-character removal and line-ending
    normalisation for the markdown and CSS texts, and a filename that is never empty. */
module Sanitize {
  import opened Wrappers
  import opened Text

  /** The characters the markdown and CSS validators remove (pdf_docx_api.py:104): every
      code point up to 0x1F except tab, line feed and carriage return, and DEL (0x7F). */
  predicate IsStrippedControl(c: char) {
    c <= '\U{08}' || c == '\U{0B}' || c == '\U{0C}' || ('\U{0E}' <= c <= '\U{1F}') || c == '\U{7F}'
  }

  /** The characters removed from filenames (pdf_docx_api.py:119): angle brackets, colon,
      double quote, both slashes, bar, question mark, asterisk and every code point up to 0x1F. */
  predicate IsFilenameForbidden(c: char) {
    c == '<' || c == '>' || c == ':' || c == '"' || c == '/' || c == '\\' || c == '|'
    || c == '?' || c == '*' || c <= '\U{1F}'
  }

  function RemoveControl(s: string): string {
    if s == [] then []
    else (if IsStrippedControl(s[0]) then [] else [s[0]]) + RemoveControl(s[1..])
  }

  /** The removal keeps only characters of the input outside the class, and changes nothing
      in text that has none. */
  lemma {:induction false} RemoveControlSound(s: string)
    ensures forall c :: c in RemoveControl(s) ==> c in s && !IsStrippedControl(c)
    ensures (forall c :: c in s ==> !IsStrippedControl(c)) ==> RemoveControl(s) == s
  {
    if s != [] {
      RemoveControlSound(s[1..]);
      assert forall c :: c in s[1..] ==> c in s;
      assert s[0] in s;
      assert s == [s[0]] + s[1..];
    }
  }

  /** The removal works character by character: it distributes over concatenation... */
  lemma {:induction false} RemoveControlAppend(a: string, b: string)
    ensures RemoveControl(a + b) == RemoveControl(a) + RemoveControl(b)
  {
    if a == [] {
      assert a + b == b;
    } else {
      var head := if IsStrippedControl(a[0]) then [] else [a[0]];
      assert (a + b)[0] == a[0] && (a + b)[1..] == a[1..] + b;
      calc {
        RemoveControl(a + b);
        head + RemoveControl(a[1..] + b);
        { RemoveControlAppend(a[1..], b); }
        head + (RemoveControl(a[1..]) + RemoveControl(b));
        (head + RemoveControl(a[1..])) + RemoveControl(b);
      }
    }
  }

  /** ... and a single character is dropped exactly when it is in the removed class. */
  lemma {:induction false} RemoveControlChar(c: char)
    ensures RemoveControl([c]) == if IsStrippedControl(c) then [] else [c]
  {
    assert [c][1..] == [];
  }

  /** Every character outside the removed class is kept as often as it occurs. */
  lemma {:induction false} RemoveControlCounts(s: string, c: char)
    ensures multiset(RemoveControl(s))[c] == if IsStrippedControl(c) then 0 else multiset(s)[c]
  {
    if s != [] {
      RemoveControlCounts(s[1..], c);
      assert s == [s[0]] + s[1..];
      assert multiset(s) == multiset([s[0]]) + multiset(s[1..]);
    }
  }

  function RemoveForbidden(s: string): string {
    if s == [] then []
    else (if IsFilenameForbidden(s[0]) then [] else [s[0]]) + RemoveForbidden(s[1..])
  }

  /** The removal keeps only allowed characters of the input, and changes nothing in a name
      that has no forbidden one. */
  lemma {:induction false} RemoveForbiddenSound(s: string)
    ensures forall c :: c in RemoveForbidden(s) ==> c in s && !IsFilenameForbidden(c)
    ensures (forall c :: c in s ==> !IsFilenameForbidden(c)) ==> RemoveForbidden(s) == s
  {
    if s != [] {
      RemoveForbiddenSound(s[1..]);
      assert forall c :: c in s[1..] ==> c in s;
      assert s[0] in s;
      assert s == [s[0]] + s[1..];
    }
  }

  lemma {:induction false} RemoveForbiddenAppend(a: string, b: string)
    ensures RemoveForbidden(a + b) == RemoveForbidden(a) + RemoveForbidden(b)
  {
    if a == [] {
      assert a + b == b;
    } else {
      var head := if IsFilenameForbidden(a[0]) then [] else [a[0]];
      assert (a + b)[0] == a[0] && (a + b)[1..] == a[1..] + b;
      calc {
        RemoveForbidden(a + b);
        head + RemoveForbidden(a[1..] + b);
        { RemoveForbiddenAppend(a[1..], b); }
        head + (RemoveForbidden(a[1..]) + RemoveForbidden(b));
        (head + RemoveForbidden(a[1..])) + RemoveForbidden(b);
      }
    }
  }

  lemma {:induction false} RemoveForbiddenCounts(s: string, c: char)
    ensures multiset(RemoveForbidden(s))[c] == if IsFilenameForbidden(c) then 0 else multiset(s)[c]
  {
    if s != [] {
      RemoveForbiddenCounts(s[1..], c);
      assert s == [s[0]] + s[1..];
      assert multiset(s) == multiset([s[0]]) + multiset(s[1..]);
    }
  }

  /** The newline normalisation (pdf_docx_api.py:107): each CRLF pair, then each lone CR,
      becomes one LF. */
  function NormalizeNewlines(s: string): string {
    if s == [] then []
    else if "\r\n" <= s then "\n" + NormalizeNewlines(s[2..])
    else if s[0] == '\r' then "\n" + NormalizeNewlines(s[1..])
    else [s[0]] + NormalizeNewlines(s[1..])
  }

  /** No CR remains, no character other than LF is introduced, and text without CR is
      unchanged. */
  lemma {:induction false} NormalizeSound(s: string)
    ensures '\r' !in NormalizeNewlines(s)
    ensures forall c :: c in NormalizeNewlines(s) ==> c in s || c == '\n'
    ensures '\r' !in s ==> NormalizeNewlines(s) == s
  {
    if s != [] {
      assert forall c :: c in s[1..] ==> c in s;
      assert s[0] in s;
      if "\r\n" <= s {
        NormalizeSound(s[2..]);
        assert forall c :: c in s[2..] ==> c in s;
      } else {
        NormalizeSound(s[1..]);
        assert s == [s[0]] + s[1..];
      }
    }
  }

  /** A CRLF pair becomes a single LF, ... */
  lemma {:induction false} NormalizeCrLf(t: string)
    ensures NormalizeNewlines("\r\n" + t) == "\n" + NormalizeNewlines(t)
  {
    assert ("\r\n" + t)[2..] == t;
  }

  /** ... so does a CR not followed by LF, ... */
  lemma {:induction false} NormalizeLoneCr(t: string)
    requires t == [] || t[0] != '\n'
    ensures NormalizeNewlines("\r" + t) == "\n" + NormalizeNewlines(t)
  {
    assert ("\r" + t)[1..] == t;
  }

  /** ... and any other character is copied. */
  lemma NormalizeOther(c: char, t: string)
    requires c != '\r'
    ensures NormalizeNewlines([c] + t) == [c] + NormalizeNewlines(t)
  {
    assert ([c] + t)[1..] == t;
  }

  /** A reference definition: replace every CRLF pair first, then every remaining CR. */
  function ReplaceCrLf(s: string): string {
    if s == [] then []
    else if "\r\n" <= s then "\n" + ReplaceCrLf(s[2..])
    else [s[0]] + ReplaceCrLf(s[1..])
  }

  function CrToLf(s: string): string {
    if s == [] then [] else (if s[0] == '\r' then "\n" else [s[0]]) + CrToLf(s[1..])
  }

  lemma {:induction false} CrToLfCons(c: char, t: string)
    ensures CrToLf([c] + t) == (if c == '\r' then "\n" else [c]) + CrToLf(t)
  {
    assert ([c] + t)[1..] == t;
  }

  /** The one-pass substitution with the alternation CRLF|CR equals the two passes. */
  lemma {:induction false} NormalizeTwoPasses(s: string)
    ensures NormalizeNewlines(s) == CrToLf(ReplaceCrLf(s))
  {
    if s != [] {
      if "\r\n" <= s {
        NormalizeTwoPasses(s[2..]);
        CrToLfCons('\n', ReplaceCrLf(s[2..]));
      } else {
        NormalizeTwoPasses(s[1..]);
        CrToLfCons(s[0], ReplaceCrLf(s[1..]));
      }
    }
  }

  /** sanitize_markdown */
  function SanitizeMarkdown(v: string): string {
    NormalizeNewlines(RemoveControl(v))
  }

  /** No stripped control character and no CR survives. */
  lemma {:induction false} SanitizeMarkdownClean(v: string)
    ensures forall c :: c in SanitizeMarkdown(v) ==> !IsStrippedControl(c) && c != '\r'
  {
    RemoveControlSound(v);
    NormalizeSound(RemoveControl(v));
  }

  /** sanitize_markdown keeps every character that is neither a removed control nor a line
      break, as often as it occurs. */
  lemma {:induction false} SanitizeMarkdownKeeps(v: string, c: char)
    requires !IsStrippedControl(c) && c != '\r' && c != '\n'
    ensures multiset(SanitizeMarkdown(v))[c] == multiset(v)[c]
  {
    RemoveControlCounts(v, c);
    NormalizeCounts(RemoveControl(v), c);
  }

  lemma {:induction false} NormalizeCounts(s: string, c: char)
    requires c != '\r' && c != '\n'
    ensures multiset(NormalizeNewlines(s))[c] == multiset(s)[c]
  {
    if s != [] {
      if "\r\n" <= s {
        var t := s[2..];
        assert s[0] == '\r' && s[1] == '\n';
        assert s == [s[0]] + ([s[1]] + t);
        assert NormalizeNewlines(s) == "\n" + NormalizeNewlines(t);
        CountCons(s[0], [s[1]] + t, c);
        CountCons(s[1], t, c);
        CountCons('\n', NormalizeNewlines(t), c);
        NormalizeCounts(t, c);
      } else {
        var x := if s[0] == '\r' then '\n' else s[0];
        assert s == [s[0]] + s[1..];
        assert NormalizeNewlines(s) == [x] + NormalizeNewlines(s[1..]);
        CountCons(s[0], s[1..], c);
        CountCons(x, NormalizeNewlines(s[1..]), c);
        NormalizeCounts(s[1..], c);
      }
    }
  }

  lemma {:induction false} CountCons(x: char, t: string, c: char)
    ensures multiset([x] + t)[c] == multiset(t)[c] + (if x == c then 1 else 0)
  {
    assert multiset([x] + t) == multiset([x]) + multiset(t);
  }

  /** Text without CR is cleaned piece by piece, ... */
  lemma {:induction false} SanitizeMarkdownAppend(a: string, b: string)
    requires '\r' !in a
    ensures SanitizeMarkdown(a + b) == SanitizeMarkdown(a) + SanitizeMarkdown(b)
  {
    RemoveControlSound(a);
    RemoveControlAppend(a, b);
    NormalizeAppend(RemoveControl(a), RemoveControl(b));
  }

  /** ... and a CRLF pair between two such pieces becomes one LF. */
  lemma {:induction false} SanitizeMarkdownCrLf(a: string, b: string)
    requires '\r' !in a
    ensures SanitizeMarkdown(a + "\r\n" + b) == SanitizeMarkdown(a) + "\n" + SanitizeMarkdown(b)
  {
    assert RemoveControl("\r\n") == "\r\n" by {
      assert forall c :: c in "\r\n" ==> !IsStrippedControl(c);
    }
    var ra, rb := RemoveControl(a), RemoveControl(b);
    RemoveControlSound(a);
    calc {
      SanitizeMarkdown(a + "\r\n" + b);
      { assert a + "\r\n" + b == a + ("\r\n" + b); }
      NormalizeNewlines(RemoveControl(a + ("\r\n" + b)));
      { RemoveControlAppend(a, "\r\n" + b); RemoveControlAppend("\r\n", b); }
      NormalizeNewlines(ra + ("\r\n" + rb));
      { NormalizeAppend(ra, "\r\n" + rb); }
      NormalizeNewlines(ra) + NormalizeNewlines("\r\n" + rb);
      { NormalizeCrLf(rb); }
      NormalizeNewlines(ra) + ("\n" + NormalizeNewlines(rb));
    }
  }

  lemma {:induction false} NormalizeAppend(a: string, b: string)
    requires '\r' !in a
    ensures NormalizeNewlines(a + b) == NormalizeNewlines(a) + NormalizeNewlines(b)
  {
    if a == [] {
      assert a + b == b;
    } else {
      assert a[0] in a;
      assert a + b == [a[0]] + (a[1..] + b);
      assert a == [a[0]] + a[1..];
      calc {
        NormalizeNewlines(a + b);
        { NormalizeOther(a[0], a[1..] + b); }
        [a[0]] + NormalizeNewlines(a[1..] + b);
        { NormalizeAppend(a[1..], b); }
        [a[0]] + (NormalizeNewlines(a[1..]) + NormalizeNewlines(b));
        { NormalizeOther(a[0], a[1..]); }
        NormalizeNewlines(a) + NormalizeNewlines(b);
      }
    }
  }

  /** Text that is already clean passes unchanged, so the validator is idempotent. */
  lemma {:induction false} SanitizeMarkdownIdempotent(v: string)
    ensures SanitizeMarkdown(SanitizeMarkdown(v)) == SanitizeMarkdown(v)
    ensures (forall c :: c in v ==> !IsStrippedControl(c) && c != '\r') ==> SanitizeMarkdown(v) == v
  {
    SanitizeMarkdownClean(v);
    RemoveControlSound(SanitizeMarkdown(v));
    NormalizeSound(SanitizeMarkdown(v));
    RemoveControlSound(v);
    NormalizeSound(v);
  }

  /** sanitize_filename: a missing or all-removed name becomes "document". */
  function SanitizeFilename(v: Option<string>): (r: string)
    ensures r != []
    ensures forall c :: c in r ==> !IsFilenameForbidden(c)
    ensures !IsSpace(r[0]) && !IsSpace(r[|r| - 1])
    ensures v.None? ==> r == "document"
    ensures v.Some? && Strip(RemoveForbidden(v.value)) != [] ==> r == Strip(RemoveForbidden(v.value))
    ensures v.Some? && Strip(RemoveForbidden(v.value)) == [] ==> r == "document"
  {
    match v
    case None => "document"
    case Some(name) =>
      var cleaned := RemoveForbidden(name);
      RemoveForbiddenSound(name);
      StripChars(cleaned);
      if Strip(cleaned) == [] then "document" else Strip(cleaned)
  }

  /** sanitize_css */
  function SanitizeCss(v: Option<string>): (r: Option<string>)
    ensures r.None? <==> v.None?
    ensures r.Some? ==> forall c :: c in r.value ==> c in v.value && !IsStrippedControl(c)
    ensures r.Some? ==> r.value == RemoveControl(v.value)
  {
    match v
    case None => None
    case Some(css) => RemoveControlSound(css); Some(RemoveControl(css))
  }

  /** A name that is already clean is kept as given, so the validator is idempotent. */
  lemma {:induction false} SanitizeFilenameClean(name: string)
    requires name != [] && !IsSpace(name[0]) && !IsSpace(name[|name| - 1])
    requires forall c :: c in name ==> !IsFilenameForbidden(c)
    ensures SanitizeFilename(Some(name)) == name
  {
    RemoveForbiddenSound(name);
    StripUnchanged(name);
  }

  lemma {:induction false} SanitizeFilenameIdempotent(v: Option<string>)
    ensures SanitizeFilename(Some(SanitizeFilename(v))) == SanitizeFilename(v)
  {
    SanitizeFilenameClean(SanitizeFilename(v));
  }

  /** The CSS validator keeps every character outside the removed class, in order, and leaves
      clean CSS as it is. */
  lemma {:induction false} SanitizeCssKeeps(css: string, a: string, b: string, c: char)
    ensures SanitizeCss(Some(a + b)) == Some(RemoveControl(a) + RemoveControl(b))
    ensures !IsStrippedControl(c) ==> multiset(SanitizeCss(Some(css)).value)[c] == multiset(css)[c]
    ensures SanitizeCss(SanitizeCss(Some(css))) == SanitizeCss(Some(css))
  {
    RemoveControlAppend(a, b);
    RemoveControlCounts(css, c);
    RemoveControlSound(RemoveControl(css));
  }
}
