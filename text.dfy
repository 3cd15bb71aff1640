/** The Python string operations the renderer relies on: str.strip(), str.split(sep),
    str.split(), sep.join(parts), str.lower() and slicing, over strings of Unicode scalars. */
module Text {

  /** The characters Python's str.isspace() accepts; str.strip(), str.split() and the
      regular-expression class \s all use this set for str values. */
  predicate IsSpace(c: char) {
    c == ' ' || ('\t' <= c <= '\r') || ('\U{1C}' <= c <= '\U{1F}') || c == '\U{85}' || c == '\U{A0}'
    || c == '\U{1680}' || ('\U{2000}' <= c <= '\U{200A}') || c == '\U{2028}' || c == '\U{2029}'
    || c == '\U{202F}' || c == '\U{205F}' || c == '\U{3000}'
  }

  /** The text with its leading whitespace removed. */
  function LStrip(s: string): (r: string)
    ensures |r| <= |s|
    ensures r == [] || !IsSpace(r[0])
  {
    if |s| > 0 && IsSpace(s[0]) then LStrip(s[1..]) else s
  }

  /** lstrip keeps a suffix. */
  lemma {:induction false} LStripSuffix(s: string)
    ensures LStrip(s) == s[|s| - |LStrip(s)|..]
  {
    if |s| > 0 && IsSpace(s[0]) {
      LStripSuffix(s[1..]);
    }
  }

  /** Only whitespace is removed on the left. */
  lemma {:induction false} LStripRemovesSpace(s: string)
    ensures forall i :: 0 <= i < |s| - |LStrip(s)| ==> IsSpace(s[i])
  {
    if |s| > 0 && IsSpace(s[0]) {
      LStripRemovesSpace(s[1..]);
      forall i | 0 <= i < |s| - |LStrip(s)|
        ensures IsSpace(s[i])
      {
        if i > 0 {
          assert s[i] == s[1..][i - 1];
        }
      }
    }
  }

  /** The text with its trailing whitespace removed. */
  function RStrip(s: string): (r: string)
    ensures |r| <= |s|
    ensures r == [] || (r[0] == s[0] && !IsSpace(r[|r| - 1]))
  {
    if |s| > 0 && IsSpace(s[|s| - 1]) then RStrip(s[..|s| - 1]) else s
  }

  /** rstrip keeps a prefix. */
  lemma {:induction false} RStripPrefix(s: string)
    ensures RStrip(s) == s[..|RStrip(s)|]
  {
    if |s| > 0 && IsSpace(s[|s| - 1]) {
      RStripPrefix(s[..|s| - 1]);
    }
  }

  /** Only whitespace is removed on the right. */
  lemma {:induction false} RStripRemovesSpace(s: string)
    ensures forall i :: |RStrip(s)| <= i < |s| ==> IsSpace(s[i])
  {
    if |s| > 0 && IsSpace(s[|s| - 1]) {
      RStripRemovesSpace(s[..|s| - 1]);
    }
  }

  /** Whitespace removed at both ends: the result has no whitespace at either end. */
  function Strip(s: string): (r: string)
    ensures |r| <= |s|
    ensures r == [] || (!IsSpace(r[0]) && !IsSpace(r[|r| - 1]))
  {
    RStrip(LStrip(s))
  }

  /** Strip keeps a contiguous slice of s and removes only whitespace around it. */
  lemma {:induction false} StripSlice(s: string)
    ensures exists i, j :: (0 <= i <= j <= |s| && Strip(s) == s[i..j]
      && (forall k :: 0 <= k < i ==> IsSpace(s[k])) && (forall k :: j <= k < |s| ==> IsSpace(s[k])))
  {
    var t := LStrip(s);
    var i := |s| - |t|;
    var j := i + |RStrip(t)|;
    LStripSuffix(s);
    RStripPrefix(t);
    LStripRemovesSpace(s);
    RStripRemovesSpace(t);
    assert t == s[i..];
    forall k | j <= k < |s|
      ensures IsSpace(s[k])
    {
      assert s[k] == t[k - i];
    }
    assert Strip(s) == s[i..j] by {
      assert RStrip(t) == t[..j - i];
    }
  }

  /** Strip removes everything exactly when everything is whitespace. */
  lemma {:induction false} StripEmpty(s: string)
    ensures Strip(s) == [] <==> forall k :: 0 <= k < |s| ==> IsSpace(s[k])
  {
    StripSlice(s);
  }

  /** Every character Strip keeps comes from s. */
  lemma {:induction false} StripChars(s: string)
    ensures forall c :: c in Strip(s) ==> c in s
  {
    StripSlice(s);
  }

  lemma StripUnchanged(s: string)
    requires s == [] || (!IsSpace(s[0]) && !IsSpace(s[|s| - 1]))
    ensures Strip(s) == s
  {
  }

  /** s[:k] with Python's reading of a negative bound (counted from the end). */
  function PySliceTo(s: string, k: int): (r: string)
    ensures r <= s
    ensures 0 <= k ==> |r| == if k < |s| then k else |s|
  {
    if k >= 0 then (if k < |s| then s[..k] else s)
    else if |s| + k > 0 then s[..|s| + k] else []
  }

  /** The ASCII part of str.lower(); every other character is kept. */
  function LowerChar(c: char): char {
    if 'A' <= c <= 'Z' then (c as int + 32) as char else c
  }

  function Lower(s: string): (r: string)
    ensures |r| == |s|
  {
    seq(|s|, i requires 0 <= i < |s| => LowerChar(s[i]))
  }

  /** n copies of s, as Python's s * n. */
  function Repeat(s: string, n: nat): (r: string)
    ensures |r| == n * |s|
  {
    if n == 0 then [] else s + Repeat(s, n - 1)
  }

  /** sub in s, for a non-empty sub. */
  predicate ContainsStr(s: string, sub: string) {
    sub <= s || (|s| > 0 && ContainsStr(s[1..], sub))
  }

  /** The parts one after another, with sep between consecutive ones. */
  function Join(parts: seq<string>, sep: string): string {
    if |parts| == 0 then []
    else if |parts| == 1 then parts[0]
    else parts[0] + sep + Join(parts[1..], sep)
  }

  lemma {:induction false} JoinSnoc(parts: seq<string>, x: string, sep: string)
    requires |parts| > 0
    ensures Join(parts + [x], sep) == Join(parts, sep) + sep + x
  {
    if |parts| == 1 {
      assert parts + [x] == [parts[0], x];
    } else {
      assert (parts + [x])[1..] == parts[1..] + [x];
      JoinSnoc(parts[1..], x, sep);
    }
  }

  /** Prepending a character to the first part prepends it to the joined string. */
  lemma {:induction false} JoinConsFirst(c: char, p: string, rest: seq<string>, sep: string)
    ensures Join([[c] + p] + rest, sep) == [c] + Join([p] + rest, sep)
  {
    if |rest| > 0 {
      assert ([[c] + p] + rest)[1..] == rest;
      assert ([p] + rest)[1..] == rest;
    }
  }

  /** str.split(c) for a single-character separator: the parts between occurrences of c. */
  function SplitOn(s: string, c: char): (r: seq<string>)
    ensures |r| >= 1
  {
    if s == [] then [[]]
    else
      var rest := SplitOn(s[1..], c);
      if s[0] == c then [[]] + rest else [[s[0]] + rest[0]] + rest[1..]
  }

  /** No part holds the separator. */
  lemma {:induction false} SplitOnNoSeparator(s: string, c: char)
    ensures forall p :: p in SplitOn(s, c) ==> c !in p
  {
    if s != [] {
      SplitOnNoSeparator(s[1..], c);
    }
  }

  /** Splitting on c and joining with c gives the string back. */
  lemma {:induction false} JoinSplitOn(s: string, c: char)
    ensures Join(SplitOn(s, c), [c]) == s
  {
    if s != [] {
      var rest := SplitOn(s[1..], c);
      JoinSplitOn(s[1..], c);
      if s[0] == c {
        assert ([[]] + rest)[1..] == rest;
      } else {
        assert [rest[0]] + rest[1..] == rest;
        JoinConsFirst(s[0], rest[0], rest[1..], [c]);
      }
    }
  }

  /** str.split(sep) for a non-empty separator string, scanning left to right. */
  function SplitStr(s: string, sep: string): (r: seq<string>)
    requires |sep| > 0
    ensures |r| >= 1
    decreases |s|
  {
    if |s| < |sep| then [s]
    else if sep <= s then [[]] + SplitStr(s[|sep|..], sep)
    else
      var rest := SplitStr(s[1..], sep);
      [[s[0]] + rest[0]] + rest[1..]
  }

  /** Splitting on sep and joining with sep gives the string back. */
  lemma {:induction false} JoinSplitStr(s: string, sep: string)
    requires |sep| > 0
    ensures Join(SplitStr(s, sep), sep) == s
    decreases |s|
  {
    if |s| >= |sep| {
      if sep <= s {
        var rest := SplitStr(s[|sep|..], sep);
        JoinSplitStr(s[|sep|..], sep);
        assert ([[]] + rest)[1..] == rest;
        assert s == sep + s[|sep|..];
      } else {
        var rest := SplitStr(s[1..], sep);
        JoinSplitStr(s[1..], sep);
        assert [rest[0]] + rest[1..] == rest;
        JoinConsFirst(s[0], rest[0], rest[1..], sep);
      }
    }
  }

  /** The end of the run of non-space characters starting at i. */
  function WordEnd(t: string, i: nat): (r: nat)
    requires i <= |t|
    ensures i <= r <= |t|
    ensures r < |t| ==> IsSpace(t[r])
    decreases |t| - i
  {
    if i == |t| || IsSpace(t[i]) then i else WordEnd(t, i + 1)
  }

  /** The run WordEnd skips holds no whitespace. */
  lemma {:induction false} WordEndNoSpace(t: string, i: nat)
    requires i <= |t|
    ensures forall j :: i <= j < WordEnd(t, i) ==> !IsSpace(t[j])
    decreases |t| - i
  {
    if i < |t| && !IsSpace(t[i]) {
      WordEndNoSpace(t, i + 1);
    }
  }

  /** str.split() with no argument: the maximal runs of non-whitespace characters. */
  function Words(s: string): (r: seq<string>)
    ensures forall w :: w in r ==> w != []
    decreases |s|
  {
    var t := LStrip(s);
    if t == [] then []
    else
      var k := WordEnd(t, 0);
      [t[..k]] + Words(t[k..])
  }

  /** No word holds whitespace. */
  lemma {:induction false} WordsHaveNoSpace(s: string)
    ensures forall w :: w in Words(s) ==> forall c :: c in w ==> !IsSpace(c)
    decreases |s|
  {
    var t := LStrip(s);
    if t != [] {
      var k := WordEnd(t, 0);
      WordEndNoSpace(t, 0);
      WordsHaveNoSpace(t[k..]);
    }
  }

  // ---------------------------------------------------------------------------------------
  // Sequence helpers, stated once for any element type

  lemma ConsAppend<T>(a: seq<T>, b: seq<T>)
    requires a != []
    ensures a == [a[0]] + a[1..] && a + b == [a[0]] + (a[1..] + b)
  {
  }

  lemma SnocAssoc<T>(a: seq<T>, x: T, b: seq<T>)
    ensures a + [x] + b == a + ([x] + b)
  {
  }
}
