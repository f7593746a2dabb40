// The string operations popcorn.py relies on: str.rstrip(), str.rsplit("\n",
// maxsplit=1) and the code-point order that sorted() uses on str.

module Text {
  import opened Protocol

  /** Python's str.isspace(): the code points whose bidirectional class is
      WS, B or S, or whose category is Zs. */
  predicate IsSpace(c: char)
  {
    || c == '\t' || c == '\n' || c == '\U{000B}' || c == '\U{000C}' || c == '\r'
    || ('\U{001C}' <= c <= '\U{001F}')
    || c == ' ' || c == '\U{0085}' || c == '\U{00A0}' || c == '\U{1680}'
    || ('\U{2000}' <= c <= '\U{200A}')
    || c == '\U{2028}' || c == '\U{2029}' || c == '\U{202F}' || c == '\U{205F}' || c == '\U{3000}'
  }

  predicate AllSpace(s: string)
  {
    forall k :: 0 <= k < |s| ==> IsSpace(s[k])
  }

  /** str.rstrip(): the longest prefix that does not end in whitespace. */
  function RStrip(s: string): (r: string)
    ensures r <= s
    ensures r == [] || !IsSpace(r[|r| - 1])
    ensures AllSpace(s[|r|..])
  {
    if s != [] && IsSpace(s[|s| - 1]) then RStrip(s[..|s| - 1]) else s
  }

  /** Stripping whitespace appended to a string that does not end in whitespace
      gives the string back. */
  lemma {:induction false} RStripAppended(x: string, ws: string)
    requires x != [] && !IsSpace(x[|x| - 1])
    requires AllSpace(ws)
    ensures RStrip(x + ws) == x
    decreases |ws|
  {
    if ws != [] {
      var shorter := ws[..|ws| - 1];
      assert (x + ws)[..|x + ws| - 1] == x + shorter;
      RStripAppended(x, shorter);
    } else {
      assert x + ws == x;
    }
  }

  /** The index of the last newline, if any. */
  function LastNewline(s: string): (r: Option<nat>)
    ensures r.Some? ==> r.value < |s| && s[r.value] == '\n' && '\n' !in s[r.value + 1..]
    ensures r.None? ==> '\n' !in s
  {
    if s == [] then None
    else if s[|s| - 1] == '\n' then Some(|s| - 1)
    else
      var r := LastNewline(s[..|s| - 1]);
      assert r.Some? ==> s[r.value + 1..] == s[..|s| - 1][r.value + 1..] + [s[|s| - 1]];
      assert s == s[..|s| - 1] + [s[|s| - 1]];
      r
  }

  lemma {:induction false} LastNewlineOfJoin(x: string, y: string)
    requires '\n' !in y
    ensures LastNewline(x + "\n" + y) == Some(|x|)
    decreases |y|
  {
    if y != [] {
      var shorter := y[..|y| - 1];
      assert (x + "\n" + y)[..|x + "\n" + y| - 1] == x + "\n" + shorter;
      assert y[|y| - 1] in y;
      LastNewlineOfJoin(x, shorter);
    }
  }

  /** The result of s.rsplit("\n", maxsplit=1), unpacked as
      `*head, last = ...`: head holds the text before the last newline when
      there is one. */
  datatype LineSplit = LineSplit(head: Option<string>, last: string)

  function RSplitLine(s: string): (r: LineSplit)
    ensures '\n' !in r.last
    ensures r.head.None? ==> r.last == s
    ensures r.head.Some? ==> s == r.head.value + "\n" + r.last
  {
    match LastNewline(s)
    case None => LineSplit(None, s)
    case Some(i) =>
      assert s == s[..i] + "\n" + s[i + 1..];
      LineSplit(Some(s[..i]), s[i + 1..])
  }

  /** Joining the two parts of a split with a newline gives back the string,
      and a string with a newline always splits into two parts. */
  lemma RSplitLineJoin(x: string, y: string)
    requires '\n' !in y
    ensures RSplitLine(x + "\n" + y) == LineSplit(Some(x), y)
  {
    LastNewlineOfJoin(x, y);
    var s := x + "\n" + y;
    assert s[..|x|] == x && s[|x| + 1..] == y;
  }

  /** Python's `<` on str: lexicographic by code point, a proper prefix first. */
  predicate LexLess(a: string, b: string)
  {
    if a == [] then b != []
    else b != [] && (a[0] < b[0] || (a[0] == b[0] && LexLess(a[1..], b[1..])))
  }

  lemma {:induction false} LexLessIrreflexive(a: string)
    ensures !LexLess(a, a)
  {
    if a != [] {
      LexLessIrreflexive(a[1..]);
    }
  }

  lemma {:induction false} LexLessAsymmetric(a: string, b: string)
    requires LexLess(a, b)
    ensures !LexLess(b, a)
  {
    if a != [] && b != [] && a[0] == b[0] {
      LexLessAsymmetric(a[1..], b[1..]);
    }
  }

  lemma {:induction false} LexLessTransitive(a: string, b: string, c: string)
    requires LexLess(a, b) && LexLess(b, c)
    ensures LexLess(a, c)
  {
    if a != [] && a[0] == b[0] && b[0] == c[0] {
      LexLessTransitive(a[1..], b[1..], c[1..]);
    }
  }

  lemma {:induction false} LexLessTotal(a: string, b: string)
    requires a != b
    ensures LexLess(a, b) || LexLess(b, a)
  {
    if a != [] && b != [] && a[0] == b[0] {
      assert a == [a[0]] + a[1..] && b == [b[0]] + b[1..];
      LexLessTotal(a[1..], b[1..]);
    }
  }
}
