/**
 * Python's whitespace notion, `str.strip()`, `str.splitlines()` and
 * `"\n".join(...)` on `seq<char>`.
 */
module Text {

  /**
   * Python's `str.isspace()` on one code point. It is the class that both
   * `str.strip()` and the regular-expression class `\s` use.
   */
  predicate IsSpace(c: char) {
    || ('\t' <= c <= '\r')
    || ('\U{1C}' <= c <= ' ')
    || c == '\U{85}' || c == '\U{A0}' || c == '\U{1680}'
    || ('\U{2000}' <= c <= '\U{200A}')
    || c == '\U{2028}' || c == '\U{2029}' || c == '\U{202F}' || c == '\U{205F}'
    || c == '\U{3000}'
  }

  predicate AllSpace(s: string) {
    forall i | 0 <= i < |s| :: IsSpace(s[i])
  }

  /** Nothing `str.strip()` would remove: empty, or non-space at both ends. */
  predicate Bare(s: string) {
    s == [] || (!IsSpace(s[0]) && !IsSpace(s[|s| - 1]))
  }

  /** The first index at or after `i` whose character fails `p`, or `|s|`. */
  function SkipWhile(s: string, i: nat, p: char -> bool): (j: nat)
    requires i <= |s|
    ensures i <= j <= |s|
    ensures forall k | i <= k < j :: p(s[k])
    ensures j == |s| || !p(s[j])
    decreases |s| - i
  {
    if i < |s| && p(s[i]) then SkipWhile(s, i + 1, p) else i
  }

  /** Length of `s` once its trailing whitespace is dropped. */
  function StripEnd(s: string): (n: nat)
    ensures n <= |s|
    ensures AllSpace(s[n..])
    ensures n == 0 || !IsSpace(s[n - 1])
  {
    if |s| > 0 && IsSpace(s[|s| - 1]) then
      var n := StripEnd(s[..|s| - 1]);
      assert s[n..] == s[..|s| - 1][n..] + [s[|s| - 1]];
      n
    else |s|
  }

  /** Python's `str.strip()` with no argument. */
  function Strip(s: string): (r: string)
    ensures Bare(r)
    ensures exists a :: 0 <= a <= |s| - |r| && s[a..a + |r|] == r && AllSpace(s[..a]) && AllSpace(s[a + |r|..])
  {
    var a := SkipWhile(s, 0, IsSpace);
    var t := s[a..];
    var n := StripEnd(t);
    assert s[a + n..] == t[n..];
    assert s[a..a + n] == t[..n];
    assert AllSpace(s[..a]) by {
      forall k | 0 <= k < a ensures IsSpace(s[..a][k]) {
        assert s[..a][k] == s[k];
      }
    }
    assert AllSpace(s[a + n..]);
    t[..n]
  }

  /** `Strip` removes exactly the surrounding whitespace and nothing else. */
  lemma {:induction false} StripSurrounded(w1: string, x: string, w2: string)
    requires AllSpace(w1) && AllSpace(w2) && Bare(x)
    ensures Strip(w1 + x + w2) == x
  {
    var s := w1 + x + w2;
    var a := SkipWhile(s, 0, IsSpace);
    if x == [] {
      assert AllSpace(s);
      assert a == |s|;
    } else {
      assert s[|w1|] == x[0];
      assert a == |w1|;
      var t := s[a..];
      assert t == x + w2;
      var n := StripEnd(t);
      assert t[|x| - 1] == x[|x| - 1];
      assert n == |x|;
    }
  }

  /** Stripping a string that has nothing to strip leaves it unchanged. */
  lemma StripBare(s: string)
    requires Bare(s)
    ensures Strip(s) == s
  {
    StripSurrounded([], s, []);
    assert [] + s + [] == s;
  }

  /** A line boundary of Python's `str.splitlines()`. */
  predicate IsLineBreak(c: char) {
    || c == '\n' || c == '\r' || c == '\U{0B}' || c == '\U{0C}'
    || ('\U{1C}' <= c <= '\U{1E}')
    || c == '\U{85}' || c == '\U{2028}' || c == '\U{2029}'
  }

  predicate NotLineBreak(c: char) {
    !IsLineBreak(c)
  }

  predicate NoLineBreak(s: string) {
    forall i | 0 <= i < |s| :: !IsLineBreak(s[i])
  }

  /**
   * Python's `str.splitlines()`: cut at every line boundary (`\r\n` counts
   * as one), drop the boundaries, and produce no trailing empty line.
   */
  function SplitLines(s: string): (r: seq<string>)
    ensures forall i | 0 <= i < |r| :: NoLineBreak(r[i])
    ensures s == [] <==> r == []
    decreases |s|
  {
    if s == [] then []
    else
      var i := SkipWhile(s, 0, NotLineBreak);
      if i == |s| then [s]
      else
        var next := if s[i] == '\r' && i + 1 < |s| && s[i + 1] == '\n' then i + 2 else i + 1;
        [s[..i]] + SplitLines(s[next..])
  }

  /**
   * `"\n".join(lines)`: empty for no lines; otherwise it starts with the
   * first line, ends with the last, and a `\n` follows the first line when
   * there is more than one.
   */
  function JoinLines(lines: seq<string>): (r: string)
    ensures lines == [] ==> r == []
    ensures lines != [] ==> lines[0] <= r
    ensures |lines| > 1 ==> |lines[0]| < |r| && r[|lines[0]|] == '\n'
    ensures lines != [] ==>
      var last := lines[|lines| - 1];
      |last| <= |r| && r[|r| - |last|..] == last
  {
    if |lines| == 0 then []
    else if |lines| == 1 then lines[0]
    else lines[0] + "\n" + JoinLines(lines[1..])
  }

  /**
   * Splitting what `"\n".join` produced gives the lines back, provided no
   * line holds a boundary and the last one is not empty.
   */
  lemma {:induction false} SplitJoin(lines: seq<string>)
    requires forall i | 0 <= i < |lines| :: NoLineBreak(lines[i])
    requires lines == [] || lines[|lines| - 1] != []
    ensures SplitLines(JoinLines(lines)) == lines
  {
    if |lines| == 0 {
    } else if |lines| == 1 {
      SplitLast(lines[0]);
    } else {
      var l := lines[0];
      var tail := lines[1..];
      assert [l] + tail == lines;
      assert tail[|tail| - 1] == lines[|lines| - 1];
      forall i | 0 <= i < |tail| ensures NoLineBreak(tail[i]) {
        assert tail[i] == lines[i + 1];
      }
      SplitJoin(tail);
      assert JoinLines(lines) == l + "\n" + JoinLines(tail);
      assert NoLineBreak(l);
      SplitAtBreak(l, '\n', JoinLines(tail));
    }
  }

  /**
   * The three ways `splitlines` ends its first line: at a boundary character
   * other than the `\r` of a `\r\n` pair, at a `\r\n` pair, or at the end of
   * the text. With `SplitLines("") == []` they determine every result.
   */
  lemma SplitAtBreak(a: string, c: char, b: string)
    requires NoLineBreak(a) && IsLineBreak(c)
    requires !(c == '\r' && b != [] && b[0] == '\n')
    ensures SplitLines(a + [c] + b) == [a] + SplitLines(b)
  {
    var s := a + [c] + b;
    assert forall k | 0 <= k < |a| :: s[k] == a[k];
    assert s[|a|] == c;
    assert SkipWhile(s, 0, NotLineBreak) == |a|;
    assert s[..|a|] == a;
    assert s[|a| + 1..] == b;
  }

  lemma SplitAtCrLf(a: string, b: string)
    requires NoLineBreak(a)
    ensures SplitLines(a + "\r\n" + b) == [a] + SplitLines(b)
  {
    var s := a + "\r\n" + b;
    assert forall k | 0 <= k < |a| :: s[k] == a[k];
    assert s[|a|] == '\r' && s[|a| + 1] == '\n';
    assert SkipWhile(s, 0, NotLineBreak) == |a|;
    assert s[..|a|] == a;
    assert s[|a| + 2..] == b;
  }

  lemma SplitLast(a: string)
    requires a != [] && NoLineBreak(a)
    ensures SplitLines(a) == [a]
  {
    assert SkipWhile(a, 0, NotLineBreak) == |a|;
  }

  /** The only line boundary in `s` is `\n`. */
  predicate OnlyNewlines(s: string) {
    forall i | 0 <= i < |s| && IsLineBreak(s[i]) :: s[i] == '\n'
  }

  /** `"\n".join` puts one `\n` between a first line and the join of the rest. */
  lemma JoinCons(line: string, tail: seq<string>)
    requires tail != []
    ensures JoinLines([line] + tail) == line + "\n" + JoinLines(tail)
  {
    assert ([line] + tail)[1..] == tail;
  }

  /**
   * Joining the pieces with `"\n"` rebuilds a text whose only boundary is
   * `\n` and which does not end in one.
   */
  lemma {:induction false} JoinSplit(s: string)
    requires OnlyNewlines(s)
    requires s == [] || s[|s| - 1] != '\n'
    ensures JoinLines(SplitLines(s)) == s
    decreases |s|
  {
    if s != [] {
      var i := SkipWhile(s, 0, NotLineBreak);
      var line := s[..i];
      if i == |s| {
        assert line == s;
        SplitLast(s);
      } else {
        var rest := s[i + 1..];
        assert s[i] == '\n' && rest != [];
        assert s == line + ['\n'] + rest;
        SplitAtBreak(line, '\n', rest);
        assert OnlyNewlines(rest) by {
          forall k | 0 <= k < |rest| && IsLineBreak(rest[k]) ensures rest[k] == '\n' {
            assert rest[k] == s[i + 1 + k];
          }
        }
        JoinSplit(rest);
        var tail := SplitLines(rest);
        assert SplitLines(s) == [line] + tail && tail != [];
        JoinCons(line, tail);
      }
    }
  }
}
