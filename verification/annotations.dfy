/**
 * The three hour annotations a task line may carry, and the two regular
 * expression operations the parser applies to them: `search` (first
 * occurrence) and `sub("", …)` (delete every occurrence in one pass).
 *
 * Each pattern is `<lead> \s* [0-9.]+ h <close>`. Since `\s`, `[0-9.]` and
 * `h` are pairwise disjoint, a match starting at a given position is
 * unique, so a deterministic scanner decides it exactly.
 */
module Annotations {
  import opened Wrappers
  import opened Text
  import opened Numbers

  datatype Kind =
    | Estimate  // `\(预计\s*([0-9\.]+)h\)`: estimated hours
    | Duration  // `\[耗时\s*([0-9\.]+)h\]`: actual hours of a finished task
    | Spent     // `\[已耗时\s*([0-9\.]+)h\]`: hours already spent on an open task

  function Lead(k: Kind): string {
    match k
    case Estimate => "(预计"
    case Duration => "[耗时"
    case Spent => "[已耗时"
  }

  function Open(k: Kind): char {
    if k == Estimate then '(' else '['
  }

  function Close(k: Kind): char {
    if k == Estimate then ')' else ']'
  }

  /** The text one occurrence spans, given its whitespace and its number. */
  function Render(k: Kind, spaces: string, digits: string): string {
    Lead(k) + spaces + digits + ['h', Close(k)]
  }

  /** What `\s*` and `([0-9\.]+)` may capture. */
  predicate ValidParts(spaces: string, digits: string) {
    AllSpace(spaces) && |digits| > 0 && AllNumberChars(digits)
  }

  /** An occurrence: its whitespace run and its captured group 1. */
  datatype Hit = Hit(spaces: string, digits: string)

  function HitLength(k: Kind, h: Hit): nat {
    |Render(k, h.spaces, h.digits)|
  }

  /** The occurrence of pattern `k` that starts at the first character of `t`, if any. */
  function MatchHere(t: string, k: Kind): (r: Option<Hit>)
    ensures r.Some? ==> ValidParts(r.value.spaces, r.value.digits)
    ensures r.Some? ==> Render(k, r.value.spaces, r.value.digits) <= t
  {
    var n := |Lead(k)|;
    if |t| < n || t[..n] != Lead(k) then None
    else
      var i := SkipWhile(t, n, IsSpace);
      var j := SkipWhile(t, i, IsNumberChar);
      if i < j && j + 1 < |t| && t[j] == 'h' && t[j + 1] == Close(k) then
        RenderSlice(t, k, i, j);
        Some(Hit(t[n..i], t[i..j]))
      else None
  }

  /** The text a successful match spans is the rendering of its parts. */
  lemma RenderSlice(t: string, k: Kind, i: nat, j: nat)
    requires |Lead(k)| <= i < j && j + 1 < |t| && t[..|Lead(k)|] == Lead(k)
    requires forall m | |Lead(k)| <= m < i :: IsSpace(t[m])
    requires forall m | i <= m < j :: IsNumberChar(t[m])
    requires t[j] == 'h' && t[j + 1] == Close(k)
    ensures ValidParts(t[|Lead(k)|..i], t[i..j])
    ensures Render(k, t[|Lead(k)|..i], t[i..j]) <= t
  {
    var n := |Lead(k)|;
    var (b, c) := (t[n..i], t[i..j]);
    forall m | 0 <= m < |b| ensures IsSpace(b[m]) {
      assert b[m] == t[n + m];
    }
    forall m | 0 <= m < |c| ensures IsNumberChar(c[m]) {
      assert c[m] == t[i + m];
    }
    var r := Render(k, b, c);
    assert |r| == j + 2 <= |t|;
    forall m | 0 <= m < |r| ensures r[m] == t[m] {
      if m < n {
        assert r[m] == Lead(k)[m] == t[..n][m];
      } else if m < i {
        assert r[m] == b[m - n];
      } else if m < j {
        assert r[m] == c[m - i];
      } else if m == j {
        assert r[m] == 'h';
      } else {
        assert r[m] == Close(k);
      }
    }
    assert r == t[..|r|];
  }

  /** Every well-formed occurrence is recognised, with exactly its parts. */
  lemma MatchHereComplete(k: Kind, spaces: string, digits: string, rest: string)
    requires ValidParts(spaces, digits)
    ensures MatchHere(Render(k, spaces, digits) + rest, k) == Some(Hit(spaces, digits))
  {
    RenderParts(k, spaces, digits, rest);
    MatchLaidOut(Render(k, spaces, digits) + rest, k, spaces, digits);
  }

  /**
   * `t` starts with an occurrence of kind `k` with these parts, read
   * position by position: the lead, the spaces, the number, `h` and the
   * closing bracket.
   */
  predicate LaidOut(t: string, k: Kind, spaces: string, digits: string) {
    var n := |Lead(k)|;
    var i := n + |spaces|;
    var j := i + |digits|;
    && |digits| > 0 && j + 1 < |t| && t[..n] == Lead(k)
    && (forall m | n <= m < i :: IsSpace(t[m]))
    && (forall m | i <= m < j :: IsNumberChar(t[m]))
    && !IsSpace(t[i]) && t[j] == 'h' && !IsNumberChar(t[j]) && t[j + 1] == Close(k)
    && t[n..i] == spaces && t[i..j] == digits
  }

  /** Both scans stop where the parts end, so the match returns exactly those parts. */
  lemma MatchLaidOut(t: string, k: Kind, spaces: string, digits: string)
    requires LaidOut(t, k, spaces, digits)
    ensures MatchHere(t, k) == Some(Hit(spaces, digits))
  {
    var n := |Lead(k)|;
    var i := n + |spaces|;
    var j := i + |digits|;
    SkipExact(t, n, i, IsSpace);
    SkipExact(t, i, j, IsNumberChar);
    MatchHereAt(t, k, i, j);
  }

  /** A rendered occurrence followed by more text, read position by position. */
  lemma RenderParts(k: Kind, spaces: string, digits: string, rest: string)
    requires ValidParts(spaces, digits)
    ensures LaidOut(Render(k, spaces, digits) + rest, k, spaces, digits)
  {
    var e := ['h', Close(k)] + rest;
    assert Render(k, spaces, digits) + rest == Lead(k) + spaces + digits + e;
    ReadParts(Lead(k), spaces, digits, e);
  }

  /** Any lead, a whitespace run, a number and a tail that starts with `h`, read position by position. */
  lemma ReadParts(lead: string, spaces: string, digits: string, e: string)
    requires ValidParts(spaces, digits) && |e| >= 2 && e[0] == 'h'
    ensures var t := lead + spaces + digits + e;
      var n := |lead|;
      var i := n + |spaces|;
      var j := i + |digits|;
      && j + 1 < |t| && t[..n] == lead
      && (forall m | n <= m < i :: IsSpace(t[m]))
      && (forall m | i <= m < j :: IsNumberChar(t[m]))
      && !IsSpace(t[i]) && t[j] == 'h' && t[j + 1] == e[1]
      && t[n..i] == spaces && t[i..j] == digits
  {
    var t := lead + spaces + digits + e;
    var n := |lead|;
    var i := n + |spaces|;
    var j := i + |digits|;
    Pieces(lead, spaces, digits, e);
    assert t[j] == e[0] && t[j + 1] == e[1];
    forall m | n <= m < i ensures IsSpace(t[m]) {
      assert t[m] == t[n..i][m - n];
    }
    forall m | i <= m < j ensures IsNumberChar(t[m]) {
      assert t[m] == t[i..j][m - i];
    }
    assert t[i] == digits[0] && IsNumberChar(digits[0]);
  }

  /** Where each of four concatenated strings sits in the whole. */
  lemma Pieces(a: string, b: string, c: string, d: string)
    ensures var t := a + b + c + d;
      var i := |a| + |b|;
      var j := i + |c|;
      && |t| == j + |d| && t[..|a|] == a && t[|a|..i] == b && t[i..j] == c && t[j..] == d
  {
    var t := a + b + c + d;
    var i := |a| + |b|;
    assert t == a + (b + (c + d));
    assert t[|a|..] == b + (c + d);
    assert t[i..] == c + d;
    assert t[|a|..i] == t[|a|..][..|b|];
    assert t[i..i + |c|] == t[i..][..|c|];
  }

  /** A scan stops exactly at the first character failing `p`. */
  lemma SkipExact(s: string, i: nat, j: nat, p: char -> bool)
    requires i <= j <= |s|
    requires forall m | i <= m < j :: p(s[m])
    requires j == |s| || !p(s[j])
    ensures SkipWhile(s, i, p) == j
  {
  }

  /** `MatchHere` once the two scans' end points are known. */
  lemma MatchHereAt(t: string, k: Kind, i: nat, j: nat)
    requires |t| >= |Lead(k)| && t[..|Lead(k)|] == Lead(k)
    requires |Lead(k)| <= i < j && j + 1 < |t|
    requires SkipWhile(t, |Lead(k)|, IsSpace) == i && SkipWhile(t, i, IsNumberChar) == j
    requires t[j] == 'h' && t[j + 1] == Close(k)
    ensures MatchHere(t, k) == Some(Hit(t[|Lead(k)|..i], t[i..j]))
  {
  }

  /**
   * The unit must follow the number at once: when the character after the
   * number is neither a digit, a dot nor `h` (as the space in `(预计 3 h)`),
   * nothing matches there.
   */
  lemma UnitMustFollow(k: Kind, spaces: string, digits: string, rest: string)
    requires ValidParts(spaces, digits)
    requires rest != [] && rest[0] != 'h' && !IsNumberChar(rest[0])
    ensures MatchHere(Lead(k) + spaces + digits + rest, k).None?
  {
    var t := Lead(k) + spaces + digits + rest;
    var n := |Lead(k)|;
    var i := n + |spaces|;
    var j := i + |digits|;
    Layout(k, spaces, digits, rest);
    SkipExact(t, n, i, IsSpace);
    SkipExact(t, i, j, IsNumberChar);
  }

  /** A lead, a whitespace run and a number followed by more text, read position by position. */
  lemma Layout(k: Kind, spaces: string, digits: string, rest: string)
    requires ValidParts(spaces, digits)
    ensures var t := Lead(k) + spaces + digits + rest;
      var n := |Lead(k)|;
      var i := n + |spaces|;
      var j := i + |digits|;
      && |t| == j + |rest| && t[..n] == Lead(k)
      && (forall m | n <= m < i :: IsSpace(t[m]))
      && (forall m | i <= m < j :: IsNumberChar(t[m]))
      && !IsSpace(t[i]) && (rest != [] ==> t[j] == rest[0])
  {
    var t := Lead(k) + spaces + digits + rest;
    var n := |Lead(k)|;
    var i := n + |spaces|;
    var j := i + |digits|;
    forall m | 0 <= m < n ensures t[m] == Lead(k)[m] {
    }
    forall m | n <= m < i ensures t[m] == spaces[m - n] && IsSpace(t[m]) {
    }
    forall m | i <= m < j ensures t[m] == digits[m - i] && IsNumberChar(t[m]) {
    }
    assert t[..n] == Lead(k);
    assert IsNumberChar(digits[0]);
  }

  /** A number, a space and then `h` in place of an occurrence. */
  function SpacedUnit(k: Kind, spaces: string, digits: string): string {
    Lead(k) + spaces + digits + [' ', 'h', Close(k)]
  }

  /**
   * Between bracket-free text, a spaced unit is no occurrence at all:
   * `search` finds nothing, so the default applies, and `sub` keeps it.
   */
  lemma SpacedUnitIgnored(x: string, spaces: string, digits: string, y: string, k: Kind)
    requires ValidParts(spaces, digits)
    requires Open(k) !in x && Open(k) !in y
    ensures Search(x + SpacedUnit(k, spaces, digits) + y, k).None?
    ensures RemoveAll(x + SpacedUnit(k, spaces, digits) + y, k) == x + SpacedUnit(k, spaces, digits) + y
  {
    var a := SpacedUnit(k, spaces, digits);
    var s := x + a + y;
    SpacedUnitInterior(k, spaces, digits);
    OpenOnlyAt(x, a, y, Open(k));
    SpacedUnitAt(x, spaces, digits, y, k);
    forall j | 0 <= j <= |s| && j != |x| ensures MatchHere(s[j..], k).None? {
      if j < |s| {
        assert s[j..][0] == s[j];
      }
      NotOpenNoMatch(s[j..], k);
    }
    RemoveAllKeepsUnmatched(s, k);
  }

  /** Inside a spaced unit, only its first character is an opening bracket. */
  lemma SpacedUnitInterior(k: Kind, spaces: string, digits: string)
    requires ValidParts(spaces, digits)
    ensures forall i | 1 <= i < |SpacedUnit(k, spaces, digits)| :: SpacedUnit(k, spaces, digits)[i] != Open(k)
  {
    var a := SpacedUnit(k, spaces, digits);
    var n := |Lead(k)|;
    forall i | 1 <= i < |a| ensures a[i] != Open(k) {
      if i < n {
        assert a[i] == Lead(k)[i];
      } else if i < n + |spaces| {
        assert a[i] == spaces[i - n];
      } else if i < n + |spaces| + |digits| {
        assert a[i] == digits[i - n - |spaces|];
      }
    }
  }

  /** In `x + a + y`, a character `c` absent from `x`, `y` and the tail of `a` sits only at `|x|`. */
  lemma OpenOnlyAt(x: string, a: string, y: string, c: char)
    requires c !in x && c !in y
    requires forall i | 1 <= i < |a| :: a[i] != c
    ensures forall j | 0 <= j < |x + a + y| && j != |x| :: (x + a + y)[j] != c
  {
    var s := x + a + y;
    forall j | 0 <= j < |s| && j != |x| ensures s[j] != c {
      if j < |x| {
        assert s[j] == x[j];
      } else if j < |x| + |a| {
        assert s[j] == a[j - |x|];
      } else {
        assert s[j] == y[j - |x| - |a|];
      }
    }
  }

  /** At its own position a spaced unit does not match. */
  lemma SpacedUnitAt(x: string, spaces: string, digits: string, y: string, k: Kind)
    requires ValidParts(spaces, digits)
    ensures MatchHere((x + SpacedUnit(k, spaces, digits) + y)[|x|..], k).None?
  {
    var rest := [' ', 'h', Close(k)] + y;
    assert (x + SpacedUnit(k, spaces, digits) + y)[|x|..] == Lead(k) + spaces + digits + rest;
    UnitMustFollow(k, spaces, digits, rest);
  }

  /** A text that does not begin with the opening bracket holds no occurrence at its start. */
  lemma NotOpenNoMatch(t: string, k: Kind)
    requires t == [] || t[0] != Open(k)
    ensures MatchHere(t, k).None?
  {
    if |t| >= |Lead(k)| {
      assert t[..|Lead(k)|][0] == t[0];
    }
  }

  /** A text whose second character differs from the lead's holds no occurrence at its start. */
  lemma WrongLeadNoMatch(t: string, k: Kind)
    requires |t| >= 2 && t[1] != Lead(k)[1]
    ensures MatchHere(t, k).None?
  {
    if |t| >= |Lead(k)| {
      assert t[..|Lead(k)|][1] == t[1];
    }
  }

  /** An occurrence always begins with its pattern's opening bracket. */
  lemma MatchStartsWithOpen(t: string, k: Kind)
    requires MatchHere(t, k).Some?
    ensures |t| > 0 && t[0] == Open(k)
  {
    var h := MatchHere(t, k).value;
    assert t[0] == Render(k, h.spaces, h.digits)[0];
  }

  /** A position found by a search. */
  datatype Found = Found(pos: nat, hit: Hit)

  function SearchFrom(s: string, i: nat, k: Kind): (r: Option<Found>)
    requires i <= |s|
    ensures r.Some? ==> i <= r.value.pos <= |s| && MatchHere(s[r.value.pos..], k) == Some(r.value.hit)
    ensures forall j | i <= j <= |s| && (r.None? || j < r.value.pos) :: MatchHere(s[j..], k).None?
    decreases |s| - i
  {
    match MatchHere(s[i..], k)
    case Some(h) => Some(Found(i, h))
    case None =>
      if i == |s| then None
      else
        var r := SearchFrom(s, i + 1, k);
        NoMatchBefore(s, i, k, if r.None? then |s| + 1 else r.value.pos);
        r
  }

  lemma NoMatchBefore(s: string, i: nat, k: Kind, p: nat)
    requires i < p && i < |s|
    requires MatchHere(s[i..], k).None?
    requires forall j | i + 1 <= j <= |s| && j < p :: MatchHere(s[j..], k).None?
    ensures forall j | i <= j <= |s| && j < p :: MatchHere(s[j..], k).None?
  {
  }

  /** `pattern.search(s)`: the leftmost occurrence of pattern `k` in `s`. */
  function Search(s: string, k: Kind): (r: Option<Found>)
    ensures r.Some? ==> r.value.pos <= |s| && MatchHere(s[r.value.pos..], k) == Some(r.value.hit)
    ensures forall j | 0 <= j <= |s| && (r.None? || j < r.value.pos) :: MatchHere(s[j..], k).None?
  {
    SearchFrom(s, 0, k)
  }

  /**
   * `pattern.sub("", s)`: scan left to right; at each position either delete
   * the occurrence starting there and resume after it, or keep one character.
   */
  function RemoveAll(s: string, k: Kind): (r: string)
    ensures |r| <= |s|
    ensures forall i | 0 <= i < |r| :: r[i] in s
    decreases |s|
  {
    if s == [] then []
    else
      match MatchHere(s, k)
      case Some(h) => RemoveAll(s[HitLength(k, h)..], k)
      case None => [s[0]] + RemoveAll(s[1..], k)
  }

  /** One step of `RemoveAll` where nothing starts at the front. */
  lemma RemoveAllKeepStep(s: string, k: Kind)
    requires s != [] && MatchHere(s, k).None?
    ensures RemoveAll(s, k) == [s[0]] + RemoveAll(s[1..], k)
  {
  }

  /** One step of `RemoveAll` that deletes the occurrence at the front. */
  lemma RemoveAllHitStep(s: string, k: Kind, h: Hit)
    requires MatchHere(s, k) == Some(h)
    ensures RemoveAll(s, k) == RemoveAll(s[HitLength(k, h)..], k)
  {
    MatchStartsWithOpen(s, k);
  }

  lemma {:induction false} RemoveAllShrinks(s: string, k: Kind, j: nat)
    requires j <= |s| && MatchHere(s[j..], k).Some?
    ensures |RemoveAll(s, k)| < |s|
    decreases |s|
  {
    if j == 0 {
      assert s[j..] == s;
      MatchStartsWithOpen(s, k);
    } else {
      MatchStartsWithOpen(s[j..], k);
      if MatchHere(s, k).None? {
        assert s[1..][j - 1..] == s[j..];
        RemoveAllShrinks(s[1..], k, j - 1);
      }
    }
  }

  lemma {:induction false} RemoveAllKeepsUnmatched(s: string, k: Kind)
    requires forall j | 0 <= j <= |s| :: MatchHere(s[j..], k).None?
    ensures RemoveAll(s, k) == s
    decreases |s|
  {
    if s != [] {
      assert s[0..] == s;
      forall j | 0 <= j <= |s[1..]| ensures MatchHere(s[1..][j..], k).None? {
        assert s[1..][j..] == s[j + 1..];
      }
      RemoveAllKeepsUnmatched(s[1..], k);
    }
  }

  /** `sub` changes the text exactly when `search` finds something in it. */
  lemma RemoveAllUnchangedIff(s: string, k: Kind)
    ensures RemoveAll(s, k) == s <==> Search(s, k).None?
  {
    match Search(s, k)
    case None => RemoveAllKeepsUnmatched(s, k);
    case Some(f) => RemoveAllShrinks(s, k, f.pos);
  }

  /** A prefix in which no occurrence starts is copied through unchanged. */
  lemma {:induction false} RemoveAllSkips(x: string, y: string, k: Kind)
    requires forall j | 0 <= j < |x| :: MatchHere((x + y)[j..], k).None?
    ensures RemoveAll(x + y, k) == x + RemoveAll(y, k)
    decreases |x|
  {
    if x == [] {
      assert x + y == y;
    } else {
      var s := x + y;
      assert MatchHere(s, k).None? by {
        assert s[0..] == s;
      }
      RemoveAllKeepStep(s, k);
      assert s[1..] == x[1..] + y;
      NoMatchShift(x, y, k);
      RemoveAllSkips(x[1..], y, k);
      var r := RemoveAll(y, k);
      assert RemoveAll(s, k) == [x[0]] + (x[1..] + r);
      ConsSplit(x, r);
    }
  }

  /** Text appended after an occurrence does not change it. */
  lemma MatchExtends(u: string, y: string, k: Kind, h: Hit)
    requires MatchHere(u, k) == Some(h)
    ensures MatchHere(u + y, k) == Some(h)
  {
    var r := Render(k, h.spaces, h.digits);
    assert u == r + u[|r|..];
    assert u + y == r + (u[|r|..] + y);
    MatchHereComplete(k, h.spaces, h.digits, u[|r|..] + y);
  }

  /** An occurrence cannot reach a bracket that follows its first character. */
  lemma MatchStopsAtBracket(u: string, y: string, k: Kind, h: Hit)
    requires u != [] && y != [] && (y[0] == '(' || y[0] == '[')
    requires MatchHere(u + y, k) == Some(h)
    ensures MatchHere(u, k) == Some(h)
  {
    var r := Render(k, h.spaces, h.digits);
    RenderInterior(k, h.spaces, h.digits);
    assert (u + y)[|u|] == y[0];
    assert |r| <= |u|;
    assert u == r + u[|r|..];
    MatchHereComplete(k, h.spaces, h.digits, u[|r|..]);
  }

  /**
   * An occurrence never runs across a bracket, so text that ends where a
   * bracket begins matches at its front exactly as it would alone.
   */
  lemma MatchHereBarrier(u: string, y: string, k: Kind)
    requires u != [] && y != [] && (y[0] == '(' || y[0] == '[')
    ensures MatchHere(u + y, k) == MatchHere(u, k)
  {
    match MatchHere(u + y, k)
    case Some(h) =>
      MatchStopsAtBracket(u, y, k, h);
    case None =>
      if MatchHere(u, k).Some? {
        MatchExtends(u, y, k, MatchHere(u, k).value);
      }
  }

  /** `sub` works on the two sides of a bracket independently. */
  lemma {:induction false} RemoveAllBarrier(x: string, y: string, k: Kind)
    requires y != [] && (y[0] == '(' || y[0] == '[')
    ensures RemoveAll(x + y, k) == RemoveAll(x, k) + RemoveAll(y, k)
    decreases |x|
  {
    if x == [] {
      assert x + y == y;
    } else {
      MatchHereBarrier(x, y, k);
      match MatchHere(x, k)
      case None =>
        RemoveAllBarrier(x[1..], y, k);
        KeepFront(x, y, k);
        RemoveAllKeepStep(x, k);
        ConsAssoc(x[0], RemoveAll(x[1..], k), RemoveAll(y, k));
      case Some(h) =>
        RemoveAllBarrier(x[HitLength(k, h)..], y, k);
        HitFront(x, y, k, h);
        RemoveAllHitStep(x, k, h);
    }
  }

  /** Prepending a character regroups over a concatenation. */
  lemma ConsAssoc(c: char, a: string, b: string)
    ensures [c] + (a + b) == ([c] + a) + b
  {
  }

  /** `RemoveAllKeepStep` on a concatenation, read back in terms of its parts. */
  lemma KeepFront(x: string, y: string, k: Kind)
    requires x != [] && MatchHere(x + y, k).None?
    ensures RemoveAll(x + y, k) == [x[0]] + RemoveAll(x[1..] + y, k)
  {
    RemoveAllKeepStep(x + y, k);
    assert (x + y)[0] == x[0] && (x + y)[1..] == x[1..] + y;
  }

  /** `RemoveAllHitStep` on a concatenation whose occurrence lies within its first part. */
  lemma HitFront(x: string, y: string, k: Kind, h: Hit)
    requires MatchHere(x + y, k) == Some(h) && HitLength(k, h) <= |x|
    ensures RemoveAll(x + y, k) == RemoveAll(x[HitLength(k, h)..] + y, k)
  {
    var n := HitLength(k, h);
    RemoveAllHitStep(x + y, k, h);
    assert (x + y)[n..] == x[n..] + y;
  }

  /**
   * Deleting estimates from text holding a bracketed annotation deletes them
   * on each side of it and keeps the annotation.
   */
  lemma EstimatesAroundBracket(x: string, spaces: string, digits: string, y: string, other: Kind)
    requires ValidParts(spaces, digits) && other != Estimate
    ensures var a := Render(other, spaces, digits);
      RemoveAll(x + a + y, Estimate) == RemoveAll(x, Estimate) + a + RemoveAll(y, Estimate)
  {
    var a := Render(other, spaces, digits);
    RenderInterior(other, spaces, digits);
    assert a[0] == '[';
    assert RemoveAll(a + y, Estimate) == a + RemoveAll(y, Estimate) by {
      assert '(' !in a;
      NoOpenNoMatch(a, y, Estimate);
      RemoveAllSkips(a, y, Estimate);
    }
    assert x + a + y == x + (a + y);
    RemoveAllBarrier(x, a + y, Estimate);
  }

  /** A duration pass steps over a whole spent-time annotation at the front, and vice versa. */
  lemma OtherAnnotationSkipped(spaces: string, digits: string, y: string, k: Kind, other: Kind)
    requires ValidParts(spaces, digits)
    requires (k == Duration && other == Spent) || (k == Spent && other == Duration)
    ensures RemoveAll(Render(other, spaces, digits) + y, k) == Render(other, spaces, digits) + RemoveAll(y, k)
  {
    var a := Render(other, spaces, digits);
    RenderInterior(other, spaces, digits);
    forall j | 0 <= j < |a| ensures MatchHere((a + y)[j..], k).None? {
      if j == 0 {
        assert (a + y)[j..][1] == a[1] == Lead(other)[1];
        WrongLeadNoMatch((a + y)[j..], k);
      } else {
        assert (a + y)[j..][0] == a[j];
        NotOpenNoMatch((a + y)[j..], k);
      }
    }
    RemoveAllSkips(a, y, k);
  }

  /**
   * A duration pass over text holding a spent-time annotation (or the other
   * way round) works on each side of that annotation and keeps it.
   */
  lemma BracketedAroundOther(x: string, spaces: string, digits: string, y: string, k: Kind, other: Kind)
    requires ValidParts(spaces, digits)
    requires (k == Duration && other == Spent) || (k == Spent && other == Duration)
    ensures var a := Render(other, spaces, digits);
      RemoveAll(x + a + y, k) == RemoveAll(x, k) + a + RemoveAll(y, k)
  {
    var a := Render(other, spaces, digits);
    assert (a + y)[0] == '[';
    assert x + a + y == x + (a + y);
    RemoveAllBarrier(x, a + y, k);
    OtherAnnotationSkipped(spaces, digits, y, k, other);
  }

  /** A non-empty prefix is its head followed by its tail. */
  lemma ConsSplit(x: string, r: string)
    requires x != []
    ensures [x[0]] + (x[1..] + r) == x + r
  {
  }

  /** Dropping the first character of `x` keeps its positions match-free. */
  lemma NoMatchShift(x: string, y: string, k: Kind)
    requires x != []
    requires forall j | 0 <= j < |x| :: MatchHere((x + y)[j..], k).None?
    ensures forall j | 0 <= j < |x[1..]| :: MatchHere((x[1..] + y)[j..], k).None?
  {
    forall j | 0 <= j < |x[1..]| ensures MatchHere((x[1..] + y)[j..], k).None? {
      assert (x[1..] + y)[j..] == (x + y)[j + 1..];
    }
  }

  /** No occurrence starts inside text free of the pattern's opening bracket. */
  lemma NoOpenNoMatch(x: string, y: string, k: Kind)
    requires Open(k) !in x
    ensures forall j | 0 <= j < |x| :: MatchHere((x + y)[j..], k).None?
  {
    forall j | 0 <= j < |x| ensures MatchHere((x + y)[j..], k).None? {
      assert (x + y)[j..][0] == x[j];
      NotOpenNoMatch((x + y)[j..], k);
    }
  }

  /** Text without the opening bracket holds no occurrence and survives `sub`. */
  lemma PlainText(s: string, k: Kind)
    requires Open(k) !in s
    ensures Search(s, k).None?
    ensures RemoveAll(s, k) == s
  {
    NoOpenNoMatch(s, [], k);
    assert s + [] == s;
    assert s[|s|..] == [];
    RemoveAllKeepsUnmatched(s, k);
  }

  /** Text with neither opening bracket survives both passes of the cleaning. */
  lemma PlainTwice(s: string, k: Kind)
    ensures '(' !in s && '[' !in s ==> RemoveAll(RemoveAll(s, Estimate), k) == s
  {
    if '(' !in s && '[' !in s {
      PlainText(s, Estimate);
      PlainText(s, k);
    }
  }

  /** `Search` reports a position when nothing matches before it and something matches at it. */
  lemma SearchFinds(s: string, k: Kind, p: nat, h: Hit)
    requires p <= |s| && MatchHere(s[p..], k) == Some(h)
    requires forall j | 0 <= j < p :: MatchHere(s[j..], k).None?
    ensures Search(s, k) == Some(Found(p, h))
  {
  }

  lemma EmptyConcat(a: string)
    ensures [] + a == a && a + [] == a
  {
  }

  lemma Assoc(x: string, a: string, y: string)
    ensures x + a + y == x + (a + y)
    ensures (x + (a + y))[|x|..] == a + y
    ensures (a + y)[|a|..] == y
  {
  }

  /**
   * With a single occurrence between bracket-free text, `search` reports that
   * occurrence and `sub` deletes exactly it.
   */
  lemma SingleOccurrence(x: string, spaces: string, digits: string, y: string, k: Kind)
    requires ValidParts(spaces, digits)
    requires Open(k) !in x && Open(k) !in y
    ensures Search(x + Render(k, spaces, digits) + y, k) == Some(Found(|x|, Hit(spaces, digits)))
    ensures RemoveAll(x + Render(k, spaces, digits) + y, k) == x + y
  {
    var a := Render(k, spaces, digits);
    Assoc(x, a, y);
    NoOpenNoMatch(x, a + y, k);
    MatchHereComplete(k, spaces, digits, y);
    SearchFinds(x + (a + y), k, |x|, Hit(spaces, digits));
    RemoveAllSkips(x, a + y, k);
    RemoveAllHitStep(a + y, k, Hit(spaces, digits));
    PlainText(y, k);
  }

  /** Inside an occurrence, only its first character is an opening bracket. */
  lemma RenderInterior(k: Kind, spaces: string, digits: string)
    requires ValidParts(spaces, digits)
    ensures forall i | 1 <= i < |Render(k, spaces, digits)| ::
      Render(k, spaces, digits)[i] != '(' && Render(k, spaces, digits)[i] != '['
  {
    var r := Render(k, spaces, digits);
    var n := |Lead(k)|;
    forall i | 1 <= i < |r| ensures r[i] != '(' && r[i] != '[' {
      if i < n {
        assert r[i] == Lead(k)[i];
      } else if i < n + |spaces| {
        assert r[i] == spaces[i - n];
      } else if i < n + |spaces| + |digits| {
        assert r[i] == digits[i - n - |spaces|];
      }
    }
  }

  /**
   * Deleting the finished-task duration never touches a spent-time
   * annotation, and deleting the spent time never touches a duration: the
   * two bracketed patterns differ in their second character.
   */
  lemma OtherBracketKept(x: string, spaces: string, digits: string, y: string, k: Kind, other: Kind)
    requires ValidParts(spaces, digits)
    requires (k == Duration && other == Spent) || (k == Spent && other == Duration)
    requires '[' !in x && '[' !in y
    ensures Search(x + Render(other, spaces, digits) + y, k).None?
    ensures RemoveAll(x + Render(other, spaces, digits) + y, k) == x + Render(other, spaces, digits) + y
  {
    var a := Render(other, spaces, digits);
    var s := x + a + y;
    RenderInterior(other, spaces, digits);
    forall j | 0 <= j <= |s| ensures MatchHere(s[j..], k).None? {
      if j == |x| {
        assert s[j..][1] == a[1] == Lead(other)[1];
        WrongLeadNoMatch(s[j..], k);
      } else {
        if j < |x| {
          assert s[j..][0] == x[j];
        } else if j < |x| + |a| {
          assert s[j..][0] == a[j - |x|];
        } else if j < |s| {
          assert s[j..][0] == y[j - |x| - |a|];
        }
        NotOpenNoMatch(s[j..], k);
      }
    }
    RemoveAllKeepsUnmatched(s, k);
  }

  /**
   * `sub` makes a single pass, so deleting an occurrence can join the text
   * around it into a new one: on `"((预计 1h)预计 1h)"` one pass leaves
   * `"(预计 1h)"`, which a second pass deletes.
   */
  lemma SinglePassNotIdempotent(spaces: string, digits: string)
    requires ValidParts(spaces, digits)
    ensures var a := Render(Estimate, spaces, digits);
      && RemoveAll("(" + a + a[1..], Estimate) == a
      && RemoveAll(a, Estimate) == []
  {
    var a := Render(Estimate, spaces, digits);
    var rest := a[1..];
    var s := "(" + (a + rest);
    assert s[1] == a[0] == '(';
    WrongLeadNoMatch(s, Estimate);
    RemoveAllKeepStep(s, Estimate);
    assert s[1..] == a + rest;
    RenderInterior(Estimate, spaces, digits);
    assert Open(Estimate) !in rest;
    SingleOccurrence([], spaces, digits, rest, Estimate);
    EmptyConcat(a + rest);
    EmptyConcat(rest);
    Assoc([], a, rest);
    assert s[0] == a[0];
    ConsSplit(a, []);
    EmptyConcat(a[1..]);
    EmptyConcat(a);
    SingleOccurrence([], spaces, digits, [], Estimate);
    Assoc([], a, []);
    Assoc("(", a, rest);
  }


}
