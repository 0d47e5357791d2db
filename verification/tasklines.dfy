/**
 * Task lines as a journal writes them: a marker, a description, an optional
 * estimate and an optional actual-hours annotation. Parsing such a line gives
 * back the description and the hours, with the defaults of
 * `parse_tasks_for_date` where an annotation is absent.
 */
module TaskLines {
  import opened Wrappers
  import opened Text
  import opened Numbers
  import opened Annotations
  import opened Journal

  /** An optional annotation, preceded by one space when present. */
  function Annotation(k: Kind, h: Option<Hit>): string {
    if h.None? then [] else " " + Render(k, h.value.spaces, h.value.digits)
  }

  /** An annotation `float()` accepts, on a single line. */
  ghost predicate GoodHit(h: Option<Hit>) {
    h.Some? ==>
      && ValidParts(h.value.spaces, h.value.digits)
      && IsDecimal(h.value.digits)
      && '\n' !in h.value.spaces
  }

  /** The hours an annotation states, or `default` without one. */
  function HoursOr(h: Option<Hit>, default: real): real
    requires GoodHit(h)
  {
    if h.None? then default else ParseHours(h.value.digits).value
  }

  /** A description the parser keeps verbatim: no surrounding space, no newline, no bracket. */
  predicate PlainDescription(d: string) {
    && d != [] && Bare(d)
    && '\n' !in d && '(' !in d && '[' !in d
  }

  function TaskLine(st: Status, d: string, est: Option<Hit>, act: Option<Hit>): string {
    "- " + Marker(st) + " " + d + Annotation(Estimate, est) + Annotation(StatusKind(st), act)
  }

  /** The record a task line describes. */
  function Intended(st: Status, d: string, est: Option<Hit>, act: Option<Hit>): Task
    requires GoodHit(est) && GoodHit(act)
  {
    var e := HoursOr(est, 2.0);
    if st == Done then DoneTask(d, e, HoursOr(act, e)) else TodoTask(d, e, HoursOr(act, 0.0))
  }

  lemma RenderEnds(k: Kind, spaces: string, digits: string)
    ensures |Render(k, spaces, digits)| >= 2
    ensures Render(k, spaces, digits)[0] == Open(k)
    ensures Render(k, spaces, digits)[|Render(k, spaces, digits)| - 1] == Close(k)
  {
  }

  /** What an annotation never contains. */
  lemma AnnotationChars(k: Kind, h: Option<Hit>)
    requires GoodHit(h)
    ensures '\n' !in Annotation(k, h)
    ensures k != Estimate ==> '(' !in Annotation(k, h)
    ensures k == Estimate ==> '[' !in Annotation(k, h)
  {
    if h.Some? {
      var (spaces, digits) := (h.value.spaces, h.value.digits);
      var r := Render(k, spaces, digits);
      RenderInterior(k, spaces, digits);
      var n := |Lead(k)|;
      forall i | 0 <= i < |r| ensures r[i] != '\n' {
        if i < n {
          assert r[i] == Lead(k)[i];
        } else if i < n + |spaces| {
          assert r[i] == spaces[i - n];
        } else if i < n + |spaces| + |digits| {
          assert r[i] == digits[i - n - |spaces|];
          assert IsNumberChar(digits[i - n - |spaces|]);
        }
      }
      assert r[0] == Open(k);
      var a := " " + r;
      forall i | 0 <= i < |a| ensures a[i] != '\n' && (k != Estimate ==> a[i] != '(') && (k == Estimate ==> a[i] != '[') {
        if i > 0 {
          assert a[i] == r[i - 1];
        }
      }
    }
  }

  /** A task line is its prefix followed by its text. */
  lemma TaskLineShape(st: Status, d: string, est: Option<Hit>, act: Option<Hit>)
    ensures TaskLine(st, d, est, act)
      == ("- " + Marker(st) + " ") + (d + Annotation(Estimate, est) + Annotation(StatusKind(st), act))
  {
  }

  lemma BareJoin(p: string, body: string)
    requires p != [] && !IsSpace(p[0])
    requires body != [] && !IsSpace(body[|body| - 1])
    ensures Bare(p + body)
  {
    assert (p + body)[0] == p[0];
    assert (p + body)[|p + body| - 1] == body[|body| - 1];
  }

  /** A task's text ends in a non-space: the closing bracket of its last annotation, else the description. */
  lemma BodyEnd(d: string, e: string, a: string, est: Option<Hit>, act: Option<Hit>, k: Kind)
    requires PlainDescription(d) && GoodHit(est) && GoodHit(act)
    requires e == Annotation(Estimate, est) && a == Annotation(k, act)
    ensures !IsSpace((d + e + a)[|d + e + a| - 1])
  {
    if act.Some? {
      var r := Render(k, act.value.spaces, act.value.digits);
      RenderEnds(k, act.value.spaces, act.value.digits);
      assert a[|a| - 1] == r[|r| - 1];
      assert (d + e + a)[|d + e + a| - 1] == a[|a| - 1];
    } else if est.Some? {
      var r := Render(Estimate, est.value.spaces, est.value.digits);
      RenderEnds(Estimate, est.value.spaces, est.value.digits);
      assert e[|e| - 1] == r[|r| - 1];
      assert d + e + a == d + e;
      assert (d + e)[|d + e| - 1] == e[|e| - 1];
    } else {
      assert d + e + a == d;
    }
  }

  /** The whole line is already stripped, and `TASK_RE` splits it after the marker's space. */
  lemma TaskLineMatch(st: Status, d: string, est: Option<Hit>, act: Option<Hit>)
    requires PlainDescription(d) && GoodHit(est) && GoodHit(act)
    ensures var body := d + Annotation(Estimate, est) + Annotation(StatusKind(st), act);
      && Strip(TaskLine(st, d, est, act)) == TaskLine(st, d, est, act)
      && TaskMatch(TaskLine(st, d, est, act)) == Some((st, body))
  {
    var e := Annotation(Estimate, est);
    var a := Annotation(StatusKind(st), act);
    var body := d + e + a;
    AnnotationChars(Estimate, est);
    AnnotationChars(StatusKind(st), act);
    assert '\n' !in d + e;
    assert '\n' !in (d + e) + a;
    assert body[0] == d[0];
    TaskMatchPrefix(st, " ", body);
    var p := "- " + Marker(st) + " ";
    assert |p| == 7 && p[0] == '-';
    BodyEnd(d, e, a, est, act, StatusKind(st));
    BareJoin(p, body);
    StripBare(p + body);
    TaskLineShape(st, d, est, act);
  }

  lemma FirstHoursFound(s: string, k: Kind, default: real, f: Found)
    requires Search(s, k) == Some(f) && IsDecimal(f.hit.digits)
    ensures FirstHours(s, k, default) == Success(ParseHours(f.hit.digits).value)
  {
  }

  lemma FirstHoursAbsent(s: string, k: Kind, default: real)
    requires Search(s, k).None?
    ensures FirstHours(s, k, default) == Success(default)
  {
  }

  /** One well-formed occurrence amid bracket-free text: its hours are read and it is deleted. */
  lemma PresentHours(x: string, k: Kind, h: Hit, y: string, default: real)
    requires ValidParts(h.spaces, h.digits) && IsDecimal(h.digits)
    requires Open(k) !in x && Open(k) !in y
    ensures var s := x + (" " + Render(k, h.spaces, h.digits)) + y;
      && FirstHours(s, k, default) == Success(ParseHours(h.digits).value)
      && RemoveAll(s, k) == x + " " + y
  {
    var r := Render(k, h.spaces, h.digits);
    assert x + (" " + r) + y == (x + " ") + r + y;
    assert Open(k) !in x + " ";
    SingleOccurrence(x + " ", h.spaces, h.digits, y, k);
    FirstHoursFound(x + " " + r + y, k, default, Found(|x + " "|, h));
  }

  /** No occurrence in bracket-free text: the default is read and nothing is deleted. */
  lemma AbsentHours(x: string, k: Kind, y: string, default: real)
    requires Open(k) !in x && Open(k) !in y
    ensures FirstHours(x + y, k, default) == Success(default)
    ensures RemoveAll(x + y, k) == x + y
  {
    assert Open(k) !in x + y;
    PlainText(x + y, k);
    FirstHoursAbsent(x + y, k, default);
  }

  /** The estimate: the one `(预计…)` occurrence, or 2 hours when there is none. */
  lemma EstimateHours(d: string, est: Option<Hit>, a: string)
    requires PlainDescription(d) && GoodHit(est) && '(' !in a
    ensures FirstHours(d + Annotation(Estimate, est) + a, Estimate, 2.0) == Success(HoursOr(est, 2.0))
    ensures RemoveAll(d + Annotation(Estimate, est) + a, Estimate) == d + Gap(est) + a
  {
    if est.Some? {
      PresentHours(d, Estimate, est.value, a, 2.0);
    } else {
      assert d + Annotation(Estimate, est) == d;
      AbsentHours(d, Estimate, a, 2.0);
    }
  }

  /** The actual hours: the one bracketed occurrence of the status's kind, or `default`. */
  lemma ActualHours(x: string, k: Kind, act: Option<Hit>, default: real)
    requires k != Estimate && GoodHit(act) && '[' !in x
    ensures FirstHours(x + Annotation(k, act), k, default) == Success(HoursOr(act, default))
    ensures RemoveAll(x + Annotation(k, act), k) == x + Gap(act)
  {
    assert x + Annotation(k, act) + [] == x + Annotation(k, act);
    if act.Some? {
      PresentHours(x, k, act.value, [], default);
      assert x + " " + [] == x + " ";
    } else {
      assert x + [] == x;
      AbsentHours(x, k, [], default);
    }
  }

  /** Stripping removes the spaces deleted annotations leave behind. */
  lemma GapsStrip(d: string, est: Option<Hit>, act: Option<Hit>)
    requires Bare(d)
    ensures Strip(d + Gap(est) + Gap(act)) == d
  {
    var w := Gap(est) + Gap(act);
    assert AllSpace(w);
    assert d + Gap(est) + Gap(act) == [] + d + w;
    StripSurrounded([], d, w);
  }

  /** The space an annotation leaves behind once deleted. */
  function Gap(h: Option<Hit>): string {
    if h.Some? then " " else []
  }

  /**
   * Parsing a rendered task line gives back its record: the description
   * verbatim, the stated hours, and the defaults (2 hours estimated; actual
   * equal to the estimate when done, 0 spent when open) where an annotation
   * is absent.
   */
  lemma TaskLineRoundTrip(st: Status, d: string, est: Option<Hit>, act: Option<Hit>)
    requires PlainDescription(d) && GoodHit(est) && GoodHit(act)
    ensures ParseLine(TaskLine(st, d, est, act)) == Success(Some(Intended(st, d, est, act)))
  {
    var e := Annotation(Estimate, est);
    var a := Annotation(StatusKind(st), act);
    var txt := d + e + a;
    TaskLineMatch(st, d, est, act);
    TaskTextHours(st, d, est, act);
    TaskTextClean(st, d, est, act);
    var ev := HoursOr(est, 2.0);
    if st == Done {
      ParseDone(txt, ev, HoursOr(act, ev));
    } else {
      ParseTodo(txt, ev, HoursOr(act, 0.0));
    }
    ParseLineVia(TaskLine(st, d, est, act), st, txt);
  }

  /** The hours read from a task's text are the ones its annotations state. */
  lemma TaskTextHours(st: Status, d: string, est: Option<Hit>, act: Option<Hit>)
    requires PlainDescription(d) && GoodHit(est) && GoodHit(act)
    ensures var txt := d + Annotation(Estimate, est) + Annotation(StatusKind(st), act);
      && FirstHours(txt, Estimate, 2.0) == Success(HoursOr(est, 2.0))
      && FirstHours(txt, StatusKind(st), HoursOr(est, 2.0)) == Success(HoursOr(act, HoursOr(est, 2.0)))
      && FirstHours(txt, StatusKind(st), 0.0) == Success(HoursOr(act, 0.0))
  {
    var e := Annotation(Estimate, est);
    var a := Annotation(StatusKind(st), act);
    AnnotationChars(Estimate, est);
    AnnotationChars(StatusKind(st), act);
    EstimateHours(d, est, a);
    assert '[' !in d + e;
    ActualHours(d + e, StatusKind(st), act, HoursOr(est, 2.0));
    ActualHours(d + e, StatusKind(st), act, 0.0);
  }

  /** Deleting both annotations and stripping leaves the description. */
  lemma TaskTextClean(st: Status, d: string, est: Option<Hit>, act: Option<Hit>)
    requires PlainDescription(d) && GoodHit(est) && GoodHit(act)
    ensures CleanText(d + Annotation(Estimate, est) + Annotation(StatusKind(st), act), st) == d
  {
    var a := Annotation(StatusKind(st), act);
    AnnotationChars(StatusKind(st), act);
    EstimateHours(d, est, a);
    assert '[' !in d + Gap(est);
    ActualHours(d + Gap(est), StatusKind(st), act, 0.0);
    GapsStrip(d, est, act);
  }

  lemma ParseDone(txt: string, e: real, v: real)
    requires FirstHours(txt, Estimate, 2.0) == Success(e)
    requires FirstHours(txt, Duration, e) == Success(v)
    ensures ParseTask(Done, txt) == Success(DoneTask(CleanText(txt, Done), e, v))
  {
  }

  lemma ParseTodo(txt: string, e: real, v: real)
    requires FirstHours(txt, Estimate, 2.0) == Success(e)
    requires FirstHours(txt, Spent, 0.0) == Success(v)
    ensures ParseTask(Todo, txt) == Success(TodoTask(CleanText(txt, Todo), e, v))
  {
  }

  lemma ParseLineVia(line: string, st: Status, txt: string)
    requires TaskMatch(Strip(line)) == Some((st, txt)) && ParseTask(st, txt).Success?
    ensures ParseLine(line) == Success(Some(ParseTask(st, txt).value))
  {
  }

  /**
   * Deleting the estimate and the status's own annotation leaves the other
   * bracketed annotation in place: a finished task's text keeps any
   * `[已耗时…]`, an open task's text keeps any `[耗时…]`. The text on either
   * side of it is cleaned on its own; when that text holds no bracket at all,
   * only stripping changes anything.
   */
  lemma CleanKeepsOther(st: Status, x: string, spaces: string, digits: string, y: string)
    requires ValidParts(spaces, digits)
    ensures var a := Render(if st == Done then Spent else Duration, spaces, digits);
      var k := StatusKind(st);
      CleanText(x + a + y, st)
        == Strip(RemoveAll(RemoveAll(x, Estimate), k) + a + RemoveAll(RemoveAll(y, Estimate), k))
    ensures var a := Render(if st == Done then Spent else Duration, spaces, digits);
      '(' !in x && '[' !in x && '(' !in y && '[' !in y ==> CleanText(x + a + y, st) == Strip(x + a + y)
  {
    var other := if st == Done then Spent else Duration;
    var k := StatusKind(st);
    EstimatesAroundBracket(x, spaces, digits, y, other);
    BracketedAroundOther(RemoveAll(x, Estimate), spaces, digits, RemoveAll(y, Estimate), k, other);
    if '(' !in x && '[' !in x && '(' !in y && '[' !in y {
      PlainText(x, Estimate);
      PlainText(y, Estimate);
      PlainText(x, k);
      PlainText(y, k);
    }
  }

  /** A spaced unit never holds a square bracket or a newline, and ends in `)`. */
  lemma SpacedUnitChars(spaces: string, digits: string)
    requires ValidParts(spaces, digits) && '\n' !in spaces
    ensures var u := SpacedUnit(Estimate, spaces, digits);
      && '[' !in u && '\n' !in u && u[|u| - 1] == ')'
  {
    var u := SpacedUnit(Estimate, spaces, digits);
    var n := |Lead(Estimate)|;
    forall i | 0 <= i < |u| ensures u[i] != '[' && u[i] != '\n' {
      if i < n {
        assert u[i] == Lead(Estimate)[i];
      } else if i < n + |spaces| {
        assert u[i] == spaces[i - n];
      } else if i < n + |spaces| + |digits| {
        assert u[i] == digits[i - n - |spaces|];
      }
    }
  }

  /** The hours and the text read from a description followed by a spaced unit. */
  lemma SpacedUnitTask(st: Status, d: string, spaces: string, digits: string)
    requires PlainDescription(d) && ValidParts(spaces, digits) && '\n' !in spaces
    ensures var txt := d + " " + SpacedUnit(Estimate, spaces, digits);
      && FirstHours(txt, Estimate, 2.0) == Success(2.0)
      && FirstHours(txt, StatusKind(st), 2.0) == Success(2.0)
      && FirstHours(txt, StatusKind(st), 0.0) == Success(0.0)
      && CleanText(txt, st) == txt
  {
    var u := SpacedUnit(Estimate, spaces, digits);
    var x := d + " ";
    var txt := x + u;
    SpacedUnitChars(spaces, digits);
    assert '(' !in d + " ";
    assert '[' !in d + " ";
    assert txt + [] == txt;
    SpacedUnitIgnored(x, spaces, digits, [], Estimate);
    FirstHoursAbsent(txt, Estimate, 2.0);
    assert x + [] == x;
    AbsentHours(x, StatusKind(st), u, 2.0);
    AbsentHours(x, StatusKind(st), u, 0.0);
    assert x[0] == d[0];
    BareJoin(x, u);
    StripBare(txt);
  }

  /**
   * A unit separated from its number, as in `(预计 3 h)`, is no estimate:
   * the line parses with the default hours and keeps the annotation in its
   * text.
   */
  lemma SpacedUnitDefaults(st: Status, d: string, spaces: string, digits: string)
    requires PlainDescription(d) && ValidParts(spaces, digits) && '\n' !in spaces
    ensures var txt := d + " " + SpacedUnit(Estimate, spaces, digits);
      ParseLine("- " + Marker(st) + " " + txt)
        == Success(Some(if st == Done then DoneTask(txt, 2.0, 2.0) else TodoTask(txt, 2.0, 0.0)))
  {
    var u := SpacedUnit(Estimate, spaces, digits);
    var txt := d + " " + u;
    var p := "- " + Marker(st) + " ";
    SpacedUnitTask(st, d, spaces, digits);
    SpacedUnitChars(spaces, digits);
    assert '\n' !in d + " ";
    assert '\n' !in (d + " ") + u;
    assert txt[0] == d[0];
    TaskMatchPrefix(st, " ", txt);
    assert var p := "- " + Marker(st) + " "; |p| == 7 && p[0] == '-';
    assert ((d + " ") + u)[|(d + " ") + u| - 1] == u[|u| - 1];
    BareJoin(p, txt);
    StripBare(p + txt);
    if st == Done {
      ParseDone(txt, 2.0, 2.0);
    } else {
      ParseTodo(txt, 2.0, 0.0);
    }
    ParseLineVia(p + txt, st, txt);
  }
}
