/**
 * `parse_tasks_for_date`: one day's journal lines to two ordered lists of
 * task records. Reading the file is replaced by an `Option` of its lines
 * (`None` when the file does not exist).
 */
module Journal {
  import opened Wrappers
  import opened Text
  import opened Numbers
  import opened Annotations

  datatype Status = Todo | Done

  /** A task record: a finished task with its duration, or an open one with the time spent so far. */
  datatype Task =
    | DoneTask(text: string, est: real, dur: real)
    | TodoTask(text: string, est: real, spent: real)

  /** `float()` raised `ValueError` on a captured number. */
  datatype ParseError = NotANumber(digits: string)

  /** The two lists `parse_tasks_for_date` returns. */
  datatype Journal = Journal(done: seq<Task>, todo: seq<Task>)

  function Marker(st: Status): string {
    if st == Todo then "TODO" else "DONE"
  }

  /** The annotation whose hours a record of this status carries besides its estimate. */
  function StatusKind(st: Status): Kind {
    if st == Done then Duration else Spent
  }

  /**
   * One way `^- (TODO|DONE)\s+(.*)$` can match `s`: the marker, then the
   * whitespace `s[6..j]`, then group 2 `s[j..]`, which `.` forbids to hold
   * a newline.
   */
  ghost predicate TaskSplit(s: string, st: Status, j: int) {
    && 6 < j <= |s|
    && s[..6] == "- " + Marker(st)
    && AllSpace(s[6..j])
    && '\n' !in s[j..]
  }

  /**
   * `TASK_RE.match(s)` on a stripped line: the status and group 2. The
   * greedy `\s+` makes group 2 the shortest text any split allows. A
   * stripped line does not end in a newline, so `$` can only match at its
   * very end.
   */
  function TaskMatch(s: string): (r: Option<(Status, string)>)
    requires Bare(s)
    ensures r.Some? ==> |r.value.1| < |s| && s[|s| - |r.value.1|..] == r.value.1
    ensures r.Some? ==> TaskSplit(s, r.value.0, |s| - |r.value.1|)
    ensures r.Some? ==> forall j | TaskSplit(s, r.value.0, j) :: j <= |s| - |r.value.1|
    ensures r.None? ==> forall st, j :: !TaskSplit(s, st, j)
  {
    if |s| >= 7 && (s[..6] == "- TODO" || s[..6] == "- DONE") && IsSpace(s[6]) then
      var st := if s[..6] == "- TODO" then Todo else Done;
      var j := SkipWhile(s, 6, IsSpace);
      TaskSplitBound(s, j);
      if '\n' in s[j..] then
        TaskSplitNone(s, j);
        None
      else
        Some((st, s[j..]))
    else
      None
  }

  /** No split can extend the whitespace past the first non-space character. */
  lemma TaskSplitBound(s: string, j: nat)
    requires 6 <= j <= |s| && (j == |s| || !IsSpace(s[j]))
    ensures forall st, j' | TaskSplit(s, st, j') :: j' <= j
  {
    forall st, j' | TaskSplit(s, st, j') ensures j' <= j {
      forall k | 6 <= k < j' ensures IsSpace(s[k]) {
        assert s[6..j'][k - 6] == s[k];
      }
    }
  }

  lemma TaskSplitNone(s: string, j: nat)
    requires 6 <= j <= |s| && (j == |s| || !IsSpace(s[j]))
    requires '\n' in s[j..]
    ensures forall st, j' :: !TaskSplit(s, st, j')
  {
    TaskSplitBound(s, j);
    forall j': int | 6 < j' <= j ensures '\n' in s[j'..] {
      var m :| j <= m < |s| && s[m] == '\n';
      assert s[j'..][m - j'] == '\n';
    }
  }

  /** No occurrence of pattern `k` anywhere in `txt`. */
  ghost predicate NoOccurrence(txt: string, k: Kind) {
    forall j | 0 <= j <= |txt| :: MatchHere(txt[j..], k).None?
  }

  /** `h` is the leftmost occurrence of pattern `k` in `txt`, starting at `p`. */
  ghost predicate FirstOccurrence(txt: string, k: Kind, p: int, h: Hit) {
    && 0 <= p <= |txt|
    && MatchHere(txt[p..], k) == Some(h)
    && forall j | 0 <= j < p :: MatchHere(txt[j..], k).None?
  }

  /** `Search` finds the leftmost occurrence, the only one `FirstOccurrence` admits. */
  lemma SearchFirst(txt: string, k: Kind)
    ensures Search(txt, k).None? ==> NoOccurrence(txt, k)
    ensures Search(txt, k).Some? ==>
      var f := Search(txt, k).value;
      && FirstOccurrence(txt, k, f.pos, f.hit)
      && forall p, h | FirstOccurrence(txt, k, p, h) :: p == f.pos && h == f.hit
  {
    var r := Search(txt, k);
    if r.Some? {
      var f := r.value;
      forall p, h | FirstOccurrence(txt, k, p, h) ensures p == f.pos && h == f.hit {
        if p < f.pos {
        } else if f.pos < p {
        }
      }
    }
  }

  /**
   * `float(m.group(1)) if m else default` with `m = pattern.search(txt)`:
   * the hours of the leftmost occurrence, `default` when there is none,
   * and the `ValueError` when its number is malformed.
   */
  function FirstHours(txt: string, k: Kind, default: real): (r: Result<real, ParseError>)
    ensures NoOccurrence(txt, k) ==> r == Success(default)
    ensures forall p, h | FirstOccurrence(txt, k, p, h) ::
      && (r.Success? <==> IsDecimal(h.digits))
      && (r.Success? ==> ParseHours(h.digits) == Some(r.value))
      && (r.Failure? ==> r.error == NotANumber(h.digits))
    ensures r.Success? && default >= 0.0 ==> r.value >= 0.0
    ensures r.Failure? ==> !IsDecimal(r.error.digits)
    ensures r.Failure? ==> exists p, h :: FirstOccurrence(txt, k, p, h) && r.error == NotANumber(h.digits)
  {
    SearchFirst(txt, k);
    match Search(txt, k)
    case None => Success(default)
    case Some(f) =>
      match ParseHours(f.hit.digits)
      case Some(v) => Success(v)
      case None => Failure(NotANumber(f.hit.digits))
  }

  /**
   * The record's description: every estimate removed, then every annotation
   * of the status's own kind removed, then stripped.
   */
  function CleanText(txt: string, st: Status): (r: string)
    ensures Bare(r) && |r| <= |txt|
    ensures '(' !in txt && '[' !in txt ==> r == Strip(txt)
  {
    PlainTwice(txt, StatusKind(st));
    Strip(RemoveAll(RemoveAll(txt, Estimate), StatusKind(st)))
  }

  /** Hours never negative: the patterns capture only digits and dots. */
  predicate ValidTask(t: Task) {
    && t.est >= 0.0
    && (t.DoneTask? ==> t.dur >= 0.0)
    && (t.TodoTask? ==> t.spent >= 0.0)
  }

  /** How a record relates to the status and group 2 of the line it came from. */
  ghost predicate RecordOf(st: Status, txt: string, t: Task) {
    && (t.DoneTask? <==> st == Done)
    && t.text == CleanText(txt, st)
    && FirstHours(txt, Estimate, 2.0) == Success(t.est)
    && (t.DoneTask? ==> FirstHours(txt, Duration, t.est) == Success(t.dur))
    && (t.TodoTask? ==> FirstHours(txt, Spent, 0.0) == Success(t.spent))
  }

  /** The first occurrence of pattern `k` in `txt`, if any, holds a number `float()` accepts. */
  ghost predicate GoodHours(txt: string, k: Kind) {
    forall p, h | FirstOccurrence(txt, k, p, h) :: IsDecimal(h.digits)
  }

  /** The first occurrence of pattern `k` in `txt` holds the malformed number `d`. */
  ghost predicate BadHours(txt: string, k: Kind, d: string) {
    exists p, h | FirstOccurrence(txt, k, p, h) :: h.digits == d && !IsDecimal(d)
  }

  /**
   * `d` is the malformed number whose `float()` call raises first for a
   * record of status `st`: the estimate's, or else the other annotation's.
   */
  ghost predicate FirstBadHours(st: Status, txt: string, d: string) {
    || BadHours(txt, Estimate, d)
    || (GoodHours(txt, Estimate) && BadHours(txt, StatusKind(st), d))
  }

  /** The record for a line `TASK_RE` accepted with status `st` and group 2 `txt`. */
  function ParseTask(st: Status, txt: string): (r: Result<Task, ParseError>)
    ensures r.Success? ==> RecordOf(st, txt, r.value) && ValidTask(r.value)
    ensures r.Success? <==> GoodHours(txt, Estimate) && GoodHours(txt, StatusKind(st))
    ensures r.Failure? ==> FirstBadHours(st, txt, r.error.digits)
    ensures r.Failure? ==> !IsDecimal(r.error.digits)
  {
    match FirstHours(txt, Estimate, 2.0)
    case Failure(e) => Failure(e)
    case Success(est) =>
      if st == Done then
        match FirstHours(txt, Duration, est)
        case Failure(e) => Failure(e)
        case Success(dur) => Success(DoneTask(CleanText(txt, st), est, dur))
      else
        match FirstHours(txt, Spent, 0.0)
        case Failure(e) => Failure(e)
        case Success(spent) => Success(TodoTask(CleanText(txt, st), est, spent))
  }

  /**
   * The body of the loop in `parse_tasks_for_date` for one line: no record
   * for a line `TASK_RE` rejects, else a record of the line's status.
   */
  function ParseLine(line: string): (r: Result<Option<Task>, ParseError>)
    ensures TaskMatch(Strip(line)).None? ==> r == Success(None)
    ensures TaskMatch(Strip(line)).Some? ==>
      var (st, txt) := TaskMatch(Strip(line)).value;
      && (r.Success? ==> r.value.Some? && RecordOf(st, txt, r.value.value) && ValidTask(r.value.value))
      && (r.Success? <==> GoodHours(txt, Estimate) && GoodHours(txt, StatusKind(st)))
      && (r.Failure? ==> FirstBadHours(st, txt, r.error.digits))
      && (r.Failure? ==> !IsDecimal(r.error.digits))
  {
    match TaskMatch(Strip(line))
    case None => Success(None)
    case Some((st, txt)) =>
      match ParseTask(st, txt)
      case Failure(e) => Failure(e)
      case Success(t) => Success(Some(t))
  }

  /** There is at most one leftmost occurrence. */
  lemma FirstOccurrenceUnique(txt: string, k: Kind, p: int, h: Hit, p': int, h': Hit)
    requires FirstOccurrence(txt, k, p, h) && FirstOccurrence(txt, k, p', h')
    ensures p == p' && h == h'
  {
    SearchFirst(txt, k);
    assert MatchHere(txt[p..], k).Some?;
  }

  /** A failed task passes its `ValueError` through the line that holds it. */
  lemma LineFails(line: string, st: Status, txt: string)
    requires TaskMatch(Strip(line)) == Some((st, txt)) && ParseTask(st, txt).Failure?
    ensures ParseLine(line) == Failure(ParseTask(st, txt).error)
  {
  }

  /**
   * A task line whose first estimate holds a malformed number raises the
   * `ValueError` of that number, whatever else the line holds.
   */
  lemma MalformedEstimate(line: string, st: Status, txt: string, p: int, h: Hit)
    requires TaskMatch(Strip(line)) == Some((st, txt))
    requires FirstOccurrence(txt, Estimate, p, h) && !IsDecimal(h.digits)
    ensures ParseLine(line) == Failure(NotANumber(h.digits))
  {
    assert FirstHours(txt, Estimate, 2.0) == Failure(NotANumber(h.digits));
    LineFails(line, st, txt);
  }

  /**
   * A task line with a well-formed (or no) estimate whose first duration
   * (finished) or spent (open) annotation holds a malformed number raises
   * the `ValueError` of that number.
   */
  lemma MalformedStatusHours(line: string, st: Status, txt: string, p: int, h: Hit)
    requires TaskMatch(Strip(line)) == Some((st, txt))
    requires GoodHours(txt, Estimate)
    requires FirstOccurrence(txt, StatusKind(st), p, h) && !IsDecimal(h.digits)
    ensures ParseLine(line) == Failure(NotANumber(h.digits))
  {
    var e := FirstHours(txt, Estimate, 2.0);
    assert e.Success?;
    var default := if st == Done then e.value else 0.0;
    assert FirstHours(txt, StatusKind(st), default) == Failure(NotANumber(h.digits));
    LineFails(line, st, txt);
  }

  function StatusOf(t: Task): Status {
    if t.DoneTask? then Done else Todo
  }

  /** The records of status `st` in `ts`, in their original order. */
  function Keep(ts: seq<Task>, st: Status): (r: seq<Task>)
    ensures forall i | 0 <= i < |r| :: StatusOf(r[i]) == st
    ensures forall t :: t in r <==> t in ts && StatusOf(t) == st
    decreases |ts|
  {
    if ts == [] then []
    else
      var last := ts[|ts| - 1];
      assert ts == ts[..|ts| - 1] + [last];
      Keep(ts[..|ts| - 1], st) + (if StatusOf(last) == st then [last] else [])
  }

  /** What the loop body makes of one line: a `ValueError`, no record, or one record. */
  type LineResult = Result<Option<Task>, ParseError>

  /** The loop body applied to every line, in file order. */
  function ParseEach(lines: seq<string>): (r: seq<LineResult>)
    ensures |r| == |lines|
    ensures forall i | 0 <= i < |lines| :: r[i] == ParseLine(lines[i])
  {
    seq(|lines|, i requires 0 <= i < |lines| => ParseLine(lines[i]))
  }

  /** No line raised. */
  predicate AllParse(parsed: seq<LineResult>) {
    forall i | 0 <= i < |parsed| :: parsed[i].Success?
  }

  /** Every record among the results has valid hours. */
  predicate ValidResults(parsed: seq<LineResult>) {
    forall i | 0 <= i < |parsed| :: parsed[i].Success? && parsed[i].value.Some? ==> ValidTask(parsed[i].value.value)
  }

  lemma ParseEachValid(lines: seq<string>)
    ensures ValidResults(ParseEach(lines))
  {
    var parsed := ParseEach(lines);
    forall i | 0 <= i < |parsed| && parsed[i].Success? && parsed[i].value.Some?
      ensures ValidTask(parsed[i].value.value)
    {
      assert parsed[i] == ParseLine(lines[i]);
    }
  }

  /** The records of the parsed lines in file order, both statuses in one list. */
  function Records(parsed: seq<LineResult>): (r: seq<Task>)
    requires AllParse(parsed)
    ensures ValidResults(parsed) ==> forall i | 0 <= i < |r| :: ValidTask(r[i])
    decreases |parsed|
  {
    if parsed == [] then []
    else
      var last := parsed[|parsed| - 1];
      Records(parsed[..|parsed| - 1]) + (if last.value.Some? then [last.value.value] else [])
  }

  /**
   * The loop of `parse_tasks_for_date`: stop at the first `ValueError`,
   * otherwise append each record to the list of its status.
   */
  function Collect(parsed: seq<LineResult>): (r: Result<Journal, ParseError>)
    ensures r.Success? <==> AllParse(parsed)
    ensures r.Success? ==> r.value == Journal(Keep(Records(parsed), Done), Keep(Records(parsed), Todo))
    ensures r.Failure? ==>
      exists i | 0 <= i < |parsed| :: parsed[i] == Failure(r.error) && AllParse(parsed[..i])
    decreases |parsed|
  {
    if parsed == [] then Success(Journal([], []))
    else
      var init := parsed[..|parsed| - 1];
      var last := parsed[|parsed| - 1];
      AllParseSnoc(parsed);
      match Collect(init)
      case Failure(e) =>
        ghost var i :| 0 <= i < |init| && init[i] == Failure(e) && AllParse(init[..i]);
        FailureExtends(parsed, e, i);
        Failure(e)
      case Success(j) =>
        match last
        case Failure(e) =>
          assert parsed[|parsed| - 1] == Failure(e) && AllParse(parsed[..|parsed| - 1]);
          Failure(e)
        case Success(None) =>
          RecordsSnoc(parsed);
          assert Records(init) + [] == Records(init);
          Success(j)
        case Success(Some(t)) =>
          RecordsSnoc(parsed);
          KeepSnoc(Records(init), t);
          Success(if t.DoneTask? then Journal(j.done + [t], j.todo) else Journal(j.done, j.todo + [t]))
  }

  lemma AllParseSnoc(parsed: seq<LineResult>)
    requires parsed != []
    ensures AllParse(parsed) <==> AllParse(parsed[..|parsed| - 1]) && parsed[|parsed| - 1].Success?
  {
    var init := parsed[..|parsed| - 1];
    assert forall i | 0 <= i < |init| :: init[i] == parsed[i];
  }

  lemma RecordsSnoc(parsed: seq<LineResult>)
    requires parsed != [] && AllParse(parsed)
    ensures AllParse(parsed[..|parsed| - 1])
    ensures var last := parsed[|parsed| - 1];
      Records(parsed) == Records(parsed[..|parsed| - 1]) + (if last.value.Some? then [last.value.value] else [])
  {
    AllParseSnoc(parsed);
  }

  lemma FailureExtends(parsed: seq<LineResult>, e: ParseError, i: nat)
    requires i < |parsed| - 1
    requires parsed[..|parsed| - 1][i] == Failure(e) && AllParse(parsed[..|parsed| - 1][..i])
    ensures exists i | 0 <= i < |parsed| :: parsed[i] == Failure(e) && AllParse(parsed[..i])
  {
    assert parsed[..|parsed| - 1][..i] == parsed[..i];
  }

  lemma KeepSnoc(ts: seq<Task>, t: Task)
    ensures forall st :: Keep(ts + [t], st) == Keep(ts, st) + (if StatusOf(t) == st then [t] else [])
  {
    assert (ts + [t])[..|ts|] == ts;
  }

  /** The done list holds only finished records and the todo list only open ones, all with valid hours. */
  ghost predicate WellFormed(j: Journal) {
    && (forall i | 0 <= i < |j.done| :: j.done[i].DoneTask? && ValidTask(j.done[i]))
    && (forall i | 0 <= i < |j.todo| :: j.todo[i].TodoTask? && ValidTask(j.todo[i]))
  }

  /**
   * `parse_tasks_for_date`: a missing file yields two empty lists; otherwise
   * the finished and the open records of the file, each in file order, or
   * the first `ValueError`.
   */
  function ParseTasksForDate(journal: Option<seq<string>>): (r: Result<Journal, ParseError>)
    ensures journal.None? ==> r == Success(Journal([], []))
    ensures journal.Some? ==> (r.Success? <==> AllParse(ParseEach(journal.value)))
    ensures journal.Some? && r.Success? ==>
      && r.value.done == Keep(Records(ParseEach(journal.value)), Done)
      && r.value.todo == Keep(Records(ParseEach(journal.value)), Todo)
    ensures journal.Some? && r.Failure? ==>
      exists i | 0 <= i < |journal.value| ::
        ParseEach(journal.value)[i] == Failure(r.error) && AllParse(ParseEach(journal.value)[..i])
    ensures r.Success? ==> WellFormed(r.value)
  {
    match journal
    case None => Success(Journal([], []))
    case Some(lines) =>
      var parsed := ParseEach(lines);
      ParseEachValid(lines);
      Collect(parsed)
  }

  /**
   * The first line that raises decides the outcome: the whole parse fails
   * with that line's `ValueError`.
   */
  lemma MalformedLineFails(lines: seq<string>, i: nat)
    requires i < |lines| && ParseLine(lines[i]).Failure?
    requires AllParse(ParseEach(lines[..i]))
    ensures ParseTasksForDate(Some(lines)) == Failure(ParseLine(lines[i]).error)
  {
    var parsed := ParseEach(lines);
    PrefixParses(lines, i);
    assert parsed[i] == ParseLine(lines[i]);
    CollectFirstFailure(parsed, i);
  }

  lemma PrefixParses(lines: seq<string>, i: nat)
    requires i <= |lines| && AllParse(ParseEach(lines[..i]))
    ensures AllParse(ParseEach(lines)[..i])
  {
    var parsed, before := ParseEach(lines), ParseEach(lines[..i]);
    forall j | 0 <= j < i ensures parsed[..i][j].Success? {
      assert parsed[..i][j] == ParseLine(lines[j]) == before[j];
    }
  }

  /** `Collect` stops at the first failure and reports its error. */
  lemma {:induction false} CollectFirstFailure(parsed: seq<LineResult>, i: nat)
    requires i < |parsed| && parsed[i].Failure? && AllParse(parsed[..i])
    ensures Collect(parsed) == Failure(parsed[i].error)
    decreases |parsed|
  {
    var init := parsed[..|parsed| - 1];
    if i == |parsed| - 1 {
      assert init == parsed[..i];
    } else {
      assert init[i] == parsed[i] && init[..i] == parsed[..i];
      CollectFirstFailure(init, i);
    }
  }

  /** How many lines `TASK_RE` accepts with status `st`. */
  ghost function CountMarked(lines: seq<string>, st: Status): nat
    decreases |lines|
  {
    if lines == [] then 0
    else
      var m := TaskMatch(Strip(lines[|lines| - 1]));
      CountMarked(lines[..|lines| - 1], st) + (if m.Some? && m.value.0 == st then 1 else 0)
  }

  lemma ParseEachPrefix(lines: seq<string>)
    requires lines != []
    ensures ParseEach(lines)[..|lines| - 1] == ParseEach(lines[..|lines| - 1])
    ensures ParseEach(lines)[|lines| - 1] == ParseLine(lines[|lines| - 1])
  {
  }

  /** The record a parsed line contributes carries the status `TASK_RE` read on it. */
  lemma LineStatus(line: string)
    requires ParseLine(line).Success?
    ensures var m := TaskMatch(Strip(line));
      && (ParseLine(line).value.Some? <==> m.Some?)
      && (m.Some? ==> StatusOf(ParseLine(line).value.value) == m.value.0)
  {
  }

  /**
   * Each list gets exactly one record per line `TASK_RE` accepts with that
   * list's status; every other line contributes nothing.
   */
  lemma {:induction false} RecordCount(lines: seq<string>, st: Status)
    requires AllParse(ParseEach(lines))
    ensures |Keep(Records(ParseEach(lines)), st)| == CountMarked(lines, st)
    decreases |lines|
  {
    if lines != [] {
      var parsed := ParseEach(lines);
      var init := lines[..|lines| - 1];
      ParseEachPrefix(lines);
      RecordsSnoc(parsed);
      RecordCount(init, st);
      var last := parsed[|parsed| - 1];
      LineStatus(lines[|lines| - 1]);
      if last.value.Some? {
        KeepSnoc(Records(parsed[..|parsed| - 1]), last.value.value);
      } else {
        assert Records(parsed) == Records(parsed[..|parsed| - 1]);
      }
    }
  }

  /** Records come out in file order: the records of a concatenation are the records of its parts, concatenated. */
  lemma {:induction false} RecordsAppend(a: seq<LineResult>, b: seq<LineResult>)
    requires AllParse(a + b)
    ensures AllParse(a) && AllParse(b)
    ensures Records(a + b) == Records(a) + Records(b)
    decreases |b|
  {
    assert forall i | 0 <= i < |a| :: a[i] == (a + b)[i];
    assert forall i | 0 <= i < |b| :: b[i] == (a + b)[|a| + i];
    if b == [] {
      assert a + b == a;
    } else {
      var ab := a + b;
      var b' := b[..|b| - 1];
      assert ab[..|ab| - 1] == a + b';
      RecordsSnoc(ab);
      RecordsAppend(a, b');
      RecordsSnoc(b);
      assert ab[|ab| - 1] == b[|b| - 1];
    }
  }

  lemma MarkerDistinct(a: Status, b: Status)
    requires "- " + Marker(a) == "- " + Marker(b)
    ensures a == b
  {
    assert ("- " + Marker(a))[2] == Marker(a)[0];
    assert ("- " + Marker(b))[2] == Marker(b)[0];
  }

  /**
   * `TASK_RE` accepts every marker followed by whitespace and a newline-free
   * text that starts with a non-space, and group 2 is exactly that text.
   */
  lemma TaskMatchPrefix(st: Status, w: string, body: string)
    requires w != [] && AllSpace(w)
    requires body != [] && !IsSpace(body[0]) && !IsSpace(body[|body| - 1]) && '\n' !in body
    ensures Bare("- " + Marker(st) + w + body)
    ensures TaskMatch("- " + Marker(st) + w + body) == Some((st, body))
  {
    var s := "- " + Marker(st) + w + body;
    assert s[0] == '-' && s[|s| - 1] == body[|body| - 1];
    var j := 6 + |w|;
    assert s[..6] == "- " + Marker(st);
    assert s[6..j] == w;
    assert s[j..] == body;
    assert TaskSplit(s, st, j);
    TaskSplitBound(s, j);
    var r := TaskMatch(s);
    MarkerDistinct(r.value.0, st);
  }
}
