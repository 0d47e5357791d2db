/**
 * The main flow's arithmetic over yesterday's records: total estimated and
 * spent hours, efficiency and completion rate, together with today's phase
 * and its time progress.
 */
module Metrics {
  import opened Wrappers
  import opened Journal
  import opened Phases

  /** The hours a record reports as actually worked: `dur` when done, `spent` when open. */
  function Actual(t: Task): real {
    if t.DoneTask? then t.dur else t.spent
  }

  /**
   * `sum(x['est'] for x in ts)`: 0 for no records, otherwise the first
   * record's estimate plus the sum over the rest, the order `sum` adds in.
   */
  function SumEst(ts: seq<Task>): (r: real)
    ensures ts == [] ==> r == 0.0
    ensures ts != [] ==> r == ts[0].est + SumEst(ts[1..])
    decreases |ts|
  {
    if ts == [] then 0.0
    else
      assert |ts| > 1 ==> ts[..|ts| - 1][1..] == ts[1..][..|ts| - 2];
      SumEst(ts[..|ts| - 1]) + ts[|ts| - 1].est
  }

  /**
   * `sum(x['dur'] …)` over done records, `sum(x['spent'] …)` over open ones:
   * 0 for no records, otherwise the first record's actual hours plus the sum
   * over the rest.
   */
  function SumActual(ts: seq<Task>): (r: real)
    ensures ts == [] ==> r == 0.0
    ensures ts != [] ==> r == Actual(ts[0]) + SumActual(ts[1..])
    decreases |ts|
  {
    if ts == [] then 0.0
    else
      assert |ts| > 1 ==> ts[..|ts| - 1][1..] == ts[1..][..|ts| - 2];
      SumActual(ts[..|ts| - 1]) + Actual(ts[|ts| - 1])
  }

  /** `total_est`, summed over `done_y + todo_y`: the two lists' estimates added. */
  function TotalEst(j: Journal): (r: real)
    ensures r == SumEst(j.done) + SumEst(j.todo)
  {
    SumAppend(j.done, j.todo);
    SumEst(j.done + j.todo)
  }

  /** `total_spent`, summed per list: the actual hours over every record, done ones first. */
  function TotalSpent(j: Journal): (r: real)
    ensures r == SumActual(j.done + j.todo)
  {
    SumAppend(j.done, j.todo);
    SumActual(j.done) + SumActual(j.todo)
  }

  /** `total_spent / total_est if total_est else 1.0`. */
  function Efficiency(totalEst: real, totalSpent: real): (r: real)
    ensures totalEst == 0.0 ==> r == 1.0
    ensures totalEst != 0.0 ==> r * totalEst == totalSpent
    ensures totalEst > 0.0 && totalSpent >= 0.0 ==> r >= 0.0
    ensures totalEst > 0.0 && totalSpent <= totalEst ==> r <= 1.0
  {
    if totalEst == 0.0 then 1.0 else totalSpent / totalEst
  }

  /** `len(done)/(len(done)+len(todo)) if done or todo else 0`. */
  function TaskRate(done: nat, todo: nat): (r: real)
    ensures 0.0 <= r <= 1.0
    ensures r == 0.0 <==> done == 0
    ensures r == 1.0 <==> done > 0 && todo == 0
    ensures done + todo > 0 ==> r * (done + todo) as real == done as real
  {
    if done > 0 || todo > 0 then done as real / (done + todo) as real else 0.0
  }

  /** Everything the main flow computes before it calls the language model. */
  datatype DailyMetrics = DailyMetrics(
    done: seq<Task>, todo: seq<Task>,
    totalEst: real, totalSpent: real, efficiency: real, taskRate: real,
    phaseCode: string, phaseDesc: string, timeProgress: real)

  /** Why the flow stops: a `ValueError` while parsing, or a `KeyError` on the phase code. */
  datatype ReportError = BadJournal(e: ParseError) | UnknownPhase(code: string)

  /** Results within their ranges: hours never negative, ratios within `[0, 1]`, efficiency never negative. */
  predicate InRange(m: DailyMetrics) {
    && m.totalEst >= 0.0 && m.totalSpent >= 0.0 && m.efficiency >= 0.0
    && 0.0 <= m.taskRate <= 1.0 && 0.0 <= m.timeProgress <= 1.0
  }

  /**
   * The main flow up to the language-model call: parse yesterday's journal
   * (`None` when it is missing), aggregate, and locate `today` in the
   * calendar. The report holds yesterday's two lists as parsed, the
   * estimate summed over both lists and the actual hours summed per list,
   * efficiency and completion rate as the ratios the flow divides out, and
   * today's phase with its progress. A `ValueError` while parsing comes
   * first; a `KeyError` happens only when the phase code has no window.
   */
  function DailyReport(phases: seq<Phase>, yesterday: Option<seq<string>>, today: int): (r: Result<DailyMetrics, ReportError>)
    requires |phases| > 0
    ensures var p := ParseTasksForDate(yesterday);
      var phase := CurrentPhase(phases, today);
      && (p.Failure? ==> r == Failure(BadJournal(p.error)))
      && (p.Success? && TimeProgress(phases, phase.0, today).None? ==> r == Failure(UnknownPhase(phase.0)))
      && (p.Success? && TimeProgress(phases, phase.0, today).Some? ==> r.Success?)
      && (r.Success? ==>
        var m := r.value;
        && p.Success?
        && m.done == p.value.done && m.todo == p.value.todo
        && m.totalEst == SumEst(p.value.done) + SumEst(p.value.todo)
        && m.totalSpent == SumActual(p.value.done) + SumActual(p.value.todo)
        && m.efficiency == Efficiency(m.totalEst, m.totalSpent)
        && m.taskRate == TaskRate(|m.done|, |m.todo|)
        && (m.phaseCode, m.phaseDesc) == phase
        && TimeProgress(phases, phase.0, today) == Some(m.timeProgress))
  {
    match ParseTasksForDate(yesterday)
    case Failure(e) => Failure(BadJournal(e))
    case Success(j) =>
      SumAppend(j.done, j.todo);
      var (code, desc) := CurrentPhase(phases, today);
      match TimeProgress(phases, code, today)
      case None => Failure(UnknownPhase(code))
      case Some(progress) =>
        var est := TotalEst(j);
        var spent := TotalSpent(j);
        Success(DailyMetrics(j.done, j.todo, est, spent, Efficiency(est, spent),
          TaskRate(|j.done|, |j.todo|), code, desc, progress))
  }

  /** Sums over a concatenation add up. */
  lemma {:induction false} SumAppend(a: seq<Task>, b: seq<Task>)
    ensures SumEst(a + b) == SumEst(a) + SumEst(b)
    ensures SumActual(a + b) == SumActual(a) + SumActual(b)
    decreases |b|
  {
    if b == [] {
      assert a + b == a;
    } else {
      assert (a + b)[..|a + b| - 1] == a + b[..|b| - 1];
      assert (a + b)[|a + b| - 1] == b[|b| - 1];
      SumAppend(a, b[..|b| - 1]);
    }
  }

  /** Hours of valid records sum to a non-negative total. */
  lemma {:induction false} SumsNonNegative(ts: seq<Task>)
    requires forall i | 0 <= i < |ts| :: ValidTask(ts[i])
    ensures SumEst(ts) >= 0.0 && SumActual(ts) >= 0.0
    decreases |ts|
  {
    if ts != [] {
      SumsNonNegative(ts[..|ts| - 1]);
      assert ValidTask(ts[|ts| - 1]);
    }
  }

  /** A record left at its defaults: actual equal to estimate when done, nothing spent when open. */
  predicate AtDefaults(t: Task) {
    if t.DoneTask? then t.dur == t.est else t.spent == 0.0
  }

  /** When every record is at its defaults, no more hours were spent than estimated. */
  lemma {:induction false} DefaultsWithinEstimate(ts: seq<Task>)
    requires forall i | 0 <= i < |ts| :: ValidTask(ts[i]) && AtDefaults(ts[i])
    ensures SumActual(ts) <= SumEst(ts)
    decreases |ts|
  {
    if ts != [] {
      DefaultsWithinEstimate(ts[..|ts| - 1]);
      assert ValidTask(ts[|ts| - 1]) && AtDefaults(ts[|ts| - 1]);
    }
  }

  /** With every record at its defaults, efficiency is at most 1. */
  lemma DefaultsEfficiency(j: Journal)
    requires forall i | 0 <= i < |j.done + j.todo| :: ValidTask((j.done + j.todo)[i]) && AtDefaults((j.done + j.todo)[i])
    ensures Efficiency(TotalEst(j), TotalSpent(j)) <= 1.0
  {
    var all := j.done + j.todo;
    SumAppend(j.done, j.todo);
    DefaultsWithinEstimate(all);
    SumsNonNegative(all);
  }

  /** Every quantity of the report stays in range, and it fails only on a malformed number or an unknown code. */
  lemma ReportInRange(phases: seq<Phase>, yesterday: Option<seq<string>>, today: int)
    requires |phases| > 0
    ensures var r := DailyReport(phases, yesterday, today);
      && (r.Success? ==> InRange(r.value))
      && (ParseTasksForDate(yesterday).Failure? <==> r.Failure? && r.error.BadJournal?)
  {
    var r := DailyReport(phases, yesterday, today);
    if r.Success? {
      var j := ParseTasksForDate(yesterday).value;
      SumAppend(j.done, j.todo);
      SumsNonNegative(j.done);
      SumsNonNegative(j.todo);
    }
  }

  /**
   * The ratio facts of a report: efficiency times the estimate is the time
   * spent (1.0 with nothing estimated), and the completion rate times the
   * number of records is the number finished (0 with no records).
   */
  ghost predicate Ratios(m: DailyMetrics) {
    var n := |m.done| + |m.todo|;
    && (m.totalEst == 0.0 ==> m.efficiency == 1.0)
    && (m.totalEst != 0.0 ==> m.efficiency * m.totalEst == m.totalSpent)
    && (n == 0 ==> m.taskRate == 0.0)
    && (n > 0 ==> m.taskRate * n as real == |m.done| as real)
  }

  /** Every successful report satisfies the ratio facts. */
  lemma ReportRatios(phases: seq<Phase>, yesterday: Option<seq<string>>, today: int)
    requires |phases| > 0
    ensures var r := DailyReport(phases, yesterday, today);
      r.Success? ==> Ratios(r.value)
  {
    var r := DailyReport(phases, yesterday, today);
    if r.Success? {
      RatiosOf(r.value);
    }
  }

  lemma RatiosOf(m: DailyMetrics)
    requires m.efficiency == Efficiency(m.totalEst, m.totalSpent)
    requires m.taskRate == TaskRate(|m.done|, |m.todo|)
    ensures Ratios(m)
  {
  }

  /** With the project's own calendar, the report never stops on a `KeyError`. */
  lemma ReportKnowsPhase(yesterday: Option<seq<string>>, today: int)
    ensures DailyReport(PHASES, yesterday, today).Success? <==> ParseTasksForDate(yesterday).Success?
  {
    CurrentPhaseKnown(today);
  }

  /** No journal yesterday: no hours, efficiency 1 ("no plan" counts as on plan), completion 0. */
  lemma NoJournal(today: int)
    ensures var r := DailyReport(PHASES, None, today);
      && r.Success?
      && r.value.done == [] && r.value.todo == []
      && r.value.totalEst == 0.0 && r.value.totalSpent == 0.0
      && r.value.efficiency == 1.0 && r.value.taskRate == 0.0
  {
    CurrentPhaseKnown(today);
  }
}
