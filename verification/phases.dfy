/**
 * The phase calendar and the two functions over it: `get_current_phase`
 * and `get_time_progress`. Dates are Python `date.toordinal()` day numbers,
 * so comparing dates and subtracting them is integer arithmetic; "today" is
 * a parameter instead of a clock reading.
 */
module Phases {
  import opened Wrappers

  /** A proleptic Gregorian calendar date, as `datetime.date` holds it. */
  datatype Date = Date(year: int, month: int, day: int)

  predicate IsLeap(y: int) {
    y % 4 == 0 && (y % 100 != 0 || y % 400 == 0)
  }

  function DaysInMonth(y: int, m: int): int
    requires 1 <= m <= 12
  {
    if m == 2 then (if IsLeap(y) then 29 else 28)
    else if m == 4 || m == 6 || m == 9 || m == 11 then 30
    else 31
  }

  /** The dates `datetime.date` accepts: years 1 to 9999 and a day that exists in its month. */
  predicate ValidDate(d: Date) {
    && 1 <= d.year <= 9999
    && 1 <= d.month <= 12
    && 1 <= d.day <= DaysInMonth(d.year, d.month)
  }

  /** Days in the years before `y`. */
  function DaysBeforeYear(y: int): int
    requires y >= 1
  {
    var p := y - 1;
    p * 365 + p / 4 - p / 100 + p / 400
  }

  /** Days in the months of year `y` before month `m`. */
  function DaysBeforeMonth(y: int, m: int): int
    requires 1 <= m <= 13
    decreases m
  {
    if m == 1 then 0 else DaysBeforeMonth(y, m - 1) + DaysInMonth(y, m - 1)
  }

  /**
   * `date.toordinal()`: 1 for January 1 of year 1, one more for each
   * following day. A date's number lies after every day of the years before
   * it and within its own year's length of them.
   */
  function Ordinal(d: Date): (r: int)
    requires ValidDate(d)
    ensures DaysBeforeYear(d.year) < r <= DaysBeforeYear(d.year) + DaysBeforeMonth(d.year, 13)
  {
    MonthsBefore(d.year, d.month, 13);
    DaysBeforeYear(d.year) + DaysBeforeMonth(d.year, d.month) + d.day
  }

  /** Python's comparison of two dates: by year, then month, then day. */
  predicate DateLess(a: Date, b: Date) {
    || a.year < b.year
    || (a.year == b.year && a.month < b.month)
    || (a.year == b.year && a.month == b.month && a.day < b.day)
  }

  lemma DivSteps(p: int)
    requires p >= 0
    ensures (p + 1) / 4 == p / 4 + (if (p + 1) % 4 == 0 then 1 else 0)
    ensures (p + 1) / 100 == p / 100 + (if (p + 1) % 100 == 0 then 1 else 0)
    ensures (p + 1) / 400 == p / 400 + (if (p + 1) % 400 == 0 then 1 else 0)
  {
  }

  lemma MonthsTotal(y: int)
    ensures DaysBeforeMonth(y, 13) == if IsLeap(y) then 366 else 365
  {
  }

  lemma YearLength(y: int)
    requires y >= 1
    ensures DaysBeforeYear(y + 1) == DaysBeforeYear(y) + DaysBeforeMonth(y, 13)
  {
    var p := y - 1;
    DivSteps(p);
    LeapDivisors(y);
    MonthsTotal(y);
    assert y * 365 == p * 365 + 365;
  }

  /** A multiple of 400 is one of 100, and a multiple of 100 is one of 4. */
  lemma LeapDivisors(y: int)
    ensures y % 100 == 0 ==> y % 4 == 0
    ensures y % 400 == 0 ==> y % 100 == 0
  {
    if y % 100 == 0 {
      assert y == 4 * (25 * (y / 100));
    }
    if y % 400 == 0 {
      assert y == 100 * (4 * (y / 400));
    }
  }

  lemma {:induction false} MonthsBefore(y: int, m1: int, m2: int)
    requires 1 <= m1 < m2 <= 13
    ensures DaysBeforeMonth(y, m1) + DaysInMonth(y, m1) <= DaysBeforeMonth(y, m2)
    decreases m2 - m1
  {
    if m1 + 1 < m2 {
      MonthsBefore(y, m1 + 1, m2);
    }
  }

  lemma {:induction false} YearsBefore(y1: int, y2: int)
    requires 1 <= y1 < y2
    ensures DaysBeforeYear(y1) + DaysBeforeMonth(y1, 13) <= DaysBeforeYear(y2)
    decreases y2 - y1
  {
    YearLength(y1);
    if y1 + 1 < y2 {
      YearsBefore(y1 + 1, y2);
      MonthsBefore(y1 + 1, 1, 13);
    }
  }

  /** Day numbers order dates exactly as Python compares them. */
  lemma OrdinalOrder(a: Date, b: Date)
    requires ValidDate(a) && ValidDate(b)
    ensures DateLess(a, b) <==> Ordinal(a) < Ordinal(b)
    ensures a == b <==> Ordinal(a) == Ordinal(b)
  {
    if a.year != b.year {
      var (lo, hi) := if a.year < b.year then (a, b) else (b, a);
      YearsBefore(lo.year, hi.year);
    } else if a.month != b.month {
      var (lo, hi) := if a.month < b.month then (a, b) else (b, a);
      MonthsBefore(a.year, lo.month, hi.month);
    }
  }

  /** One row of `PHASES`: a code, an inclusive window of day numbers, and a milestone. */
  datatype Phase = Phase(code: string, start: int, end: int, desc: string)

  predicate Contains(p: Phase, today: int) {
    p.start <= today <= p.end
  }

  const PHASES: seq<Phase> := [
    Phase("P0", Ordinal(Date(2025, 4, 22)), Ordinal(Date(2025, 5, 15)),
      "2D CFD: Stokes5 & focusing wave, grid convergence (<3%)"),
    Phase("P1", Ordinal(Date(2025, 5, 16)), Ordinal(Date(2025, 6, 10)),
      "2D NewWave focusing wave + draft"),
    Phase("P2", Ordinal(Date(2025, 6, 11)), Ordinal(Date(2025, 7, 1)),
      "2D wind-wave coupling, reflection (<2%)"),
    Phase("P3", Ordinal(Date(2025, 7, 2)), Ordinal(Date(2025, 7, 20)),
      "3D FOWT static blades ×2 moorings"),
    Phase("P4", Ordinal(Date(2025, 7, 21)), Ordinal(Date(2025, 8, 1)),
      "Thesis >=60 p + PPT 20 p")
  ]

  /**
   * The loop of `get_current_phase`: the first phase from `i` on whose
   * window contains `today`, or the last phase when none does.
   */
  function PhaseIndexFrom(phases: seq<Phase>, today: int, i: nat): (r: nat)
    requires i < |phases|
    ensures i <= r < |phases|
    ensures forall j | i <= j < r :: !Contains(phases[j], today)
    ensures Contains(phases[r], today) || (r == |phases| - 1 && forall j | i <= j < |phases| :: !Contains(phases[j], today))
    decreases |phases| - i
  {
    if Contains(phases[i], today) || i == |phases| - 1 then i
    else PhaseIndexFrom(phases, today, i + 1)
  }

  /**
   * `get_current_phase`: the first phase containing `today`; outside every
   * window, the last phase. `PHASES[-1]` needs a nonempty table.
   */
  function CurrentPhase(phases: seq<Phase>, today: int): (r: (string, string))
    requires |phases| > 0
    ensures exists i | 0 <= i < |phases| ::
      && r == (phases[i].code, phases[i].desc)
      && (forall j | 0 <= j < i :: !Contains(phases[j], today))
      && (Contains(phases[i], today) || (i == |phases| - 1 && forall j | 0 <= j < |phases| :: !Contains(phases[j], today)))
  {
    var i := PhaseIndexFrom(phases, today, 0);
    (phases[i].code, phases[i].desc)
  }

  /** The dict `{c: (s, e) for c, s, e, _ in PHASES}`: the last row with a code wins. */
  function WindowOf(phases: seq<Phase>, code: string): (r: Option<(int, int)>)
    ensures r.None? <==> forall i | 0 <= i < |phases| :: phases[i].code != code
    ensures r.Some? ==> exists i | 0 <= i < |phases| ::
      && phases[i].code == code && r.value == (phases[i].start, phases[i].end)
      && forall j | i < j < |phases| :: phases[j].code != code
    decreases |phases|
  {
    if phases == [] then None
    else
      var last := phases[|phases| - 1];
      if last.code == code then Some((last.start, last.end))
      else WindowOf(phases[..|phases| - 1], code)
  }

  /**
   * The arithmetic of `get_time_progress`: 0 on or before the start, 1 on or
   * after the end, else elapsed days over window days. The division is
   * reached only when `start < today < end`, so it never divides by zero.
   */
  function Progress(start: int, end: int, today: int): (r: real)
    ensures 0.0 <= r <= 1.0
    ensures today <= start ==> r == 0.0
    ensures start < today && end <= today ==> r == 1.0
    ensures start < today < end ==> 0.0 < r < 1.0 && r * (end - start) as real == (today - start) as real
  {
    if today <= start then 0.0
    else if today >= end then 1.0
    else (today - start) as real / (end - start) as real
  }

  /** `get_time_progress(code)`: `None` is the `KeyError` of a code the table lacks. */
  function TimeProgress(phases: seq<Phase>, code: string, today: int): (r: Option<real>)
    ensures r.None? <==> forall i | 0 <= i < |phases| :: phases[i].code != code
    ensures r.Some? ==> 0.0 <= r.value <= 1.0
    ensures r.Some? ==> exists i | 0 <= i < |phases| ::
      && phases[i].code == code
      && (forall j | i < j < |phases| :: phases[j].code != code)
      && r.value == Progress(phases[i].start, phases[i].end, today)
  {
    match WindowOf(phases, code)
    case None => None
    case Some((start, end)) => Some(Progress(start, end, today))
  }

  /** Windows in order, each spanning more than one day, none overlapping, and no code repeated. */
  predicate Ordered(phases: seq<Phase>) {
    && (forall i | 0 <= i < |phases| :: phases[i].start < phases[i].end)
    && (forall i, j | 0 <= i < j < |phases| :: phases[i].end < phases[j].start)
    && (forall i, j | 0 <= i < j < |phases| :: phases[i].code != phases[j].code)
  }

  /** Consecutive windows leave no day between them. */
  predicate Contiguous(phases: seq<Phase>) {
    forall i | 0 <= i < |phases| - 1 :: phases[i].end + 1 == phases[i + 1].start
  }

  lemma PhaseDays()
    ensures PHASES[0].start == 739363 && PHASES[0].end == 739386
    ensures PHASES[1].start == 739387 && PHASES[1].end == 739412
    ensures PHASES[2].start == 739413 && PHASES[2].end == 739433
    ensures PHASES[3].start == 739434 && PHASES[3].end == 739452
    ensures PHASES[4].start == 739453 && PHASES[4].end == 739464
  {
  }

  /** Back-to-back windows that each span more than a day never overlap. */
  lemma ContiguousApart(phases: seq<Phase>)
    requires Contiguous(phases)
    requires forall i | 0 <= i < |phases| :: phases[i].start < phases[i].end
    ensures forall i, j | 0 <= i < j < |phases| :: phases[i].end < phases[j].start
  {
    forall i, j | 0 <= i < j < |phases| ensures phases[i].end < phases[j].start {
      ApartFrom(phases, i, j);
    }
  }

  lemma {:induction false} ApartFrom(phases: seq<Phase>, i: nat, j: nat)
    requires Contiguous(phases)
    requires forall i | 0 <= i < |phases| :: phases[i].start < phases[i].end
    requires i < j < |phases|
    ensures phases[i].end < phases[j].start
    decreases j - i
  {
    if i + 1 < j {
      ApartFrom(phases, i + 1, j);
    }
  }

  lemma PhaseCodes()
    ensures |PHASES| == 5
    ensures forall i, j | 0 <= i < j < |PHASES| :: PHASES[i].code != PHASES[j].code
  {
    var codes := seq(5, i requires 0 <= i < 5 => PHASES[i].code);
    assert codes == ["P0", "P1", "P2", "P3", "P4"];
    forall i, j | 0 <= i < j < 5 ensures codes[i] != codes[j] {
      assert codes[i][1] != codes[j][1];
    }
  }

  lemma PhaseWindows()
    ensures |PHASES| == 5
    ensures Contiguous(PHASES)
    ensures forall i | 0 <= i < |PHASES| :: PHASES[i].start < PHASES[i].end
  {
    PhaseDays();
  }

  /** The calendar's five windows run back to back from 22 April to 1 August 2025. */
  lemma CalendarShape()
    ensures |PHASES| == 5
    ensures Ordered(PHASES) && Contiguous(PHASES)
  {
    PhaseWindows();
    ContiguousApart(PHASES);
    PhaseCodes();
  }

  /** In an ordered calendar, a day inside a window selects exactly that window's phase. */
  lemma CurrentPhaseInside(phases: seq<Phase>, i: nat, today: int)
    requires Ordered(phases) && i < |phases| && Contains(phases[i], today)
    ensures CurrentPhase(phases, today) == (phases[i].code, phases[i].desc)
  {
    assert forall j | 0 <= j < |phases| && j != i :: !Contains(phases[j], today) by {
      forall j | 0 <= j < |phases| && j != i ensures !Contains(phases[j], today) {
        if j < i {
          assert phases[j].end < phases[i].start;
        } else {
          assert phases[i].end < phases[j].start;
        }
      }
    }
  }

  /** Outside every window the last phase is reported, never an error. */
  lemma CurrentPhaseOutside(phases: seq<Phase>, today: int)
    requires |phases| > 0
    requires forall j | 0 <= j < |phases| :: !Contains(phases[j], today)
    ensures CurrentPhase(phases, today) == (phases[|phases| - 1].code, phases[|phases| - 1].desc)
  {
  }

  /** With distinct codes, the dict maps each code to its own row's window. */
  lemma WindowOfRow(phases: seq<Phase>, i: nat)
    requires Ordered(phases) && i < |phases|
    ensures WindowOf(phases, phases[i].code) == Some((phases[i].start, phases[i].end))
  {
    assert forall j | 0 <= j < |phases| && j != i :: phases[j].code != phases[i].code by {
      forall j | 0 <= j < |phases| && j != i ensures phases[j].code != phases[i].code {
        if j < i {
          assert phases[j].code != phases[i].code;
        } else {
          assert phases[i].code != phases[j].code;
        }
      }
    }
  }

  /** On a phase's last day that phase is still current (inclusive end) and its time is used up. */
  lemma EndDay(phases: seq<Phase>, i: nat)
    requires Ordered(phases) && i < |phases|
    ensures CurrentPhase(phases, phases[i].end) == (phases[i].code, phases[i].desc)
    ensures TimeProgress(phases, phases[i].code, phases[i].end) == Some(1.0)
  {
    CurrentPhaseInside(phases, i, phases[i].end);
    WindowOfRow(phases, i);
  }

  /** The calendar's own end dates, P0 to P4. */
  lemma PhaseEndDay(i: nat)
    requires i < |PHASES|
    ensures CurrentPhase(PHASES, PHASES[i].end) == (PHASES[i].code, PHASES[i].desc)
    ensures TimeProgress(PHASES, PHASES[i].code, PHASES[i].end) == Some(1.0)
  {
    CalendarShape();
    EndDay(PHASES, i);
  }

  /** The current phase always has a window, so `get_time_progress` never raises `KeyError`. */
  lemma CurrentPhaseKnown(today: int)
    ensures TimeProgress(PHASES, CurrentPhase(PHASES, today).0, today).Some?
  {
    CalendarShape();
  }

  lemma DivideMonotone(a: real, b: real, w: real)
    requires a <= b && w > 0.0
    ensures a / w <= b / w
  {
  }

  lemma Half(h: real)
    requires h > 0.0
    ensures h / (2.0 * h) == 0.5
  {
  }

  /** Time progress never goes backwards as the days pass. */
  lemma ProgressMonotone(start: int, end: int, t1: int, t2: int)
    requires t1 <= t2
    ensures Progress(start, end, t1) <= Progress(start, end, t2)
  {
    if start < t1 && t2 < end {
      DivideMonotone((t1 - start) as real, (t2 - start) as real, (end - start) as real);
    }
  }

  /** Halfway through a window, half the time has gone. */
  lemma ProgressMidpoint(start: int, half: int)
    requires half > 0
    ensures Progress(start, start + 2 * half, start + half) == 0.5
  {
    Half(half as real);
    assert (start + 2 * half - start) as real == 2.0 * half as real;
    assert (start + half - start) as real == half as real;
  }
}
