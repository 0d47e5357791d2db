/**
 * A worked day: one finished task with both annotations and one open task
 * with only an estimate, carried through parsing and aggregation.
 */
module Scenarios {
  import opened Wrappers
  import opened Numbers
  import opened Annotations
  import opened Journal
  import opened TaskLines
  import opened Metrics
  import opened Phases

  lemma Digit(n: nat)
    requires n < 10
    ensures NatToDigits(n) == [DigitChar(n)]
    ensures GoodHit(Some(Hit(" ", [DigitChar(n)])))
    ensures HoursOr(Some(Hit(" ", [DigitChar(n)])), 0.0) == n as real
  {
    WholeHoursRoundTrip(n);
    var s := [DigitChar(n)];
    assert IsDigit(s[0]);
  }

  /** The two records a finished and an open example line parse to. */
  lemma ExampleRecords(d1: string, d2: string)
    requires PlainDescription(d1) && PlainDescription(d2)
    ensures ParseLine(TaskLine(Done, d1, Some(Hit(" ", "3")), Some(Hit(" ", "4"))))
      == Success(Some(DoneTask(d1, 3.0, 4.0)))
    ensures ParseLine(TaskLine(Todo, d2, Some(Hit(" ", "2")), None))
      == Success(Some(TodoTask(d2, 2.0, 0.0)))
  {
    Digit(2);
    Digit(3);
    Digit(4);
    assert [DigitChar(2)] == "2" && [DigitChar(3)] == "3" && [DigitChar(4)] == "4";
    TaskLineRoundTrip(Done, d1, Some(Hit(" ", "3")), Some(Hit(" ", "4")));
    TaskLineRoundTrip(Todo, d2, Some(Hit(" ", "2")), None);
  }

  lemma PairOf<T>(s: seq<T>, a: T, b: T)
    requires |s| == 2 && s[0] == a && s[1] == b
    ensures s == [a, b]
  {
  }

  lemma TwoResults(parsed: seq<LineResult>, t1: Task, t2: Task)
    requires parsed == [Success(Some(t1)), Success(Some(t2))] && t1.DoneTask? && t2.TodoTask?
    ensures Collect(parsed) == Success(Journal([t1], [t2]))
  {
    assert AllParse(parsed);
    RecordsSnoc(parsed);
    assert parsed[..1] == [Success(Some(t1))];
    RecordsSnoc(parsed[..1]);
    assert parsed[..1][..0] == [];
    assert Records(parsed) == [t1, t2];
    assert [t1] + [t2] == [t1, t2];
    KeepSnoc([t1], t2);
    KeepSnoc([], t1);
    assert [] + [t1] == [t1];
    assert Keep([], Done) == [] && Keep([], Todo) == [];
    assert Keep([t1], Done) == [t1];
    assert Keep([t1], Todo) == [];
    assert Keep([t1, t2], Done) == [t1];
    assert Keep([t1, t2], Todo) == [t2];
  }

  /** A finished line followed by an open one: one record in each list. */
  lemma TwoLines(l1: string, l2: string, t1: Task, t2: Task)
    requires ParseLine(l1) == Success(Some(t1)) && t1.DoneTask?
    requires ParseLine(l2) == Success(Some(t2)) && t2.TodoTask?
    ensures ParseTasksForDate(Some([l1, l2])) == Success(Journal([t1], [t2]))
  {
    var lines := [l1, l2];
    var parsed := ParseEach(lines);
    assert parsed[0] == ParseLine(lines[0]);
    assert parsed[1] == ParseLine(lines[1]);
    PairOf(parsed, Success(Some(t1)), Success(Some(t2)));
    TwoResults(parsed, t1, t2);
  }

  /** The aggregates over one finished and one open record. */
  lemma TwoRecordsMetrics(t1: Task, t2: Task)
    requires t1.DoneTask? && t2.TodoTask?
    ensures TotalEst(Journal([t1], [t2])) == t1.est + t2.est
    ensures TotalSpent(Journal([t1], [t2])) == t1.dur + t2.spent
    ensures TaskRate(1, 1) == 0.5
  {
    assert [t1] + [t2] == [t1, t2];
    assert [t1, t2][..1] == [t1];
    assert [t1][..0] == [];
    assert SumEst([t1]) == t1.est;
    assert SumActual([t1]) == t1.dur;
    assert SumActual([t2]) == t2.spent;
  }

  /**
   * The report on a journal holding a finished task estimated at 3 hours that
   * took 4, and an open task estimated at 2: one record in each list, 5 hours
   * estimated, 4 spent, efficiency 0.8, half the tasks finished, and the
   * phase of the day.
   */
  lemma WorkedDay(d1: string, d2: string, today: int)
    requires PlainDescription(d1) && PlainDescription(d2)
    ensures var lines := [TaskLine(Done, d1, Some(Hit(" ", "3")), Some(Hit(" ", "4"))),
                          TaskLine(Todo, d2, Some(Hit(" ", "2")), None)];
      var r := DailyReport(PHASES, Some(lines), today);
      && r.Success?
      && r.value.done == [DoneTask(d1, 3.0, 4.0)] && r.value.todo == [TodoTask(d2, 2.0, 0.0)]
      && r.value.totalEst == 5.0 && r.value.totalSpent == 4.0
      && r.value.efficiency == 0.8 && r.value.taskRate == 0.5
      && (r.value.phaseCode, r.value.phaseDesc) == CurrentPhase(PHASES, today)
  {
    var t1 := DoneTask(d1, 3.0, 4.0);
    var t2 := TodoTask(d2, 2.0, 0.0);
    var lines := [TaskLine(Done, d1, Some(Hit(" ", "3")), Some(Hit(" ", "4"))),
                  TaskLine(Todo, d2, Some(Hit(" ", "2")), None)];
    ExampleRecords(d1, d2);
    TwoLines(lines[0], lines[1], t1, t2);
    TwoRecordsMetrics(t1, t2);
    ReportKnowsPhase(Some(lines), today);
    assert SumEst([t1]) + SumEst([t2]) == 5.0 by { SumAppend([t1], [t2]); }
    assert SumActual([t1]) + SumActual([t2]) == 4.0 by { SumAppend([t1], [t2]); }
  }

  /** An example open-task line, as the journal holds it, is a rendered task line. */
  lemma ExampleLines()
    ensures TaskLine(Todo, "Draft intro section", Some(Hit(" ", "2")), None)
      == "- TODO Draft intro section (预计 2h)"
  {
    assert Annotation(Estimate, Some(Hit(" ", "2"))) == " (预计 2h)";
    assert Annotation(Spent, None) == [];
    assert "- " + Marker(Todo) + " " == "- TODO ";
    assert "- TODO " + "Draft intro section" + " (预计 2h)" + [] == "- TODO Draft intro section (预计 2h)";
  }
}
