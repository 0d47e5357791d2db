# Daily planning assistant: journal parsing and progress metrics

`gpt_plan.py` is a small script that helps plan a thesis schedule from a
Logseq journal. Each morning it does the following:

- reads yesterday's journal page;
- collects the `- TODO` and `- DONE` task lines, together with their hour
  annotations:
  - `(预计 Xh)` is the estimate;
  - `[耗时 Xh]` is the time a finished task took;
  - `[已耗时 Xh]` is the time already spent on an open task;
- totals the estimated and the spent hours;
- computes an efficiency and a completion rate;
- finds the current phase of a fixed five-phase calendar and how far into it
  today lies;
- asks a language model for today's plan;
- appends the plan to today's page as `- TODO` bullets.

This project models everything in that flow except the language model and
the file system. The rows under "## Model" say which of the flow's promises
each member states and proves.

Modules:

- `Wrappers` defines `Option` and `Result`.
- `Text` models Python's whitespace:
  - `str.isspace` and `\s`;
  - `str.strip`;
  - `str.splitlines` and `"\n".join`.
- `Numbers` models `float()` on what `[0-9\.]+` captures. It is partial: `.`
  or `1.2.3` give `None`, which is where Python raises `ValueError`.
- `Annotations` handles the three annotation patterns. Each is a
  deterministic scanner: `MatchHere` matches at one position, `Search` is
  `re.search`, and `RemoveAll` is the single left-to-right pass of
  `re.sub("", …)`.
- `Journal` holds the task-line parser:
  - `TaskMatch` is `TASK_RE.match` on a stripped line;
  - `ParseLine` is one iteration of the loop;
  - `ParseTasksForDate` is `parse_tasks_for_date`, taking the journal as
    `Option<seq<string>>` (`None` for a missing file).
- `TaskLines` covers task lines as a journal writes them, and what parsing
  them gives back.
- `Phases` covers the calendar:
  - proleptic-Gregorian day numbers, equal to `date.toordinal()`;
  - the `PHASES` table;
  - `get_current_phase` and `get_time_progress`.
- `Metrics` holds the aggregates of the main flow, and `DailyReport`, the
  flow up to the language-model call.
- `Plan` models the bullets `append_to_logseq` writes.
- `Scenarios` works through one day end to end.

Hours are exact `real`s and dates are `int` day numbers. `today` is a
parameter.

## Model

| member | source | states |
|---|---|---|
| Text.Strip | gpt_plan.py:50 | `line.strip()` removes exactly the leading and trailing whitespace: the result is a contiguous slice of the input with only whitespace around it, and it neither starts nor ends with whitespace |
| Text.StripSurrounded | gpt_plan.py:60 | stripping text that has whitespace on both sides gives back that text exactly, which is what `.strip()` does after the annotations are deleted |
| Text.SplitLines | gpt_plan.py:124 | `splitlines()` yields pieces that hold no line boundary, and it yields no piece at all only for empty text |
| Text.SplitAtBreak | gpt_plan.py:124 | a boundary other than the `\r` of a `\r\n` pair ends the first line: the pieces are the text before it followed by the pieces of the text after it |
| Text.SplitAtCrLf | gpt_plan.py:124 | a `\r\n` pair ends the first line as one boundary: the pieces are the text before it followed by the pieces of the text after it |
| Text.SplitLast | gpt_plan.py:124 | nonempty text without a boundary is a single piece, so no empty piece follows a final boundary |
| Text.JoinLines | gpt_plan.py:124 | `"\n".join` is empty for no lines, starts with the first line and ends with the last, and puts a `\n` right after the first line when there is more than one |
| Text.JoinSplit | gpt_plan.py:124 | for text whose only boundary is `\n` and which does not end in one, `"\n".join` of the pieces rebuilds the text |
| Text.SplitJoin | gpt_plan.py:124 | splitting the `"\n".join` of lines with no line boundary (the last one nonempty) gives back exactly those lines |
| Numbers.ParseHours | gpt_plan.py:55 | `float()` on a captured `[0-9.]+` group succeeds exactly when the group is a well-formed decimal, and its value is never negative |
| Numbers.WholeHours | gpt_plan.py:55 | a nonempty run of digits reads as the integer it denotes |
| Numbers.DottedHours | gpt_plan.py:55 | a decimal with its dot at position k reads as all of its digits with the point moved left once per digit after the dot, so `12.50` is 1250 / 100 |
| Numbers.WholeHoursRoundTrip | gpt_plan.py:55 | reading back the decimal digits of a whole number of hours gives that number |
| Numbers.TenthHoursRoundTrip | gpt_plan.py:55 | reading back `n.d` gives `n + d/10` |
| Numbers.MalformedHours | gpt_plan.py:55 | `.`, `..` and `1.2.3` match the group but are no numbers, so `float()` raises on them |
| Annotations.MatchHere | gpt_plan.py:9-11 | an occurrence found at a position is a valid whitespace run and number, and rendering it gives a prefix of the text there |
| Annotations.MatchHereComplete | gpt_plan.py:9-11 | every well-formed occurrence is recognised, with exactly its whitespace and its number |
| Annotations.UnitMustFollow | gpt_plan.py:9-11 | if the character after the number is neither a digit, a dot nor `h`, nothing matches, so `(预计 3 h)` is no estimate |
| Annotations.SpacedUnitIgnored | gpt_plan.py:54-55 | a unit written one space after its number, in text without the pattern's opening bracket elsewhere, is neither found by `search` nor removed by `sub` |
| Annotations.WrongLeadNoMatch | gpt_plan.py:9-10 | a text whose second character differs from the pattern's second character does not match there, which is how `[耗时` and `[已耗时` tell each other apart |
| Annotations.Search | gpt_plan.py:54 | `re.search` reports the leftmost occurrence, with no occurrence at any earlier position, and reports none only when no position matches |
| Annotations.SearchFinds | gpt_plan.py:54 | an occurrence with no occurrence before it is the one `search` reports |
| Annotations.RemoveAll | gpt_plan.py:60 | `sub("", …)` never lengthens the text and introduces no character: every character of the result occurs in the input |
| Annotations.RemoveAllUnchangedIff | gpt_plan.py:60 | `sub("", …)` leaves the text unchanged if and only if `search` finds nothing |
| Annotations.RemoveAllShrinks | gpt_plan.py:60 | if there is any occurrence, `sub` makes the text strictly shorter |
| Annotations.RemoveAllKeepsUnmatched | gpt_plan.py:60 | `sub` keeps a text that holds no occurrence unchanged |
| Annotations.RemoveAllSkips | gpt_plan.py:60 | `sub` copies a prefix in which no occurrence starts and continues on the rest |
| Annotations.PlainText | gpt_plan.py:54-60 | text without the pattern's opening bracket holds no occurrence and survives `sub` |
| Annotations.SingleOccurrence | gpt_plan.py:54-60 | with one occurrence amid bracket-free text, `search` reports it at its position and `sub` removes exactly it |
| Annotations.RemoveAllBarrier | gpt_plan.py:60-66 | an occurrence never spans a bracket, so `sub` on text that continues at a bracket is `sub` on the part before it joined to `sub` on the rest |
| Annotations.EstimatesAroundBracket | gpt_plan.py:60 | deleting estimates around a bracketed hours annotation deletes them on each side of it and keeps the annotation |
| Annotations.OtherAnnotationSkipped | gpt_plan.py:66 | `DUR_DONE.sub` passes over a leading `[已耗时…]` and `DUR_TODO.sub` over a leading `[耗时…]`, keeping it and deleting only in what follows |
| Annotations.BracketedAroundOther | gpt_plan.py:66 | around the other bracketed annotation, `sub` deletes on each side of it independently and keeps the annotation itself |
| Annotations.OtherBracketKept | gpt_plan.py:58-66 | the duration pattern neither finds nor deletes a spent-time annotation, and the spent-time pattern does the same to a duration |
| Annotations.SinglePassNotIdempotent | gpt_plan.py:60 | a single `sub` pass can leave a new occurrence behind: `((预计 1h)预计 1h)` becomes `(预计 1h)` |
| Journal.TaskMatch | gpt_plan.py:8 | on a stripped line, `TASK_RE` accepts exactly when a split into marker, whitespace and a newline-free group 2 exists; the greedy `\s+` makes group 2 the shortest such suffix |
| Journal.FirstHours | gpt_plan.py:54-59 | it gives the default when no occurrence exists, the value of the leftmost occurrence when its number is well formed, and otherwise the `ValueError`, which names that occurrence's number; a `ValueError` always comes from the leftmost occurrence |
| Journal.CleanText | gpt_plan.py:60 | the description is stripped, no longer than the text, and for text with no `(` or `[` it is just the stripped text |
| Journal.ParseTask | gpt_plan.py:54-67 | the record carries the line's status, the first estimate or 2.0, the first duration or the estimate (done), the first spent time or 0.0 (open), and the cleaned text; hours are never negative; a record results exactly when the first estimate and the first duration (done) or spent time (open) hold well-formed numbers or are absent, and otherwise the error names the estimate's malformed number, or the other annotation's when the estimate is well formed |
| Journal.ParseLine | gpt_plan.py:50-67 | a line `TASK_RE` rejects gives no record; an accepted line gives its record exactly when its first estimate and its status's first hour annotation are well formed or absent, and otherwise the `ValueError` of the first malformed one in evaluation order |
| Journal.MalformedEstimate | gpt_plan.py:54-55 | a task line whose first estimate holds a malformed number raises the `ValueError` of that number |
| Journal.MalformedStatusHours | gpt_plan.py:57-65 | a task line with a well-formed or absent estimate whose first duration (done) or spent time (open) is malformed raises the `ValueError` of that number |
| Journal.Keep | gpt_plan.py:57-67 | one status's records keep their order, and a record is kept exactly when it has that status |
| Journal.Collect | gpt_plan.py:49-68 | the loop succeeds exactly when every line parses, returning the done and the todo records; otherwise it returns the first line's error |
| Journal.ParseTasksForDate | gpt_plan.py:44-68 | a missing file gives two empty lists; otherwise it returns the done and the open records in file order, or the error of the first malformed line; every done record is finished, every todo record is open, and all hours are non-negative |
| Journal.MalformedLineFails | gpt_plan.py:49-68 | when every line before line i parses and line i raises, the whole parse fails with line i's `ValueError` |
| Journal.RecordCount | gpt_plan.py:49-67 | the done (todo) list has exactly one record per line `TASK_RE` accepts with `DONE` (`TODO`) |
| Journal.RecordsAppend | gpt_plan.py:49-67 | the records of two consecutive blocks of lines are the first block's records followed by the second's |
| Journal.TaskMatchPrefix | gpt_plan.py:8 | a marker, whitespace and a newline-free text that starts and ends with a non-space form a stripped line, and `TASK_RE` gives that status and that text as group 2 |
| TaskLines.TaskLineRoundTrip | gpt_plan.py:50-67 | for a description that is nonempty, has no surrounding whitespace and holds no `(`, `[` or newline, parsing a written task line gives back its description verbatim, the hours of its annotations, and the defaults where they are absent (2.0; the estimate for done; 0.0 for open) |
| TaskLines.EstimateHours | gpt_plan.py:54-60 | the estimate is the one `(预计…)` value, or 2.0 without one, and deleting it leaves a single space |
| TaskLines.ActualHours | gpt_plan.py:57-65 | the duration (spent time) is the annotation's value, or the default without one |
| TaskLines.TaskTextClean | gpt_plan.py:60-66 | deleting the annotations and stripping gives back the description |
| TaskLines.CleanKeepsOther | gpt_plan.py:60-66 | for any text before and after it, a done task's text keeps a `[已耗时…]` annotation and an open task's keeps a `[耗时…]`; the text before it and the text after it are each cleaned on their own (estimates, then the status's own annotations deleted), and the whole is then stripped; with no bracket on either side only the stripping changes anything |
| TaskLines.SpacedUnitDefaults | gpt_plan.py:54-67 | a line whose estimate is written `(预计 3 h)` parses with the default hours and keeps the annotation in its text |
| Phases.Ordinal | gpt_plan.py:33 | a date's day number lies after every day of the years before it and within its own year's 365 or 366 days of them |
| Phases.OrdinalOrder | gpt_plan.py:33 | day numbers order dates as `datetime.date` comparison does, and two dates are equal exactly when their day numbers are |
| Phases.PhaseDays | gpt_plan.py:17-28 | the table's dates are the day numbers of 2025-04-22 … 2025-08-01 |
| Phases.CalendarShape | gpt_plan.py:17-28 | the table has five phases with distinct codes; each window has more than one day; the windows are in order, disjoint and back to back |
| Phases.CurrentPhase | gpt_plan.py:30-34 | it returns the code and description of the first phase whose inclusive window holds `today`, or of the last phase if none does |
| Phases.CurrentPhaseInside | gpt_plan.py:30-34 | in an ordered table, a day inside a window selects that window's phase |
| Phases.CurrentPhaseOutside | gpt_plan.py:34 | a day in no window selects the last phase |
| Phases.WindowOf | gpt_plan.py:37 | the dict comprehension finds a window exactly when some row has the code, and the last such row wins |
| Phases.WindowOfRow | gpt_plan.py:37-38 | with distinct codes, each row's code looks up that row's window |
| Phases.Progress | gpt_plan.py:40-42 | the result is 0.0 on or before the start, 1.0 on or after the end, and otherwise the elapsed share, strictly between 0 and 1 |
| Phases.TimeProgress | gpt_plan.py:36-42 | a `KeyError` happens exactly when no row has the code; otherwise the result is the progress through the window of the last row with that code, and it lies in [0, 1] |
| Phases.EndDay | gpt_plan.py:30-42 | on a phase's inclusive end date that phase is current and its progress is 1.0 |
| Phases.PhaseEndDay | gpt_plan.py:17-42 | on each phase's end date in the project's calendar, that phase is current and its progress is 1.0 |
| Phases.CurrentPhaseKnown | gpt_plan.py:138-139 | the code `get_current_phase` returns always has a window, so `get_time_progress` never raises `KeyError` |
| Phases.ProgressMonotone | gpt_plan.py:40-42 | progress never decreases as days pass |
| Phases.ProgressMidpoint | gpt_plan.py:42 | halfway through a window the progress is 0.5 |
| Metrics.Efficiency | gpt_plan.py:136 | it is 1.0 when nothing was estimated, and otherwise spent ÷ estimated, which is never negative and at most 1 when no more was spent than estimated |
| Metrics.TaskRate | gpt_plan.py:137 | the rate lies in [0, 1]; it is 0 exactly when nothing was done and 1 exactly when something was done and nothing is open; otherwise it is done ÷ all |
| Metrics.SumEst | gpt_plan.py:132 | `sum` of the estimates is 0 for no records and otherwise the first record's estimate plus the sum over the rest |
| Metrics.SumActual | gpt_plan.py:133-134 | the sum of actual hours is 0 for no records and otherwise the first record's duration (done) or spent time (open) plus the sum over the rest |
| Metrics.TotalEst | gpt_plan.py:132 | `total_est`, the sum over `done_y + todo_y`, equals the done estimates plus the open estimates |
| Metrics.TotalSpent | gpt_plan.py:133-134 | `total_spent`, the done durations plus the open spent hours, equals the sum of actual hours over `done_y + todo_y` |
| Metrics.SumAppend | gpt_plan.py:132-134 | the sum over `done_y + todo_y` is the sum over each list added together |
| Metrics.SumsNonNegative | gpt_plan.py:132-134 | `total_est` and `total_spent` are never negative |
| Metrics.DefaultsEfficiency | gpt_plan.py:132-136 | when every record is at its defaults, efficiency is at most 1 |
| Metrics.DailyReport | gpt_plan.py:131-139 | a journal that fails to parse ends the report with that error, and a phase code without a window ends it too; a report holds yesterday's done and open records as parsed, `total_est` is the sum of every record's estimate, `total_spent` the done durations plus the open spent hours, the efficiency and completion rate are those of these totals and counts, and the phase and its progress are today's; a report is produced whenever the journal parses and today's phase code has a window |
| Metrics.ReportRatios | gpt_plan.py:136-137 | in every report the efficiency times the estimate is the time spent (1.0 when nothing was estimated), and the completion rate times the number of records is the number done (0 with no records) |
| Metrics.ReportInRange | gpt_plan.py:131-139 | every quantity of the report is within its range, and the report fails on yesterday's journal exactly when parsing it fails |
| Metrics.ReportKnowsPhase | gpt_plan.py:131-139 | with the project's calendar, the report succeeds exactly when yesterday's journal parses |
| Metrics.NoJournal | gpt_plan.py:131-137 | without a journal the totals are 0, the efficiency is 1.0 and the completion rate is 0 |
| Plan.Bullets | gpt_plan.py:124 | there is one bullet per plan line, in order, each `- TODO ` followed by the stripped line |
| Plan.PlanBullets | gpt_plan.py:124 | splitting the text `append_to_logseq` writes gives back exactly one bullet per line of the plan, in order |
| Plan.BulletsRejoin | gpt_plan.py:124 | for lines without a line boundary, splitting the `"\n".join` of their bullets gives back exactly those bullets |
| Plan.BulletReadBack | gpt_plan.py:124 | a bullet built from a line with text reads back under `TASK_RE` as an open task whose text is the stripped line; a bullet built from a blank line does not read back |
| Scenarios.WorkedDay | gpt_plan.py:131-139 | the report on a journal with one done task (3 h estimated, 4 h taken) and one open task (2 h) holds one record in each list, 5 h estimated, 4 h spent, efficiency 0.8, a completion rate of 0.5, and today's phase |
| Scenarios.ExampleLines | gpt_plan.py:8-11 | the written form of an open task with a 2-hour estimate is `- TODO Draft intro section (预计 2h)` |

## Left out

- The language-model call `gpt_next_steps` and the client (gpt_plan.py:4, 12-13, 72-110) are left out: they are a network call and free-text prompt assembly.
- File system access is left out (gpt_plan.py:46-49, 116-117, 125):
  - building the path, `exists()`, `mkdir` and the append;
  - the journal is passed in as `Option<seq<string>>`: its lines, or `None` for a missing file;
  - how Python splits a file into lines is not modelled, and a line may carry its terminator, which `strip()` removes.
- Wall-clock reads (gpt_plan.py:31, 39, 116, 118, 129) are left out:
  - `today` is a parameter;
  - the two reads in `get_current_phase` and `get_time_progress` are taken to return the same day.
- The header text with its percent and `.1f` formatting (gpt_plan.py:119-123) and `print` are left out: they are output only.
- IEEE double rounding is left out: hours and ratios are exact reals.
- `float()` accepts more forms than `[0-9\.]+` can capture (signs, exponents, `inf`, underscores). Those forms are unreachable here, so they are left out.
- Journal.TaskMatch: it takes only stripped text, which is all `TASK_RE.match` receives (gpt_plan.py:50). On unstripped text Python's `$` would also match just before a final newline; that case is not modelled.
- Phases.CurrentPhaseInside, Phases.WindowOfRow and Phases.EndDay need `Ordered`:
  - windows in order and disjoint;
  - distinct codes;
  - each window at least two days long.

  The project's table meets all three (Phases.CalendarShape). On a one-day window, `get_time_progress` returns 0.0 on its only day, because `today <= start` comes first.

Consequences of the code that a reader might not expect:

- Stripping the annotations is not idempotent: `sub` makes a single pass (Annotations.SinglePassNotIdempotent).
- A blank plan line still produces a bullet, `- TODO `, which does not read back as a task (Plan.BulletReadBack).
- A malformed number such as `1.2.3` raises `ValueError` and ends the whole parse. It does not fall back to the default (Journal.MalformedEstimate, Journal.MalformedLineFails).
- Before the first phase starts, no window holds `today`, so the last phase (`P4`) is reported (Phases.CurrentPhaseOutside).
