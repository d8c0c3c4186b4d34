# ThreatFlow Pro 3x session model

ThreatFlow Pro 3x is a desktop quiz that plays a sequence of security
incidents. For each incident the user picks one response option before a
countdown runs out. A timeout costs a fixed 10 points. At the end the
program shows the score against the best possible score, a performance
tier and the log of decisions.

This project models the non-GUI part of the `ThreatFlowPro3x` class in Dafny:

- `scenarios.dfy` (module `Scenarios`): the scenario and option records,
  the best score of a scenario, and `total_possible`. That is the sum of
  every scenario's best option score, and it does not depend on scenario order.
- `decimal.dfy` (module `Decimal`): how Python writes an int inside an
  f-string, with a parser that proves the text can be read back.
- `incident_log.dfy` (module `IncidentLog`): what one resolved incident
  adds. That is a score delta (the option's score, or -10 for a timeout) and
  one log line `Incident <n>: ...` carrying the 1-based incident number.
  The module also proves the bound linking the score to `total_possible`.
- `report.dfy` (module `Report`): the performance tier (thresholds 70 and
  40) and the transcript, which is the log joined with `"\n"`. Splitting
  the transcript on line breaks is proved to invert the join whenever the
  log is non-empty and no log line holds a line break.
- `simulator.dfy` (module `Simulator`): class `Session` with the fields of
  the original object (`score`, `current`, `total`, `logs`,
  `total_possible`, `timer_seconds`, `time_left`, `difficulty`, the shown
  scenario) and methods for `start_sim`, `load_scenario`, the countdown
  callback and `process_choice`. A ghost `history` records the outcome of
  each resolved incident. `Valid()` ties the fields to that history:
  - `logs` holds one line per outcome and `|logs| == current`;
  - `score` is the sum of the outcomes' deltas;
  - `current <= total`;
  - in a session with at least one scenario, the report is on screen
    exactly when `current == total` (a session over no scenarios sits on
    the dashboard with `current == total == 0`).

A `Screen` value (dashboard, incident, report) stands for which widgets
are up. It decides which events can arrive: difficulty buttons, option
buttons, or countdown callbacks.

`load_scenario` resets `time_left` to `timer_seconds` and then calls the
countdown at once (threatflow_pro.py:114). Because the timer is always
positive, that first step only takes one second off. So right after a
load, `time_left == timer_seconds - 1`, and the model states it that way.

A choice does not cancel the pending `countdown` callback
(threatflow_pro.py:139-147 never touches the `root.after` chain), and it is
accepted whenever the incident is on screen, including when `time_left`
already stands at 0. The model follows this: `Choose` has no condition on
the countdown. With each handler treated as one atomic step (see "## Left
out"), each presentation of an incident is resolved exactly once, and the
numbering `Simulator.Session.FinalReport` promises relies on this.

## Model

| member | source | states |
|---|---|---|
| `Simulator.TimerSeconds` | threatflow_pro.py:57-64 | the countdown is positive; 40 seconds exactly for "Beginner", 25 exactly for "Intermediate", 15 for every other level string |
| `Simulator.TimerOrder` | threatflow_pro.py:59-64 | Advanced gives less time than Intermediate, which gives less than Beginner |
| `Scenarios.BestScoreIsMax` | threatflow_pro.py:29 | the best score of a non-empty option list is at least every option's score and is the score of one of them |
| `Scenarios.TotalPossibleAppend` | threatflow_pro.py:29 | the best possible total of two scenario lists placed end to end is the sum of their totals |
| `Scenarios.TotalPossibleRemove` | threatflow_pro.py:29 | removing one scenario takes exactly its best score out of the best possible total |
| `Scenarios.TotalPossiblePermutation` | threatflow_pro.py:29 | any reordering of the scenarios (such as the shuffle at line 11) keeps every option list non-empty and leaves `total_possible` unchanged |
| `Decimal.NatToString` | threatflow_pro.py:141 | the rendering of a natural number is a non-empty run of decimal digits that starts with '0' only for zero |
| `Decimal.IntToString` | threatflow_pro.py:141 | an int renders as a non-empty string that starts with '-' exactly when the int is negative |
| `Decimal.ParseNatToString` | threatflow_pro.py:141 | parsing the rendering of a natural number gives the number back |
| `Decimal.IntRoundTrip` | threatflow_pro.py:141 | parsing the rendering of any int, negative scores included, gives the int back |
| `Decimal.NatToStringInjective` | threatflow_pro.py:129 | two different incident numbers never render to the same text |
| `IncidentLog.EntriesSnoc` | threatflow_pro.py:129-141 | resolving one more incident appends exactly its own entry to the log and leaves every earlier line as it was |
| `IncidentLog.HistorySnoc` | threatflow_pro.py:140 | resolving one more incident adds exactly its delta to the score total and keeps the earlier history as a prefix |
| `IncidentLog.EntryNumber` | threatflow_pro.py:129-141 | the log line of the incident at position i reads back as incident number i + 1, for a timeout and for a choice |
| `IncidentLog.EntryHasNoNewline` | threatflow_pro.py:129-141 | a log line holds a line break only if the chosen option's text does |
| `IncidentLog.ScoreAtMostBest` | threatflow_pro.py:29 | a run of choices with no timeout scores at most the best possible total of the scenarios it played |
| `IncidentLog.BestScoreReachedIff` | threatflow_pro.py:29 | such a run reaches the best possible total if and only if every choice is a best option of its scenario |
| `Report.Performance` | threatflow_pro.py:167 | "Excellent Analyst" iff score >= 70, "Good Analyst" iff 40 <= score < 70, "Needs Improvement" iff score < 40 |
| `Report.PerformanceMonotone` | threatflow_pro.py:167 | a higher score never gets a lower tier |
| `Scenarios.TotalPossibleSingle` | threatflow_pro.py:29 | `BestScore` and `TotalPossible`: the best possible total of a single scenario is its best option score (with `BestScoreIsMax` this pins the summand of line 29 to Python's `max`) |
| `IncidentLog.TotalDeltaAppend` | threatflow_pro.py:131-143 | `Delta` and `TotalDelta`: the score change of a run is the sum of the score changes of any two consecutive parts of it |
| `IncidentLog.TotalDeltaTimeouts` | threatflow_pro.py:129-132 | a run in which every incident times out scores exactly -10 per incident |
| `IncidentLog.EntryIndexInjective` | threatflow_pro.py:129-141 | `Entry` and `EntryBody`: the log lines of two different incidents are never the same text, whatever the outcomes |
| `Report.JoinAppend` | threatflow_pro.py:173 | `Join`: appending one log line extends the transcript by exactly a line break and that line |
| `Report.SplitJoin` | threatflow_pro.py:173 | splitting the newline-joined transcript gives back the log lines in append order, provided no line holds a line break |
| `Report.JoinSplit` | threatflow_pro.py:173 | joining the pieces of any text with line breaks gives the text back, so the transcript loses nothing |
| `Simulator.Session.constructor` | threatflow_pro.py:21-29 | a new session is on the dashboard: score 0, incident 0, empty log, timer 30, `total` is the scenario count and `total_possible` the sum of best scores |
| `Simulator.Session.StartSim` | threatflow_pro.py:57-65 | records the level, sets the timer from it, and shows incident 0 with the countdown at timer - 1; score, incident and log are unchanged |
| `Simulator.Session.LoadScenario` | threatflow_pro.py:68-72 | selects `scenarios[current]` and resets the countdown to the timer, minus the first step that runs at once |
| `Simulator.Session.Advance` | threatflow_pro.py:133-136 | after a resolution: the next incident with a fresh countdown while `current < total`, otherwise the report with the countdown left as it was |
| `Simulator.Session.Record` | threatflow_pro.py:140-143 | the bookkeeping of one resolution: score plus the delta, exactly one appended line for the incident at the pre-increment position, `current` + 1, with score and log still matching the history |
| `Simulator.Session.Resolve` | threatflow_pro.py:129-132 | one resolution adds its delta to the score, appends exactly one line tagged with the pre-increment incident number + 1, raises `current` by exactly 1 and keeps every session invariant |
| `Simulator.Session.Tick` | threatflow_pro.py:122-136 | with time left: one second off and nothing else changes; at zero: score - 10, `current` + 1, one "Timeout" line, then the next incident or the report, which keeps the countdown at 0 and the shown scenario as they were; after the report: nothing changes |
| `Simulator.Session.Choose` | threatflow_pro.py:139-147 | score + the option's score, `current` + 1, one line with the option's text and score, then the next incident or the report, which keeps the countdown and the shown scenario as they were |
| `Simulator.Session.TickAsWritten` | threatflow_pro.py:122-136 | the callback with no check for the report: at zero on the report screen it applies a second timeout and takes `current` to `total + 1` |
| `Simulator.OvershootAfterReport` | threatflow_pro.py:122-147 | a one-incident run where the option is picked while the countdown stands at 0 ends with `current == 2`, two log lines and the penalty applied |
| `Simulator.OvershootAfterTimeout` | threatflow_pro.py:114-147 | a two-incident run where the first option is picked and the second incident then times out while the first incident's countdown chain is still live ends with `current == 3` of 2, three log lines and two penalties |
| `Simulator.Session.FinalReport` | threatflow_pro.py:163-173 | the score line, the tier of the score and the joined log. There are exactly `total` lines, numbered 1..total in order, and they split back out of the transcript whenever no chosen option's text holds a line break. A run without timeouts scores at most `total_possible` and reaches it iff every choice was a best option |

## Findings

| source | as written | input that shows it | evidently intended | confidence | as-written member | corrected member |
|---|---|---|---|---|---|---|
| threatflow_pro.py:122-147 | the countdown callback is never cancelled and does not check whether the report is already up | one scenario, level "Advanced"; after 14 ticks the countdown reaches 0, and the option is picked before the next callback. The pending callback then fires on the report screen: score - 10, one more "Timeout" log line, `current` = 2 of 1 incidents, and the report is shown again. If the callback fires only after the info dialog is dismissed the line reads "Incident 2: Timeout"; if it fires inside the dialog's modal loop (line 142, before `current += 1`) it reads "Incident 1: Timeout", and `current` still ends at 2. | once the last incident is resolved, no further resolution happens and `current` stays at `total` | medium, not executed | `Simulator.OvershootAfterReport` | `Simulator.Session.Tick` |
| threatflow_pro.py:122-136 | same cause, and the more frequent trigger: a choice on an earlier incident leaves its countdown chain running beside the one the next load starts, and the spare chain fires after the last incident timed out | two scenarios, level "Advanced"; the option of incident 1 is picked, which leaves its countdown chain live beside the one incident 2's load starts (line 114). Incident 2 times out and brings up the report with `time_left == 0`, and the spare chain's next callback times out once more: score - 20 in all, a second "Timeout" line, `current` = 3 of 2. The spare callback fires less than a second after the timeout's warning dialog opens (line 130), so most likely inside it, before `current += 1` at line 132: the extra line then reads "Incident 2: Timeout", where the model, with atomic handlers, numbers it 3; `current` ends at 3 either way | once the last incident is resolved, no further resolution happens and `current` stays at `total` | medium, not executed | `Simulator.OvershootAfterTimeout` | `Simulator.Session.Tick` |

`Simulator.Session.TickAsWritten` models the callback as written. On the
report screen with time left, the source fails at the destroyed timer
label before it decrements, so nothing changes. At zero it times out once
more. The corrected `Simulator.Session.Tick` ignores callbacks once the
report is up. `Valid()` (with `current <= total`) holds after every
operation the rest of the model uses.

## Left out

- Loading `scenarios.json` (threatflow_pro.py:7-8) is file I/O. The
  scenario sequence is a constructor parameter. The constructor requires
  every option list to be non-empty, which is what `max` at line 29 needs.
- The random shuffles are left out: scenarios at line 11 and options at
  lines 100-101. The scenario order is the given sequence, and
  `TotalPossiblePermutation` shows the best total does not depend on it.
  `Choose` takes the chosen option itself, so display order plays no part.
- All widget code is left out: `create_dashboard`, `clear_screen`,
  `update_logs` (its "Simulation started." text goes to a widget, not to
  `logs`), labels, the progress bar, severity colours, the Exit button
  and the `messagebox` dialogs. An option's `explanation` and a scenario's
  `severity` only reach widgets.
- Tkinter's `root.after` scheduling is left out. Each countdown callback is
  one `Tick()` call, and the model does not track how many callback chains
  are pending. A choice does not cancel the running chain, so several
  chains can be live and the countdown can run faster than one second per
  second. The model allows any number of `Tick()` calls, but it does not
  say when they arrive.
- The `messagebox` dialogs run a nested event loop, so a callback can run
  in the middle of `process_choice` or of the timeout branch. That is
  between the log append and `current += 1`. The model treats each handler
  as one atomic step.
- `Simulator.Session.FinalReport`: promises exactly `total` lines numbered
  1..total, one per incident, and that holds only under this atomicity. In
  the source, an info dialog (threatflow_pro.py:142) left open past the
  remaining seconds lets the incident's own countdown time it out inside
  the dialog: a second line under the same incident number, -10, and a
  load of the next incident; then lines 143-145 raise `current` again and
  load the one after, which gets no line. On the last incident the same
  path leads to the overshoot under "## Findings" without a pick in the
  last second.
- The zero-scenario run is left out. `Simulator.Session.StartSim` requires
  at least one scenario, because the source would fail indexing
  `scenarios[0]`.
- Before the first load the source has no `time_left` attribute. The model
  starts it at 0, and nothing reads it before the first load.
- `Simulator.Session.TickAsWritten`: on the incident screen it states only
  the change to score and incident count. There it behaves as
  `Simulator.Session.Tick`, whose contract gives the full effect.
