/**
 The session state machine of the simulator: difficulty selection, the
 per-incident countdown, the two ways an incident is resolved (a choice or a
 timeout), and the move to the next incident or to the final report.

 The screen stands for which widgets are up, and so which events can arrive:
 the difficulty buttons on the dashboard, the option buttons and the
 countdown on an incident, nothing but a possibly pending countdown callback
 on the report.
 */
module Simulator {
  import opened Scenarios
  import opened IncidentLog
  import opened Report
  import Decimal

  datatype Option<T> = None | Some(value: T)

  datatype Screen = Dashboard | IncidentScreen | ReportScreen

  /** The countdown length before a difficulty has been picked. */
  const InitialTimerSeconds: int := 30

  /** Seconds per incident for a difficulty level; any unknown level counts as advanced. */
  function TimerSeconds(level: string): (seconds: int)
    ensures seconds > 0
    ensures seconds == 40 <==> level == "Beginner"
    ensures seconds == 25 <==> level == "Intermediate"
    ensures seconds == 15 <==> level != "Beginner" && level != "Intermediate"
  {
    if level == "Beginner" then 40
    else if level == "Intermediate" then 25
    else 15
  }

  /** Harder levels leave less time. */
  lemma TimerOrder()
    ensures TimerSeconds("Advanced") < TimerSeconds("Intermediate") < TimerSeconds("Beginner")
  {
  }

  class Session {
    const scenarios: seq<Scenario>
    const total: int
    const totalPossible: int
    var difficulty: Option<string>
    var timerSeconds: int
    var score: int
    var current: int
    var logs: seq<string>
    var timeLeft: int
    var scenario: Option<Scenario>
    var screen: Screen
    /** The outcome of every resolved incident, in order. */
    ghost var history: seq<Outcome>

    /** The scores and the log agree with the history of resolved incidents. */
    ghost predicate Ledger()
      reads this`current, this`history, this`logs, this`score
    {
      Playable(scenarios) && total == |scenarios| && totalPossible == TotalPossible(scenarios) &&
      0 <= current <= total && |history| == current &&
      Consistent(scenarios, history) &&
      logs == Entries(history) && score == TotalDelta(history)
    }

    ghost predicate Valid()
      reads this
    {
      Ledger() && timerSeconds > 0 &&
      (screen == Dashboard ==> current == 0 && difficulty == None) &&
      (screen == IncidentScreen ==>
         current < total && scenario == Some(scenarios[current]) && 0 <= timeLeft < timerSeconds) &&
      (screen == ReportScreen ==> current == total)
    }

    /** A fresh session on the dashboard over the given scenario order. */
    constructor (scenarios: seq<Scenario>)
      requires Playable(scenarios)
      ensures Valid()
      ensures this.scenarios == scenarios && total == |scenarios|
      ensures totalPossible == TotalPossible(scenarios)
      ensures screen == Dashboard && difficulty == None && timerSeconds == InitialTimerSeconds
      ensures score == 0 && current == 0 && logs == [] && history == []
    {
      this.scenarios := scenarios;
      difficulty := None;
      timerSeconds := InitialTimerSeconds;
      score := 0;
      current := 0;
      total := |scenarios|;
      logs := [];
      totalPossible := TotalPossible(scenarios);
      timeLeft := 0;
      scenario := None;
      screen := Dashboard;
      history := [];
    }

    /**
     Shows the incident at `current` with a full countdown. The source runs
     the first countdown step at once, and since the timer is positive that
     step only takes one second off.
     */
    method LoadScenario()
      requires 0 <= current < total == |scenarios| && timerSeconds > 0
      modifies this`timeLeft, this`scenario, this`screen
      ensures timeLeft == timerSeconds - 1
      ensures scenario == Some(scenarios[current]) && screen == IncidentScreen
    {
      timeLeft := timerSeconds;
      scenario := Some(scenarios[current]);
      screen := IncidentScreen;
      timeLeft := timeLeft - 1;
    }

    /** After a resolution: the next incident while any is left, the report otherwise. */
    method Advance()
      requires 0 <= current <= total == |scenarios| && timerSeconds > 0
      modifies this`timeLeft, this`scenario, this`screen
      ensures current < total ==>
                screen == IncidentScreen && scenario == Some(scenarios[current]) &&
                timeLeft == timerSeconds - 1
      ensures current == total ==>
                screen == ReportScreen && scenario == old(scenario) && timeLeft == old(timeLeft)
    {
      if current < total {
        LoadScenario();
      } else {
        screen := ReportScreen;
      }
    }

    /**
     Records the outcome of the incident on screen: its score delta, its log
     line under the incident's 1-based number, and the move to the next
     incident or the report.
     */
    method Resolve(o: Outcome)
      requires Valid() && screen == IncidentScreen
      requires o.Chose? ==> o.choice in scenarios[current].options
      modifies this
      ensures Valid()
      ensures score == old(score) + Delta(o) && current == old(current) + 1
      ensures logs == old(logs) + [Entry(old(current), o)] && history == old(history) + [o]
      ensures current < total ==>
                screen == IncidentScreen && scenario == Some(scenarios[current]) &&
                timeLeft == timerSeconds - 1
      ensures current == total ==>
                screen == ReportScreen && timeLeft == old(timeLeft) && scenario == old(scenario)
      ensures timerSeconds == old(timerSeconds) && difficulty == old(difficulty)
    {
      Record(o);
      Advance();
    }

    /** The bookkeeping half of a resolution: score, log line, history and incident count. */
    method Record(o: Outcome)
      requires Ledger() && current < total
      requires o.Chose? ==> o.choice in scenarios[current].options
      modifies this`logs, this`score, this`history, this`current
      ensures Ledger()
      ensures score == old(score) + Delta(o) && current == old(current) + 1
      ensures logs == old(logs) + [Entry(old(current), o)] && history == old(history) + [o]
    {
      HistorySnoc(history, o);
      EntriesSnoc(history, o);
      ConsistentSnoc(scenarios, history, o);
      logs := logs + [Entry(current, o)];
      score := score + Delta(o);
      history := history + [o];
      current := current + 1;
    }

    /** A difficulty button: sets the countdown length and shows the first incident. */
    method StartSim(level: string)
      requires Valid() && screen == Dashboard && total >= 1
      modifies this
      ensures Valid()
      ensures difficulty == Some(level) && timerSeconds == TimerSeconds(level)
      ensures screen == IncidentScreen && scenario == Some(scenarios[0]) && timeLeft == timerSeconds - 1
      ensures score == old(score) && current == old(current) && logs == old(logs) && history == old(history)
    {
      difficulty := Some(level);
      timerSeconds := TimerSeconds(level);
      LoadScenario();
    }

    /**
     A countdown callback. While time is left it takes one second off and
     changes nothing else; at zero the incident times out: a -10 penalty, one
     log line, and the move to the next incident or the report. A callback
     that arrives once the report is up does nothing.
     */
    method Tick()
      requires Valid() && screen != Dashboard
      modifies this
      ensures Valid()
      ensures old(screen) == ReportScreen ==> unchanged(this)
      ensures old(screen) == IncidentScreen && old(timeLeft) > 0 ==>
                timeLeft == old(timeLeft) - 1 && screen == IncidentScreen &&
                score == old(score) && current == old(current) && logs == old(logs) &&
                history == old(history) && scenario == old(scenario)
      ensures old(screen) == IncidentScreen && old(timeLeft) == 0 ==>
                score == old(score) + TimeoutPenalty && current == old(current) + 1 &&
                logs == old(logs) + [Entry(old(current), TimedOut)] &&
                history == old(history) + [TimedOut] &&
                (current < total ==> screen == IncidentScreen && scenario == Some(scenarios[current]) &&
                                     timeLeft == timerSeconds - 1) &&
                (current == total ==>
                   screen == ReportScreen && timeLeft == old(timeLeft) && scenario == old(scenario))
      ensures timerSeconds == old(timerSeconds) && difficulty == old(difficulty)
    {
      if screen == ReportScreen {
        return;
      }
      if timeLeft > 0 {
        timeLeft := timeLeft - 1;
      } else {
        Resolve(TimedOut);
      }
    }

    /**
     An option button of the incident on screen: adds the option's score,
     logs it, and moves to the next incident or the report.
     */
    method Choose(option: Choice)
      requires Valid() && screen == IncidentScreen
      requires option in scenarios[current].options
      modifies this
      ensures Valid()
      ensures score == old(score) + option.score && current == old(current) + 1
      ensures logs == old(logs) + [Entry(old(current), Chose(option))]
      ensures history == old(history) + [Chose(option)]
      ensures current < total ==>
                screen == IncidentScreen && scenario == Some(scenarios[current]) &&
                timeLeft == timerSeconds - 1
      ensures current == total ==>
                screen == ReportScreen && timeLeft == old(timeLeft) && scenario == old(scenario)
      ensures timerSeconds == old(timerSeconds) && difficulty == old(difficulty)
    {
      Resolve(Chose(option));
    }

    /**
     The countdown callback as the source has it: it does not check whether
     the report is already up. With time left it fails on the destroyed
     timer label before taking the second off; at zero it applies the
     timeout again, past the last incident.
     */
    method TickAsWritten()
      requires Valid() && screen != Dashboard
      modifies this
      ensures old(screen) == IncidentScreen ==>
                score == old(score) + (if old(timeLeft) == 0 then TimeoutPenalty else 0) &&
                current == old(current) + (if old(timeLeft) == 0 then 1 else 0)
      ensures old(screen) == ReportScreen && old(timeLeft) > 0 ==> unchanged(this)
      ensures old(screen) == ReportScreen && old(timeLeft) == 0 ==>
                score == old(score) + TimeoutPenalty && current == old(current) + 1 &&
                current == total + 1 && screen == ReportScreen &&
                logs == old(logs) + [Entry(old(current), TimedOut)]
    {
      if timeLeft > 0 {
        if screen == ReportScreen {
          return;
        }
        timeLeft := timeLeft - 1;
      } else {
        logs := logs + [Entry(current, TimedOut)];
        score := score + TimeoutPenalty;
        history := history + [TimedOut];
        current := current + 1;
        if current < total {
          LoadScenario();
        } else {
          screen := ReportScreen;
        }
      }
    }

    /**
     What the report shows: the score line, the performance tier and the
     decision log as one transcript. At this point every incident has exactly
     one log line, numbered from 1 in presentation order, and a run without
     timeouts scores at most the best possible total, reaching it exactly
     when every choice was a best option.
     */
    method FinalReport() returns (headline: string, performance: string, transcript: string)
      requires Valid() && screen == ReportScreen
      ensures headline == "Final Security Score: " + Decimal.IntToString(score) + " / " +
                          Decimal.IntToString(totalPossible)
      ensures performance == Performance(score)
      ensures transcript == Join(logs)
      ensures |logs| == total
      ensures forall i :: 0 <= i < |logs| ==> IncidentNumber(logs[i]) == i + 1
      // The round trip of the transcript, first under the exact condition on the
      // log lines, then under the condition a caller can check on the options.
      ensures total > 0 && NoNewlines(logs) ==> Split(transcript) == logs
      ensures total > 0 &&
              (forall i :: 0 <= i < |history| && history[i].Chose? ==> '\n' !in history[i].choice.text) ==>
                Split(transcript) == logs
      ensures total == 0 ==> transcript == ""
      ensures (forall i :: 0 <= i < |history| ==> history[i].Chose?) ==>
                score <= totalPossible && (score == totalPossible <==> AlwaysBest(scenarios, history))
    {
      headline := "Final Security Score: " + Decimal.IntToString(score) + " / " +
                  Decimal.IntToString(totalPossible);
      performance := Performance(score);
      transcript := Join(logs);
      forall i | 0 <= i < |logs| ensures IncidentNumber(logs[i]) == i + 1 {
        EntryNumber(i, history[i]);
      }
      if total > 0 && (forall i :: 0 <= i < |history| && history[i].Chose? ==> '\n' !in history[i].choice.text) {
        forall i | 0 <= i < |logs| ensures '\n' !in logs[i] {
          EntryHasNoNewline(i, history[i]);
        }
      }
      if total > 0 && NoNewlines(logs) {
        SplitJoin(logs);
      }
      if forall i :: 0 <= i < |history| ==> history[i].Chose? {
        assert scenarios[..|history|] == scenarios;
        ScoreAtMostBest(scenarios, history);
        BestScoreReachedIff(scenarios, history);
      }
    }
  }

  /**
   A one-incident run where the option is picked in the last second: the
   countdown already stands at zero, the choice brings up the report, and
   the still pending callback then applies a second resolution.
   */
  method OvershootAfterReport(option: Choice) returns (s: Session)
    ensures s.total == 1 && s.current == 2
    ensures s.score == option.score + TimeoutPenalty
    ensures s.logs == [Entry(0, Chose(option)), Entry(1, TimedOut)]
  {
    s := new Session([Scenario("HIGH", "", [option])]);
    s.StartSim("Advanced");
    while s.timeLeft > 0
      invariant s.Valid() && s.screen == IncidentScreen
      invariant s.scenarios == [Scenario("HIGH", "", [option])] && s.total == 1
      invariant s.current == 0 && s.score == 0 && s.logs == []
      decreases s.timeLeft
    {
      s.Tick();
    }
    s.Choose(option);
    assert s.screen == ReportScreen && s.timeLeft == 0;
    s.TickAsWritten();
  }

  /**
   A two-incident run where the incident on screen times out while a second
   countdown chain is still live: the choice on the first incident does not
   stop its chain, and the load of the second incident starts another. The
   timeout of the second incident brings up the report with the countdown
   at zero, and the spare chain's next callback applies a second timeout.
   With handlers atomic the extra line is numbered 3; in the source the
   callback most likely runs inside the timeout's warning dialog, before
   the increment, and the line then reads "Incident 2", with the same score
   and the same final `current`.
   */
  method OvershootAfterTimeout(a: Choice) returns (s: Session)
    ensures s.total == 2 && s.current == 3
    ensures s.score == a.score + 2 * TimeoutPenalty
    ensures s.logs == [Entry(0, Chose(a)), Entry(1, TimedOut), Entry(2, TimedOut)]
  {
    var incident := Scenario("HIGH", "", [a]);
    s := new Session([incident, incident]);
    s.StartSim("Advanced");
    s.Choose(a);
    while s.timeLeft > 0
      invariant s.Valid() && s.screen == IncidentScreen
      invariant s.scenarios == [incident, incident] && s.total == 2
      invariant s.current == 1 && s.score == a.score && s.logs == [Entry(0, Chose(a))]
      decreases s.timeLeft
    {
      s.Tick();
    }
    s.Tick();
    assert s.screen == ReportScreen && s.timeLeft == 0;
    s.TickAsWritten();
  }
}
