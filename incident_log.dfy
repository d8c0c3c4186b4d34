/**
 What one resolved incident contributes to a session: a score delta and one
 line of the decision log, "Incident <n>: ..." with the 1-based incident
 number. A history is the sequence of outcomes in presentation order.
 */
module IncidentLog {
  import opened Decimal
  import opened Scenarios

  /** How an incident was resolved: the countdown reached zero, or the user picked an option. */
  datatype Outcome = TimedOut | Chose(choice: Choice)

  /** The fixed score change of a timeout, whatever the scenario. */
  const TimeoutPenalty: int := -10

  const EntryPrefix: string := "Incident "
  const Arrow: string := " \U{2192} "

  function Delta(o: Outcome): int {
    match o
    case TimedOut => TimeoutPenalty
    case Chose(c) => c.score
  }

  /** The sum of the deltas of a history. */
  function TotalDelta(history: seq<Outcome>): int {
    if history == [] then 0
    else TotalDelta(history[..|history| - 1]) + Delta(history[|history| - 1])
  }

  /**
   A history a run over `scenarios` can produce: at most one outcome per
   scenario, and every choice is one of the options of its own scenario.
   */
  predicate Consistent(scenarios: seq<Scenario>, history: seq<Outcome>) {
    |history| <= |scenarios| &&
    forall i :: 0 <= i < |history| && history[i].Chose? ==> history[i].choice in scenarios[i].options
  }

  function EntryBody(o: Outcome): string {
    match o
    case TimedOut => "Timeout" + Arrow + "Penalty -10"
    case Chose(c) => c.text + Arrow + "Score " + IntToString(c.score)
  }

  /** The log line of the incident at 0-based position `index`. */
  function Entry(index: nat, o: Outcome): string {
    EntryPrefix + (NatToString(index + 1) + (": " + EntryBody(o)))
  }

  /** The decision log of a history: line `i` is the entry of the incident at position `i`. */
  function Entries(history: seq<Outcome>): seq<string> {
    seq(|history|, i requires 0 <= i < |history| => Entry(i, history[i]))
  }

  lemma HistorySnoc(history: seq<Outcome>, o: Outcome)
    ensures (history + [o])[..|history|] == history
    ensures TotalDelta(history + [o]) == TotalDelta(history) + Delta(o)
  {
    assert (history + [o])[..|history|] == history;
  }

  /** The score change of a run is the sum of the changes of its two parts. */
  lemma {:induction false} TotalDeltaAppend(a: seq<Outcome>, b: seq<Outcome>)
    ensures TotalDelta(a + b) == TotalDelta(a) + TotalDelta(b)
    decreases |b|
  {
    if b == [] {
      assert a + b == a;
    } else {
      var init := b[..|b| - 1];
      assert (a + b)[..|a + b| - 1] == a + init;
      assert (a + b)[|a + b| - 1] == b[|b| - 1];
      TotalDeltaAppend(a, init);
    }
  }

  /** A run in which every incident times out scores exactly -10 per incident. */
  lemma {:induction false} TotalDeltaTimeouts(history: seq<Outcome>)
    requires forall i :: 0 <= i < |history| ==> history[i] == TimedOut
    ensures TotalDelta(history) == TimeoutPenalty * |history|
    decreases |history|
  {
    if history != [] {
      var init := history[..|history| - 1];
      assert forall i :: 0 <= i < |init| ==> init[i] == history[i];
      TotalDeltaTimeouts(init);
    }
  }

  lemma EntriesSnoc(history: seq<Outcome>, o: Outcome)
    ensures Entries(history + [o]) == Entries(history) + [Entry(|history|, o)]
  {
    var longer := Entries(history + [o]);
    var appended := Entries(history) + [Entry(|history|, o)];
    forall i | 0 <= i < |longer| ensures longer[i] == appended[i] {
      if i < |history| {
        assert (history + [o])[i] == history[i];
      }
    }
  }

  lemma ConsistentSnoc(scenarios: seq<Scenario>, history: seq<Outcome>, o: Outcome)
    requires Consistent(scenarios, history) && |history| < |scenarios|
    requires o.Chose? ==> o.choice in scenarios[|history|].options
    ensures Consistent(scenarios, history + [o])
  {
  }

  /** The longest run of decimal digits at the start of `s`. */
  function LeadingDigits(s: string): (d: string)
    ensures AllDigits(d) && d <= s
  {
    if s == [] || !IsDigit(s[0]) then [] else [s[0]] + LeadingDigits(s[1..])
  }

  /** The incident number a log line starts with, or 0 for a line of any other shape. */
  function IncidentNumber(entry: string): nat {
    if |EntryPrefix| <= |entry| && entry[..|EntryPrefix|] == EntryPrefix
    then ParseNat(LeadingDigits(entry[|EntryPrefix|..]))
    else 0
  }

  lemma {:induction false} LeadingDigitsOf(d: string, rest: string)
    requires AllDigits(d)
    requires rest == [] || !IsDigit(rest[0])
    ensures LeadingDigits(d + rest) == d
    decreases |d|
  {
    if d == [] {
      assert d + rest == rest;
    } else {
      assert (d + rest)[1..] == d[1..] + rest;
      LeadingDigitsOf(d[1..], rest);
    }
  }

  lemma NumberAfterPrefix(digits: string, rest: string)
    requires AllDigits(digits)
    requires rest == [] || !IsDigit(rest[0])
    ensures IncidentNumber(EntryPrefix + (digits + rest)) == ParseNat(digits)
  {
    var entry := EntryPrefix + (digits + rest);
    assert entry[..|EntryPrefix|] == EntryPrefix;
    assert entry[|EntryPrefix|..] == digits + rest;
    LeadingDigitsOf(digits, rest);
  }

  /** Every log line carries the 1-based number of its incident. */
  lemma EntryNumber(index: nat, o: Outcome)
    ensures IncidentNumber(Entry(index, o)) == index + 1
  {
    var digits := NatToString(index + 1);
    var rest := ": " + EntryBody(o);
    NumberAfterPrefix(digits, rest);
    ParseNatToString(index + 1);
  }

  /** Log lines of different incidents never coincide, whatever their outcomes. */
  lemma EntryIndexInjective(i: nat, j: nat, o: Outcome, p: Outcome)
    requires Entry(i, o) == Entry(j, p)
    ensures i == j
  {
    EntryNumber(i, o);
    EntryNumber(j, p);
  }

  lemma DigitsHaveNoNewline(s: string)
    requires AllDigits(s)
    ensures '\n' !in s
  {
    assert forall i :: 0 <= i < |s| ==> s[i] != '\n';
  }

  lemma IntToStringHasNoNewline(i: int)
    ensures '\n' !in IntToString(i)
  {
    if i < 0 {
      DigitsHaveNoNewline(NatToString(-i));
      assert IntToString(i) == "-" + NatToString(-i);
    } else {
      DigitsHaveNoNewline(NatToString(i));
    }
  }

  lemma EntryBodyHasNoNewline(o: Outcome)
    requires o.Chose? ==> '\n' !in o.choice.text
    ensures '\n' !in EntryBody(o)
  {
    if o.Chose? {
      IntToStringHasNoNewline(o.choice.score);
    }
  }

  /** A log line holds no line break unless the chosen option's text does. */
  lemma EntryHasNoNewline(index: nat, o: Outcome)
    requires o.Chose? ==> '\n' !in o.choice.text
    ensures '\n' !in Entry(index, o)
  {
    DigitsHaveNoNewline(NatToString(index + 1));
    EntryBodyHasNoNewline(o);
  }

  /** Every outcome of the history is a choice of a best-scoring option. */
  predicate AlwaysBest(scenarios: seq<Scenario>, history: seq<Outcome>)
    requires Playable(scenarios) && |history| <= |scenarios|
  {
    forall i :: 0 <= i < |history| ==>
      history[i].Chose? && history[i].choice.score == BestScore(scenarios[i].options)
  }

  /** No sequence of choices scores more than the sum of the best options. */
  lemma {:induction false} ScoreAtMostBest(scenarios: seq<Scenario>, history: seq<Outcome>)
    requires Playable(scenarios) && Consistent(scenarios, history)
    requires forall i :: 0 <= i < |history| ==> history[i].Chose?
    ensures Playable(scenarios[..|history|])
    ensures TotalDelta(history) <= TotalPossible(scenarios[..|history|])
    decreases |history|
  {
    var n := |history|;
    PlayablePrefix(scenarios, n);
    if n > 0 {
      var earlier := history[..n - 1];
      assert forall i :: 0 <= i < n - 1 ==> earlier[i] == history[i];
      ScoreAtMostBest(scenarios, earlier);
      TotalPossibleSnoc(scenarios, n);
      BestScoreIsMax(scenarios[n - 1].options);
      assert history[n - 1].choice in scenarios[n - 1].options;
    }
  }

  /**
   A run without timeouts reaches the best possible score exactly when every
   choice is a best option of its scenario.
   */
  lemma {:induction false} BestScoreReachedIff(scenarios: seq<Scenario>, history: seq<Outcome>)
    requires Playable(scenarios) && Consistent(scenarios, history)
    requires forall i :: 0 <= i < |history| ==> history[i].Chose?
    ensures Playable(scenarios[..|history|])
    ensures TotalDelta(history) == TotalPossible(scenarios[..|history|]) <==> AlwaysBest(scenarios, history)
    decreases |history|
  {
    var n := |history|;
    PlayablePrefix(scenarios, n);
    if n > 0 {
      var earlier := history[..n - 1];
      assert forall i :: 0 <= i < n - 1 ==> earlier[i] == history[i];
      ScoreAtMostBest(scenarios, earlier);
      BestScoreReachedIff(scenarios, earlier);
      TotalPossibleSnoc(scenarios, n);
      AlwaysBestSnoc(scenarios, history);
      BestScoreIsMax(scenarios[n - 1].options);
      assert history[n - 1].choice in scenarios[n - 1].options;
    }
  }

  lemma AlwaysBestSnoc(scenarios: seq<Scenario>, history: seq<Outcome>)
    requires Playable(scenarios) && 0 < |history| <= |scenarios|
    ensures AlwaysBest(scenarios, history) <==>
            AlwaysBest(scenarios, history[..|history| - 1]) &&
            history[|history| - 1].Chose? &&
            history[|history| - 1].choice.score == BestScore(scenarios[|history| - 1].options)
  {
    var n := |history|;
    assert forall i :: 0 <= i < n - 1 ==> history[..n - 1][i] == history[i];
  }

  lemma PlayablePrefix(scenarios: seq<Scenario>, n: nat)
    requires Playable(scenarios) && n <= |scenarios|
    ensures Playable(scenarios[..n])
  {
    assert forall i :: 0 <= i < n ==> scenarios[..n][i] == scenarios[i];
  }

  /** The best possible score of the first `n` scenarios grows by the best score of the `n`-th. */
  lemma TotalPossibleSnoc(scenarios: seq<Scenario>, n: nat)
    requires Playable(scenarios) && 0 < n <= |scenarios|
    ensures Playable(scenarios[..n]) && Playable(scenarios[..n - 1])
    ensures TotalPossible(scenarios[..n]) ==
            TotalPossible(scenarios[..n - 1]) + BestScore(scenarios[n - 1].options)
  {
    PlayablePrefix(scenarios, n);
    PlayablePrefix(scenarios, n - 1);
    assert scenarios[..n] == scenarios[..n - 1] + [scenarios[n - 1]];
    TotalPossibleSingle(scenarios[n - 1]);
    TotalPossibleAppend(scenarios[..n - 1], [scenarios[n - 1]]);
  }
}
