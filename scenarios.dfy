/**
 Scenario records as loaded from the scenario file, and the best score a
 run can reach (`total_possible`): the sum, over the scenarios, of each
 scenario's highest option score.
 */
module Scenarios {

  /** One selectable response to an incident. */
  datatype Choice = Choice(text: string, score: int, explanation: string)

  /** One incident prompt; `severity` is "HIGH", "MEDIUM" or anything else. */
  datatype Scenario = Scenario(severity: string, alert: string, options: seq<Choice>)

  /** Every scenario offers at least one option, so `max` over its scores is defined. */
  predicate Playable(scenarios: seq<Scenario>) {
    forall i :: 0 <= i < |scenarios| ==> |scenarios[i].options| > 0
  }

  /** The highest score among a non-empty list of options. */
  function BestScore(options: seq<Choice>): int
    requires |options| > 0
  {
    if |options| == 1 then options[0].score
    else
      var rest := BestScore(options[1..]);
      if options[0].score >= rest then options[0].score else rest
  }

  /** The best score is the score of one of the options, and no option scores more. */
  lemma {:induction false} BestScoreIsMax(options: seq<Choice>)
    requires |options| > 0
    ensures forall i :: 0 <= i < |options| ==> options[i].score <= BestScore(options)
    ensures exists i :: 0 <= i < |options| && options[i].score == BestScore(options)
    decreases |options|
  {
    if |options| == 1 {
      assert options[0].score == BestScore(options);
    } else {
      var rest := options[1..];
      BestScoreIsMax(rest);
      assert forall i :: 1 <= i < |options| ==> options[i] == rest[i - 1];
      if options[0].score >= BestScore(rest) {
        assert options[0].score == BestScore(options);
      } else {
        var j :| 0 <= j < |rest| && rest[j].score == BestScore(rest);
        assert options[j + 1].score == BestScore(options);
      }
    }
  }

  /** `total_possible`: the sum of every scenario's best option score. */
  function TotalPossible(scenarios: seq<Scenario>): int
    requires Playable(scenarios)
  {
    if scenarios == [] then 0
    else BestScore(scenarios[0].options) + TotalPossible(scenarios[1..])
  }

  lemma {:induction false} TotalPossibleAppend(a: seq<Scenario>, b: seq<Scenario>)
    requires Playable(a) && Playable(b)
    ensures Playable(a + b)
    ensures TotalPossible(a + b) == TotalPossible(a) + TotalPossible(b)
    decreases |a|
  {
    if a == [] {
      assert a + b == b;
    } else {
      assert (a + b)[1..] == a[1..] + b;
      TotalPossibleAppend(a[1..], b);
    }
  }

  /** Taking one scenario out of the sequence takes its best score out of the sum. */
  lemma {:induction false} TotalPossibleRemove(b: seq<Scenario>, k: nat)
    requires Playable(b) && k < |b|
    ensures Playable(b[..k] + b[k + 1..])
    ensures TotalPossible(b) == BestScore(b[k].options) + TotalPossible(b[..k] + b[k + 1..])
    decreases k
  {
    var rest := b[..k] + b[k + 1..];
    assert forall i :: 0 <= i < |rest| ==> rest[i] == if i < k then b[i] else b[i + 1];
    if k == 0 {
      assert rest == b[1..];
    } else {
      var tail := b[1..];
      TotalPossibleRemove(tail, k - 1);
      assert rest[0] == b[0];
      assert rest[1..] == tail[..k - 1] + tail[k..];
    }
  }

  lemma TotalPossibleSingle(x: Scenario)
    requires |x.options| > 0
    ensures Playable([x]) && TotalPossible([x]) == BestScore(x.options)
  {
    assert [x][1..] == [];
  }

  lemma PlayableSameElements(a: seq<Scenario>, b: seq<Scenario>)
    requires Playable(a)
    requires multiset(a) == multiset(b)
    ensures Playable(b)
  {
    forall j | 0 <= j < |b| ensures |b[j].options| > 0 {
      assert b[j] in multiset(a);
    }
  }

  lemma MultisetRemoveFirst(a: seq<Scenario>, b: seq<Scenario>, k: nat)
    requires multiset(a) == multiset(b) && |a| > 0 && k < |b| && b[k] == a[0]
    ensures multiset(a[1..]) == multiset(b[..k] + b[k + 1..])
  {
    var x := a[0];
    assert b == b[..k] + [x] + b[k + 1..];
    assert multiset(b) == multiset(b[..k]) + multiset{x} + multiset(b[k + 1..]);
    assert a == [x] + a[1..];
    assert multiset(a) == multiset{x} + multiset(a[1..]);
    assert multiset(a[1..]) == multiset(a) - multiset{x};
  }

  /** The best possible score does not depend on the order of the scenarios. */
  lemma {:induction false} TotalPossiblePermutation(a: seq<Scenario>, b: seq<Scenario>)
    requires Playable(a)
    requires multiset(a) == multiset(b)
    ensures Playable(b)
    ensures TotalPossible(a) == TotalPossible(b)
    decreases |a|
  {
    PlayableSameElements(a, b);
    if a == [] {
      assert |b| == |multiset(b)| == 0;
    } else {
      assert a[0] in multiset(b);
      var k :| 0 <= k < |b| && b[k] == a[0];
      MultisetRemoveFirst(a, b, k);
      TotalPossibleRemove(b, k);
      TotalPossiblePermutation(a[1..], b[..k] + b[k + 1..]);
    }
  }
}
