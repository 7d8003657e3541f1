/** Demonstration selection of the rational teacher: predict the learner's
    goal colour, score every candidate demonstration by its expected utility
    under the teacher's belief about the learner's receptive field, and keep
    a best-scoring one. Simulating the learner on a demonstration (rolling
    out the learner's policy in the environment) is an oracle here. */
module DemoSelection {
  import opened Probability

  /** A demonstration is a sequence of action indices. */
  type Demo = seq<nat>

  // ---------------------------------------------------------- goal colour

  /** Marginal belief over goal colours: the row sums of the joint belief. */
  function GoalBelief(beliefs: seq<seq<real>>): (v: seq<real>)
    ensures |v| == |beliefs|
  {
    seq(|beliefs|, g requires 0 <= g < |beliefs| => Sum(beliefs[g]))
  }

  /** The colour marginal keeps the total mass of the joint belief, so the
      marginal of a distribution is a distribution. */
  lemma {:induction false} GoalBeliefTotal(beliefs: seq<seq<real>>)
    ensures Sum(GoalBelief(beliefs)) == Sum2(beliefs)
    ensures NonNeg2(beliefs) ==> NonNeg(GoalBelief(beliefs))
    decreases |beliefs|
  {
    if |beliefs| > 0 {
      assert GoalBelief(beliefs)[1..] == GoalBelief(beliefs[1..]);
      GoalBeliefTotal(beliefs[1..]);
    }
    if NonNeg2(beliefs) {
      forall g | 0 <= g < |beliefs|
        ensures 0.0 <= GoalBelief(beliefs)[g]
      {
        SumNonNeg(beliefs[g]);
      }
    }
  }

  /** Every non-empty vector has a largest entry. */
  lemma {:induction false} ArgmaxExists(v: seq<real>) returns (i: nat)
    requires |v| >= 1
    ensures IsArgmax(v, i)
    decreases |v|
  {
    if |v| == 1 {
      i := 0;
    } else {
      var j := ArgmaxExists(v[1..]);
      assert forall k | 1 <= k < |v| :: v[k] == v[1..][k - 1];
      if v[j + 1] <= v[0] {
        i := 0;
      } else {
        i := j + 1;
      }
    }
  }

  /** The predicted goal colour: any colour of largest marginal belief. */
  method PredictGoalColour(beliefs: seq<seq<real>>) returns (goal: nat)
    requires |beliefs| >= 1
    ensures goal < |beliefs|
    ensures forall g | 0 <= g < |beliefs| :: Sum(beliefs[g]) <= Sum(beliefs[goal])
  {
    var marginal := GoalBelief(beliefs);
    ghost var top := ArgmaxExists(marginal);
    goal :| 0 <= goal < |marginal| && IsArgmax(marginal, goal);
    assert IsArgmax(marginal, goal);
    assert forall j | 0 <= j < |marginal| :: marginal[j] <= marginal[goal];
    forall g | 0 <= g < |beliefs|
      ensures Sum(beliefs[g]) <= Sum(beliefs[goal])
    {
      assert marginal[g] == Sum(beliefs[g]) && marginal[goal] == Sum(beliefs[goal]);
      assert marginal[g] <= marginal[goal];
    }
  }

  // -------------------------------------------------------------- utility

  /** Predicted utility of one demonstration: over every receptive-field
      hypothesis, the predicted reward minus the demonstration's cost,
      weighted by the joint belief in that hypothesis and the predicted goal
      colour. */
  function Utility(rewards: seq<real>, cost: real, weights: seq<real>): real
    requires |rewards| == |weights|
  {
    if |rewards| == 0 then 0.0
    else (rewards[0] - cost) * weights[0] + Utility(rewards[1..], cost, weights[1..])
  }

  /** Belief-weighted reward, without the cost. */
  function ExpectedReward(rewards: seq<real>, weights: seq<real>): real
    requires |rewards| == |weights|
  {
    if |rewards| == 0 then 0.0
    else rewards[0] * weights[0] + ExpectedReward(rewards[1..], weights[1..])
  }

  /** Utility is expected reward minus cost times the belief mass. */
  lemma {:induction false} UtilityIsNetReward(rewards: seq<real>, cost: real, weights: seq<real>)
    requires |rewards| == |weights|
    ensures Utility(rewards, cost, weights) == ExpectedReward(rewards, weights) - cost * Sum(weights)
    decreases |rewards|
  {
    if |rewards| > 0 {
      UtilityIsNetReward(rewards[1..], cost, weights[1..]);
      assert (rewards[0] - cost) * weights[0] == rewards[0] * weights[0] - cost * weights[0];
      assert cost * Sum(weights) == cost * weights[0] + cost * Sum(weights[1..]);
    }
  }

  /** Appending one hypothesis adds its term at the end. */
  lemma {:induction false} UtilityAppend(rewards: seq<real>, cost: real, weights: seq<real>, i: nat)
    requires |rewards| == |weights| && i < |rewards|
    ensures Utility(rewards[..i + 1], cost, weights[..i + 1])
         == Utility(rewards[..i], cost, weights[..i]) + (rewards[i] - cost) * weights[i]
    decreases i
  {
    if i > 0 {
      UtilityAppend(rewards[1..], cost, weights[1..], i - 1);
      assert rewards[..i + 1][1..] == rewards[1..][..i];
      assert weights[..i + 1][1..] == weights[1..][..i];
      assert rewards[..i][1..] == rewards[1..][..i - 1];
      assert weights[..i][1..] == weights[1..][..i - 1];
    }
  }

  /** Accumulate the utility hypothesis by hypothesis, in the order `select_demo` sums it. */
  method PredictedUtility(rewards: seq<real>, cost: real, weights: seq<real>) returns (u: real)
    requires |rewards| == |weights|
    ensures u == Utility(rewards, cost, weights)
    ensures u == ExpectedReward(rewards, weights) - cost * Sum(weights)
  {
    u := 0.0;
    var r := 0;
    while r < |rewards|
      invariant 0 <= r <= |rewards|
      invariant u == Utility(rewards[..r], cost, weights[..r])
    {
      UtilityAppend(rewards, cost, weights, r);
      u := u + (rewards[r] - cost) * weights[r];
      r := r + 1;
    }
    assert rewards[..r] == rewards && weights[..r] == weights;
    UtilityIsNetReward(rewards, cost, weights);
  }

  /** With the same predicted rewards, a strictly cheaper demonstration has
      strictly higher utility whenever some hypothesis has positive belief. */
  lemma CheaperPreferred(rewards: seq<real>, cheap: real, dear: real, weights: seq<real>)
    requires |rewards| == |weights| && cheap < dear && Sum(weights) > 0.0
    ensures Utility(rewards, cheap, weights) > Utility(rewards, dear, weights)
  {
    UtilityIsNetReward(rewards, cheap, weights);
    UtilityIsNetReward(rewards, dear, weights);
    assert dear * Sum(weights) - cheap * Sum(weights) == (dear - cheap) * Sum(weights);
  }

  /** Utility is monotone in the predicted rewards when beliefs are
      non-negative. */
  lemma {:induction false} UtilityMonotone(low: seq<real>, high: seq<real>, cost: real, weights: seq<real>)
    requires |low| == |high| == |weights| && NonNeg(weights)
    requires forall r | 0 <= r < |low| :: low[r] <= high[r]
    ensures Utility(low, cost, weights) <= Utility(high, cost, weights)
    decreases |low|
  {
    if |low| > 0 {
      UtilityMonotone(low[1..], high[1..], cost, weights[1..]);
      assert (low[0] - cost) * weights[0] <= (high[0] - cost) * weights[0];
    }
  }

  // ------------------------------------------------------------ selection

  /** Predicted rewards of candidate `i`, one per receptive field.
      `predicted_reward` rolls the learner out with actions drawn from its
      policy, so each call is its own random outcome: the oracle is indexed by
      the call (candidate index, goal colour, receptive field), not by what
      the demonstration contains, and two identical candidates may score
      differently. */
  function Rewards(predicted: (nat, nat, nat) -> real, i: nat, goal: nat, numRf: nat): (r: seq<real>)
    ensures |r| == numRf
    ensures forall rf | 0 <= rf < numRf :: r[rf] == predicted(i, goal, rf)
  {
    seq(numRf, rf requires 0 <= rf < numRf => predicted(i, goal, rf))
  }

  /** The candidates: one demonstration per receptive field, then the
      demonstration that visits everything. */
  function Candidates(generate: (int, nat) -> Demo, rfValues: seq<int>, goal: nat, demoAll: Demo): (ds: seq<Demo>)
    ensures |ds| == |rfValues| + 1 && ds[|rfValues|] == demoAll
    ensures forall i | 0 <= i < |rfValues| :: ds[i] == generate(rfValues[i], goal)
  {
    seq(|rfValues|, i requires 0 <= i < |rfValues| => generate(rfValues[i], goal)) + [demoAll]
  }

  /** Score every candidate and keep one of highest utility. The cost of a
      demonstration depends on its length and on the length of the
      demonstration that visits everything. */
  method ChooseDemo(demos: seq<Demo>, rewards: seq<seq<real>>, cost: (nat, nat) -> real, weights: seq<real>)
    returns (idx: nat, best: real, utilities: seq<real>)
    requires |demos| >= 1 && |rewards| == |demos|
    requires forall i | 0 <= i < |rewards| :: |rewards[i]| == |weights|
    ensures |utilities| == |demos|
    ensures forall i | 0 <= i < |demos| ::
              utilities[i] == Utility(rewards[i], cost(|demos[i]|, |demos[|demos| - 1]|), weights)
    ensures IsArgmax(utilities, idx) && best == utilities[idx]
  {
    var lmax := |demos[|demos| - 1]|;
    utilities := [];
    var i := 0;
    while i < |demos|
      invariant 0 <= i <= |demos| && |utilities| == i
      invariant forall j | 0 <= j < i :: utilities[j] == Utility(rewards[j], cost(|demos[j]|, lmax), weights)
    {
      var u := PredictedUtility(rewards[i], cost(|demos[i]|, lmax), weights);
      utilities := utilities + [u];
      i := i + 1;
    }
    ghost var top := ArgmaxExists(utilities);
    idx :| 0 <= idx < |utilities| && IsArgmax(utilities, idx);
    best := utilities[idx];
  }

  /** The rational teacher's demonstration choice. */
  method SelectDemo(beliefs: seq<seq<real>>, rfValues: seq<int>,
                    generate: (int, nat) -> Demo, demoAll: Demo,
                    predicted: (nat, nat, nat) -> real, cost: (nat, nat) -> real)
    returns (goal: nat, demos: seq<Demo>, idx: nat, best: real, utilities: seq<real>)
    requires |beliefs| >= 1 && Rectangular(beliefs, |rfValues|)
    ensures goal < |beliefs|
    ensures forall g | 0 <= g < |beliefs| :: Sum(beliefs[g]) <= Sum(beliefs[goal])
    ensures demos == Candidates(generate, rfValues, goal, demoAll)
    ensures |utilities| == |demos|
    ensures forall i | 0 <= i < |demos| ::
              utilities[i] == Utility(Rewards(predicted, i, goal, |rfValues|),
                                      cost(|demos[i]|, |demoAll|), beliefs[goal])
    ensures IsArgmax(utilities, idx) && best == utilities[idx]
  {
    goal := PredictGoalColour(beliefs);
    demos := Candidates(generate, rfValues, goal, demoAll);
    var rewards := seq(|demos|, i requires 0 <= i < |demos| => Rewards(predicted, i, goal, |rfValues|));
    idx, best, utilities := ChooseDemo(demos, rewards, cost, beliefs[goal]);
  }
}
