/** The package's scoring oracles: prior-voting bonus, reputation bonus and
    the min-max scaled PageRank trust score, all read from an OracleState.
    A result of None stands for the Python exception the lookup raises
    (a missing user key, or a division by zero). */
module Oracles {
  import opened NqgTypes

  /** The bonus the listed rounds earn: `map.get(r, 0.0)` summed left to right. */
  function RoundBonus(rounds: seq<int>, bonusMap: map<int, real>): real
  {
    if rounds == [] then 0.0
    else RoundBonus(rounds[..|rounds| - 1], bonusMap) + Get(bonusMap, rounds[|rounds| - 1], 0.0)
  }

  /** `prior_voting_score`: 1.0 plus the bonus of the user's past rounds. */
  function PriorVotingScore(userId: UserId, st: OracleState): Option<real>
  {
    if userId in st.priorVotingBonusValues
    then Some(1.0 + RoundBonus(st.priorVotingBonusValues[userId], st.priorVotingBonusMap))
    else None
  }

  /** The loop of `prior_voting_score`. */
  method ComputePriorVotingScore(userId: UserId, st: OracleState) returns (score: Option<real>)
    ensures score == PriorVotingScore(userId, st)
    ensures score.None? <==> userId !in st.priorVotingBonusValues
  {
    if userId !in st.priorVotingBonusValues {
      return None;
    }
    var rounds := st.priorVotingBonusValues[userId];
    var bonus := 1.0;
    var i := 0;
    while i < |rounds|
      invariant 0 <= i <= |rounds|
      invariant bonus == 1.0 + RoundBonus(rounds[..i], st.priorVotingBonusMap)
    {
      assert rounds[..i + 1][..i] == rounds[..i];
      bonus := bonus + Get(st.priorVotingBonusMap, rounds[i], 0.0);
      i := i + 1;
    }
    assert rounds[..i] == rounds;
    return Some(bonus);
  }

  /** With non-negative bonuses the accumulated bonus is non-negative. */
  lemma {:induction false} RoundBonusNonNegative(rounds: seq<int>, bonusMap: map<int, real>)
    requires forall r :: r in bonusMap ==> bonusMap[r] >= 0.0
    ensures RoundBonus(rounds, bonusMap) >= 0.0
    decreases |rounds|
  {
    if rounds != [] {
      RoundBonusNonNegative(rounds[..|rounds| - 1], bonusMap);
    }
  }

  /** The rounds of `rounds` the bonus map knows, in order. */
  function MappedRounds(rounds: seq<int>, bonusMap: map<int, real>): (r: seq<int>)
    ensures forall x :: x in r ==> x in bonusMap && x in rounds
  {
    if rounds == [] then []
    else
      var init := MappedRounds(rounds[..|rounds| - 1], bonusMap);
      if rounds[|rounds| - 1] in bonusMap then init + [rounds[|rounds| - 1]] else init
  }

  /** Unmapped rounds add nothing: only the mapped rounds contribute. */
  lemma {:induction false} UnmappedRoundsAddNothing(rounds: seq<int>, bonusMap: map<int, real>)
    ensures RoundBonus(rounds, bonusMap) == RoundBonus(MappedRounds(rounds, bonusMap), bonusMap)
    decreases |rounds|
  {
    if rounds != [] {
      var init := rounds[..|rounds| - 1];
      var last := rounds[|rounds| - 1];
      UnmappedRoundsAddNothing(init, bonusMap);
      var m := MappedRounds(init, bonusMap);
      if last in bonusMap {
        assert (m + [last])[..|m + [last]| - 1] == m;
      }
    }
  }

  /** A prior-voting score, when the user is known, is at least 1.0 for non-negative bonuses. */
  lemma PriorVotingScoreAtLeastOne(userId: UserId, st: OracleState)
    requires forall r :: r in st.priorVotingBonusMap ==> st.priorVotingBonusMap[r] >= 0.0
    ensures PriorVotingScore(userId, st).Some? <==> userId in st.priorVotingBonusValues
    ensures PriorVotingScore(userId, st).Some? ==> PriorVotingScore(userId, st).value >= 1.0
  {
    if userId in st.priorVotingBonusValues {
      RoundBonusNonNegative(st.priorVotingBonusValues[userId], st.priorVotingBonusMap);
    }
  }

  /** `reputation_score`: the bonus of the user's category, 0.0 for an unmapped category. */
  function ReputationScore(userId: UserId, st: OracleState): (r: Option<real>)
    ensures r.None? <==> userId !in st.reputationBonusValues
    ensures r.Some? && st.reputationBonusValues[userId] in st.reputationBonusMap ==>
              r.value == st.reputationBonusMap[st.reputationBonusValues[userId]]
    ensures r.Some? && st.reputationBonusValues[userId] !in st.reputationBonusMap ==> r.value == 0.0
  {
    if userId in st.reputationBonusValues
    then Some(Get(st.reputationBonusMap, st.reputationBonusValues[userId], 0.0))
    else None
  }

  /** `trust_score`: the user's PageRank value scaled by the min-max of all values,
      0.0 with fewer than two ranked users or an unranked user. None when all
      values are equal (the unguarded division fails). */
  function TrustScore(userLabel: UserId, st: OracleState): (r: Option<real>)
    ensures |st.pagerankResults| < 2 || userLabel !in st.pagerankResults ==> r == Some(0.0)
    ensures r.Some? ==> 0.0 <= r.value <= 1.0
  {
    var pr := st.pagerankResults;
    if |pr| < 2 || userLabel !in pr then Some(0.0)
    else
      var maxValue := MaxValue(pr);
      var minValue := MinValue(pr);
      if maxValue == minValue then None
      else
        DivisionInUnitInterval(pr[userLabel] - minValue, maxValue - minValue);
        Some((pr[userLabel] - minValue) / (maxValue - minValue))
  }

  /** Trust scores lie in [0, 1], with 0.0 for fewer than two ranked users or an
      unranked user; the rule fails only when every value is equal. */
  lemma TrustScoreInUnitInterval(userLabel: UserId, st: OracleState)
    ensures |st.pagerankResults| < 2 || userLabel !in st.pagerankResults ==> TrustScore(userLabel, st) == Some(0.0)
    ensures TrustScore(userLabel, st).Some? ==> 0.0 <= TrustScore(userLabel, st).value <= 1.0
    ensures TrustScore(userLabel, st).None? <==>
              |st.pagerankResults| >= 2 && userLabel in st.pagerankResults &&
              MaxValue(st.pagerankResults) == MinValue(st.pagerankResults)
  {
  }

  /** The least-ranked user scores 0 and the best-ranked user scores 1. */
  lemma TrustScoreExtremes(userLabel: UserId, st: OracleState)
    requires |st.pagerankResults| >= 2 && userLabel in st.pagerankResults
    requires MaxValue(st.pagerankResults) != MinValue(st.pagerankResults)
    ensures st.pagerankResults[userLabel] == MinValue(st.pagerankResults) ==> TrustScore(userLabel, st) == Some(0.0)
    ensures st.pagerankResults[userLabel] == MaxValue(st.pagerankResults) ==> TrustScore(userLabel, st) == Some(1.0)
  {
    var hi := MaxValue(st.pagerankResults);
    var lo := MinValue(st.pagerankResults);
    MinMaxEnds(lo, hi);
  }

  /** With at least two ranked users and distinct values, some user scores 0.0 and some 1.0. */
  lemma TrustScoreAttainsBounds(st: OracleState)
    requires |st.pagerankResults| >= 2
    requires MaxValue(st.pagerankResults) != MinValue(st.pagerankResults)
    ensures exists u :: u in st.pagerankResults && TrustScore(u, st) == Some(0.0)
    ensures exists u :: u in st.pagerankResults && TrustScore(u, st) == Some(1.0)
  {
    var pr := st.pagerankResults;
    var lo := MinValue(pr);
    var hi := MaxValue(pr);
    var uLo :| uLo in pr && pr[uLo] == lo;
    var uHi :| uHi in pr && pr[uHi] == hi;
    TrustScoreExtremes(uLo, st);
    TrustScoreExtremes(uHi, st);
  }
}
