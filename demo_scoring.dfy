/** The notebook's neural-governance scorer: neurons read (user, project,
    running score) and never fail; the layers fold the running score, and the
    notebook's two layers add one-person-one-vote, trust and reputation, then
    multiply by the quorum-resolved vote. */
module DemoScoring {
  import opened NqgTypes
  import opened Aggregation
  import opened DemoQuorum

  datatype DemoNeuron = DemoNeuron(oracle: (UserId, ProjectId, real) -> real, weighting: real -> real)

  datatype DemoLayer = DemoLayer(neurons: seq<DemoNeuron>, aggregator: Aggregator)

  /** No product layer is empty. */
  predicate DemoWellFormed(layers: seq<DemoLayer>)
  {
    forall i :: 0 <= i < |layers| ==>
      (layers[i].aggregator.ProductAggregator? ==> |layers[i].neurons| > 0)
  }

  /** The weighted outputs of a layer's neurons in order, all fed the same running score. */
  function NeuronVotes(neurons: seq<DemoNeuron>, uid: UserId, pid: ProjectId, running: real): (r: seq<real>)
    ensures |r| == |neurons|
  {
    if neurons == [] then []
    else [neurons[0].weighting(neurons[0].oracle(uid, pid, running))] + NeuronVotes(neurons[1..], uid, pid, running)
  }

  /** Output i is neuron i's weighting of its oracle's answer. */
  lemma {:induction false} NeuronVotesElements(neurons: seq<DemoNeuron>, uid: UserId, pid: ProjectId, running: real)
    ensures forall i :: 0 <= i < |neurons| ==>
              NeuronVotes(neurons, uid, pid, running)[i] == neurons[i].weighting(neurons[i].oracle(uid, pid, running))
    decreases |neurons|
  {
    if neurons != [] {
      NeuronVotesElements(neurons[1..], uid, pid, running);
      forall i | 1 <= i < |neurons| ensures neurons[1..][i - 1] == neurons[i] { }
    }
  }

  /** The running score after `layers`, starting from `current`. */
  function DemoPropagate(layers: seq<DemoLayer>, uid: UserId, pid: ProjectId, current: real): real
    requires DemoWellFormed(layers)
    decreases |layers|
  {
    if layers == [] then current
    else
      assert DemoWellFormed(layers[1..]) by {
        forall i | 0 <= i < |layers[1..]|
          ensures layers[1..][i].aggregator.ProductAggregator? ==> |layers[1..][i].neurons| > 0
        {
          assert layers[1..][i] == layers[i + 1];
        }
      }
      DemoPropagate(layers[1..], uid, pid, Aggregate(layers[0].aggregator, NeuronVotes(layers[0].neurons, uid, pid, current)))
  }

  lemma DemoWellFormedSuffix(layers: seq<DemoLayer>, k: nat)
    requires DemoWellFormed(layers) && k <= |layers|
    ensures DemoWellFormed(layers[k..])
  {
    forall i | 0 <= i < |layers[k..]|
      ensures layers[k..][i].aggregator.ProductAggregator? ==> |layers[k..][i].neurons| > 0
    {
      assert layers[k..][i] == layers[k + i];
    }
  }

  /** `user_project_vote_power`. Printing is left out, so the flag does not matter. */
  method UserProjectVotePower(uid: UserId, pid: ProjectId, neuronLayers: seq<DemoLayer>,
                              initialVotes: real, printOnEachLayer: bool)
    returns (power: real)
    requires DemoWellFormed(neuronLayers)
    ensures power == DemoPropagate(neuronLayers, uid, pid, initialVotes)
    ensures neuronLayers == [] ==> power == initialVotes
  {
    var currentVote := initialVotes;
    var i := 0;
    while i < |neuronLayers|
      invariant 0 <= i <= |neuronLayers|
      invariant DemoWellFormed(neuronLayers[i..])
      invariant DemoPropagate(neuronLayers, uid, pid, initialVotes)
             == DemoPropagate(neuronLayers[i..], uid, pid, currentVote)
    {
      var layer := neuronLayers[i];
      assert neuronLayers[i..][0] == layer;
      var neuronVotes: seq<real> := [];
      NeuronVotesElements(layer.neurons, uid, pid, currentVote);
      var j := 0;
      while j < |layer.neurons|
        invariant 0 <= j <= |layer.neurons|
        invariant neuronVotes == NeuronVotes(layer.neurons, uid, pid, currentVote)[..j]
      {
        var rawNeuronVote := layer.neurons[j].oracle(uid, pid, currentVote);
        neuronVotes := neuronVotes + [layer.neurons[j].weighting(rawNeuronVote)];
        j := j + 1;
      }
      assert neuronVotes == NeuronVotes(layer.neurons, uid, pid, currentVote);
      assert neuronLayers[i..][1..] == neuronLayers[i + 1..];
      DemoWellFormedSuffix(neuronLayers, i + 1);
      currentVote := Aggregate(layer.aggregator, neuronVotes);
      i := i + 1;
    }
    return currentVote;
  }

  /** The min-max step of `compute_trust_score` over the PageRank values; None where
      `max` of no values or the division by zero (all values equal) raises. */
  function ComputeTrustScore(pagerank: map<UserId, real>): (r: Option<map<UserId, real>>)
    ensures r.Some? <==> |pagerank| > 0 && MaxValue(pagerank) != MinValue(pagerank)
    ensures r.Some? ==> r.value.Keys == pagerank.Keys
  {
    if |pagerank| == 0 then None
    else
      var maxValue := MaxValue(pagerank);
      var minValue := MinValue(pagerank);
      if maxValue == minValue then None
      else Some(map u | u in pagerank :: (pagerank[u] - minValue) / (maxValue - minValue))
  }

  /** Every scaled score lies in [0, 1], the lowest-ranked users score 0 and the
      highest-ranked score 1. */
  lemma TrustScoresInUnitInterval(pagerank: map<UserId, real>)
    requires ComputeTrustScore(pagerank).Some?
    ensures forall u :: u in pagerank ==> 0.0 <= ComputeTrustScore(pagerank).value[u] <= 1.0
    ensures forall u :: u in pagerank && pagerank[u] == MinValue(pagerank) ==> ComputeTrustScore(pagerank).value[u] == 0.0
    ensures forall u :: u in pagerank && pagerank[u] == MaxValue(pagerank) ==> ComputeTrustScore(pagerank).value[u] == 1.0
  {
    var hi := MaxValue(pagerank);
    var lo := MinValue(pagerank);
    var scores := ComputeTrustScore(pagerank).value;
    assert hi != lo;
    assert scores == map u | u in pagerank :: (pagerank[u] - lo) / (hi - lo);
    forall u | u in pagerank
      ensures 0.0 <= scores[u] <= 1.0
    {
      var v := pagerank[u];
      assert lo <= v <= hi;
      assert scores[u] == (v - lo) / (hi - lo);
      DivisionInUnitInterval(v - lo, hi - lo);
    }
    MinMaxEnds(lo, hi);
  }

  /** `trust_score`: the stored score, or `valueIfMissing` for an unscored user;
      scores and a fallback in [0, 1] give a result in [0, 1]. */
  function DemoTrustScore(trustBonus: map<UserId, real>, userId: UserId, valueIfMissing: real): (r: real)
    ensures userId in trustBonus ==> r == trustBonus[userId]
    ensures userId !in trustBonus ==> r == valueIfMissing
    ensures (forall u :: u in trustBonus ==> 0.0 <= trustBonus[u] <= 1.0) && 0.0 <= valueIfMissing <= 1.0 ==>
              0.0 <= r <= 1.0
  {
    Get(trustBonus, userId, valueIfMissing)
  }

  /** Read from the min-max scaled PageRank, every user's trust score lies in
      [0, 1]: 0.0 when unranked, 0.0 for the least-ranked and 1.0 for the best-ranked. */
  lemma DemoTrustScoreOfScaledRanks(pagerank: map<UserId, real>, userId: UserId)
    requires ComputeTrustScore(pagerank).Some?
    ensures 0.0 <= DemoTrustScore(ComputeTrustScore(pagerank).value, userId, 0.0) <= 1.0
    ensures userId !in pagerank ==> DemoTrustScore(ComputeTrustScore(pagerank).value, userId, 0.0) == 0.0
    ensures userId in pagerank && pagerank[userId] == MinValue(pagerank) ==>
              DemoTrustScore(ComputeTrustScore(pagerank).value, userId, 0.0) == 0.0
    ensures userId in pagerank && pagerank[userId] == MaxValue(pagerank) ==>
              DemoTrustScore(ComputeTrustScore(pagerank).value, userId, 0.0) == 1.0
  {
    TrustScoresInUnitInterval(pagerank);
  }

  /** The reply of the reputation service. */
  datatype ReputationApiResult = ReputationApiResult(status: int, reputationCategory: ReputationCategory)

  /** `ReputationAPI.get`, a stub that always answers 200 / Uncategorized. */
  function ReputationApiGet(userId: UserId): ReputationApiResult
  {
    ReputationApiResult(200, Uncategorized)
  }

  /** `REPUTATION_SCORE_MAP`. */
  const ReputationScoreMap: map<ReputationCategory, real> :=
    map[Tier3 := 0.3, Tier2 := 0.2, Tier1 := 0.1, Uncategorized := 0.0]

  /** Every category has a score. */
  lemma ScoreMapCoversCategories(c: ReputationCategory)
    ensures c in ReputationScoreMap
  {
    match c
    case Tier3 =>
    case Tier2 =>
    case Tier1 =>
    case Uncategorized =>
  }

  /** The bonus `reputation_score` derives from a service reply: the category's
      score on status 200, else 0.0. */
  function ReputationBonus(api: ReputationApiResult): (r: real)
    ensures 0.0 <= r <= 0.3
    ensures api.status != 200 ==> r == 0.0
    ensures r > 0.0 ==> api.reputationCategory != Uncategorized
  {
    if api.status == 200 then
      ScoreMapCoversCategories(api.reputationCategory);
      ReputationScoreMap[api.reputationCategory]
    else 0.0
  }

  /** `reputation_score`: with the stubbed service every user scores 0.0. */
  function DemoReputationScore(userId: UserId): (r: real)
    ensures r == 0.0
  {
    ReputationBonus(ReputationApiGet(userId))
  }

  /** `NEURAL_GOVERNANCE_LAYERS`: one-person-one-vote, trust and reputation summed,
      then the product of the running score and the quorum-resolved vote. */
  function DemoLayers(table: ActionTable, trustBonus: map<UserId, real>): (r: seq<DemoLayer>)
    ensures DemoWellFormed(r)
  {
    [ DemoLayer(
        [ DemoNeuron((u: UserId, p: ProjectId, v: real) => 1.0, Identity),
          DemoNeuron((u: UserId, p: ProjectId, v: real) => DemoTrustScore(trustBonus, u, 0.0), Identity),
          DemoNeuron((u: UserId, p: ProjectId, v: real) => DemoReputationScore(u), Identity) ],
        SumAggregator),
      DemoLayer(
        [ DemoNeuron((u: UserId, p: ProjectId, v: real) => v, Identity),
          DemoNeuron((u: UserId, p: ProjectId, v: real) => Coefficient(DefaultDelegateResult(table, u, p)), Identity) ],
        ProductAggregator) ]
  }

  /** Under the notebook layers the power is (1 + trust + reputation) times the
      coefficient of the resolved vote. */
  lemma DemoLayersPower(table: ActionTable, trustBonus: map<UserId, real>, u: UserId, p: ProjectId, initialVotes: real)
    ensures DemoWellFormed(DemoLayers(table, trustBonus))
    ensures DemoPropagate(DemoLayers(table, trustBonus), u, p, initialVotes) ==
              (1.0 + Get(trustBonus, u, 0.0) + DemoReputationScore(u)) * Coefficient(DefaultDelegateResult(table, u, p))
  {
    var layers := DemoLayers(table, trustBonus);
    assert DemoWellFormed(layers);
    var t := Get(trustBonus, u, 0.0);
    var r := DemoReputationScore(u);
    var n0 := layers[0].neurons;
    assert n0[0].oracle(u, p, initialVotes) == 1.0;
    assert n0[1].oracle(u, p, initialVotes) == t;
    assert n0[2].oracle(u, p, initialVotes) == r;
    var first := NeuronVotes(n0, u, p, initialVotes);
    NeuronVotesElements(n0, u, p, initialVotes);
    assert first == [1.0, t, r];
    SmallSums(1.0, t, r);
    var mid := 1.0 + t + r;
    var c := Coefficient(DefaultDelegateResult(table, u, p));
    var n1 := layers[1].neurons;
    assert n1[0].oracle(u, p, mid) == mid;
    assert n1[1].oracle(u, p, mid) == c;
    var second := NeuronVotes(n1, u, p, mid);
    NeuronVotesElements(n1, u, p, mid);
    assert second == [mid, c];
    SmallProducts(mid, c);
    assert DemoPropagate(layers, u, p, initialVotes) == DemoPropagate(layers[1..], u, p, mid);
    assert layers[1..][0] == layers[1];
    assert layers[1..][1..] == [];
    assert DemoPropagate(layers[1..], u, p, mid) == DemoPropagate(layers[1..][1..], u, p, mid * c);
  }

  /** With non-negative trust scores the notebook power is zero exactly for an
      Abstain, positive exactly for a Yes and negative exactly for a No. */
  lemma DemoPowerSign(table: ActionTable, trustBonus: map<UserId, real>, u: UserId, p: ProjectId)
    requires forall w :: w in trustBonus ==> trustBonus[w] >= 0.0
    ensures DemoWellFormed(DemoLayers(table, trustBonus))
    ensures var power := DemoPropagate(DemoLayers(table, trustBonus), u, p, 0.0);
            var v := DefaultDelegateResult(table, u, p);
            && (power == 0.0 <==> v == Vote.Abstain)
            && (power > 0.0 <==> v == Vote.Yes)
            && (power < 0.0 <==> v == Vote.No)
  {
    DemoLayersPower(table, trustBonus, u, p, 0.0);
    var base := 1.0 + Get(trustBonus, u, 0.0) + DemoReputationScore(u);
    assert base >= 1.0;
  }
}
