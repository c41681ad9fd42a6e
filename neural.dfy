/** Neural governance as the package defines it: a strictly sequential,
    feed-forward network of layers. Every neuron of a layer sees the same
    running score; the layer's aggregator reduces the weighted neuron outputs
    to the next running score. Oracles return None where the Python oracle
    raises, and the whole evaluation then fails. */
module NeuralGovernance {
  import opened NqgTypes
  import opened Aggregation
  import opened Oracles

  /** A neuron: an oracle fed (user, project, running score, oracle state)
      and a weighting applied to its raw output. */
  datatype Neuron = Neuron(
    oracle: (UserId, ProjectId, real, OracleState) -> Option<real>,
    weighting: real -> real)

  /** The neurons of a layer, in dictionary order, and its aggregator. */
  datatype NeuronLayer = NeuronLayer(neurons: seq<Neuron>, aggregator: Aggregator)

  /** No product layer is empty (`reduce` without an initial value fails on one). */
  predicate WellFormed(layers: seq<NeuronLayer>)
  {
    forall i :: 0 <= i < |layers| ==>
      (layers[i].aggregator.ProductAggregator? ==> |layers[i].neurons| > 0)
  }

  /** The weighted outputs of a layer's neurons, all fed the same running score. */
  function LayerVotes(neurons: seq<Neuron>, uid: UserId, pid: ProjectId, running: real, st: OracleState)
    : (r: Option<seq<real>>)
    ensures r.Some? <==> forall i :: 0 <= i < |neurons| ==> neurons[i].oracle(uid, pid, running, st).Some?
    ensures r.Some? ==> |r.value| == |neurons|
    ensures r.Some? ==> forall i :: 0 <= i < |neurons| ==>
              r.value[i] == neurons[i].weighting(neurons[i].oracle(uid, pid, running, st).value)
  {
    if neurons == [] then Some([])
    else
      match neurons[0].oracle(uid, pid, running, st)
      case None => None
      case Some(raw) =>
        match LayerVotes(neurons[1..], uid, pid, running, st)
        case None => None
        case Some(rest) => Some([neurons[0].weighting(raw)] + rest)
  }

  /** The vote after running `layers` from the running score `current`. */
  function Propagate(layers: seq<NeuronLayer>, uid: UserId, pid: ProjectId, st: OracleState, current: real)
    : Option<real>
    requires WellFormed(layers)
    decreases |layers|
  {
    if layers == [] then Some(current)
    else
      match LayerVotes(layers[0].neurons, uid, pid, current, st)
      case None => None
      case Some(votes) =>
        assert WellFormed(layers[1..]) by {
          forall i | 0 <= i < |layers[1..]|
            ensures layers[1..][i].aggregator.ProductAggregator? ==> |layers[1..][i].neurons| > 0
          {
            assert layers[1..][i] == layers[i + 1];
          }
        }
        Propagate(layers[1..], uid, pid, st, Aggregate(layers[0].aggregator, votes))
  }

  lemma WellFormedSuffix(layers: seq<NeuronLayer>, k: nat)
    requires WellFormed(layers) && k <= |layers|
    ensures WellFormed(layers[k..])
  {
    forall i | 0 <= i < |layers[k..]|
      ensures layers[k..][i].aggregator.ProductAggregator? ==> |layers[k..][i].neurons| > 0
    {
      assert layers[k..][i] == layers[k + i];
    }
  }

  /** `power_from_neural_governance`. Printing is left out, so the flag is unused
      and the result does not depend on it. */
  method PowerFromNeuralGovernance(uid: UserId, pid: ProjectId, neuronLayers: seq<NeuronLayer>,
                                   oracleState: OracleState, initialVotes: real, printOnEachLayer: bool)
    returns (power: Option<real>)
    requires WellFormed(neuronLayers)
    ensures power == Propagate(neuronLayers, uid, pid, oracleState, initialVotes)
    ensures neuronLayers == [] ==> power == Some(initialVotes)
  {
    var currentVote := initialVotes;
    var i := 0;
    while i < |neuronLayers|
      invariant 0 <= i <= |neuronLayers|
      invariant WellFormed(neuronLayers[i..])
      invariant Propagate(neuronLayers, uid, pid, oracleState, initialVotes)
             == Propagate(neuronLayers[i..], uid, pid, oracleState, currentVote)
    {
      var layer := neuronLayers[i];
      assert neuronLayers[i..][0] == layer;
      var neuronVotes: seq<real> := [];
      var j := 0;
      while j < |layer.neurons|
        invariant 0 <= j <= |layer.neurons|
        invariant |neuronVotes| == j
        invariant forall k :: 0 <= k < j ==>
          layer.neurons[k].oracle(uid, pid, currentVote, oracleState).Some? &&
          neuronVotes[k] == layer.neurons[k].weighting(layer.neurons[k].oracle(uid, pid, currentVote, oracleState).value)
      {
        var raw := layer.neurons[j].oracle(uid, pid, currentVote, oracleState);
        if raw.None? {
          assert LayerVotes(layer.neurons, uid, pid, currentVote, oracleState).None?;
          return None;
        }
        neuronVotes := neuronVotes + [layer.neurons[j].weighting(raw.value)];
        j := j + 1;
      }
      var computed := LayerVotes(layer.neurons, uid, pid, currentVote, oracleState);
      assert computed.Some? && |computed.value| == |neuronVotes|;
      assert forall k :: 0 <= k < |neuronVotes| ==> computed.value[k] == neuronVotes[k];
      assert computed.value == neuronVotes;
      assert neuronLayers[i..][1..] == neuronLayers[i + 1..];
      WellFormedSuffix(neuronLayers, i + 1);
      currentVote := Aggregate(layer.aggregator, neuronVotes);
      i := i + 1;
    }
    return Some(currentVote);
  }

  /** Running the layers `a + b` is running `b` from the result of `a`. */
  lemma {:induction false} PropagateConcat(a: seq<NeuronLayer>, b: seq<NeuronLayer>,
                                          uid: UserId, pid: ProjectId, st: OracleState, current: real)
    requires WellFormed(a) && WellFormed(b)
    ensures WellFormed(a + b)
    ensures Propagate(a + b, uid, pid, st, current) ==
              match Propagate(a, uid, pid, st, current)
              case None => None
              case Some(mid) => Propagate(b, uid, pid, st, mid)
    decreases |a|
  {
    assert WellFormed(a + b) by {
      forall i | 0 <= i < |a + b|
        ensures (a + b)[i].aggregator.ProductAggregator? ==> |(a + b)[i].neurons| > 0
      {
        if i < |a| { assert (a + b)[i] == a[i]; } else { assert (a + b)[i] == b[i - |a|]; }
      }
    }
    if a == [] {
      assert a + b == b;
    } else {
      assert (a + b)[0] == a[0];
      assert (a + b)[1..] == a[1..] + b;
      WellFormedSuffix(a, 1);
      match LayerVotes(a[0].neurons, uid, pid, current, st)
      case None =>
      case Some(votes) =>
        PropagateConcat(a[1..], b, uid, pid, st, Aggregate(a[0].aggregator, votes));
    }
  }

  /** `DEFAULT_NG_LAYERS`: trust and reputation summed, then the product of the
      single prior-voting neuron. The neurons pass the scored user's id to every
      oracle. */
  function DefaultNgLayers(): (r: seq<NeuronLayer>)
    ensures WellFormed(r)
  {
    [ NeuronLayer(
        [ Neuron((u: UserId, p: ProjectId, v: real, st: OracleState) => TrustScore(u, st), Identity),
          Neuron((u: UserId, p: ProjectId, v: real, st: OracleState) => ReputationScore(u, st), Identity) ],
        SumAggregator),
      NeuronLayer(
        [ Neuron((u: UserId, p: ProjectId, v: real, st: OracleState) => PriorVotingScore(u, st), Identity) ],
        ProductAggregator) ]
  }

  /** Under the default layers the power is the prior-voting score, whatever the
      trust and reputation values, provided neither of those oracles fails. */
  lemma DefaultNgLayersPower(uid: UserId, pid: ProjectId, st: OracleState, initialVotes: real)
    ensures WellFormed(DefaultNgLayers())
    ensures Propagate(DefaultNgLayers(), uid, pid, st, initialVotes) ==
              if TrustScore(uid, st).Some? && ReputationScore(uid, st).Some?
              then PriorVotingScore(uid, st)
              else None
  {
    var layers := DefaultNgLayers();
    assert WellFormed(layers);
    var n0 := layers[0].neurons;
    assert n0[0].oracle(uid, pid, initialVotes, st) == TrustScore(uid, st);
    assert n0[1].oracle(uid, pid, initialVotes, st) == ReputationScore(uid, st);
    var first := LayerVotes(n0, uid, pid, initialVotes, st);
    if TrustScore(uid, st).Some? && ReputationScore(uid, st).Some? {
      var t := TrustScore(uid, st).value;
      var r := ReputationScore(uid, st).value;
      assert first.Some? && first.value[0] == t && first.value[1] == r;
      assert first.value == [t, r];
      var mid := Sum([t, r]);
      assert layers[1..][1..] == [];
      var n1 := layers[1].neurons;
      assert n1[0].oracle(uid, pid, mid, st) == PriorVotingScore(uid, st);
      var second := LayerVotes(n1, uid, pid, mid, st);
      if PriorVotingScore(uid, st).Some? {
        var q := PriorVotingScore(uid, st).value;
        assert second.Some? && second.value[0] == q;
        assert second.value == [q];
        SmallProducts(q, q);
      } else {
        assert second.None?;
      }
    } else {
      assert first.None?;
    }
  }

  /** Two constant neurons summed (0.2 + 0.3), then a product with a constant 2.0. */
  function ConstantLayers(): seq<NeuronLayer>
  {
    [ NeuronLayer([Neuron((u: UserId, p: ProjectId, v: real, s: OracleState) => Some(0.2), Identity),
                   Neuron((u: UserId, p: ProjectId, v: real, s: OracleState) => Some(0.3), Identity)],
                  SumAggregator),
      NeuronLayer([Neuron((u: UserId, p: ProjectId, v: real, s: OracleState) => Some(2.0), Identity)],
                  ProductAggregator) ]
  }

  /** The running score of ConstantLayers goes 0.0, then 0.5, then 2.0: the product
      layer multiplies only its neurons' outputs, so the 0.5 carried in is dropped. */
  lemma ConstantLayersExample(uid: UserId, pid: ProjectId, st: OracleState)
    ensures WellFormed(ConstantLayers())
    ensures Propagate(ConstantLayers(), uid, pid, st, 0.0) == Some(2.0)
  {
    var layers := ConstantLayers();
    assert WellFormed(layers);
    var first := LayerVotes(layers[0].neurons, uid, pid, 0.0, st);
    assert first.Some? && first.value[0] == 0.2 && first.value[1] == 0.3;
    assert first.value == [0.2, 0.3];
    SmallSums(0.2, 0.3, 0.0);
    assert Propagate(layers, uid, pid, st, 0.0) == Propagate(layers[1..], uid, pid, st, 0.5);
    assert layers[1..][0] == layers[1];
    var second := LayerVotes(layers[1].neurons, uid, pid, 0.5, st);
    assert second.Some? && second.value[0] == 2.0;
    assert second.value == [2.0];
    SmallProducts(2.0, 2.0);
    assert layers[1..][1..] == [];
    assert Propagate(layers[1..], uid, pid, st, 0.5) == Propagate(layers[1..][1..], uid, pid, st, 2.0);
  }
}
