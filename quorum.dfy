/** The package's quorum-delegation resolver: a delegating user's vote on a
    project, taken from the recorded votes of the first few of its delegates who
    vote directly this round, through an absolute and a relative agreement gate. */
module QuorumDelegation {
  import opened NqgTypes

  /** Each user's resolved vote per project. */
  type ActionMatrix = map<UserId, map<ProjectId, Vote>>

  /** The round decisions as an insertion-ordered dictionary. */
  type Decisions = seq<(UserId, Action)>

  predicate DistinctKeys(ds: Decisions)
  {
    forall i, j :: 0 <= i < j < |ds| ==> ds[i].0 != ds[j].0
  }

  /** The decision map's users, in its order, who vote directly and are in the quorum. */
  function ValidDelegates(userQuorum: seq<UserId>, userDecisions: Decisions): (r: seq<UserId>)
    ensures |r| <= |userDecisions|
  {
    if userDecisions == [] then []
    else
      var u := userDecisions[0].0;
      var d := userDecisions[0].1;
      (if d == Action.RoundVote && u in userQuorum then [u] else [])
        + ValidDelegates(userQuorum, userDecisions[1..])
  }

  /** A user is a valid delegate exactly when it is in the quorum and votes directly. */
  lemma {:induction false} ValidDelegatesMembers(userQuorum: seq<UserId>, userDecisions: Decisions)
    ensures forall u :: u in ValidDelegates(userQuorum, userDecisions) <==>
              u in userQuorum && (u, Action.RoundVote) in userDecisions
    decreases |userDecisions|
  {
    if userDecisions != [] {
      ValidDelegatesMembers(userQuorum, userDecisions[1..]);
      assert userDecisions == [userDecisions[0]] + userDecisions[1..];
    }
  }

  /** `valid[:max]` when there are more than `max` valid delegates. */
  function SelectedDelegates(valid: seq<UserId>, maxSelected: int): seq<UserId>
    requires maxSelected > 0
  {
    if |valid| > maxSelected then valid[..maxSelected] else valid
  }

  /** `action_matrix.get(u, {}).get(p, None)`. */
  function RecordedVote(am: ActionMatrix, u: UserId, p: ProjectId): Option<Vote>
  {
    if u in am && p in am[u] then Some(am[u][p]) else None
  }

  function Weight(v: Vote, params: Params): real
  {
    match v
    case Yes => params.quorumAgreementWeightYes
    case No => params.quorumAgreementWeightNo
    case Abstain => params.quorumAgreementWeightAbstain
  }

  /** How many of the delegates have a recorded vote on the project. */
  function QuorumSize(delegates: seq<UserId>, p: ProjectId, am: ActionMatrix): (n: nat)
    ensures n <= |delegates|
  {
    if delegates == [] then 0
    else
      QuorumSize(delegates[..|delegates| - 1], p, am)
        + (if RecordedVote(am, delegates[|delegates| - 1], p).Some? then 1 else 0)
  }

  /** The summed weights of the delegates' recorded votes. */
  function Agreement(delegates: seq<UserId>, p: ProjectId, am: ActionMatrix, params: Params): real
  {
    if delegates == [] then 0.0
    else
      var last := RecordedVote(am, delegates[|delegates| - 1], p);
      Agreement(delegates[..|delegates| - 1], p, am, params)
        + (if last.Some? then Weight(last.value, params) else 0.0)
  }

  /** Agreement relative to the configured cap. */
  function AbsoluteAgreement(agreement: real, params: Params): real
    requires params.maxQuorumSelectedDelegates > 0
  {
    agreement / params.maxQuorumSelectedDelegates as real
  }

  /** Agreement relative to the delegates who voted; 0.0 for an empty quorum. */
  function RelativeAgreement(agreement: real, quorumSize: nat): real
  {
    if quorumSize > 0 then agreement / quorumSize as real else 0.0
  }

  /** The two-gate consensus rule. A decided vote needs an agreement of at least
      the absolute threshold times the cap; Yes needs some recorded vote and a
      positive agreement, No a non-positive one or an empty quorum. */
  function ResolveQuorum(agreement: real, quorumSize: nat, params: Params): (r: Vote)
    requires params.maxQuorumSelectedDelegates > 0
    ensures r != Vote.Abstain ==>
              Abs(agreement) >= params.quorumDelegationAbsoluteThreshold * params.maxQuorumSelectedDelegates as real
    ensures r == Vote.Yes ==> quorumSize > 0 && agreement > 0.0
    ensures r == Vote.No ==> quorumSize == 0 || agreement <= 0.0
  {
    ScaledThreshold(agreement, params.maxQuorumSelectedDelegates as real, params.quorumDelegationAbsoluteThreshold);
    var absolute := AbsoluteAgreement(agreement, params);
    var relative := RelativeAgreement(agreement, quorumSize);
    if Abs(absolute) >= params.quorumDelegationAbsoluteThreshold then
      if Abs(relative) >= params.quorumDelegationRelativeThreshold then
        if relative > 0.0 then Vote.Yes else Vote.No
      else Vote.Abstain
    else Vote.Abstain
  }

  /** Comparing |a / m| with a threshold is comparing |a| with the scaled threshold. */
  lemma ScaledThreshold(a: real, m: real, t: real)
    requires m > 0.0
    ensures Abs(a / m) >= t <==> Abs(a) >= t * m
  {
    assert a / m * m == a;
    assert Abs(a / m) * m == Abs(a);
  }

  /** The resolved vote of `vote_from_quorum_delegation`. */
  function QuorumVote(userQuorum: seq<UserId>, projectId: ProjectId, am: ActionMatrix,
                      userDecisions: Decisions, params: Params): Vote
    requires params.maxQuorumSelectedDelegates > 0
  {
    var selected := SelectedDelegates(ValidDelegates(userQuorum, userDecisions), params.maxQuorumSelectedDelegates);
    ResolveQuorum(Agreement(selected, projectId, am, params), QuorumSize(selected, projectId, am), params)
  }

  /** `vote_from_quorum_delegation`. */
  method VoteFromQuorumDelegation(userQuorum: seq<UserId>, projectId: ProjectId, actionMatrix: ActionMatrix,
                                  userDecisions: Decisions, params: Params)
    returns (vote: Vote)
    requires params.maxQuorumSelectedDelegates > 0
    ensures vote == QuorumVote(userQuorum, projectId, actionMatrix, userDecisions, params)
  {
    var validDelegates := ValidDelegates(userQuorum, userDecisions);
    var selectedDelegates := validDelegates;
    if |validDelegates| > params.maxQuorumSelectedDelegates {
      selectedDelegates := validDelegates[..params.maxQuorumSelectedDelegates];
    }
    var agreement := 0.0;
    var quorumSize := 0;
    var i := 0;
    while i < |selectedDelegates|
      invariant 0 <= i <= |selectedDelegates|
      invariant quorumSize == QuorumSize(selectedDelegates[..i], projectId, actionMatrix)
      invariant agreement == Agreement(selectedDelegates[..i], projectId, actionMatrix, params)
    {
      var delegate := selectedDelegates[i];
      assert selectedDelegates[..i + 1][..i] == selectedDelegates[..i];
      var delegateeActions := if delegate in actionMatrix then actionMatrix[delegate] else map[];
      if projectId in delegateeActions {
        var action := delegateeActions[projectId];
        quorumSize := quorumSize + 1;
        if action == Vote.Yes {
          agreement := agreement + params.quorumAgreementWeightYes;
        } else if action == Vote.No {
          agreement := agreement + params.quorumAgreementWeightNo;
        } else {
          agreement := agreement + params.quorumAgreementWeightAbstain;
        }
      }
      i := i + 1;
    }
    assert selectedDelegates[..i] == selectedDelegates;
    var absoluteAgreement := agreement / params.maxQuorumSelectedDelegates as real;
    var relativeAgreement := 0.0;
    if quorumSize > 0 {
      relativeAgreement := agreement / quorumSize as real;
    }
    if Abs(absoluteAgreement) >= params.quorumDelegationAbsoluteThreshold {
      if Abs(relativeAgreement) >= params.quorumDelegationRelativeThreshold {
        if relativeAgreement > 0.0 {
          return Vote.Yes;
        } else {
          return Vote.No;
        }
      } else {
        return Vote.Abstain;
      }
    } else {
      return Vote.Abstain;
    }
  }

  /** The selection is the first min(max, n) valid delegates, all direct voters
      in the quorum; under a dictionary's distinct keys no delegating or
      abstaining user is ever selected. */
  lemma SelectionIsBoundedPrefix(userQuorum: seq<UserId>, userDecisions: Decisions, maxSelected: int)
    requires maxSelected > 0
    ensures var valid := ValidDelegates(userQuorum, userDecisions);
            var selected := SelectedDelegates(valid, maxSelected);
            && |selected| == (if |valid| < maxSelected then |valid| else maxSelected)
            && selected == valid[..|selected|]
            && (forall u :: u in selected ==> u in userQuorum && (u, Action.RoundVote) in userDecisions)
    ensures DistinctKeys(userDecisions) ==>
              forall i :: 0 <= i < |userDecisions| && userDecisions[i].1 != Action.RoundVote ==>
                userDecisions[i].0 !in SelectedDelegates(ValidDelegates(userQuorum, userDecisions), maxSelected)
  {
    var valid := ValidDelegates(userQuorum, userDecisions);
    var selected := SelectedDelegates(valid, maxSelected);
    ValidDelegatesMembers(userQuorum, userDecisions);
    forall u | u in selected
      ensures u in valid
    {
      if |valid| > maxSelected {
        var k :| 0 <= k < |selected| && selected[k] == u;
        assert valid[k] == u;
      }
    }
    if DistinctKeys(userDecisions) {
      forall i | 0 <= i < |userDecisions| && userDecisions[i].1 != Action.RoundVote
        ensures userDecisions[i].0 !in selected
      {
        var u := userDecisions[i].0;
        forall j | 0 <= j < |userDecisions|
          ensures userDecisions[j] != (u, Action.RoundVote)
        {
          if j < i {
            assert userDecisions[j].0 != u;
          } else if j > i {
            assert userDecisions[j].0 != u;
          }
        }
        assert (u, Action.RoundVote) !in userDecisions;
      }
    }
  }

  /** The selection follows the decision map's order, not the quorum's. */
  lemma SelectionFollowsDecisionOrder()
    ensures SelectedDelegates(ValidDelegates(["b", "a"], [("a", Action.RoundVote), ("b", Action.RoundVote)]), 1) == ["a"]
  {
    assert ValidDelegates(["b", "a"], [("a", Action.RoundVote), ("b", Action.RoundVote)]) == ["a", "b"];
  }

  /** Delegates without a recorded vote contribute no agreement, so an empty quorum
      has zero agreement. */
  lemma {:induction false} EmptyQuorumHasNoAgreement(delegates: seq<UserId>, p: ProjectId, am: ActionMatrix, params: Params)
    requires QuorumSize(delegates, p, am) == 0
    ensures Agreement(delegates, p, am, params) == 0.0
    decreases |delegates|
  {
    if delegates != [] {
      EmptyQuorumHasNoAgreement(delegates[..|delegates| - 1], p, am, params);
    }
  }

  /** An empty quorum resolves to Abstain whenever the absolute threshold is positive;
      with both thresholds at most zero the rule yields No instead. */
  lemma EmptyQuorumResult(userQuorum: seq<UserId>, projectId: ProjectId, am: ActionMatrix,
                          userDecisions: Decisions, params: Params)
    requires params.maxQuorumSelectedDelegates > 0
    requires QuorumSize(SelectedDelegates(ValidDelegates(userQuorum, userDecisions), params.maxQuorumSelectedDelegates),
                        projectId, am) == 0
    ensures params.quorumDelegationAbsoluteThreshold > 0.0 ==>
              QuorumVote(userQuorum, projectId, am, userDecisions, params) == Vote.Abstain
    ensures params.quorumDelegationAbsoluteThreshold <= 0.0 && params.quorumDelegationRelativeThreshold <= 0.0 ==>
              QuorumVote(userQuorum, projectId, am, userDecisions, params) == Vote.No
  {
    var selected := SelectedDelegates(ValidDelegates(userQuorum, userDecisions), params.maxQuorumSelectedDelegates);
    EmptyQuorumHasNoAgreement(selected, projectId, am, params);
  }

  /** How many of the delegates recorded the vote `v` on the project. */
  function CountRecorded(delegates: seq<UserId>, p: ProjectId, am: ActionMatrix, v: Vote): nat
  {
    if delegates == [] then 0
    else
      CountRecorded(delegates[..|delegates| - 1], p, am, v)
        + (if RecordedVote(am, delegates[|delegates| - 1], p) == Some(v) then 1 else 0)
  }

  /** `wYes * yes + wNo * no + wAbstain * abstain`. */
  function WeightedCount(yes: nat, no: nat, abstain: nat, params: Params): real
  {
    params.quorumAgreementWeightYes * yes as real
      + params.quorumAgreementWeightNo * no as real
      + params.quorumAgreementWeightAbstain * abstain as real
  }

  /** The quorum is the number of recorded outcomes, whichever they are. */
  lemma {:induction false} QuorumSizeByCounts(delegates: seq<UserId>, p: ProjectId, am: ActionMatrix)
    ensures QuorumSize(delegates, p, am) ==
              CountRecorded(delegates, p, am, Vote.Yes) + CountRecorded(delegates, p, am, Vote.No)
              + CountRecorded(delegates, p, am, Vote.Abstain)
    decreases |delegates|
  {
    if delegates != [] {
      QuorumSizeByCounts(delegates[..|delegates| - 1], p, am);
      var last := RecordedVote(am, delegates[|delegates| - 1], p);
      match last {
        case None =>
        case Some(v) =>
          assert v == Vote.Yes || v == Vote.No || v == Vote.Abstain;
      }
    }
  }

  /** Agreement is the weighted count of each recorded outcome. */
  lemma {:induction false} AgreementByCounts(delegates: seq<UserId>, p: ProjectId, am: ActionMatrix, params: Params)
    ensures Agreement(delegates, p, am, params) ==
              WeightedCount(CountRecorded(delegates, p, am, Vote.Yes), CountRecorded(delegates, p, am, Vote.No),
                            CountRecorded(delegates, p, am, Vote.Abstain), params)
    decreases |delegates|
  {
    if delegates != [] {
      var init := delegates[..|delegates| - 1];
      AgreementByCounts(init, p, am, params);
      var y := CountRecorded(init, p, am, Vote.Yes);
      var n := CountRecorded(init, p, am, Vote.No);
      var a := CountRecorded(init, p, am, Vote.Abstain);
      var last := RecordedVote(am, delegates[|delegates| - 1], p);
      var w := WeightedCount(y, n, a, params);
      assert Agreement(delegates, p, am, params) ==
               w + (if last.Some? then Weight(last.value, params) else 0.0);
      assert CountRecorded(delegates, p, am, Vote.Yes) == y + (if last == Some(Vote.Yes) then 1 else 0);
      assert CountRecorded(delegates, p, am, Vote.No) == n + (if last == Some(Vote.No) then 1 else 0);
      assert CountRecorded(delegates, p, am, Vote.Abstain) == a + (if last == Some(Vote.Abstain) then 1 else 0);
      if last == Some(Vote.Yes) {
        WeightedCountStep(y, n, a, params);
      } else if last == Some(Vote.No) {
        WeightedCountStep(y, n, a, params);
      } else if last == Some(Vote.Abstain) {
        WeightedCountStep(y, n, a, params);
      }
    }
  }

  lemma WeightedCountStep(y: nat, n: nat, a: nat, params: Params)
    ensures WeightedCount(y + 1, n, a, params) == WeightedCount(y, n, a, params) + params.quorumAgreementWeightYes
    ensures WeightedCount(y, n + 1, a, params) == WeightedCount(y, n, a, params) + params.quorumAgreementWeightNo
    ensures WeightedCount(y, n, a + 1, params) == WeightedCount(y, n, a, params) + params.quorumAgreementWeightAbstain
  {
  }

  /** With every weight in [-1, 1] the agreement is bounded by the quorum size. */
  lemma {:induction false} AgreementBoundedBySize(delegates: seq<UserId>, p: ProjectId, am: ActionMatrix, params: Params)
    requires -1.0 <= params.quorumAgreementWeightYes <= 1.0
    requires -1.0 <= params.quorumAgreementWeightNo <= 1.0
    requires -1.0 <= params.quorumAgreementWeightAbstain <= 1.0
    ensures -(QuorumSize(delegates, p, am) as real) <= Agreement(delegates, p, am, params)
                                                     <= QuorumSize(delegates, p, am) as real
    decreases |delegates|
  {
    if delegates != [] {
      AgreementBoundedBySize(delegates[..|delegates| - 1], p, am, params);
    }
  }

  /** Under the default weights and cap both agreement fractions lie in [-1, 1]. */
  lemma DefaultAgreementBounds(userQuorum: seq<UserId>, projectId: ProjectId, am: ActionMatrix, userDecisions: Decisions)
    ensures var selected := SelectedDelegates(ValidDelegates(userQuorum, userDecisions), 5);
            var agreement := Agreement(selected, projectId, am, SingleRunParams);
            && -1.0 <= AbsoluteAgreement(agreement, SingleRunParams) <= 1.0
            && -1.0 <= RelativeAgreement(agreement, QuorumSize(selected, projectId, am)) <= 1.0
  {
    var params := SingleRunParams;
    var selected := SelectedDelegates(ValidDelegates(userQuorum, userDecisions), 5);
    var agreement := Agreement(selected, projectId, am, params);
    var size := QuorumSize(selected, projectId, am);
    AgreementBoundedBySize(selected, projectId, am, params);
    assert size <= 5;
    QuotientInUnitBall(agreement, 5.0);
    if size > 0 {
      QuotientInUnitBall(agreement, size as real);
    }
  }

  /** The five delegates "a" to "e", all voting directly. */
  function FiveVoters(): Decisions
  {
    [("a", Action.RoundVote), ("b", Action.RoundVote), ("c", Action.RoundVote),
     ("d", Action.RoundVote), ("e", Action.RoundVote)]
  }

  function FiveNames(): seq<UserId> { ["a", "b", "c", "d", "e"] }

  lemma FiveVotersAreValid()
    ensures ValidDelegates(FiveNames(), FiveVoters()) == FiveNames()
    ensures SelectedDelegates(FiveNames(), 5) == FiveNames()
  {
    var q := FiveNames();
    var ds := FiveVoters();
    assert q[0] == "a" && q[1] == "b" && q[2] == "c" && q[3] == "d" && q[4] == "e";
    var d4 := [("e", Action.RoundVote)];
    var d3 := [("d", Action.RoundVote)] + d4;
    var d2 := [("c", Action.RoundVote)] + d3;
    var d1 := [("b", Action.RoundVote)] + d2;
    assert ds == [("a", Action.RoundVote)] + d1;
    assert d4[1..] == [];
    assert ValidDelegates(q, d4) == ["e"];
    assert d3[1..] == d4;
    assert ValidDelegates(q, d3) == ["d", "e"];
    assert d2[1..] == d3;
    assert ValidDelegates(q, d2) == ["c", "d", "e"];
    assert d1[1..] == d2;
    assert ValidDelegates(q, d1) == ["b", "c", "d", "e"];
    assert ds[1..] == d1;
  }

  /** Five recorded votes on `p`: the first `yes` delegates Yes, the rest No. */
  function FiveVotes(p: ProjectId, yes: nat): ActionMatrix
  {
    map["a" := map[p := if yes > 0 then Vote.Yes else Vote.No],
        "b" := map[p := if yes > 1 then Vote.Yes else Vote.No],
        "c" := map[p := if yes > 2 then Vote.Yes else Vote.No],
        "d" := map[p := if yes > 3 then Vote.Yes else Vote.No],
        "e" := map[p := if yes > 4 then Vote.Yes else Vote.No]]
  }

  lemma FiveVoterTallies(p: ProjectId, yes: nat)
    requires yes <= 5
    ensures QuorumSize(FiveNames(), p, FiveVotes(p, yes)) == 5
    ensures Agreement(FiveNames(), p, FiveVotes(p, yes), SingleRunParams) == (2 * yes - 5) as real
  {
    var q := FiveNames();
    var am := FiveVotes(p, yes);
    var w := SingleRunParams;
    assert q[..4] == ["a", "b", "c", "d"];
    assert q[..4][..3] == ["a", "b", "c"];
    assert q[..4][..3][..2] == ["a", "b"];
    assert q[..4][..3][..2][..1] == ["a"];
    assert RecordedVote(am, "a", p) == Some(if yes > 0 then Vote.Yes else Vote.No);
    assert RecordedVote(am, "b", p) == Some(if yes > 1 then Vote.Yes else Vote.No);
    assert RecordedVote(am, "c", p) == Some(if yes > 2 then Vote.Yes else Vote.No);
    assert RecordedVote(am, "d", p) == Some(if yes > 3 then Vote.Yes else Vote.No);
    assert RecordedVote(am, "e", p) == Some(if yes > 4 then Vote.Yes else Vote.No);
    assert QuorumSize(["a"], p, am) == 1;
    assert QuorumSize(["a", "b"], p, am) == 2;
    assert QuorumSize(["a", "b", "c"], p, am) == 3;
    assert QuorumSize(["a", "b", "c", "d"], p, am) == 4;
    var y1 := if yes > 0 then 1.0 else -1.0;
    var y2 := if yes > 1 then 1.0 else -1.0;
    var y3 := if yes > 2 then 1.0 else -1.0;
    var y4 := if yes > 3 then 1.0 else -1.0;
    var y5 := if yes > 4 then 1.0 else -1.0;
    assert Agreement(["a"], p, am, w) == y1;
    assert Agreement(["a", "b"], p, am, w) == y1 + y2;
    assert Agreement(["a", "b", "c"], p, am, w) == y1 + y2 + y3;
    assert Agreement(["a", "b", "c", "d"], p, am, w) == y1 + y2 + y3 + y4;
    assert Agreement(q, p, am, w) == y1 + y2 + y3 + y4 + y5;
  }

  /** Five Yes votes resolve to Yes; three Yes and two No resolve to Abstain, since
      the absolute agreement 0.2 is under the 0.5 threshold. */
  lemma DefaultQuorumExamples(p: ProjectId)
    ensures QuorumVote(FiveNames(), p, FiveVotes(p, 5), FiveVoters(), SingleRunParams) == Vote.Yes
    ensures QuorumVote(FiveNames(), p, FiveVotes(p, 3), FiveVoters(), SingleRunParams) == Vote.Abstain
    ensures QuorumVote(FiveNames(), p, FiveVotes(p, 0), FiveVoters(), SingleRunParams) == Vote.No
  {
    FiveVoterResolution(p, 5);
    FiveVoterResolution(p, 3);
    FiveVoterResolution(p, 0);
    assert ResolveQuorum(5.0, 5, SingleRunParams) == Vote.Yes;
    assert ResolveQuorum(1.0, 5, SingleRunParams) == Vote.Abstain;
    assert ResolveQuorum(-5.0, 5, SingleRunParams) == Vote.No;
  }

  /** With five valid voters the quorum resolves their tally. */
  lemma FiveVoterResolution(p: ProjectId, yes: nat)
    requires yes <= 5
    ensures QuorumVote(FiveNames(), p, FiveVotes(p, yes), FiveVoters(), SingleRunParams) ==
              ResolveQuorum((2 * yes - 5) as real, 5, SingleRunParams)
  {
    FiveVotersAreValid();
    FiveVoterTallies(p, yes);
  }
}
