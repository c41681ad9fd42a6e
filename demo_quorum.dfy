/** The notebook's quorum delegation: a delegating user's quorum is read from
    its candidate list, and its vote on a project follows the quorum only when
    enough of the quorum took part and they agree strongly enough. */
module DemoQuorum {
  import opened NqgTypes

  /** What a user declared this round: direct votes per project, or a list of
      candidate delegates. */
  datatype Declared =
    | Voting(votes: map<ProjectId, Vote>)
    | Delegating(candidates: seq<UserId>)

  /** `USER_ACTIONS`: every user's declared round action. */
  type ActionTable = map<UserId, Declared>

  /** The loop of `query_user_quorum` from the candidates still to visit, with the
      quorum `acc` gathered so far: a known direct voter is appended, and the walk
      stops as soon as a known candidate leaves the quorum at exactly `max` members. */
  function QuorumFrom(table: ActionTable, cands: seq<UserId>, acc: seq<UserId>, max: int): (r: seq<UserId>)
    ensures forall u :: u in r ==> u in acc || (u in cands && u in table && table[u].Voting?)
    decreases |cands|
  {
    if cands == [] then acc
    else if cands[0] !in table then QuorumFrom(table, cands[1..], acc, max)
    else
      var next := if table[cands[0]].Voting? then acc + [cands[0]] else acc;
      if |next| == max then next else QuorumFrom(table, cands[1..], next, max)
  }

  /** `query_user_quorum`: None for a user who does not delegate. */
  function UserQuorum(table: ActionTable, userId: UserId, maxQuorumSize: int): (r: Option<seq<UserId>>)
    requires userId in table
    ensures r.None? <==> !table[userId].Delegating?
    ensures r.Some? ==> forall u :: u in r.value ==> u in table && table[u].Voting?
  {
    match table[userId]
    case Voting(_) => None
    case Delegating(cands) => Some(QuorumFrom(table, cands, [], maxQuorumSize))
  }

  method QueryUserQuorum(table: ActionTable, userId: UserId, maxQuorumSize: int)
    returns (quorum: Option<seq<UserId>>)
    requires userId in table
    ensures quorum == UserQuorum(table, userId, maxQuorumSize)
  {
    if !table[userId].Delegating? {
      return None;
    }
    var actualQuorum: seq<UserId> := [];
    var currentDelegatees := table[userId].candidates;
    var i := 0;
    while i < |currentDelegatees|
      invariant 0 <= i <= |currentDelegatees|
      invariant UserQuorum(table, userId, maxQuorumSize)
             == Some(QuorumFrom(table, currentDelegatees[i..], actualQuorum, maxQuorumSize))
    {
      var delegatee := currentDelegatees[i];
      assert currentDelegatees[i..][0] == delegatee;
      assert currentDelegatees[i..][1..] == currentDelegatees[i + 1..];
      if delegatee in table {
        if table[delegatee].Voting? {
          actualQuorum := actualQuorum + [delegatee];
        }
        if |actualQuorum| == maxQuorumSize {
          return Some(actualQuorum);
        }
      }
      i := i + 1;
    }
    return Some(actualQuorum);
  }

  /** The candidates, in order and with repetitions, that are known direct voters. */
  function VotersIn(table: ActionTable, cands: seq<UserId>): seq<UserId>
  {
    if cands == [] then []
    else
      (if cands[0] in table && table[cands[0]].Voting? then [cands[0]] else [])
        + VotersIn(table, cands[1..])
  }

  /** The first `n` elements, or all of them. */
  function Take(s: seq<UserId>, n: nat): (r: seq<UserId>)
    ensures |r| <= n && |r| <= |s| && r == s[..|r|]
    ensures |s| <= n ==> r == s
  {
    if |s| <= n then s else s[..n]
  }

  lemma {:induction false} QuorumFromIsTake(table: ActionTable, cands: seq<UserId>, acc: seq<UserId>, max: int)
    requires |acc| < max
    ensures QuorumFrom(table, cands, acc, max) == Take(acc + VotersIn(table, cands), max)
    decreases |cands|
  {
    if cands == [] {
      assert acc + [] == acc;
    } else {
      var c := cands[0];
      var rest := VotersIn(table, cands[1..]);
      if c !in table {
        assert VotersIn(table, cands) == rest;
        assert QuorumFrom(table, cands, acc, max) == QuorumFrom(table, cands[1..], acc, max);
        QuorumFromIsTake(table, cands[1..], acc, max);
      } else if table[c].Voting? {
        var next := acc + [c];
        assert VotersIn(table, cands) == [c] + rest;
        assert acc + VotersIn(table, cands) == next + rest;
        if |next| == max {
          assert QuorumFrom(table, cands, acc, max) == next;
          assert (next + rest)[..max] == next;
        } else {
          assert QuorumFrom(table, cands, acc, max) == QuorumFrom(table, cands[1..], next, max);
          QuorumFromIsTake(table, cands[1..], next, max);
        }
      } else {
        assert VotersIn(table, cands) == rest;
        assert QuorumFrom(table, cands, acc, max) == QuorumFrom(table, cands[1..], acc, max);
        QuorumFromIsTake(table, cands[1..], acc, max);
      }
    }
  }

  /** With a cap of at least one, a delegator's quorum is the first `max` of its
      candidates that are known direct voters, in candidate order, repetitions kept. */
  lemma UserQuorumIsFirstVoters(table: ActionTable, userId: UserId, maxQuorumSize: int)
    requires userId in table && table[userId].Delegating?
    requires maxQuorumSize >= 1
    ensures UserQuorum(table, userId, maxQuorumSize) ==
              Some(Take(VotersIn(table, table[userId].candidates), maxQuorumSize))
    ensures |UserQuorum(table, userId, maxQuorumSize).value| <= maxQuorumSize
  {
    QuorumFromIsTake(table, table[userId].candidates, [], maxQuorumSize);
    assert [] + VotersIn(table, table[userId].candidates) == VotersIn(table, table[userId].candidates);
  }

  /** Every member of `quorum` is a known direct voter. */
  predicate AllVoting(table: ActionTable, quorum: seq<UserId>)
  {
    forall u :: u in quorum ==> u in table && table[u].Voting?
  }

  /** The members of `quorum` with a recorded vote on the project, counted with repetitions. */
  function ActiveCount(table: ActionTable, quorum: seq<UserId>, p: ProjectId): (n: nat)
    requires AllVoting(table, quorum)
    ensures n <= |quorum|
  {
    if quorum == [] then 0
    else
      var last := quorum[|quorum| - 1];
      ActiveCount(table, quorum[..|quorum| - 1], p) + (if p in table[last].votes then 1 else 0)
  }

  /** `quorum_participation`: the active share of a quorum of nominal size
      `quorumSize`; None where the division by zero raises. */
  function Participation(table: ActionTable, quorum: seq<UserId>, p: ProjectId, quorumSize: int): Option<real>
    requires AllVoting(table, quorum)
  {
    if quorumSize == 0 then None
    else Some(ActiveCount(table, quorum, p) as real / quorumSize as real)
  }

  method QuorumParticipation(table: ActionTable, quorum: seq<UserId>, projectId: ProjectId, quorumSize: int)
    returns (share: Option<real>)
    requires AllVoting(table, quorum)
    ensures share == Participation(table, quorum, projectId, quorumSize)
  {
    var activeDelegatees := 0;
    var i := 0;
    while i < |quorum|
      invariant 0 <= i <= |quorum|
      invariant activeDelegatees == ActiveCount(table, quorum[..i], projectId)
    {
      assert quorum[..i + 1][..i] == quorum[..i];
      if projectId in table[quorum[i]].votes {
        activeDelegatees := activeDelegatees + 1;
      }
      i := i + 1;
    }
    assert quorum[..i] == quorum;
    if quorumSize == 0 {
      return None;
    }
    return Some(activeDelegatees as real / quorumSize as real);
  }

  /** The divisor is the nominal size, so the share lies in [0, 1] whenever the
      quorum is no larger than it. */
  lemma ParticipationInUnitInterval(table: ActionTable, quorum: seq<UserId>, p: ProjectId, quorumSize: int)
    requires AllVoting(table, quorum)
    requires quorumSize > 0 && |quorum| <= quorumSize
    ensures Participation(table, quorum, p, quorumSize).Some?
    ensures 0.0 <= Participation(table, quorum, p, quorumSize).value <= 1.0
  {
    var a := ActiveCount(table, quorum, p) as real;
    var b := quorumSize as real;
    assert a / b * b == a;
  }

  /** The summed vote coefficients of the members' recorded votes: +1, -1 or 0 each. */
  function AgreementSum(table: ActionTable, quorum: seq<UserId>, p: ProjectId): real
    requires AllVoting(table, quorum)
  {
    if quorum == [] then 0.0
    else
      var last := quorum[|quorum| - 1];
      AgreementSum(table, quorum[..|quorum| - 1], p)
        + (if p in table[last].votes then Coefficient(table[last].votes[p]) else 0.0)
  }

  /** `quorum_agreement`: mean recorded coefficient, offset by the initial agreement;
      None where no member recorded a vote and the division by zero raises. */
  function Agreement(table: ActionTable, quorum: seq<UserId>, p: ProjectId, initialAgreement: real): Option<real>
    requires AllVoting(table, quorum)
  {
    var n := ActiveCount(table, quorum, p);
    if n == 0 then None
    else Some((initialAgreement + AgreementSum(table, quorum, p)) / n as real)
  }

  method QuorumAgreement(table: ActionTable, quorum: seq<UserId>, projectId: ProjectId, initialAgreement: real)
    returns (agreement: Option<real>)
    requires AllVoting(table, quorum)
    ensures agreement == Agreement(table, quorum, projectId, initialAgreement)
  {
    var total := initialAgreement;
    var quorumSize := 0;
    var i := 0;
    while i < |quorum|
      invariant 0 <= i <= |quorum|
      invariant quorumSize == ActiveCount(table, quorum[..i], projectId)
      invariant total == initialAgreement + AgreementSum(table, quorum[..i], projectId)
    {
      assert quorum[..i + 1][..i] == quorum[..i];
      var delegateeVotes := table[quorum[i]].votes;
      if projectId in delegateeVotes {
        var action := delegateeVotes[projectId];
        quorumSize := quorumSize + 1;
        if action == Vote.Yes {
          total := total + 1.0;
        } else if action == Vote.No {
          total := total + -1.0;
        } else {
          total := total + 0.0;
        }
      }
      i := i + 1;
    }
    assert quorum[..i] == quorum;
    if quorumSize == 0 {
      return None;
    }
    return Some(total / quorumSize as real);
  }

  /** How many members recorded the vote `v` on the project. */
  function CountVote(table: ActionTable, quorum: seq<UserId>, p: ProjectId, v: Vote): nat
    requires AllVoting(table, quorum)
  {
    if quorum == [] then 0
    else
      var last := quorum[|quorum| - 1];
      CountVote(table, quorum[..|quorum| - 1], p, v)
        + (if p in table[last].votes && table[last].votes[p] == v then 1 else 0)
  }

  /** The coefficient sum is #Yes - #No, and it is bounded by the active count. */
  lemma {:induction false} AgreementSumByCounts(table: ActionTable, quorum: seq<UserId>, p: ProjectId)
    requires AllVoting(table, quorum)
    ensures AgreementSum(table, quorum, p) ==
              CountVote(table, quorum, p, Vote.Yes) as real - CountVote(table, quorum, p, Vote.No) as real
    ensures -(ActiveCount(table, quorum, p) as real) <= AgreementSum(table, quorum, p)
                                                    <= ActiveCount(table, quorum, p) as real
    decreases |quorum|
  {
    if quorum != [] {
      AgreementSumByCounts(table, quorum[..|quorum| - 1], p);
    }
  }

  /** With no initial offset the agreement lies in [-1, 1]; it exists exactly when
      some member recorded a vote. */
  lemma AgreementInUnitBall(table: ActionTable, quorum: seq<UserId>, p: ProjectId)
    requires AllVoting(table, quorum)
    ensures Agreement(table, quorum, p, 0.0).Some? <==> ActiveCount(table, quorum, p) > 0
    ensures Agreement(table, quorum, p, 0.0).Some? ==> -1.0 <= Agreement(table, quorum, p, 0.0).value <= 1.0
  {
    AgreementSumByCounts(table, quorum, p);
    var n := ActiveCount(table, quorum, p);
    if n > 0 {
      var s := AgreementSum(table, quorum, p);
      assert 0.0 + s == s;
      QuotientInUnitBall(s, n as real);
    }
  }

  /** What `query_user_vote` returns: a vote, or the marker of a delegating user. */
  datatype UserVote = Cast(vote: Vote) | DelegateMarker

  /** `query_user_vote`. */
  function QueryUserVote(table: ActionTable, userId: UserId, projectId: ProjectId): (r: UserVote)
    ensures r.DelegateMarker? <==> userId in table && table[userId].Delegating?
    ensures r.Cast? && r.vote != Vote.Abstain <==>
              userId in table && table[userId].Voting? && projectId in table[userId].votes &&
              table[userId].votes[projectId] != Vote.Abstain
    ensures r.Cast? && r.vote != Vote.Abstain ==> r.vote == table[userId].votes[projectId]
  {
    if userId !in table then Cast(Vote.Abstain)
    else
      match table[userId]
      case Voting(votes) => if projectId in votes then Cast(votes[projectId]) else Cast(Vote.Abstain)
      case Delegating(_) => DelegateMarker
  }

  /** `quorum_delegate_result`: a non-delegator's own vote; a delegator follows its
      quorum of at most five when more than `participationThreshold` of five took
      part and the agreement passes `agreementThreshold` in either direction.
      None where the agreement's division by zero raises. */
  function QuorumDelegateResult(table: ActionTable, userId: UserId, projectId: ProjectId,
                                participationThreshold: real, agreementThreshold: real): (r: Option<Vote>)
    ensures r.None? ==> userId in table && table[userId].Delegating?
  {
    match QueryUserVote(table, userId, projectId)
    case Cast(v) => Some(v)
    case DelegateMarker =>
      var quorum := UserQuorum(table, userId, 5).value;
      if Participation(table, quorum, projectId, 5).value > participationThreshold then
        match Agreement(table, quorum, projectId, 0.0)
        case None => None
        case Some(agreement) =>
          if agreement > agreementThreshold then Some(Vote.Yes)
          else if agreement < -agreementThreshold then Some(Vote.No)
          else Some(Vote.Abstain)
      else Some(Vote.Abstain)
  }

  /** A non-negative participation threshold is only passed with some recorded vote,
      so the agreement never divides by zero. */
  lemma QuorumDelegateResultDefined(table: ActionTable, userId: UserId, projectId: ProjectId,
                                    participationThreshold: real, agreementThreshold: real)
    requires participationThreshold >= 0.0
    ensures QuorumDelegateResult(table, userId, projectId, participationThreshold, agreementThreshold).Some?
  {
    if QueryUserVote(table, userId, projectId).DelegateMarker? {
      var quorum := UserQuorum(table, userId, 5).value;
      if Participation(table, quorum, projectId, 5).value > participationThreshold {
        assert ActiveCount(table, quorum, projectId) > 0;
      }
    }
  }

  /** The resolved vote under the default thresholds 0.66 and 0.5. */
  function DefaultDelegateResult(table: ActionTable, userId: UserId, projectId: ProjectId): Vote
  {
    QuorumDelegateResultDefined(table, userId, projectId, 0.66, 0.5);
    QuorumDelegateResult(table, userId, projectId, 0.66, 0.5).value
  }

  /** For a positive divisor, comparing a quotient is comparing the dividend. */
  lemma QuotientComparison(s: real, n: real, c: real)
    requires n > 0.0
    ensures s / n > c <==> s > c * n
    ensures s / n < -c <==> s < -c * n
  {
    assert s / n * n == s;
    if s / n > c { assert s / n * n > c * n; }
    if s > c * n { assert s / n * n > c * n; }
    if s / n < -c { assert s / n * n < -c * n; }
    if s < -c * n { assert s / n * n < -c * n; }
  }

  /** Under the defaults a delegator votes Yes or No only when at least four of its
      quorum recorded a vote, and then leans that way by more than half of them. */
  lemma DelegatedDecisionNeedsFourVotes(table: ActionTable, userId: UserId, projectId: ProjectId)
    requires userId in table && table[userId].Delegating?
    requires DefaultDelegateResult(table, userId, projectId) != Vote.Abstain
    ensures var quorum := UserQuorum(table, userId, 5).value;
            var n := ActiveCount(table, quorum, projectId);
            var lean := CountVote(table, quorum, projectId, Vote.Yes) as real
                          - CountVote(table, quorum, projectId, Vote.No) as real;
            && n >= 4
            && (DefaultDelegateResult(table, userId, projectId) == Vote.Yes <==> lean > 0.5 * n as real)
            && (DefaultDelegateResult(table, userId, projectId) == Vote.No <==> lean < -0.5 * n as real)
  {
    var quorum := UserQuorum(table, userId, 5).value;
    var n := ActiveCount(table, quorum, projectId);
    var share := Participation(table, quorum, projectId, 5).value;
    assert QueryUserVote(table, userId, projectId) == DelegateMarker;
    assert share > 0.66;
    assert share == n as real / 5.0;
    assert n >= 4;
    AgreementSumByCounts(table, quorum, projectId);
    var s := AgreementSum(table, quorum, projectId);
    assert Agreement(table, quorum, projectId, 0.0) == Some((0.0 + s) / n as real);
    assert 0.0 + s == s;
    QuotientComparison(s, n as real, 0.5);
  }

  /** Non-delegators keep their own vote, and an unknown user abstains. */
  lemma NonDelegatorKeepsVote(table: ActionTable, userId: UserId, projectId: ProjectId)
    requires !(userId in table && table[userId].Delegating?)
    ensures DefaultDelegateResult(table, userId, projectId) ==
              if userId in table && projectId in table[userId].votes then table[userId].votes[projectId]
              else Vote.Abstain
  {
  }
}
