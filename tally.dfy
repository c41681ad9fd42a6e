/** The notebook's per-project tally: every user's power on every project is
    summed, non-zero voters are counted and recorded, and each project is funded
    when its power is positive and at least two users moved it. */
module Tally {
  import opened NqgTypes
  import opened DemoQuorum
  import opened DemoScoring

  /** A user's power on a project, as the tally reads it. The notebook computes it
      with `user_project_vote_power` under its layers; the tally is stated for any
      scorer, and NotebookScore is that one. */
  type Score = (UserId, ProjectId) -> real

  /** `user_project_vote_power(user, project, neuron_layers, 0.0)` under the
      notebook layers (the specification of UserProjectVotePower). */
  function NotebookPower(table: ActionTable, trustBonus: map<UserId, real>, u: UserId, p: ProjectId): (r: real)
    ensures r == (1.0 + Get(trustBonus, u, 0.0) + DemoReputationScore(u)) * Coefficient(DefaultDelegateResult(table, u, p))
  {
    DemoLayersPower(table, trustBonus, u, p, 0.0);
    DemoPropagate(DemoLayers(table, trustBonus), u, p, 0.0)
  }

  function NotebookScore(table: ActionTable, trustBonus: map<UserId, real>): Score
  {
    (u: UserId, p: ProjectId) => NotebookPower(table, trustBonus, u, p)
  }

  /** `fund_project`. */
  function FundProject(power: real, count: int): (funded: bool)
    ensures funded ==> power > 0.0
    ensures funded ==> count >= 2
    ensures power > 0.0 && count >= 2 ==> funded
  {
    (power > 0.0) && (count >= 2)
  }

  /** The summed power of `users` on the project. */
  function TotalPower(score: Score, users: seq<UserId>, p: ProjectId): real
  {
    if users == [] then 0.0
    else TotalPower(score, users[..|users| - 1], p) + score(users[|users| - 1], p)
  }

  /** How many of `users` have non-zero power on the project. */
  function NonZeroVoters(score: Score, users: seq<UserId>, p: ProjectId): (n: nat)
    ensures n <= |users|
  {
    if users == [] then 0
    else NonZeroVoters(score, users[..|users| - 1], p) + (if score(users[|users| - 1], p) != 0.0 then 1 else 0)
  }

  predicate Distinct(ps: seq<ProjectId>)
  {
    forall a, b :: 0 <= a < b < |ps| ==> ps[a] != ps[b]
  }

  /** The notebook's `votes[user][project]` entry exists. */
  predicate Recorded(votes: map<UserId, map<ProjectId, real>>, u: UserId, q: ProjectId)
  {
    u in votes && q in votes[u]
  }

  /** `votes[user][project] = vote` on a dictionary of dictionaries. */
  function RecordVote(votes: map<UserId, map<ProjectId, real>>, user: UserId, project: ProjectId, vote: real)
    : (r: map<UserId, map<ProjectId, real>>)
    ensures user in r && project in r[user] && r[user][project] == vote
  {
    votes[user := Get(votes, user, map[])[project := vote]]
  }

  /** Recording one vote adds exactly that entry and keeps every other one. */
  lemma RecordVoteFacts(votes: map<UserId, map<ProjectId, real>>, user: UserId, project: ProjectId, vote: real)
    ensures var r := RecordVote(votes, user, project, vote);
            forall u, q :: Recorded(r, u, q) <==> Recorded(votes, u, q) || (u == user && q == project)
    ensures var r := RecordVote(votes, user, project, vote);
            forall u, q :: Recorded(votes, u, q) && (u != user || q != project) ==> r[u][q] == votes[u][q]
  {
  }

  /** The votes recorded after visiting `users` on one project. */
  function VotesAfter(score: Score, votes0: map<UserId, map<ProjectId, real>>,
                      users: seq<UserId>, project: ProjectId): map<UserId, map<ProjectId, real>>
  {
    if users == [] then votes0
    else
      var before := VotesAfter(score, votes0, users[..|users| - 1], project);
      var vote := score(users[|users| - 1], project);
      if vote != 0.0 then RecordVote(before, users[|users| - 1], project, vote) else before
  }

  /** Visiting the users on a project adds exactly its non-zero votes and keeps
      every earlier entry. */
  lemma {:induction false} VotesAfterFacts(score: Score, votes0: map<UserId, map<ProjectId, real>>,
                                           users: seq<UserId>, project: ProjectId)
    requires forall u :: u in votes0 ==> project !in votes0[u]
    ensures var v := VotesAfter(score, votes0, users, project);
            forall u, q :: Recorded(v, u, q) && q != project ==>
              Recorded(votes0, u, q) && v[u][q] == votes0[u][q]
    ensures var v := VotesAfter(score, votes0, users, project);
            forall u :: u in v && project in v[u] ==>
              u in users && score(u, project) != 0.0 && v[u][project] == score(u, project)
    ensures var v := VotesAfter(score, votes0, users, project);
            forall u, q :: Recorded(votes0, u, q) ==> Recorded(v, u, q)
    ensures var v := VotesAfter(score, votes0, users, project);
            forall j :: 0 <= j < |users| && score(users[j], project) != 0.0 ==>
              users[j] in v && project in v[users[j]]
    decreases |users|
  {
    if users != [] {
      var init := users[..|users| - 1];
      VotesAfterFacts(score, votes0, init, project);
      RecordVoteFacts(VotesAfter(score, votes0, init, project), users[|users| - 1], project, score(users[|users| - 1], project));
      forall j | 0 <= j < |init| ensures users[j] == init[j] { }
      assert forall u :: u in init ==> u in users;
    }
  }

  /** Visiting one more user adds its power, counts it when non-zero and records it. */
  lemma TallyStep(score: Score, votes0: map<UserId, map<ProjectId, real>>,
                  users: seq<UserId>, j: nat, project: ProjectId, vote: real)
    requires j < |users| && vote == score(users[j], project)
    ensures TotalPower(score, users[..j + 1], project) == TotalPower(score, users[..j], project) + vote
    ensures NonZeroVoters(score, users[..j + 1], project) ==
              NonZeroVoters(score, users[..j], project) + (if vote != 0.0 then 1 else 0)
    ensures VotesAfter(score, votes0, users[..j + 1], project) ==
              if vote != 0.0 then RecordVote(VotesAfter(score, votes0, users[..j], project), users[j], project, vote)
              else VotesAfter(score, votes0, users[..j], project)
  {
    assert users[..j + 1][..j] == users[..j];
    assert users[..j + 1][j] == users[j];
  }

  /** `d[project] += x` on a `defaultdict(float)`. */
  function AddPower(m: map<ProjectId, real>, project: ProjectId, x: real): (r: map<ProjectId, real>)
    ensures project in r && r[project] == Get(m, project, 0.0) + x
    ensures forall q :: q != project ==> (q in r <==> q in m) && (q in m ==> r[q] == m[q])
  {
    m[project := Get(m, project, 0.0) + x]
  }

  /** `d[project] += x` on a `defaultdict(int)`. */
  function AddCount(m: map<ProjectId, int>, project: ProjectId, x: int): (r: map<ProjectId, int>)
    ensures project in r && r[project] == Get(m, project, 0) + x
    ensures forall q :: q != project ==> (q in r <==> q in m) && (q in m ==> r[q] == m[q])
  {
    m[project := Get(m, project, 0) + x]
  }

  /** Two increments of one key are one increment by the sum. */
  lemma AddPowerTwice(m: map<ProjectId, real>, project: ProjectId, x: real, y: real)
    ensures AddPower(AddPower(m, project, x), project, y) == AddPower(m, project, x + y)
  {
  }

  lemma AddCountTwice(m: map<ProjectId, int>, project: ProjectId, x: int, y: int)
    ensures AddCount(AddCount(m, project, x), project, y) == AddCount(m, project, x + y)
  {
  }

  /** The power map after visiting `users` on the project. */
  function PowerAfter(score: Score, power0: map<ProjectId, real>, users: seq<UserId>, project: ProjectId)
    : map<ProjectId, real>
  {
    if users == [] then power0 else AddPower(power0, project, TotalPower(score, users, project))
  }

  /** The count map after visiting `users` on the project. */
  function CountAfter(score: Score, count0: map<ProjectId, int>, users: seq<UserId>, project: ProjectId)
    : map<ProjectId, int>
  {
    if NonZeroVoters(score, users, project) == 0 then count0
    else AddCount(count0, project, NonZeroVoters(score, users, project))
  }

  /** One more user adds its power to the project's entry, and one to its count when non-zero. */
  lemma TallyStateStep(score: Score, users: seq<UserId>, j: nat, project: ProjectId,
                       count0: map<ProjectId, int>, power0: map<ProjectId, real>, vote: real)
    requires j < |users| && vote == score(users[j], project)
    ensures PowerAfter(score, power0, users[..j + 1], project) ==
              AddPower(PowerAfter(score, power0, users[..j], project), project, vote)
    ensures CountAfter(score, count0, users[..j + 1], project) ==
              if vote != 0.0 then AddCount(CountAfter(score, count0, users[..j], project), project, 1)
              else CountAfter(score, count0, users[..j], project)
  {
    TallyStep(score, map[], users, j, project, vote);
    if j > 0 {
      AddPowerTwice(power0, project, TotalPower(score, users[..j], project), vote);
    }
    if vote != 0.0 && NonZeroVoters(score, users[..j], project) > 0 {
      AddCountTwice(count0, project, NonZeroVoters(score, users[..j], project), 1);
    }
  }

  /** The inner loop of the tally: every user's power on one project is added to
      its total, and the non-zero ones are counted and recorded. The count's key
      appears with the first non-zero vote, the power's with the first user. */
  method TallyProject(score: Score, users: seq<UserId>, project: ProjectId,
                      votes0: map<UserId, map<ProjectId, real>>, count0: map<ProjectId, int>,
                      power0: map<ProjectId, real>)
    returns (votes: map<UserId, map<ProjectId, real>>, count: map<ProjectId, int>, power: map<ProjectId, real>)
    ensures votes == VotesAfter(score, votes0, users, project)
    ensures power == if users == [] then power0 else AddPower(power0, project, TotalPower(score, users, project))
    ensures count == if NonZeroVoters(score, users, project) == 0 then count0
                     else AddCount(count0, project, NonZeroVoters(score, users, project))
  {
    votes, count, power := votes0, count0, power0;
    var j := 0;
    while j < |users|
      invariant 0 <= j <= |users|
      invariant votes == VotesAfter(score, votes0, users[..j], project)
      invariant power == PowerAfter(score, power0, users[..j], project)
      invariant count == CountAfter(score, count0, users[..j], project)
    {
      var user := users[j];
      var vote := score(user, project);
      TallyStep(score, votes0, users, j, project, vote);
      TallyStateStep(score, users, j, project, count0, power0, vote);
      power := AddPower(power, project, vote);
      if vote != 0.0 {
        count := AddCount(count, project, 1);
        votes := RecordVote(votes, user, project, vote);
      }
      j := j + 1;
    }
    assert users[..j] == users;
  }

  /** The state of the tally once the projects in `done` are visited: the power
      and count of each are its totals, no other project has a key, and the
      recorded votes are exactly the non-zero ones on those projects. */
  ghost predicate Tallied(score: Score, users: seq<UserId>, done: seq<ProjectId>,
                    votes: map<UserId, map<ProjectId, real>>, count: map<ProjectId, int>,
                    power: map<ProjectId, real>)
  {
    && (forall q :: q in power ==> q in done)
    && (forall q :: q in count ==> q in done)
    && (forall k :: 0 <= k < |done| ==> Get(power, done[k], 0.0) == TotalPower(score, users, done[k]))
    && (forall k :: 0 <= k < |done| ==> Get(count, done[k], 0) == NonZeroVoters(score, users, done[k]))
    && (forall u, q :: Recorded(votes, u, q) ==>
          u in users && q in done && score(u, q) != 0.0 && votes[u][q] == score(u, q))
    && (forall j, k :: 0 <= j < |users| && 0 <= k < |done| && score(users[j], done[k]) != 0.0 ==>
          users[j] in votes && done[k] in votes[users[j]])
  }

  /** Visiting a new project extends the tallied state by that project. */
  lemma TallyExtends(score: Score, users: seq<UserId>, done: seq<ProjectId>, project: ProjectId,
                     votes: map<UserId, map<ProjectId, real>>, count: map<ProjectId, int>,
                     power: map<ProjectId, real>)
    requires project !in done
    requires Tallied(score, users, done, votes, count, power)
    ensures Tallied(score, users, done + [project], VotesAfter(score, votes, users, project),
                    CountAfter(score, count, users, project), PowerAfter(score, power, users, project))
  {
    VotesAfterFacts(score, votes, users, project);
    var votes' := VotesAfter(score, votes, users, project);
    var done' := done + [project];
    forall u, q | Recorded(votes', u, q)
      ensures u in users && q in done' && score(u, q) != 0.0 && votes'[u][q] == score(u, q)
    {
      if q != project {
        assert Recorded(votes, u, q) && votes'[u][q] == votes[u][q];
        assert u in users && q in done && score(u, q) != 0.0;
        assert q in done';
      } else {
        assert done'[|done|] == q;
      }
    }
    forall k | 0 <= k < |done'|
      ensures Get(PowerAfter(score, power, users, project), done'[k], 0.0) == TotalPower(score, users, done'[k])
      ensures Get(CountAfter(score, count, users, project), done'[k], 0) == NonZeroVoters(score, users, done'[k])
    {
      if k < |done| {
        assert done'[k] == done[k];
      }
    }
    forall j, k | 0 <= j < |users| && 0 <= k < |done'| && score(users[j], done'[k]) != 0.0
      ensures users[j] in votes' && done'[k] in votes'[users[j]]
    {
      if k < |done| {
        assert done'[k] == done[k];
      }
    }
  }

  /** The tally as the notebook runs it, project by project and user by user.
      The funding read of `project_vote_power[project]` and
      `project_vote_count[project]` inserts the default for a project nobody
      moved, so both maps end with every project as a key. A recorded vote is
      the power alone (the notebook stores it as `{'power': vote}`). */
  method ComputeVotingResults(score: Score, users: seq<UserId>, projects: seq<ProjectId>)
    returns (votes: map<UserId, map<ProjectId, real>>, projectVoteCount: map<ProjectId, int>,
             projectVotePower: map<ProjectId, real>, projectResult: map<ProjectId, bool>)
    requires Distinct(projects)
    ensures forall q :: q in projectVotePower <==> q in projects
    ensures forall q :: q in projectVotePower ==> projectVotePower[q] == TotalPower(score, users, q)
    ensures forall q :: q in projectVoteCount <==> q in projects
    ensures forall q :: q in projectVoteCount ==> projectVoteCount[q] == NonZeroVoters(score, users, q)
    ensures forall q :: q in projectResult <==> q in projects
    ensures forall q :: q in projectResult ==>
              projectResult[q] == FundProject(TotalPower(score, users, q), NonZeroVoters(score, users, q))
    ensures forall u, q :: Recorded(votes, u, q) ==>
              u in users && q in projects && score(u, q) != 0.0 && votes[u][q] == score(u, q)
    ensures forall j, k :: 0 <= j < |users| && 0 <= k < |projects| && score(users[j], projects[k]) != 0.0 ==>
              users[j] in votes && projects[k] in votes[users[j]]
  {
    votes := map[];
    var count: map<ProjectId, int> := map[];
    var power: map<ProjectId, real> := map[];
    var i := 0;
    while i < |projects|
      invariant 0 <= i <= |projects|
      invariant Tallied(score, users, projects[..i], votes, count, power)
    {
      var project := projects[i];
      assert forall k :: 0 <= k < i ==> projects[k] != project;
      assert projects[..i + 1] == projects[..i] + [project];
      TallyExtends(score, users, projects[..i], project, votes, count, power);
      votes, count, power := TallyProject(score, users, project, votes, count, power);
      i := i + 1;
    }
    assert projects[..i] == projects;
    TalliedTotals(score, users, projects, votes, count, power);
    projectResult := map q | q in projects :: FundProject(Get(power, q, 0.0), Get(count, q, 0));
    projectVotePower := map q | q in projects :: Get(power, q, 0.0);
    projectVoteCount := map q | q in projects :: Get(count, q, 0);
  }

  /** A tallied state read project by project. */
  lemma TalliedTotals(score: Score, users: seq<UserId>, done: seq<ProjectId>,
                      votes: map<UserId, map<ProjectId, real>>, count: map<ProjectId, int>,
                      power: map<ProjectId, real>)
    requires Tallied(score, users, done, votes, count, power)
    ensures forall q :: q in done ==> Get(power, q, 0.0) == TotalPower(score, users, q)
    ensures forall q :: q in done ==> Get(count, q, 0) == NonZeroVoters(score, users, q)
    ensures forall u, q :: Recorded(votes, u, q) ==>
              u in users && q in done && score(u, q) != 0.0 && votes[u][q] == score(u, q)
  {
    forall u, q | Recorded(votes, u, q)
      ensures u in users && q in done && score(u, q) != 0.0 && votes[u][q] == score(u, q)
    {
    }
    forall q | q in done
      ensures Get(power, q, 0.0) == TotalPower(score, users, q)
      ensures Get(count, q, 0) == NonZeroVoters(score, users, q)
    {
      var k :| 0 <= k < |done| && done[k] == q;
    }
  }

  /** A positive total has a user with positive power. */
  lemma {:induction false} PositiveTotalHasPositiveVoter(score: Score, users: seq<UserId>, p: ProjectId)
    requires TotalPower(score, users, p) > 0.0
    ensures exists j :: 0 <= j < |users| && score(users[j], p) > 0.0
    decreases |users|
  {
    var init := users[..|users| - 1];
    if score(users[|users| - 1], p) <= 0.0 {
      PositiveTotalHasPositiveVoter(score, init, p);
      var j :| 0 <= j < |init| && score(init[j], p) > 0.0;
      assert users[j] == init[j];
    }
  }

  /** Two counted voters are two different positions of the user list. */
  lemma {:induction false} TwoVotersAreDistinctPositions(score: Score, users: seq<UserId>, p: ProjectId)
    requires NonZeroVoters(score, users, p) >= 1
    ensures exists j :: 0 <= j < |users| && score(users[j], p) != 0.0
    ensures NonZeroVoters(score, users, p) >= 2 ==>
              exists j1, j2 :: 0 <= j1 < j2 < |users| &&
                score(users[j1], p) != 0.0 && score(users[j2], p) != 0.0
    decreases |users|
  {
    var init := users[..|users| - 1];
    var last := |users| - 1;
    if score(users[last], p) != 0.0 {
      if NonZeroVoters(score, users, p) >= 2 {
        TwoVotersAreDistinctPositions(score, init, p);
        var j :| 0 <= j < |init| && score(init[j], p) != 0.0;
        assert users[j] == init[j];
      }
    } else {
      TwoVotersAreDistinctPositions(score, init, p);
      var j :| 0 <= j < |init| && score(init[j], p) != 0.0;
      assert users[j] == init[j];
      if NonZeroVoters(score, users, p) >= 2 {
        var j1, j2 :| 0 <= j1 < j2 < |init| &&
          score(init[j1], p) != 0.0 && score(init[j2], p) != 0.0;
        assert users[j1] == init[j1] && users[j2] == init[j2];
      }
    }
  }

  /** A funded project has a user with positive power and two distinct positions of
      the user list with non-zero power. */
  lemma FundedProjectSupport(score: Score, users: seq<UserId>, p: ProjectId)
    requires FundProject(TotalPower(score, users, p), NonZeroVoters(score, users, p))
    ensures exists j :: 0 <= j < |users| && score(users[j], p) > 0.0
    ensures exists j1, j2 :: 0 <= j1 < j2 < |users| &&
              score(users[j1], p) != 0.0 && score(users[j2], p) != 0.0
  {
    PositiveTotalHasPositiveVoter(score, users, p);
    TwoVotersAreDistinctPositions(score, users, p);
  }

  /** Under the notebook layers with non-negative trust scores, a funded project
      has a user whose resolved vote on it is Yes. */
  lemma FundedProjectHasYesVote(table: ActionTable, trustBonus: map<UserId, real>, users: seq<UserId>, p: ProjectId)
    requires forall w :: w in trustBonus ==> trustBonus[w] >= 0.0
    requires FundProject(TotalPower(NotebookScore(table, trustBonus), users, p),
                         NonZeroVoters(NotebookScore(table, trustBonus), users, p))
    ensures exists j :: 0 <= j < |users| && DefaultDelegateResult(table, users[j], p) == Vote.Yes
  {
    var score := NotebookScore(table, trustBonus);
    PositiveTotalHasPositiveVoter(score, users, p);
    var j :| 0 <= j < |users| && score(users[j], p) > 0.0;
    assert score(users[j], p) == NotebookPower(table, trustBonus, users[j], p);
    DemoPowerSign(table, trustBonus, users[j], p);
  }
}
