/** Vocabulary shared by every part of the Neural Quorum Governance model:
    users, votes, round actions, the oracle snapshot and the run parameters. */
module NqgTypes {

  datatype Option<+T> = None | Some(value: T)

  type UserId = string
  type ProjectId = string

  /** A project-level decision. */
  datatype Vote = Yes | No | Abstain

  /** How a user takes part in a round. */
  datatype Action = RoundVote | Delegate | Abstain

  /** The voting-power value each vote stands for (the float value of the `Vote` enum). */
  function Coefficient(v: Vote): (c: real)
    ensures -1.0 <= c <= 1.0
    ensures c == 0.0 <==> v == Vote.Abstain
    ensures c > 0.0 <==> v == Vote.Yes
  {
    match v
    case Yes => 1.0
    case No => -1.0
    case Abstain => 0.0
  }

  datatype ReputationCategory = Tier3 | Tier2 | Tier1 | Uncategorized

  /** A member of the population; created at onboarding and never changed.
      `name` is the source's `label` field (`label` is a Dafny keyword). */
  datatype User = User(name: UserId, reputation: ReputationCategory, activePastRounds: set<int>)

  /** The read-only lookup tables the scoring oracles consult. */
  datatype OracleState = OracleState(
    pagerankResults: map<UserId, real>,
    reputationBonusMap: map<ReputationCategory, real>,
    reputationBonusValues: map<UserId, ReputationCategory>,
    priorVotingBonusMap: map<int, real>,
    priorVotingBonusValues: map<UserId, seq<int>>)

  /** The simulation state variables the core reads and writes. */
  datatype ModelState = ModelState(daysPassed: real, deltaDays: Option<real>, users: seq<User>)

  /** The run parameters the core reads. */
  datatype Params = Params(
    timestepInDays: real,
    quorumAgreementWeightYes: real,
    quorumAgreementWeightNo: real,
    quorumAgreementWeightAbstain: real,
    maxQuorumSelectedDelegates: int,
    maxQuorumCandidateDelegates: int,
    quorumDelegationAbsoluteThreshold: real,
    quorumDelegationRelativeThreshold: real,
    initialPower: real,
    pastRounds: set<int>,
    avgNewUsersPerDay: real,
    avgUserPastVotes: real)

  /** The numbers of the default single run. */
  const SingleRunParams: Params := Params(
    1.0, 1.0, -1.0, 0.0, 5, 10, 0.5, 2.0 / 3.0, 0.0, {1, 2, 3, 4}, 1.0, 3.5)

  /** `m.get(k, d)` of a Python dictionary. */
  function Get<K, V>(m: map<K, V>, k: K, d: V): (r: V)
    ensures k in m ==> r == m[k]
    ensures k !in m ==> r == d
  {
    if k in m then m[k] else d
  }

  /** The weighting `lambda x: x`. */
  function Identity(x: real): real { x }

  function Abs(x: real): (r: real)
    ensures r >= 0.0 && (r == x || r == -x)
  {
    if x < 0.0 then -x else x
  }

  /** A quotient whose dividend is bounded by its positive divisor lies in [-1, 1]. */
  lemma QuotientInUnitBall(a: real, b: real)
    requires b > 0.0 && -b <= a <= b
    ensures -1.0 <= a / b <= 1.0
  {
    assert a / b * b == a;
  }

  lemma DivisionInUnitInterval(a: real, b: real)
    requires 0.0 <= a <= b && b > 0.0
    ensures 0.0 <= a / b <= 1.0
  {
    assert a / b * b == a;
  }

  /** The ends of a min-max scaling map to 0 and 1. */
  lemma MinMaxEnds(lo: real, hi: real)
    requires lo != hi
    ensures (hi - lo) / (hi - lo) == 1.0
    ensures (lo - lo) / (hi - lo) == 0.0
  {
  }

  lemma MaxKeyExists<K>(m: map<K, real>, k: K)
    requires k in m
    ensures exists t :: t in m && forall j :: j in m ==> m[j] <= m[t]
    decreases m.Keys
  {
    if !(forall j :: j in m ==> m[j] <= m[k]) {
      var j0 :| j0 in m && m[j0] > m[k];
      var rest := m - {k};
      assert j0 in rest;
      MaxKeyExists(rest, j0);
      var top :| top in rest && forall j :: j in rest ==> rest[j] <= rest[top];
      forall j | j in m ensures m[j] <= m[top] {
        if j != k { assert j in rest; }
      }
    }
  }

  lemma MinKeyExists<K>(m: map<K, real>, k: K)
    requires k in m
    ensures exists t :: t in m && forall j :: j in m ==> m[t] <= m[j]
    decreases m.Keys
  {
    if !(forall j :: j in m ==> m[k] <= m[j]) {
      var j0 :| j0 in m && m[j0] < m[k];
      var rest := m - {k};
      assert j0 in rest;
      MinKeyExists(rest, j0);
      var bottom :| bottom in rest && forall j :: j in rest ==> rest[bottom] <= rest[j];
      forall j | j in m ensures m[bottom] <= m[j] {
        if j != k { assert j in rest; }
      }
    }
  }

  lemma ExtremaExist<K>(m: map<K, real>)
    requires |m| > 0
    ensures exists r :: r in m.Values && forall j :: j in m ==> m[j] <= r
    ensures exists r :: r in m.Values && forall j :: j in m ==> r <= m[j]
  {
    assert m.Keys != {};
    var k :| k in m;
    MaxKeyExists(m, k);
    var t :| t in m && forall j :: j in m ==> m[j] <= m[t];
    assert m[t] in m.Values;
    MinKeyExists(m, k);
    var b :| b in m && forall j :: j in m ==> m[b] <= m[j];
    assert m[b] in m.Values;
  }

  /** Python's `max(m.values())`; it raises on an empty dictionary. */
  function MaxValue<K>(m: map<K, real>): (r: real)
    requires |m| > 0
    ensures r in m.Values && forall k :: k in m ==> m[k] <= r
  {
    ExtremaExist(m);
    var r :| r in m.Values && forall j :: j in m ==> m[j] <= r; r
  }

  /** Python's `min(m.values())`; it raises on an empty dictionary. */
  function MinValue<K>(m: map<K, real>): (r: real)
    requires |m| > 0
    ensures r in m.Values && forall k :: k in m ==> r <= m[k]
  {
    ExtremaExist(m);
    var r :| r in m.Values && forall j :: j in m ==> r <= m[j]; r
  }
}
