/** The simulation's per-round state updates: the pass-through substep helpers,
    the clock, population onboarding and the placeholder policies. Random draws
    are inputs. */
module RoundLogic {
  import opened NqgTypes
  import opened QuorumDelegation

  /** A policy's signal, or a store of real-valued state variables, by name. */
  type Signal = map<string, real>

  /** A state update: the variable's name and its new value. */
  type VariableUpdate = (string, real)

  const DeltaDaysKey: string := "delta_days"
  const DaysPassedKey: string := "days_passed"

  /** Installs an update in a variable store. */
  function ApplyUpdate(state: Signal, update: VariableUpdate): (r: Signal)
    ensures update.0 in r && r[update.0] == update.1
    ensures forall v :: v != update.0 ==> (v in r <==> v in state) && (v in state ==> r[v] == state[v])
  {
    state[update.0 := update.1]
  }

  // ----- substep helpers -----

  /** `generic_policy`: the pass-through policy emits no signal. */
  function GenericPolicy(params: Params, state: ModelState): (r: Signal)
    ensures |r| == 0
  {
    map[]
  }

  /** `replace_suf(variable, default)` applied to a state and a signal: the
      variable takes the signal's value, or the default when the signal lacks it. */
  function ReplaceSuf(variable: string, defaultValue: real, state: Signal, signal: Signal): (u: VariableUpdate)
    ensures u.0 == variable
    ensures variable in signal ==> u.1 == signal[variable]
    ensures variable !in signal ==> u.1 == defaultValue
  {
    (variable, Get(signal, variable, defaultValue))
  }

  /** `add_suf(variable, default)`: the variable grows by the signal's value (or
      the default). Reading the current value fails when the state lacks it. */
  function AddSuf(variable: string, defaultValue: real, state: Signal, signal: Signal): (u: Option<VariableUpdate>)
    ensures u.Some? <==> variable in state
    ensures u.Some? ==> u.value.0 == variable
    ensures u.Some? ==> u.value.1 - state[variable] == Get(signal, variable, defaultValue)
  {
    if variable in state then Some((variable, Get(signal, variable, defaultValue) + state[variable]))
    else None
  }

  /** A replace update leaves every other variable as it was, and replacing
      again from the same signal changes nothing. */
  lemma ReplaceSufIdempotent(variable: string, defaultValue: real, state: Signal, signal: Signal)
    ensures var once := ApplyUpdate(state, ReplaceSuf(variable, defaultValue, state, signal));
            && ApplyUpdate(once, ReplaceSuf(variable, defaultValue, once, signal)) == once
            && (forall v :: v != variable ==> (v in once <==> v in state) && (v in state ==> once[v] == state[v]))
  {
    var once := ApplyUpdate(state, ReplaceSuf(variable, defaultValue, state, signal));
    var twice := ApplyUpdate(once, ReplaceSuf(variable, defaultValue, once, signal));
    assert twice.Keys == once.Keys;
  }

  /** Two add updates from the same signal add twice the increment, and no
      other variable moves. */
  lemma AddSufTwice(variable: string, defaultValue: real, state: Signal, signal: Signal)
    requires variable in state
    ensures var once := ApplyUpdate(state, AddSuf(variable, defaultValue, state, signal).value);
            var twice := AddSuf(variable, defaultValue, once, signal);
            && twice.Some?
            && ApplyUpdate(once, twice.value)[variable] == state[variable] + 2.0 * Get(signal, variable, defaultValue)
            && (forall v :: v != variable ==> (v in once <==> v in state) && (v in state ==> once[v] == state[v]))
  {
  }

  // ----- time -----

  /** `p_evolve_time`: the signal carries the step length. */
  function PEvolveTime(params: Params): (signal: Signal)
    ensures DeltaDaysKey in signal && signal[DeltaDaysKey] == params.timestepInDays
    ensures signal.Keys == {DeltaDaysKey}
  {
    map[DeltaDaysKey := params.timestepInDays]
  }

  /** `s_days_passed`: the clock advances by the signalled step; a signal without
      the step fails. */
  function SDaysPassed(state: ModelState, signal: Signal): (u: Option<VariableUpdate>)
    ensures u.Some? <==> DeltaDaysKey in signal
    ensures u.Some? ==> u.value.0 == DaysPassedKey && u.value.1 - state.daysPassed == signal[DeltaDaysKey]
  {
    if DeltaDaysKey in signal then Some((DaysPassedKey, state.daysPassed + signal[DeltaDaysKey])) else None
  }

  /** `s_delta_days`: the step is recorded as state. */
  function SDeltaDays(state: ModelState, signal: Signal): (u: Option<VariableUpdate>)
    ensures u.Some? <==> DeltaDaysKey in signal
    ensures u.Some? ==> u.value == (DeltaDaysKey, signal[DeltaDaysKey])
  {
    if DeltaDaysKey in signal then Some((DeltaDaysKey, signal[DeltaDaysKey])) else None
  }

  /** One timestep of the clock block: the policy's signal drives both updates. */
  function TimeStep(params: Params, state: ModelState): ModelState
  {
    var signal := PEvolveTime(params);
    state.(daysPassed := SDaysPassed(state, signal).value.1,
           deltaDays := Some(SDeltaDays(state, signal).value.1))
  }

  function TimeSteps(params: Params, state: ModelState, n: nat): ModelState
  {
    if n == 0 then state else TimeStep(params, TimeSteps(params, state, n - 1))
  }

  /** After n timesteps the clock reads n steps more, the last step is recorded,
      the population is untouched, and with a non-negative step the clock never
      goes back. */
  lemma {:induction false} TimeStepsAdvance(params: Params, state: ModelState, n: nat)
    ensures TimeSteps(params, state, n).daysPassed == state.daysPassed + (n as real) * params.timestepInDays
    ensures n > 0 ==> TimeSteps(params, state, n).deltaDays == Some(params.timestepInDays)
    ensures TimeSteps(params, state, n).users == state.users
    ensures params.timestepInDays >= 0.0 ==> TimeSteps(params, state, n).daysPassed >= state.daysPassed
  {
    if n > 0 {
      TimeStepsAdvance(params, state, n - 1);
      var before := TimeSteps(params, state, n - 1);
      assert TimeSteps(params, state, n).daysPassed == before.daysPassed + params.timestepInDays;
      assert (n as real) * params.timestepInDays == ((n - 1) as real) * params.timestepInDays + params.timestepInDays;
      if params.timestepInDays >= 0.0 {
        assert (n as real) * params.timestepInDays >= 0.0;
      }
    }
  }

  // ----- onboarding -----

  /** `str(n)` for a non-negative integer: decimal digits, no leading zero. */
  function NatToString(n: nat): (s: string)
    ensures |s| >= 1
    ensures n >= 10 ==> |s| >= 2
    decreases n
  {
    if n < 10 then [DigitChar(n)] else NatToString(n / 10) + [DigitChar(n % 10)]
  }

  function DigitChar(d: nat): char
    requires d < 10
  {
    (('0' as int) + d) as char
  }

  /** Different numbers print differently. */
  lemma {:induction false} NatToStringInjective(a: nat, b: nat)
    requires NatToString(a) == NatToString(b)
    ensures a == b
    decreases a
  {
    if a < 10 && b < 10 {
      assert DigitChar(a) == NatToString(a)[0] == NatToString(b)[0] == DigitChar(b);
    } else if a >= 10 && b >= 10 {
      var sa, sb := NatToString(a), NatToString(b);
      assert sa[|sa| - 1] == DigitChar(a % 10);
      assert sb[|sb| - 1] == DigitChar(b % 10);
      assert a % 10 == b % 10;
      assert sa[..|sa| - 1] == NatToString(a / 10);
      assert sb[..|sb| - 1] == NatToString(b / 10);
      NatToStringInjective(a / 10, b / 10);
    }
  }

  /** The random values drawn for one new user: the Poisson count of past
      votes and the reputation category chosen. */
  datatype Draw = Draw(pastVotes: nat, reputation: ReputationCategory)

  function Max(a: int, b: int): int
  {
    if a >= b then a else b
  }

  /** The population after onboarding one user per draw, as `s_onboard_users`
      builds it: the i-th new user is labelled with the list's current length
      plus i. Each sample size is at least the number of past rounds; sampling
      without replacement fails on a larger one, and an exactly sized sample is
      all the past rounds. */
  function Onboard(users: seq<User>, pastRounds: set<int>, draws: seq<Draw>): Option<seq<User>>
    decreases |draws|
  {
    if draws == [] then Some(users)
    else
      var i := |draws| - 1;
      match Onboard(users, pastRounds, draws[..i])
      case None => None
      case Some(prev) =>
        var pastVotingN := Max(draws[i].pastVotes, |pastRounds|);
        if pastVotingN > |pastRounds| then None
        else Some(prev + [User(NatToString(|prev| + i), draws[i].reputation, pastRounds)])
  }

  /** The user `s_onboard_users` creates for the i-th draw when n users existed before. */
  function OnboardedUser(n: nat, i: nat, draw: Draw, pastRounds: set<int>): User
  {
    User(NatToString(n + 2 * i), draw.reputation, pastRounds)
  }

  /** Onboarding succeeds exactly when no draw exceeds the number of past
      rounds; then the old users are kept as a prefix, one user per draw follows,
      and the i-th one is labelled n + 2i, has the drawn category and has voted
      in every past round. */
  lemma {:induction false} OnboardShape(users: seq<User>, pastRounds: set<int>, draws: seq<Draw>)
    ensures Onboard(users, pastRounds, draws).Some? <==>
              forall i :: 0 <= i < |draws| ==> draws[i].pastVotes <= |pastRounds|
    ensures Onboard(users, pastRounds, draws).Some? ==>
              var r := Onboard(users, pastRounds, draws).value;
              && |r| == |users| + |draws|
              && r[..|users|] == users
              && forall i :: 0 <= i < |draws| ==> r[|users| + i] == OnboardedUser(|users|, i, draws[i], pastRounds)
    decreases |draws|
  {
    if draws != [] {
      var i := |draws| - 1;
      var init := draws[..i];
      OnboardShape(users, pastRounds, init);
      forall k | 0 <= k < i ensures init[k] == draws[k] { }
      match Onboard(users, pastRounds, init)
      case None =>
        var k :| 0 <= k < i && init[k].pastVotes > |pastRounds|;
        assert draws[k].pastVotes > |pastRounds|;
      case Some(prev) =>
        if draws[i].pastVotes <= |pastRounds| {
          var r := Onboard(users, pastRounds, draws).value;
          assert r == prev + [User(NatToString(|prev| + i), draws[i].reputation, pastRounds)];
          assert r[..|users|] == prev[..|users|];
          forall k | 0 <= k < |draws|
            ensures r[|users| + k] == OnboardedUser(|users|, k, draws[k], pastRounds)
          {
            if k < i {
              assert r[|users| + k] == prev[|users| + k];
            }
          }
        }
    }
  }

  /** The users one onboarding call creates have pairwise different labels. */
  lemma NewLabelsDistinct(users: seq<User>, pastRounds: set<int>, draws: seq<Draw>)
    requires Onboard(users, pastRounds, draws).Some?
    ensures var r := Onboard(users, pastRounds, draws).value;
            && |r| == |users| + |draws|
            && forall a, b :: |users| <= a < b < |r| ==> r[a].name != r[b].name
  {
    OnboardShape(users, pastRounds, draws);
    var r := Onboard(users, pastRounds, draws).value;
    forall a, b | |users| <= a < b < |r|
      ensures r[a].name != r[b].name
    {
      var i, j := a - |users|, b - |users|;
      assert r[|users| + i] == OnboardedUser(|users|, i, draws[i], pastRounds);
      assert r[|users| + j] == OnboardedUser(|users|, j, draws[j], pastRounds);
      if NatToString(|users| + 2 * i) == NatToString(|users| + 2 * j) {
        NatToStringInjective(|users| + 2 * i, |users| + 2 * j);
      }
    }
  }

  /** Once a prefix of the draws fails, the whole onboarding fails. */
  lemma {:induction false} OnboardFailurePersists(users: seq<User>, pastRounds: set<int>, draws: seq<Draw>, k: nat)
    requires k <= |draws|
    requires Onboard(users, pastRounds, draws[..k]).None?
    ensures Onboard(users, pastRounds, draws).None?
    decreases |draws| - k
  {
    if k < |draws| {
      assert draws[..k + 1][..k] == draws[..k];
      OnboardFailurePersists(users, pastRounds, draws, k + 1);
    } else {
      assert draws[..k] == draws;
    }
  }

  /** `s_onboard_users`: the new population, or None when sampling the past
      rounds fails. The number of new users is the number of draws. */
  method SOnboardUsers(params: Params, state: ModelState, draws: seq<Draw>) returns (r: Option<seq<User>>)
    ensures r == Onboard(state.users, params.pastRounds, draws)
  {
    var newUserList := state.users;
    var pastRoundChoices := params.pastRounds;
    var i := 0;
    assert draws[..0] == [];
    while i < |draws|
      invariant 0 <= i <= |draws|
      invariant Onboard(state.users, pastRoundChoices, draws[..i]) == Some(newUserList)
    {
      var pastVotingN := Max(draws[i].pastVotes, |pastRoundChoices|);
      assert draws[..i + 1][..i] == draws[..i];
      if pastVotingN > |pastRoundChoices| {
        OnboardFailurePersists(state.users, pastRoundChoices, draws, i + 1);
        return None;
      }
      var newUser := User(NatToString(|newUserList| + i), draws[i].reputation, pastRoundChoices);
      newUserList := newUserList + [newUser];
      i := i + 1;
    }
    assert draws[..i] == draws;
    return Some(newUserList);
  }

  /** Onboarding two users into an empty population and later one more gives
      two users the label "2": the second call starts at length 2. */
  lemma OnboardLabelCollision(pastRounds: set<int>, c: ReputationCategory)
    ensures var d := Draw(|pastRounds|, c);
            var first := Onboard([], pastRounds, [d, d]);
            && first.Some?
            && var second := Onboard(first.value, pastRounds, [d]);
            && second.Some?
            && |second.value| == 3
            && second.value[1].name == "2"
            && second.value[2].name == "2"
  {
    var d := Draw(|pastRounds|, c);
    OnboardShape([], pastRounds, [d, d]);
    var first := Onboard([], pastRounds, [d, d]).value;
    assert first[1] == OnboardedUser(0, 1, d, pastRounds);
    OnboardShape(first, pastRounds, [d]);
    var second := Onboard(first, pastRounds, [d]).value;
    assert second[2] == OnboardedUser(2, 0, d, pastRounds);
    assert second[..2] == first;
    assert second[1] == first[1];
    assert NatToString(2) == "2";
  }

  /** Onboarding with the label a user's position in the population, which keeps
      labels unique across rounds. */
  function OnboardByIndex(users: seq<User>, pastRounds: set<int>, draws: seq<Draw>): Option<seq<User>>
    decreases |draws|
  {
    if draws == [] then Some(users)
    else
      var i := |draws| - 1;
      match OnboardByIndex(users, pastRounds, draws[..i])
      case None => None
      case Some(prev) =>
        var pastVotingN := Max(draws[i].pastVotes, |pastRounds|);
        if pastVotingN > |pastRounds| then None
        else Some(prev + [User(NatToString(|prev|), draws[i].reputation, pastRounds)])
  }

  /** Every user is labelled with its position. */
  ghost predicate LabelledByPosition(users: seq<User>)
  {
    forall k :: 0 <= k < |users| ==> users[k].name == NatToString(k)
  }

  /** Position labels survive index onboarding, so any number of rounds never
      repeats a label; success and the population's shape match Onboard's. */
  lemma {:induction false} OnboardByIndexKeepsLabels(users: seq<User>, pastRounds: set<int>, draws: seq<Draw>)
    requires LabelledByPosition(users)
    ensures OnboardByIndex(users, pastRounds, draws).Some? <==> Onboard(users, pastRounds, draws).Some?
    ensures OnboardByIndex(users, pastRounds, draws).Some? ==>
              var r := OnboardByIndex(users, pastRounds, draws).value;
              && LabelledByPosition(r)
              && |r| == |users| + |draws|
              && r[..|users|] == users
              && forall a, b :: 0 <= a < b < |r| ==> r[a].name != r[b].name
    decreases |draws|
  {
    if draws != [] {
      var i := |draws| - 1;
      OnboardByIndexKeepsLabels(users, pastRounds, draws[..i]);
      match OnboardByIndex(users, pastRounds, draws[..i])
      case None =>
      case Some(prev) =>
        if draws[i].pastVotes <= |pastRounds| {
          var r := OnboardByIndex(users, pastRounds, draws).value;
          assert r == prev + [User(NatToString(|prev|), draws[i].reputation, pastRounds)];
          assert r[..|users|] == prev[..|users|];
          assert forall k :: 0 <= k < |prev| ==> r[k] == prev[k];
          assert LabelledByPosition(r);
        }
    }
    if OnboardByIndex(users, pastRounds, draws).Some? {
      var r := OnboardByIndex(users, pastRounds, draws).value;
      forall a, b | 0 <= a < b < |r| ensures r[a].name != r[b].name
      {
        if r[a].name == r[b].name {
          NatToStringInjective(a, b);
        }
      }
    }
  }

  // ----- placeholder policies -----

  /** `p_user_vote`: an empty delegation graph and an empty action matrix of
      resolved votes, the matrix the quorum resolver reads. */
  function PUserVote(params: Params, state: ModelState)
    : (r: (map<UserId, seq<UserId>>, ActionMatrix))
    ensures |r.0| == 0 && |r.1| == 0
  {
    (map[], map[])
  }

  /** `s_trust`: the trust graph is replaced by an empty one. */
  function STrust(params: Params, state: ModelState): (r: (string, map<UserId, set<UserId>>))
    ensures r.0 == "trustees" && |r.1| == 0
  {
    ("trustees", map[])
  }

  /** `p_compute_votes`: empty vote matrices and per-project tallies. */
  function PComputeVotes(params: Params, state: ModelState)
    : (r: (map<UserId, map<ProjectId, real>>, map<UserId, map<ProjectId, real>>, map<ProjectId, real>))
    ensures |r.0| == 0 && |r.1| == 0 && |r.2| == 0
  {
    (map[], map[], map[])
  }
}
