# Neural Quorum Governance in Dafny

This project models the decision and scoring core of Neural Quorum Governance
(NQG), a voting scheme for funding rounds. Each user's voting power on a project
comes from a feed-forward "neural governance" network: layers of neurons, each an
oracle (trust, reputation, prior voting, quorum delegation) followed by a weighting,
reduced by a sum or product aggregator. A user who delegates hands their decision
to a quorum of other users, and the quorum's agreement must pass two thresholds
before it counts.

The model covers:

- both quorum-delegation resolvers: the package's `vote_from_quorum_delegation`
  and the notebook's `query_user_quorum` / `quorum_participation` /
  `quorum_agreement` / `query_user_vote` / `quorum_delegate_result`;
- both neural-governance folds, with the package oracles, the notebook oracles and
  both default layer configurations;
- the notebook's min-max trust scaling, its per-project tally loop and
  `fund_project`;
- the simulation's round updates: the clock, the `replace_suf`/`add_suf` helpers,
  onboarding, and the placeholder policies;
- the previous-round user lookup.

All arithmetic is over `real`. A Python exception (a `KeyError`, a
`ZeroDivisionError`, a `ValueError` from sampling) becomes `None` of an `Option`
result. Loops of the source are `method`s with `while` loops, each proved equal to
a specification function; the properties are then lemmas about those functions.

Modules, in dependency order:

| file | module | models |
|---|---|---|
| types.dfy | NqgTypes | votes, actions, users, oracle state, parameters, dictionary reads, extrema |
| aggregation.dfy | Aggregation | the sum and product layer aggregators |
| oracles.dfy | Oracles | the package's prior-voting, reputation and trust oracles |
| neural.dfy | NeuralGovernance | `power_from_neural_governance` and `DEFAULT_NG_LAYERS` |
| quorum.dfy | QuorumDelegation | `vote_from_quorum_delegation` |
| demo_quorum.dfy | DemoQuorum | the notebook's quorum delegation functions |
| demo_scoring.dfy | DemoScoring | `user_project_vote_power`, trust and reputation oracles, the notebook layers |
| tally.dfy | Tally | the notebook's voting-results loop and `fund_project` |
| round_logic.dfy | RoundLogic | the round state updates and placeholder policies |
| history.dfy | History | `retrieve_prev_state_users` |

## Model

| member | source | states |
|---|---|---|
| NqgTypes.Coefficient | notebooks/poc_demo.py:46-53 | the voting-power value of a vote lies in [-1, 1]; it is 0 exactly for Abstain and positive exactly for Yes |
| NqgTypes.Get | notebooks/poc_demo.py:191 | `dict.get(k, d)`: the stored value when the key is present, the default otherwise |
| NqgTypes.MaxValue | nqg_model/neural_quorum_governance.py:131 | `max(values())` of a non-empty map is attained by some key and bounds every value from above |
| NqgTypes.MinValue | nqg_model/neural_quorum_governance.py:132 | `min(values())` of a non-empty map is attained by some key and bounds every value from below |
| Aggregation.SmallSums | nqg_model/neural_quorum_governance.py:138 | the sum aggregator on one, two and three values is their arithmetic sum |
| Aggregation.SmallProducts | nqg_model/neural_quorum_governance.py:143 | the product `reduce` on one value is that value, on two values their product |
| Aggregation.Sum | nqg_model/neural_quorum_governance.py:138 | `sum(lst)` as a left fold from 0.0; its properties are SumConcat and SumNonNegative |
| Aggregation.Product | nqg_model/neural_quorum_governance.py:143 | `reduce` of `*` without an initial value, defined only on a non-empty list; its properties are ProductNonNegative and ProductWithZero |
| Aggregation.SumConcat | nqg_model/neural_quorum_governance.py:138 | summing a concatenation is adding the sums of its parts |
| Aggregation.SumNonNegative | nqg_model/neural_quorum_governance.py:138 | non-negative neuron outputs give a non-negative sum |
| Aggregation.ProductNonNegative | nqg_model/neural_quorum_governance.py:143 | non-negative neuron outputs give a non-negative product |
| Aggregation.ProductWithZero | nqg_model/neural_quorum_governance.py:143 | one zero output anywhere makes the product zero |
| Oracles.ComputePriorVotingScore | nqg_model/neural_quorum_governance.py:96-103 | the accumulation loop equals the prior-voting specification; it fails exactly when the user has no rounds entry |
| Oracles.RoundBonusNonNegative | nqg_model/neural_quorum_governance.py:101-102 | with non-negative bonuses the summed round bonus is non-negative |
| Oracles.MappedRounds | nqg_model/neural_quorum_governance.py:102 | the rounds kept are rounds of the user that the bonus map knows |
| Oracles.UnmappedRoundsAddNothing | nqg_model/neural_quorum_governance.py:102 | rounds missing from the bonus map contribute nothing (`get(r, 0.0)`) |
| Oracles.PriorVotingScoreAtLeastOne | nqg_model/neural_quorum_governance.py:96-103 | the score is defined exactly for users with a rounds entry and is at least 1.0 when bonuses are non-negative |
| Oracles.ReputationScore | nqg_model/neural_quorum_governance.py:108-112 | fails exactly for an unknown user; otherwise the category's bonus, or 0.0 for an unmapped category |
| Oracles.TrustScore | nqg_model/neural_quorum_governance.py:117-134 | 0.0 with fewer than two PageRank entries or an unranked user; any defined score lies in [0, 1] |
| Oracles.TrustScoreInUnitInterval | nqg_model/neural_quorum_governance.py:117-134 | 0.0 with fewer than two PageRank entries or an unranked user; a computed trust score lies in [0, 1]; the score fails exactly when the min-max division is by zero (two or more entries, the user present, max = min) |
| Oracles.TrustScoreExtremes | nqg_model/neural_quorum_governance.py:127-133 | the user with the minimum PageRank scores 0, the user with the maximum scores 1 |
| Oracles.TrustScoreAttainsBounds | nqg_model/neural_quorum_governance.py:126-134 | some user scores 0 and some user scores 1 |
| NeuralGovernance.LayerVotes | nqg_model/neural_quorum_governance.py:80-84 | the layer's outputs exist exactly when every oracle succeeds; the i-th is the i-th neuron's weighting of its oracle's output on the shared running score |
| NeuralGovernance.PowerFromNeuralGovernance | nqg_model/neural_quorum_governance.py:63-90 | the nested loops equal the layer-by-layer fold; no layers give the initial votes; the print flag does not affect the result |
| NeuralGovernance.PropagateConcat | nqg_model/neural_quorum_governance.py:77-85 | running layers A then B equals running B from A's result, and a failure in A fails the whole |
| NeuralGovernance.DefaultNgLayers | nqg_model/neural_quorum_governance.py:146-159 | trust and reputation summed, then the product of the prior-voting neuron; no product layer is empty, so the fold is defined |
| NeuralGovernance.DefaultNgLayersPower | nqg_model/neural_quorum_governance.py:138-159 | under `DEFAULT_NG_LAYERS` the power is the prior-voting score whatever trust and reputation give, as long as those oracles succeed |
| NeuralGovernance.ConstantLayersExample | nqg_model/neural_quorum_governance.py:77-85 | constant layers 0.2 + 0.3, then a product with 2.0, give 2.0: the product layer ignores the score carried in |
| QuorumDelegation.ValidDelegates | nqg_model/neural_quorum_governance.py:16-19 | the filter keeps at most one entry per decision |
| QuorumDelegation.ValidDelegatesMembers | nqg_model/neural_quorum_governance.py:16-19 | a user is valid exactly when it is in the quorum and decided RoundVote |
| QuorumDelegation.QuorumSize | nqg_model/neural_quorum_governance.py:31-35 | the quorum size never exceeds the number of selected delegates |
| QuorumDelegation.ResolveQuorum | nqg_model/neural_quorum_governance.py:43-60 | a decided vote needs an agreement of at least the absolute threshold times the cap; Yes needs a recorded vote and a positive agreement; No needs a non-positive agreement or an empty quorum |
| QuorumDelegation.VoteFromQuorumDelegation | nqg_model/neural_quorum_governance.py:7-60 | the loop's agreement and size and the two-gate decision equal the quorum-vote specification |
| QuorumDelegation.SelectionIsBoundedPrefix | nqg_model/neural_quorum_governance.py:16-26 | the selection is the first min(n, max) valid delegates, all quorum members with RoundVote; with distinct keys no Delegate or Abstain user is selected |
| QuorumDelegation.SelectionFollowsDecisionOrder | nqg_model/neural_quorum_governance.py:16-26 | the selection follows the decisions' order, not the quorum's |
| QuorumDelegation.EmptyQuorumHasNoAgreement | nqg_model/neural_quorum_governance.py:31-41 | delegates without recorded votes add no agreement |
| QuorumDelegation.EmptyQuorumResult | nqg_model/neural_quorum_governance.py:44-60 | with no recorded votes the result is Abstain for a positive absolute threshold, and No when both thresholds are at most 0 |
| QuorumDelegation.QuorumSizeByCounts | nqg_model/neural_quorum_governance.py:31-35 | the quorum size is the number of Yes, No and Abstain votes recorded |
| QuorumDelegation.AgreementByCounts | nqg_model/neural_quorum_governance.py:36-41 | the agreement is each vote count times its parameter weight |
| QuorumDelegation.WeightedCountStep | nqg_model/neural_quorum_governance.py:36-41 | one more vote of a kind adds that kind's weight |
| QuorumDelegation.AgreementBoundedBySize | nqg_model/neural_quorum_governance.py:31-41 | with weights in [-1, 1] the agreement is within plus or minus the quorum size |
| QuorumDelegation.DefaultAgreementBounds | nqg_model/neural_quorum_governance.py:44-48 | under the default weights and max 5, the absolute and relative agreements lie in [-1, 1] |
| QuorumDelegation.FiveVotersAreValid | nqg_model/neural_quorum_governance.py:16-26 | five RoundVote quorum members are all valid and all selected under max 5 |
| QuorumDelegation.FiveVoterTallies | nqg_model/neural_quorum_governance.py:29-41 | five recorded votes, k of them Yes, give size 5 and agreement 2k - 5 |
| QuorumDelegation.FiveVoterResolution | nqg_model/neural_quorum_governance.py:7-60 | five such voters resolve through the two-gate rule on agreement 2k - 5 |
| QuorumDelegation.DefaultQuorumExamples | nqg_model/neural_quorum_governance.py:44-60 | under the default parameters five Yes give Yes, three Yes and two No give Abstain, five No give No |
| DemoQuorum.QuorumFrom | notebooks/poc_demo.py:190-200 | the walk only adds known direct voters among the candidates |
| DemoQuorum.UserQuorum | notebooks/poc_demo.py:178-204 | None exactly for a non-delegator; a returned quorum holds only direct voters |
| DemoQuorum.QueryUserQuorum | notebooks/poc_demo.py:178-204 | the loop with its early return equals the quorum specification |
| DemoQuorum.Take | notebooks/poc_demo.py:199-200 | a truncation is a prefix no longer than the cap, and the whole list when it fits |
| DemoQuorum.QuorumFromIsTake | notebooks/poc_demo.py:187-202 | the walk is the truncation of the voters among the candidates, order and repeats kept |
| DemoQuorum.UserQuorumIsFirstVoters | notebooks/poc_demo.py:178-204 | a delegator's quorum is the first `max` direct voters among its candidates, so at most `max` long |
| DemoQuorum.ActiveCount | notebooks/poc_demo.py:213-216 | the active members never outnumber the quorum |
| DemoQuorum.QuorumParticipation | notebooks/poc_demo.py:207-218 | the counting loop equals the participation specification: active members over the nominal size, failing for size 0 |
| DemoQuorum.ParticipationInUnitInterval | notebooks/poc_demo.py:207-218 | for a quorum no longer than a positive nominal size the participation lies in [0, 1] |
| DemoQuorum.QuorumAgreement | notebooks/poc_demo.py:221-241 | the counting loop equals the agreement specification, failing when nobody voted |
| DemoQuorum.AgreementSumByCounts | notebooks/poc_demo.py:229-240 | the agreement numerator is #Yes - #No and lies within plus or minus the active count |
| DemoQuorum.AgreementInUnitBall | notebooks/poc_demo.py:221-241 | the agreement is defined exactly when some member voted, and lies in [-1, 1] |
| DemoQuorum.QueryUserVote | notebooks/poc_demo.py:244-258 | the delegate marker exactly for delegators; a non-Abstain vote exactly when the user is a direct voter who cast it |
| DemoQuorum.QuorumDelegateResult | notebooks/poc_demo.py:261-284 | only a delegator's result can fail (the agreement's division); QuorumDelegateResultDefined, DelegatedDecisionNeedsFourVotes and NonDelegatorKeepsVote state its outcomes |
| DemoQuorum.QuorumDelegateResultDefined | notebooks/poc_demo.py:261-284 | with a non-negative participation threshold the agreement never divides by zero |
| DemoQuorum.QuotientComparison | notebooks/poc_demo.py:275-278 | comparing the agreement quotient with a threshold is comparing its numerator with the scaled threshold |
| DemoQuorum.DelegatedDecisionNeedsFourVotes | notebooks/poc_demo.py:261-284 | a delegator's non-Abstain result needs at least four active quorum members, and is Yes / No exactly when #Yes - #No is above 0.5 / below -0.5 of them |
| DemoQuorum.NonDelegatorKeepsVote | notebooks/poc_demo.py:269-284 | a non-delegator's result is its own recorded vote, Abstain when there is none |
| DemoScoring.NeuronVotes | notebooks/poc_demo.py:160-164 | one weighted output per neuron |
| DemoScoring.NeuronVotesElements | notebooks/poc_demo.py:161-164 | the i-th output is the i-th neuron's weighting of its oracle on the shared running score |
| DemoScoring.UserProjectVotePower | notebooks/poc_demo.py:145-170 | the nested loops equal the layer-by-layer fold; no layers give the initial votes |
| DemoScoring.ComputeTrustScore | notebooks/poc_demo.py:385-389 | min-max scaling succeeds exactly for a non-empty map with max different from min, and keeps every user |
| DemoScoring.TrustScoresInUnitInterval | notebooks/poc_demo.py:385-389 | every scaled score lies in [0, 1], the minimum user maps to 0 and the maximum user to 1 |
| DemoScoring.DemoTrustScore | notebooks/poc_demo.py:397-402 | the stored score, or the fallback for a missing user; scores and fallback in [0, 1] give a result in [0, 1] |
| DemoScoring.DemoTrustScoreOfScaledRanks | notebooks/poc_demo.py:385-402 | read from the scaled PageRank, every trust score lies in [0, 1], an unranked user gets 0.0, the least-ranked 0.0 and the best-ranked 1.0 |
| DemoScoring.ScoreMapCoversCategories | notebooks/poc_demo.py:306-311 | the reputation score map has every category |
| DemoScoring.ReputationBonus | notebooks/poc_demo.py:313-321 | the bonus lies in [0, 0.3], is 0 for a non-200 status, and is positive only for a categorised user |
| DemoScoring.DemoReputationScore | notebooks/poc_demo.py:301-321 | with the stub API every user's reputation score is 0 |
| DemoScoring.DemoLayers | notebooks/poc_demo.py:419-439 | one-person-one-vote, trust and reputation summed, then the running score times the resolved vote's coefficient; no product layer is empty |
| DemoScoring.DemoLayersPower | notebooks/poc_demo.py:419-439 | under the notebook layers the power is (1 + trust + reputation) times the coefficient of the resolved vote |
| DemoScoring.DemoPowerSign | notebooks/poc_demo.py:419-439 | with non-negative trust, the power is 0 exactly for Abstain, positive exactly for Yes, negative exactly for No |
| Tally.NotebookPower | notebooks/poc_demo.py:455 | the tally's per-user power is (1 + trust + reputation) times the resolved vote's coefficient |
| Tally.FundProject | notebooks/poc_demo.py:408-412 | funded exactly when the power is positive and at least two users moved it |
| Tally.NonZeroVoters | notebooks/poc_demo.py:457-458 | the count never exceeds the number of users |
| Tally.RecordVote | notebooks/poc_demo.py:459 | after recording, the user's entry for the project holds the vote |
| Tally.RecordVoteFacts | notebooks/poc_demo.py:459 | recording adds exactly one entry and keeps all the others |
| Tally.VotesAfterFacts | notebooks/poc_demo.py:451-459 | one project's pass records exactly its non-zero powers and keeps other projects' entries |
| Tally.TallyStep | notebooks/poc_demo.py:455-459 | one more user adds its power to the total, one to the count when non-zero, and its entry when non-zero |
| Tally.AddPower | notebooks/poc_demo.py:456 | `d[project] += x` on a float defaultdict updates that key from its default and no other |
| Tally.AddCount | notebooks/poc_demo.py:458 | `d[project] += x` on an int defaultdict updates that key from its default and no other |
| Tally.AddPowerTwice | notebooks/poc_demo.py:456 | two increments of a key are one increment by their sum |
| Tally.AddCountTwice | notebooks/poc_demo.py:458 | two increments of a key are one increment by their sum |
| Tally.TallyStateStep | notebooks/poc_demo.py:455-458 | one more user increments the power map by its power and the count map by one when non-zero |
| Tally.TallyProject | notebooks/poc_demo.py:451-459 | the inner loop leaves the project's power at its summed power, its count at the non-zero voters, and the votes extended by the non-zero entries |
| Tally.TallyExtends | notebooks/poc_demo.py:450-459 | visiting a new project extends the tallied state by exactly that project |
| Tally.ComputeVotingResults | notebooks/poc_demo.py:447-463 | every project ends with its summed power, its non-zero count and its funding decision; the votes hold exactly the non-zero (user, project) powers |
| Tally.TalliedTotals | notebooks/poc_demo.py:462 | the funding read of each visited project sees its totals |
| Tally.PositiveTotalHasPositiveVoter | notebooks/poc_demo.py:456 | a positive total has a user with positive power |
| Tally.TwoVotersAreDistinctPositions | notebooks/poc_demo.py:457-458 | a count of one has a non-zero voter, a count of two has two at distinct positions |
| Tally.FundedProjectSupport | notebooks/poc_demo.py:408-412 | a funded project has a positive voter and two distinct non-zero voters |
| Tally.FundedProjectHasYesVote | notebooks/poc_demo.py:419-463 | under the notebook layers with non-negative trust, a funded project has a user whose resolved vote is Yes |
| RoundLogic.ApplyUpdate | nqg_model/logic.py:32 | an update sets its variable and leaves every other variable as it was |
| RoundLogic.GenericPolicy | nqg_model/logic.py:8-20 | the pass-through policy emits no signal |
| RoundLogic.ReplaceSuf | nqg_model/logic.py:23-32 | the update names its variable and takes the signal's value, or the default when absent |
| RoundLogic.AddSuf | nqg_model/logic.py:35-44 | defined exactly when the state has the variable; the variable grows by the signal's value or the default |
| RoundLogic.ReplaceSufIdempotent | nqg_model/logic.py:23-32 | replacing again from the same signal changes nothing, and no other variable moves |
| RoundLogic.AddSufTwice | nqg_model/logic.py:35-44 | adding twice from one signal adds twice the increment, and no other variable moves |
| RoundLogic.PEvolveTime | nqg_model/logic.py:48-49 | the signal holds exactly the step length |
| RoundLogic.SDaysPassed | nqg_model/logic.py:51-54 | the clock advances by the signalled step; a signal without it fails |
| RoundLogic.SDeltaDays | nqg_model/logic.py:56-57 | the signalled step is recorded; a signal without it fails |
| RoundLogic.TimeStepsAdvance | nqg_model/logic.py:48-57 | after n steps the clock reads n times the step more, the step is recorded, the users are untouched, and a non-negative step never moves the clock back |
| RoundLogic.NatToString | nqg_model/logic.py:77 | `str(n)` has at least one digit, and two from 10 on |
| RoundLogic.NatToStringInjective | nqg_model/logic.py:77 | different numbers get different labels |
| RoundLogic.OnboardShape | nqg_model/logic.py:60-83 | onboarding succeeds exactly when no drawn sample size exceeds the past rounds; then old users are a kept prefix, one user per draw follows, and the i-th is labelled n + 2i with the drawn category and all past rounds |
| RoundLogic.NewLabelsDistinct | nqg_model/logic.py:73-81 | the users one call creates have pairwise different labels |
| RoundLogic.OnboardFailurePersists | nqg_model/logic.py:73-79 | a failed draw fails the whole update |
| RoundLogic.SOnboardUsers | nqg_model/logic.py:60-83 | the copy-and-append loop equals the onboarding specification |
| RoundLogic.OnboardLabelCollision | nqg_model/logic.py:77 | onboarding two users into an empty population and later one more labels two users "2" |
| RoundLogic.OnboardByIndexKeepsLabels | nqg_model/logic.py:73-83 | labelling by position succeeds exactly when the original does, keeps the prefix, and keeps every label unique across rounds |
| RoundLogic.PUserVote | nqg_model/logic.py:85-91 | the delegation graph and action matrix are empty |
| RoundLogic.STrust | nqg_model/logic.py:93-95 | the trust graph is replaced by an empty one |
| RoundLogic.PComputeVotes | nqg_model/logic.py:97-104 | all three vote tables are empty |
| History.Labels | nqg_model/helper.py:3-5 | a label is in the set exactly when some user carries it |
| History.RetrievePrevStateUsers | nqg_model/helper.py:1-7 | the empty set for at most one timestep; otherwise exactly the labels of the last substep's users, failing when the last timestep has no substep |
| History.LabelsAppend | nqg_model/helper.py:3-5 | one more user adds exactly its label |
| History.LabelsCardinality | nqg_model/helper.py:3-5 | there are never more labels than users |
| History.DistinctLabelsCount | nqg_model/helper.py:3-5 | without repeated labels there are exactly as many labels as users |
| History.PrevStateUsersBounded | nqg_model/helper.py:1-7 | the previous population has at most as many labels as the last state has users |
| History.PrevStateUsersDependsOnLast | nqg_model/helper.py:1-7 | histories agreeing on the last substep of the last timestep give the same answer |
| History.DuplicateLabelsCollapse | nqg_model/helper.py:3-5 | two users sharing a label yield one label |

## Left out

- PageRank (`nx.pagerank` in `compute_trust_score`) is a foreign iterative float algorithm; its result is an input map.
- Random draws (`random.choices`, `randint`, `shuffle`, `nx.scale_free_graph`, `poisson.rvs`, `choice`, `sample`) are inputs. `SOnboardUsers` takes one `Draw` per new user, so the Poisson user count is the number of draws. The average rates that feed the Poisson draws are not modelled.
- `sample` is modelled on its size alone: an exactly sized sample is all the past rounds, a larger one raises. Recent Python versions also refuse a `set` as the population; the model follows the older behaviour that accepts it.
- Printing and plotting are left out; the `print_on_each_layer` flag is accepted and ignored.
- IEEE floats are modelled as exact reals; 0.66, 2/3 and 0.5 are exact.
- The cadCAD wiring and run driver (experiment.py, structure.py, `__init__.py`) are framework plumbing. cadCAD's substep loop is written out only as `TimeStep`/`TimeSteps` and `ApplyUpdate`.
- params.py and types.py are data and declarations. `SingleRunParams` copies the numbers of `SINGLE_RUN_PARAMS` (nqg_model/params.py:19-42).
- The notebook's `prior_voting_score` has no `return` and is in no layer, so it is not modelled. The stub APIs are constant functions (`ReputationApiGet`).
- The notebook's own random set-up of `USER_ACTIONS`, `TRUST_GRAPH` and the user lists is not modelled; the action table, the trust bonus map, the users and the projects are inputs.
- Both neural folds require no product layer to be empty: `reduce` without an initial value raises on one, and the model states that as a precondition.
- QuorumDelegation.VoteFromQuorumDelegation: requires `max_quorum_selected_delegates > 0`. A cap of 0 makes the absolute-agreement division raise, and a negative cap would make Python slice from the end of the list, which is no meaningful configuration.
- DemoQuorum.UserQuorum: requires the user to be in the action table; the source's `USER_ACTIONS[user_id]` raises `KeyError` otherwise, and the notebook only asks about known users.
- DemoQuorum.QuorumParticipation: requires every quorum member to be a known direct voter (`USER_ACTIONS[delegatee][1].get` raises otherwise). `query_user_quorum` only returns such members.
- DemoQuorum.QuorumAgreement: same precondition as QuorumParticipation, for the same reason.
- The notebook never builds an `Action.Abstain` table entry, so the action table has only voting and delegating users.
- Tally.ComputeVotingResults: requires distinct project ids, which `PROJECTS` has by construction. It also takes the per-user power as a function (`NotebookScore` under the notebook layers) rather than running `UserProjectVotePower` inside the loop.
- Tally.ComputeVotingResults: a recorded vote is the power itself, not the `{'power': vote}` dictionary that holds it.
- QuorumDelegation.EmptyQuorumResult: an empty quorum gives No, not Abstain, when both thresholds are at most 0. The model follows the code.
- NeuralGovernance.DefaultNgLayersPower: `trust_score` reads `user.label`, but the default trust neuron passes the scored user id unchanged; the model reads the id as the label. Were the id a bare string, the trust neuron would raise once the PageRank map has two or more entries; the id type is not defined in the code.
- NeuralGovernance.ConstantLayersExample: the product layer does not fold in the running score, so constant layers 0.2 + 0.3 followed by a product with 2.0 give 2.0, not 1.0.

## Findings

| source | as written | input that shows it | evidently intended | confidence | as-written member | corrected member |
|---|---|---|---|---|---|---|
| nqg_model/logic.py:77 | the i-th new user is labelled `str(len(new_user_list) + i)`, and the list grows inside the loop, so labels are n, n+2, n+4, … | onboard two users into an empty population (labels "0", "2"), then one more (label "2") | label each new user with its index `len(new_user_list)`, so labels stay unique across rounds | not executed | RoundLogic.OnboardLabelCollision | RoundLogic.OnboardByIndexKeepsLabels |
