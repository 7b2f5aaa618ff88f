# ne_qiki decision pipeline — a Dafny model

This project models the decision pipeline of the `ne_qiki` neural engine. The pipeline turns the agent context into safe actuator proposals:

- **FeatureExtractor** (`Features`) turns the agent context into a fixed-layout feature vector. The layout is an FSM one-hot, clamped health and sensor readings, and the recent action history. The vector is zero-padded or truncated to `in_dim` and replicated over `window` rows. The extractor also returns a constant action mask.
- **NeuralEngineV1.generate_proposals** (`NeuralEngine`) takes the top-k calibrated class probabilities. For every class whose probability is at least `min_confidence` it builds one single-command proposal. It passes the proposals through the SafetyShield, and it fails closed to no proposals on any exception or when the time budget is exceeded.
- **SafetyShield** (`Safety`) is a stateful gate. It has a global lockout in `ERROR_STATE` or when the health flag is down. It caps the number of commands per proposal. It checks every command all-or-nothing against the catalog's declared parameter ranges. It suppresses "flapping" by means of a bounded history of the first action names of approved proposals.
- **ProposalEvaluator.evaluate** (`ProposalEvaluator`) keeps the proposals with confidence at least 0.5. It sorts them stably by descending `(priority, confidence)` and keeps the first three. `Ranking` holds the stable descending sort and prefix-taking it shares with the engine's top-k.

The stateful parts keep their imperative shape:

- **`Safety.SafetyShield`** is a class. Its bounded history is a `seq` field, and `Validate` is a loop proved equal to the pure specification `Gate`/`Screen`. The class also carries a ghost trace of every approved key. Its invariant states the cross-call flap law: when the window holds at least two entries, no key is approved three times in a row.
- **`Features.FeatureExtractor.Extract`** builds the vector step by step: an array one-hot, extends, a history loop and a padding loop. It is proved equal to `WindowTensor`.
- **`NeuralEngine.NeuralEngineV1.GenerateProposals`** loops over the top-k candidates and calls the shield. It is proved equal to the pure `Cycle` and increments its inference counter exactly once.

The network, the softmax calibration, the clock and the telemetry publisher are not modelled. The calibrated scorer is a function-valued parameter. It returns `None` when it raises.
The elapsed milliseconds and whether the telemetry task could be scheduled are inputs to the cycle.

Where the code and its design description differ, the model follows the code:

- **A proposal with no commands can flap.** It records `None` in the history, and `None` is compared like any other key (`Safety.EmptyCommandFlaps`).
- **A different action in between does not fully reset the flap run.** The count is taken over the whole window. So HOLD, HOLD, THROTTLE_UP, HOLD is approved, and the next HOLD is refused (`Safety.PartialResetExample`).
- **The action mask is always six entries**, whatever the number of classes.
- **The telemetry dispatch runs inside the exception handler's scope.** If the telemetry task cannot be created, the cycle returns no proposals.
- **A missed deadline discards the result but not the shield's history update.** Approvals recorded during a late cycle still count towards flapping (`NeuralEngine.DeadlineKeepsHistory`).

## Model

| member | source | states |
|---|---|---|
| Safety.CatalogIndex | ne_qiki/core/safety.py:6 | every catalog entry is stored under its own name |
| Safety.CatalogIndexKeys | ne_qiki/core/safety.py:6 | a name is a catalog key exactly when some listed action has that name |
| Safety.CatalogIndexLastWins | ne_qiki/core/safety.py:6 | when a name is listed more than once, the last entry with that name is the one kept |
| Safety.CommandAllowed | ne_qiki/core/safety.py:29-37 | defines an allowed command: its action is a catalog key and every parameter the catalog declares lies in `[vmin, vmax]`; `ValidateAction` is proved to compute it |
| Safety.Append | ne_qiki/core/safety.py:26 | defines `deque(maxlen=w).append`: the newest `w` entries of the history with the key added; `AppendAllKeepsLast` states its meaning |
| Safety.IsFlapping | ne_qiki/core/safety.py:39-44 | defines flapping: a non-empty history whose newest entry is the proposal's key and which holds that key at least twice; the examples below exercise it |
| Safety.Screen | ne_qiki/core/safety.py:15-27 | defines the loop of `validate` over the proposals in order, each approval appending its key; the `Screen...` lemmas state its guarantees |
| Safety.Gate | ne_qiki/core/safety.py:11-27 | defines `validate`: the lockout, otherwise `Screen`; `LockoutBlocksEverything` and `SafetyShield.Validate` relate it to the source |
| Safety.SafetyShield.constructor | ne_qiki/core/safety.py:5-9 | the shield starts with the name-keyed catalog, the given limits and an empty history, and its invariant holds |
| Safety.SafetyShield.ValidateAction | ne_qiki/core/safety.py:29-37 | true exactly when the action is in the catalog and every parameter the catalog declares lies in its `[vmin, vmax]`; undeclared parameters are not checked |
| Safety.SafetyShield.ValidateAll | ne_qiki/core/safety.py:19-23 | true exactly when every command of the proposal passes the catalog and range check |
| Safety.SafetyShield.Validate | ne_qiki/core/safety.py:11-27 | the returned proposals and the new history are those of `Gate` on the old history; the approval trace grows by exactly the approved keys; the flap invariant is kept; under lockout it returns `[]` and leaves the history unchanged |
| Safety.LockoutBlocksEverything | ne_qiki/core/safety.py:12-13 | in `ERROR_STATE` or with the health flag false, nothing is approved and the history is unchanged |
| Safety.ScreenIsSubsequence | ne_qiki/core/safety.py:15-27 | the approved proposals are a subsequence of the input, in input order |
| Safety.ScreenApprovesOnlySafe | ne_qiki/core/safety.py:17-23 | every approved proposal has at most `max_actions` commands; each command names a catalog action, and each declared parameter lies within its range |
| Safety.ScreenHistory | ne_qiki/core/safety.py:24-26 | the new history is the old one with exactly the approved proposals' first-action keys (or `None`) appended in order; rejections append nothing |
| Safety.AppendAllKeepsLast | ne_qiki/core/safety.py:9 | the bounded history is always the newest `flap_window` keys ever appended; it never holds more than `flap_window` entries, and the oldest is evicted first |
| Safety.ScreenConcat | ne_qiki/core/safety.py:15-27 | screening one batch equals screening its two halves in successive calls, the second starting from the history the first left |
| Safety.ScreenSnoc | ne_qiki/core/safety.py:16-26 | a proposal at the end of a batch is approved exactly when it passes the count, bound and flap checks against the history the earlier proposals left |
| Safety.AcceptedBreaksRun | ne_qiki/core/safety.py:39-44 | with a window of at least two, a proposal that is not flapping never becomes the third consecutive approval of its key |
| Safety.ScreenNoTripleRun | ne_qiki/core/safety.py:24-44 | across any batches, when the window holds at least two entries, the approval trace never has the same key three times in a row |
| Safety.BoundsExample | ne_qiki/core/safety.py:29-37 | a `level` of 1.0 is allowed and 1.5 is refused; an undeclared parameter is allowed; an unknown action is refused |
| Safety.FlapExample | ne_qiki/core/safety.py:39-44 | three HOLD_POSITION proposals on an empty history: the first two are approved, the third is refused, and the history is two HOLD_POSITION entries |
| Safety.PartialResetExample | ne_qiki/core/safety.py:39-44 | HOLD, HOLD, THROTTLE_UP, HOLD, HOLD: the first four are approved and the last is refused |
| Safety.EmptyCommandFlaps | ne_qiki/core/safety.py:39-44 | a command-less proposal flaps when the history ends in `None` and holds it twice; an empty history never flaps |
| Safety.LockoutExample | tests/test_safety_shield.py:15-37 | one valid HOLD_POSITION proposal is approved when ACTIVE and refused in ERROR_STATE |
| Ranking.SortDesc | ne_qiki/core/proposal_evaluator.py:9 | defines the stable descending sort by insertion; `SortCount`, `SortSorted` and `SortStable` state its meaning |
| Ranking.Take | ne_qiki/core/proposal_evaluator.py:10 | the result is a prefix of the input of length `min(n, len(s))` |
| Ranking.SortCount | ne_qiki/core/proposal_evaluator.py:9 | sorting is a permutation of its input |
| Ranking.SortSorted | ne_qiki/core/proposal_evaluator.py:9 | sorting yields a sequence non-increasing in the key |
| Ranking.SortStable | ne_qiki/core/proposal_evaluator.py:9 | elements with equal keys keep their input order |
| Ranking.SortOfSorted | ne_qiki/core/proposal_evaluator.py:9 | sorting an already sorted sequence changes nothing |
| ProposalEvaluator.Evaluate | ne_qiki/core/proposal_evaluator.py:5-10 | defines `evaluate`: filter, stable descending sort, first three; the `Evaluate...` lemmas state its guarantees |
| ProposalEvaluator.Eligible | ne_qiki/core/proposal_evaluator.py:7 | a proposal is kept exactly when it is in the input and its confidence is at least 0.5 |
| ProposalEvaluator.EvaluateBounded | ne_qiki/core/proposal_evaluator.py:7-10 | the result has `min(3, len(eligible))` elements, is a sub-multiset of the eligible proposals, and every element comes from the input with confidence at least 0.5 |
| ProposalEvaluator.EvaluateOrdered | ne_qiki/core/proposal_evaluator.py:9 | the result is non-increasing in `(priority, confidence)` |
| ProposalEvaluator.EvaluateIsTopK | ne_qiki/core/proposal_evaluator.py:7-10 | an eligible proposal left out means three were returned, and it ranks no higher than the last one |
| ProposalEvaluator.EvaluateStable | ne_qiki/core/proposal_evaluator.py:9 | among proposals with equal keys, the result keeps a prefix of their input order |
| ProposalEvaluator.EvaluateIdempotent | ne_qiki/core/proposal_evaluator.py:7-10 | evaluating the result again returns it unchanged |
| ProposalEvaluator.EvaluateExample | tests/test_proposal_evaluator.py:10-17 | inputs with (confidence, priority) (0.6, 0.9), (0.4, 0.8) and (0.7, 0.7) give two results, "1" then "3" |
| Features.Clamp | ne_qiki/core/feature_extractor.py:25-43 | within `[lo, hi]` the value is unchanged, below it `lo`, above it `hi`, and the result always lies in the range |
| Features.FsmSlot | ne_qiki/core/feature_extractor.py:17-19 | every state maps to one of the four slots |
| Features.FsmOneHot | ne_qiki/core/feature_extractor.py:17-20 | slots 0..3 hold exactly one 1.0 at the state's slot and 0.0 elsewhere; BOOTING, IDLE and ACTIVE have slots 0, 1 and 2; ERROR_STATE, SHUTDOWN and any other state use slot 3 |
| Features.ReadingSlots | ne_qiki/core/feature_extractor.py:23-36 | each health and sensor slot is its reading scaled (by 1/100, 1/10, 1/5, 1/3.14 or 1) when that lands in range, the nearer range end otherwise, and 0 when the reading is missing |
| Features.BuiltFeaturesInRange | ne_qiki/core/feature_extractor.py:17-44 | the sixteen built entries lie in [-1, 1], and all but velocity and azimuth lie in [0, 1] |
| Features.Recent | ne_qiki/core/feature_extractor.py:42 | the result is the suffix of the history of length `min(5, len(hist))`: the newest entries, oldest first |
| Features.HistorySlotsLayout | ne_qiki/core/feature_extractor.py:40-44 | slots 11..15 hold the newest (at most five) history entries oldest first, each `clamp(a/10, 0, 1)`, then zeros |
| Features.MissingSensorDataIsZero | ne_qiki/core/feature_extractor.py:31-44 | without sensor data, every sensor and history slot is 0 |
| Features.BuiltFeatures | ne_qiki/core/feature_extractor.py:14-44 | defines the sixteen built entries in layout order; `FsmOneHot`, `ReadingSlots`, `HistorySlotsLayout` and `BuiltFeaturesInRange` state their contents |
| Features.Fit | ne_qiki/core/feature_extractor.py:47-51 | defines padding with zeros to `n` followed by keeping the first `n`; `FeatureVectorLayout` states the result |
| Features.WindowTensor | ne_qiki/core/feature_extractor.py:51 | defines the (1, window, in_dim) tensor of identical feature-vector rows; `FeatureExtractor.Extract` is proved to build it |
| Features.FeatureVectorLayout | ne_qiki/core/feature_extractor.py:47-51 | the vector has exactly `in_dim` entries: the built entries while they last, then zeros |
| Features.FsmVector | ne_qiki/core/feature_extractor.py:17-19 | the array written with a single 1.0 at the state's slot equals the one-hot of the state |
| Features.HistoryVector | ne_qiki/core/feature_extractor.py:40-43 | the five-slot array filled by the loop equals the history layout: newest five entries scaled and clamped, then zeros |
| Features.FeatureExtractor.constructor | ne_qiki/core/feature_extractor.py:6-8 | the extractor keeps the given window and input width |
| Features.FeatureExtractor.Extract | ne_qiki/core/feature_extractor.py:10-56 | the tensor is `WindowTensor`: shape (1, window, in_dim) with every row the feature vector; the mask is the constant row `[T,T,T,T,F,F]` of shape (1, 6) |
| NeuralEngine.TopK | ne_qiki/core/neural_engine_impl.py:34 | defines top-k as the first `k` of the candidates sorted stably by descending probability; the `TopK...` lemmas state its guarantees |
| NeuralEngine.TopKElements | ne_qiki/core/neural_engine_impl.py:34 | top-k returns `min(k, num_classes)` valid classes, each with its own probability |
| NeuralEngine.TopKDistinct | ne_qiki/core/neural_engine_impl.py:34 | no class is selected twice |
| NeuralEngine.TopKOrdered | ne_qiki/core/neural_engine_impl.py:34 | the selected classes come most probable first |
| NeuralEngine.TopKMaximal | ne_qiki/core/neural_engine_impl.py:34 | a class left out means `k` were taken, and it is no more probable than the last one taken |
| NeuralEngine.NatToString | ne_qiki/core/neural_engine_impl.py:44 | the identifier suffix is a non-empty string of decimal digits whose decimal value is the class index, with no leading zero (only 0 itself starts with `0`), so it is the canonical numeral `f"{idx}"` prints |
| NeuralEngine.ProposalFor | ne_qiki/core/neural_engine_impl.py:40-50 | defines the proposal for one candidate: id "ne_" and the index, source "NeuralEngineV1", the probability as confidence, the shared priority, one parameterless command naming the catalog action |
| NeuralEngine.Synthesize | ne_qiki/core/neural_engine_impl.py:35-51 | defines the synthesis loop over the top-k candidates; `SynthesizeIsSurvivors` and `SynthesizeFailsOnlyOnBadIndex` state its result |
| NeuralEngine.Survivors | ne_qiki/core/neural_engine_impl.py:37-39 | a candidate is kept exactly when it is in the top-k result with probability at least `min_confidence`; at most as many as the candidates |
| NeuralEngine.SynthesizeIsSurvivors | ne_qiki/core/neural_engine_impl.py:35-51 | when synthesis does not raise, it builds exactly one proposal per surviving candidate, in top-k order, the j-th being the proposal for the j-th survivor |
| NeuralEngine.SurvivorsDistinct | ne_qiki/core/neural_engine_impl.py:37-39 | filtering keeps distinct class indices distinct |
| NeuralEngine.SynthesizedIdsDistinct | ne_qiki/core/neural_engine_impl.py:34-51 | the proposals synthesized from a top-k result carry pairwise distinct identifiers |
| NeuralEngine.SynthesizeFailsOnlyOnBadIndex | ne_qiki/core/neural_engine_impl.py:35-59 | synthesis raises exactly when some confident top-k candidate has an index past the catalog's action list |
| NeuralEngine.SynthesizedShape | ne_qiki/core/neural_engine_impl.py:35-51 | each synthesized proposal comes from a confident candidate: id "ne_<index>", source "NeuralEngineV1", that probability as confidence, the shared priority, and one parameterless command naming catalog action `index`; there are no more proposals than candidates |
| NeuralEngine.SynthesizedAdmissible | ne_qiki/core/neural_engine_impl.py:40-56 | every synthesized proposal passes the shield's count and bound checks; only flapping can refuse it |
| NeuralEngine.Cycle | ne_qiki/core/neural_engine_impl.py:25-66 | defines one cycle: synthesis, then the shield unless something raised, then the deadline; `CycleFailsClosed`, `CycleOutputSafe`, `CycleCount` and `DeadlineKeepsHistory` state its guarantees |
| NeuralEngine.CycleFailsClosed | ne_qiki/core/neural_engine_impl.py:25-66 | ERROR_STATE, a false health flag, a raising scorer, a negative `topk`, a confident index past the action list, a failed telemetry dispatch or a missed deadline each yield `[]` |
| NeuralEngine.DeadlineKeepsHistory | ne_qiki/core/neural_engine_impl.py:56-66 | the deadline decides only what is returned: the shield's history is the same either way, and an on-time cycle returns what it computed |
| NeuralEngine.CycleOutputSafe | ne_qiki/core/neural_engine_impl.py:34-56 | every returned proposal is from NeuralEngineV1, has confidence at least `min_confidence`, and has one parameterless command naming a catalog action; there are at most `topk` of them, and they are a subsequence of the synthesized proposals, in synthesis order |
| NeuralEngine.CycleCount | ne_qiki/core/neural_engine_impl.py:34-35 | a cycle returns at most `min(topk, num_classes)` proposals |
| NeuralEngine.NeuralEngineV1.constructor | ne_qiki/core/neural_engine_impl.py:16-23 | the engine's shield uses the catalog with the default limits of 3 commands and a window of 5, starts with an empty history, and the counter starts at 0 |
| NeuralEngine.NeuralEngineV1.GenerateProposals | ne_qiki/core/neural_engine_impl.py:25-66 | the counter goes up by exactly one; the returned proposals and the shield's new history are those of `Cycle` on the old history; the engine's invariant is kept |

## Left out

- The network forward pass (`NE_v1`) and the softmax calibration are one scorer function given as a parameter. Its `params` output is not used by the cycle, so it is not modelled.
- Floating point is modelled as exact `real` arithmetic. The model does not capture float32 rounding, NaN or infinities. A NaN probability or reading would compare differently.
- The wall clock is an input: the elapsed milliseconds after the shield. The latency histogram, the inference counter metric and the printed log lines are not modelled; the counter is a plain field.
- The telemetry publisher (`_log_proposals`, the NATS logger) is not modelled. Only whether its task could be scheduled is an input, because a failure there is caught like any other exception.
- The connection task started by the engine's constructor is not modelled.
- Malformed catalog entries are not modelled, because the typed `ActionSpec` and `Bounds` cannot express them. The source reads an entry's `params` and compares against the upper bound only while checking a parameter that a command actually carries. So an entry without `params`, or a declared range whose upper bound is missing, raises only when a command for that action has a parameter. That never happens for the engine's parameterless commands.
- A declared range whose lower bound is `None` is accepted by the source without any check of the value. `Bounds` always has both ends, so the model always checks.
- An exception in the middle of a direct `validate` call is not modelled. In the source, the approvals made earlier in that batch stay in the history when it raises. Under the typed catalog the shield never raises.
- Feature-extraction failures are not modelled. In the source, `extract` raises when the context has no `sensor_data` attribute at all, when a health reading is present but `None`, or when a history entry is not numeric. `generate_proposals` then returns `[]`, and the shield's history is unchanged. The model treats a `None` health reading like a missing one (0), and every context has sensor data or none. So `NeuralEngine.Synthesis` fails only through the scorer, a negative `topk` or a bad catalog index.
- A negative `flap_window` raises in the source. `Safety.SafetyShield.constructor` takes it as a `nat`.
- Features.FeatureExtractor.constructor: `window` and `in_dim` are `nat`, and the defaults of 16 and 32 are not modelled. In the source a negative `in_dim` makes the truncation drop entries from the end, and a negative `window` makes `repeat` raise.
- NeuralEngine.TopK: ties between equal probabilities are taken in index order, while `torch.topk` does not promise an order for ties. The order of `NeuralEngine.SynthesizeIsSurvivors` and `NeuralEngine.Cycle` follows from it.
- The context's `sensor_data` is a typed record with optional fields, not an arbitrary dictionary. Unknown keys and non-numeric values are not modelled.
- Tensor dtypes and the `unsqueeze`/`repeat` views are modelled as nested sequences of values.
