/**
 * NeuralEngineV1.generate_proposals: extract features, score them, take the
 * top-k calibrated probabilities, synthesize one single-command proposal per
 * confident candidate, pass them through the SafetyShield, and fail closed to
 * no proposals on any exception or when the time budget is exceeded.
 *
 * The network, the softmax calibration, the clock and telemetry publishing are
 * outside the model: the calibrated scorer is a function value, the elapsed
 * milliseconds and whether the telemetry task could be scheduled are inputs.
 */
module NeuralEngine {
  import opened Models
  import opened Ranking
  import opened Safety
  import opened Features

  const SourceModuleId: string := "NeuralEngineV1"

  /** The configuration keys the cycle reads. */
  datatype EngineConfig = EngineConfig(
    window: nat,
    inDim: nat,
    topk: int,
    minConfidence: real,
    timeBudgetMs: real,
    actions: seq<ActionSpec>)

  /** Calibrated class probabilities and the scalar priority estimate. */
  datatype ScorerOutput = ScorerOutput(probabilities: seq<real>, priority: real)

  /** The network followed by calibration; `None` stands for a raised exception. */
  type Scorer = (seq<seq<seq<real>>>, seq<seq<bool>>) -> Option<ScorerOutput>

  /** One `(index, probability)` pair of the top-k result. */
  datatype Candidate = Candidate(index: nat, probability: real)

  // ----- top-k -----

  function Candidates(probs: seq<real>): (r: seq<Candidate>)
    ensures |r| == |probs| && forall i :: 0 <= i < |probs| ==> r[i] == Candidate(i, probs[i])
  {
    seq(|probs|, i requires 0 <= i < |probs| => Candidate(i, probs[i]))
  }

  function ProbabilityKey(c: Candidate): Key {
    Key(c.probability, 0.0)
  }

  /** `torch.topk(probs, k)`: the `k` most probable classes, ties in index order. */
  function TopK(probs: seq<real>, k: nat): seq<Candidate> {
    Take(SortDesc(Candidates(probs), ProbabilityKey), k)
  }

  ghost predicate DistinctIndices(cs: seq<Candidate>) {
    forall i, j :: 0 <= i < j < |cs| ==> cs[i].index != cs[j].index
  }

  lemma {:induction false} DistinctAtMostOnce(cs: seq<Candidate>, x: Candidate)
    requires DistinctIndices(cs)
    ensures multiset(cs)[x] <= 1
  {
    if cs != [] {
      DistinctAtMostOnce(cs[1..], x);
      assert cs == [cs[0]] + cs[1..];
      if cs[0] == x {
        assert x !in cs[1..] by {
          forall j | 0 <= j < |cs[1..]| ensures cs[1..][j] != x {
            assert cs[1..][j] == cs[j + 1];
          }
        }
      }
    }
  }

  lemma TwiceIsTwice(cs: seq<Candidate>, i: int, j: int)
    requires 0 <= i < j < |cs| && cs[i] == cs[j]
    ensures multiset(cs)[cs[i]] >= 2
  {
    assert cs == cs[..j] + cs[j..];
    assert cs[i] in cs[..j];
    assert cs[j] in cs[j..];
  }

  /** Every element of the sorted candidate list is a valid class with its own probability. */
  lemma SortedCandidates(probs: seq<real>)
    ensures var sorted := SortDesc(Candidates(probs), ProbabilityKey);
      && |sorted| == |probs|
      && multiset(sorted) == multiset(Candidates(probs))
      && SortedDesc(sorted, ProbabilityKey)
      && forall c :: c in sorted ==> c.index < |probs| && c.probability == probs[c.index]
  {
    var cands := Candidates(probs);
    var sorted := SortDesc(cands, ProbabilityKey);
    SortCount(cands, ProbabilityKey);
    SortSorted(cands, ProbabilityKey);
    forall c | c in sorted ensures c.index < |probs| && c.probability == probs[c.index] {
      assert c in multiset(cands);
    }
  }

  /** The top-k result holds `min(k, |probs|)` valid classes, each with its own probability. */
  lemma TopKElements(probs: seq<real>, k: nat)
    ensures var r := TopK(probs, k);
      && |r| == Min(k, |probs|)
      && forall c :: c in r ==> c.index < |probs| && c.probability == probs[c.index]
  {
    SortedCandidates(probs);
    var sorted := SortDesc(Candidates(probs), ProbabilityKey);
    assert sorted == TopK(probs, k) + sorted[|TopK(probs, k)|..];
  }

  /** No class is selected twice. */
  lemma TopKDistinct(probs: seq<real>, k: nat)
    ensures DistinctIndices(TopK(probs, k))
  {
    var cands := Candidates(probs);
    var sorted := SortDesc(cands, ProbabilityKey);
    SortedCandidates(probs);
    assert DistinctIndices(cands);
    forall i, j | 0 <= i < j < |sorted| ensures sorted[i].index != sorted[j].index {
      if sorted[i].index == sorted[j].index {
        assert sorted[i] in sorted && sorted[j] in sorted;
        TwiceIsTwice(sorted, i, j);
        DistinctAtMostOnce(cands, sorted[i]);
        assert false;
      }
    }
    assert TopK(probs, k) <= sorted;
  }

  /** The selected classes come most probable first. */
  lemma TopKOrdered(probs: seq<real>, k: nat)
    ensures var r := TopK(probs, k);
      forall i, j :: 0 <= i < j < |r| ==> r[j].probability <= r[i].probability
  {
    var sorted := SortDesc(Candidates(probs), ProbabilityKey);
    var r := TopK(probs, k);
    SortedCandidates(probs);
    forall i, j | 0 <= i < j < |r| ensures r[j].probability <= r[i].probability {
      assert KeyLe(ProbabilityKey(sorted[j]), ProbabilityKey(sorted[i]));
    }
  }

  /** A class left out only when `k` were taken, and then it is no more probable than the last. */
  lemma TopKMaximal(probs: seq<real>, k: nat, m: nat)
    requires m < |probs|
    requires forall c :: c in TopK(probs, k) ==> c.index != m
    ensures var r := TopK(probs, k);
      |r| == k && (k == 0 || probs[m] <= r[k - 1].probability)
  {
    var cands := Candidates(probs);
    var sorted := SortDesc(cands, ProbabilityKey);
    var r := TopK(probs, k);
    SortedCandidates(probs);
    assert cands[m] in multiset(sorted);
    var p :| 0 <= p < |sorted| && sorted[p] == cands[m];
    assert p >= |r|;
    if k > 0 {
      assert KeyLe(ProbabilityKey(sorted[p]), ProbabilityKey(sorted[k - 1]));
    }
  }

  // ----- synthesis -----

  /** The number a string of decimal digits denotes, most significant digit first. */
  function DecimalValue(s: string): int
    decreases |s|
  {
    if s == [] then 0
    else 10 * DecimalValue(s[..|s| - 1]) + (s[|s| - 1] as int - '0' as int)
  }

  /** Decimal digits of `n`, as an f-string prints it: the digit string that denotes `n`. */
  function NatToString(n: nat): (s: string)
    ensures |s| >= 1 && forall i :: 0 <= i < |s| ==> '0' <= s[i] <= '9'
    ensures DecimalValue(s) == n
    ensures |s| == 1 || s[0] != '0'
    ensures n > 0 ==> s[0] != '0'
    decreases n
  {
    var d := ('0' as int + n % 10) as char;
    if n < 10 then [d]
    else
      var s := NatToString(n / 10) + [d];
      assert s[..|s| - 1] == NatToString(n / 10);
      s
  }

  /** The proposal built for a confident candidate whose index is in the catalog list. */
  function ProposalFor(actions: seq<ActionSpec>, c: Candidate, priority: real): Proposal
    requires c.index < |actions|
  {
    var name := actions[c.index].name;
    Proposal("ne_" + NatToString(c.index), SourceModuleId, c.probability, priority,
             "Predicted by NE_v1 for " + name, [ActuatorCommand(name, map[])])
  }

  /**
   * The synthesis loop over the top-k candidates in order: skip those below the
   * threshold, raise (`None`) on an index past the catalog list, otherwise append.
   */
  function Synthesize(actions: seq<ActionSpec>, cands: seq<Candidate>, minConfidence: real, priority: real)
    : Option<seq<Proposal>>
    decreases |cands|
  {
    if cands == [] then Some([])
    else
      var c := cands[|cands| - 1];
      match Synthesize(actions, cands[..|cands| - 1], minConfidence, priority)
      case None => None
      case Some(ps) =>
        if c.probability < minConfidence then Some(ps)
        else if c.index >= |actions| then None
        else Some(ps + [ProposalFor(actions, c, priority)])
  }

  /** The candidates at or above the threshold, in top-k order. */
  function Survivors(cands: seq<Candidate>, minConfidence: real): (r: seq<Candidate>)
    ensures |r| <= |cands|
    ensures forall c :: c in r <==> c in cands && c.probability >= minConfidence
    decreases |cands|
  {
    if cands == [] then []
    else
      var c := cands[|cands| - 1];
      var front := cands[..|cands| - 1];
      assert cands == front + [c];
      Survivors(front, minConfidence) + (if c.probability < minConfidence then [] else [c])
  }

  /**
   * When synthesis does not raise, it builds exactly one proposal per surviving
   * candidate, in top-k order: the j-th proposal is the one for the j-th survivor.
   */
  lemma {:induction false} SynthesizeIsSurvivors(actions: seq<ActionSpec>, cands: seq<Candidate>,
                                                minConfidence: real, priority: real, ps: seq<Proposal>)
    requires Synthesize(actions, cands, minConfidence, priority) == Some(ps)
    ensures var sv := Survivors(cands, minConfidence);
      && |ps| == |sv|
      && forall j :: 0 <= j < |ps| ==> sv[j].index < |actions| && ps[j] == ProposalFor(actions, sv[j], priority)
    decreases |cands|
  {
    if cands != [] {
      var front := cands[..|cands| - 1];
      var c := cands[|cands| - 1];
      var ps' := Synthesize(actions, front, minConfidence, priority).value;
      SynthesizeIsSurvivors(actions, front, minConfidence, priority, ps');
    }
  }

  lemma {:induction false} SurvivorsDistinct(cands: seq<Candidate>, minConfidence: real)
    requires DistinctIndices(cands)
    ensures DistinctIndices(Survivors(cands, minConfidence))
    decreases |cands|
  {
    if cands != [] {
      var front := cands[..|cands| - 1];
      var c := cands[|cands| - 1];
      var sv := Survivors(front, minConfidence);
      SurvivorsDistinct(front, minConfidence);
      forall x | x in sv ensures x.index != c.index {
        var p :| 0 <= p < |front| && front[p] == x;
        assert cands[p] == x;
      }
    }
  }

  /** The proposals synthesized from a top-k result carry pairwise distinct identifiers. */
  lemma SynthesizedIdsDistinct(actions: seq<ActionSpec>, probs: seq<real>, k: nat,
                               minConfidence: real, priority: real, ps: seq<Proposal>)
    requires Synthesize(actions, TopK(probs, k), minConfidence, priority) == Some(ps)
    ensures forall i, j :: 0 <= i < j < |ps| ==> ps[i].proposalId != ps[j].proposalId
  {
    var top := TopK(probs, k);
    var sv := Survivors(top, minConfidence);
    TopKDistinct(probs, k);
    SurvivorsDistinct(top, minConfidence);
    SynthesizeIsSurvivors(actions, top, minConfidence, priority, ps);
    forall i, j | 0 <= i < j < |ps| ensures ps[i].proposalId != ps[j].proposalId {
      var a, b := NatToString(sv[i].index), NatToString(sv[j].index);
      assert sv[i].index != sv[j].index;
      assert ps[i].proposalId == "ne_" + a && ps[j].proposalId == "ne_" + b;
      assert ("ne_" + a)[3..] == a && ("ne_" + b)[3..] == b;
      assert a != b by {
        assert DecimalValue(a) != DecimalValue(b);
      }
    }
  }

  /** Synthesis raises exactly when some confident candidate has no catalog entry. */
  lemma {:induction false} SynthesizeFailsOnlyOnBadIndex(actions: seq<ActionSpec>, cands: seq<Candidate>,
                                                        minConfidence: real, priority: real)
    ensures Synthesize(actions, cands, minConfidence, priority) == None <==>
      exists i :: 0 <= i < |cands| && cands[i].probability >= minConfidence && cands[i].index >= |actions|
    decreases |cands|
  {
    if cands != [] {
      var front := cands[..|cands| - 1];
      SynthesizeFailsOnlyOnBadIndex(actions, front, minConfidence, priority);
      if exists i :: 0 <= i < |front| && front[i].probability >= minConfidence && front[i].index >= |actions| {
        var i :| 0 <= i < |front| && front[i].probability >= minConfidence && front[i].index >= |actions|;
        assert cands[i] == front[i];
      }
      if exists i :: 0 <= i < |cands| && cands[i].probability >= minConfidence && cands[i].index >= |actions| {
        var i :| 0 <= i < |cands| && cands[i].probability >= minConfidence && cands[i].index >= |actions|;
        if i < |front| {
          assert front[i] == cands[i];
        }
      }
    }
  }

  /** A confident candidate at position i, with a catalog entry. */
  ghost predicate SurvivorAt(actions: seq<ActionSpec>, cands: seq<Candidate>, minConfidence: real, i: int) {
    0 <= i < |cands| && cands[i].probability >= minConfidence && cands[i].index < |actions|
  }

  /** `q` is the proposal synthesized from the candidate at position `i`. */
  ghost predicate BuiltFrom(actions: seq<ActionSpec>, cands: seq<Candidate>, minConfidence: real,
                            priority: real, q: Proposal, i: int)
  {
    && SurvivorAt(actions, cands, minConfidence, i)
    && q.proposalId == "ne_" + NatToString(cands[i].index)
    && q.sourceModuleId == SourceModuleId
    && q.confidence == cands[i].probability
    && q.priority == priority
    && q.proposedActions == [ActuatorCommand(actions[cands[i].index].name, map[])]
  }

  /**
   * Every synthesized proposal comes from one confident candidate: identifier
   * "ne_<index>", this module as source, the candidate's probability as confidence,
   * the shared priority, and exactly one command naming that catalog action with no
   * parameters. There are no more proposals than candidates.
   */
  lemma {:induction false} SynthesizedShape(actions: seq<ActionSpec>, cands: seq<Candidate>,
                                           minConfidence: real, priority: real, ps: seq<Proposal>)
    requires Synthesize(actions, cands, minConfidence, priority) == Some(ps)
    ensures |ps| <= |cands|
    ensures forall q :: q in ps ==> exists i :: BuiltFrom(actions, cands, minConfidence, priority, q, i)
    decreases |cands|
  {
    if cands != [] {
      var front := cands[..|cands| - 1];
      var c := cands[|cands| - 1];
      var ps' := Synthesize(actions, front, minConfidence, priority).value;
      SynthesizedShape(actions, front, minConfidence, priority, ps');
      forall q | q in ps ensures exists i :: BuiltFrom(actions, cands, minConfidence, priority, q, i) {
        if q in ps' {
          var i :| BuiltFrom(actions, front, minConfidence, priority, q, i);
          assert front[i] == cands[i];
          assert BuiltFrom(actions, cands, minConfidence, priority, q, i);
        } else {
          assert BuiltFrom(actions, cands, minConfidence, priority, q, |cands| - 1);
        }
      }
    }
  }

  /** Every synthesized proposal passes the shield's count and bound checks. */
  lemma SynthesizedAdmissible(actions: seq<ActionSpec>, cands: seq<Candidate>,
                              minConfidence: real, priority: real, ps: seq<Proposal>)
    requires Synthesize(actions, cands, minConfidence, priority) == Some(ps)
    ensures forall q :: q in ps ==> Admissible(CatalogIndex(actions), DefaultMaxActionsPerTick, q)
  {
    SynthesizedShape(actions, cands, minConfidence, priority, ps);
    forall q | q in ps ensures Admissible(CatalogIndex(actions), DefaultMaxActionsPerTick, q) {
      var i :| BuiltFrom(actions, cands, minConfidence, priority, q, i);
      var name := actions[cands[i].index].name;
      CatalogIndexKeys(actions, name);
      assert CommandAllowed(CatalogIndex(actions), q.proposedActions[0]);
    }
  }

  // ----- one decision cycle -----

  /** Extraction, scoring, top-k and synthesis; `None` when any of them raises. */
  function Synthesis(cfg: EngineConfig, ctx: AgentContext, scorer: Scorer): Option<seq<Proposal>> {
    match scorer(WindowTensor(ctx, cfg.window, cfg.inDim), [MaskRow])
    case None => None
    case Some(out) =>
      if cfg.topk < 0 then None
      else Synthesize(cfg.actions, TopK(out.probabilities, cfg.topk), cfg.minConfidence, out.priority)
  }

  /**
   * `generate_proposals` on the shield history `h`: the returned proposals and the
   * shield's new history. Any exception gives no proposals and an untouched
   * history; a late cycle gives no proposals but keeps the shield's approvals.
   */
  function Cycle(cfg: EngineConfig, h: seq<HistoryEntry>, ctx: AgentContext, scorer: Scorer,
                 telemetryScheduled: bool, elapsedMs: real): Outcome
  {
    var validated :=
      match Synthesis(cfg, ctx, scorer)
      case None => Outcome([], h)
      case Some(ps) =>
        if !telemetryScheduled then Outcome([], h)
        else Gate(CatalogIndex(cfg.actions), DefaultMaxActionsPerTick, DefaultFlapWindow, h, ps,
                  ctx.fsmState, ctx.biosStatus.ok);
    if elapsedMs > cfg.timeBudgetMs then Outcome([], validated.history) else validated
  }

  /**
   * Fail closed: a locked-out state, a raising scorer, an index past the catalog
   * list, a failed telemetry dispatch or a missed deadline each yield no proposals.
   */
  lemma CycleFailsClosed(cfg: EngineConfig, h: seq<HistoryEntry>, ctx: AgentContext, scorer: Scorer,
                         telemetryScheduled: bool, elapsedMs: real)
    requires || ctx.fsmState == ErrorState
             || !ctx.biosStatus.ok
             || scorer(WindowTensor(ctx, cfg.window, cfg.inDim), [MaskRow]) == None
             || cfg.topk < 0
             || (exists c :: c in TopK(scorer(WindowTensor(ctx, cfg.window, cfg.inDim), [MaskRow]).value.probabilities, cfg.topk)
                   && c.probability >= cfg.minConfidence && c.index >= |cfg.actions|)
             || !telemetryScheduled
             || elapsedMs > cfg.timeBudgetMs
    ensures Cycle(cfg, h, ctx, scorer, telemetryScheduled, elapsedMs).approved == []
  {
    var out := scorer(WindowTensor(ctx, cfg.window, cfg.inDim), [MaskRow]);
    if out.Some? && cfg.topk >= 0 {
      var top := TopK(out.value.probabilities, cfg.topk);
      SynthesizeFailsOnlyOnBadIndex(cfg.actions, top, cfg.minConfidence, out.value.priority);
      if exists c :: c in top && c.probability >= cfg.minConfidence && c.index >= |cfg.actions| {
        var c :| c in top && c.probability >= cfg.minConfidence && c.index >= |cfg.actions|;
        var i :| 0 <= i < |top| && top[i] == c;
      }
    }
  }

  /** The deadline decides only what is returned: the shield's history is the same either way. */
  lemma DeadlineKeepsHistory(cfg: EngineConfig, h: seq<HistoryEntry>, ctx: AgentContext, scorer: Scorer,
                             telemetryScheduled: bool, elapsedMs: real)
    ensures Cycle(cfg, h, ctx, scorer, telemetryScheduled, elapsedMs).history
         == Cycle(cfg, h, ctx, scorer, telemetryScheduled, cfg.timeBudgetMs).history
    ensures elapsedMs <= cfg.timeBudgetMs ==>
      Cycle(cfg, h, ctx, scorer, telemetryScheduled, elapsedMs)
        == Cycle(cfg, h, ctx, scorer, telemetryScheduled, cfg.timeBudgetMs)
  {
  }

  /**
   * What a cycle returns: at most `topk` proposals, each from this module, each at
   * least `min_confidence`, each one parameterless command naming a catalog action,
   * and all of them approved by the shield in the order they were synthesized.
   */
  lemma CycleOutputSafe(cfg: EngineConfig, h: seq<HistoryEntry>, ctx: AgentContext, scorer: Scorer,
                        telemetryScheduled: bool, elapsedMs: real)
    ensures var r := Cycle(cfg, h, ctx, scorer, telemetryScheduled, elapsedMs).approved;
      && |r| <= (if cfg.topk < 0 then 0 else cfg.topk)
      && forall q :: q in r ==>
           && q.sourceModuleId == SourceModuleId
           && q.confidence >= cfg.minConfidence
           && |q.proposedActions| == 1
           && q.proposedActions[0].name in CatalogIndex(cfg.actions)
           && q.proposedActions[0].params == map[]
    ensures Synthesis(cfg, ctx, scorer).Some? ==>
      IsSubsequence(Cycle(cfg, h, ctx, scorer, telemetryScheduled, elapsedMs).approved,
                    Synthesis(cfg, ctx, scorer).value)
  {
    var r := Cycle(cfg, h, ctx, scorer, telemetryScheduled, elapsedMs).approved;
    var out := scorer(WindowTensor(ctx, cfg.window, cfg.inDim), [MaskRow]);
    if out.Some? && cfg.topk >= 0 {
      var top := TopK(out.value.probabilities, cfg.topk);
      var syn := Synthesize(cfg.actions, top, cfg.minConfidence, out.value.priority);
      if syn.Some? && telemetryScheduled && !(ctx.fsmState == ErrorState || !ctx.biosStatus.ok)
         && !(elapsedMs > cfg.timeBudgetMs) {
        var ps := syn.value;
        SynthesizedShape(cfg.actions, top, cfg.minConfidence, out.value.priority, ps);
        ScreenIsSubsequence(CatalogIndex(cfg.actions), DefaultMaxActionsPerTick, DefaultFlapWindow, h, ps);
        SubsequenceMembers(r, ps);
        assert |top| <= cfg.topk;
        forall q | q in r ensures q.proposedActions[0].name in CatalogIndex(cfg.actions) {
          var i :| BuiltFrom(cfg.actions, top, cfg.minConfidence, out.value.priority, q, i);
          CatalogIndexKeys(cfg.actions, q.proposedActions[0].name);
        }
      }
    }
  }

  /** A cycle returns at most `min(topk, num_classes)` proposals. */
  lemma CycleCount(cfg: EngineConfig, h: seq<HistoryEntry>, ctx: AgentContext, scorer: Scorer,
                   telemetryScheduled: bool, elapsedMs: real, out: ScorerOutput)
    requires scorer(WindowTensor(ctx, cfg.window, cfg.inDim), [MaskRow]) == Some(out)
    requires cfg.topk >= 0
    ensures |Cycle(cfg, h, ctx, scorer, telemetryScheduled, elapsedMs).approved| <= Min(cfg.topk, |out.probabilities|)
  {
    var top := TopK(out.probabilities, cfg.topk);
    var syn := Synthesize(cfg.actions, top, cfg.minConfidence, out.priority);
    TopKElements(out.probabilities, cfg.topk);
    if syn.Some? {
      SynthesizedShape(cfg.actions, top, cfg.minConfidence, out.priority, syn.value);
      ScreenIsSubsequence(CatalogIndex(cfg.actions), DefaultMaxActionsPerTick, DefaultFlapWindow, h, syn.value);
      SubsequenceMembers(Screen(CatalogIndex(cfg.actions), DefaultMaxActionsPerTick, DefaultFlapWindow, h, syn.value).approved, syn.value);
    }
  }

  // ----- the engine -----

  class NeuralEngineV1 {
    const config: EngineConfig
    const extractor: FeatureExtractor
    const safety: SafetyShield
    /** The inference counter. */
    var inferenceCount: nat

    ghost predicate Valid()
      reads this, safety
    {
      && safety.Valid()
      && safety.actionCatalog == CatalogIndex(config.actions)
      && safety.maxActions == DefaultMaxActionsPerTick
      && safety.flapWindow == DefaultFlapWindow
      && extractor.window == config.window
      && extractor.inDim == config.inDim
    }

    constructor (config: EngineConfig)
      ensures Valid() && fresh(safety)
      ensures this.config == config && inferenceCount == 0
      ensures safety.actionHistory == []
    {
      this.config := config;
      extractor := new FeatureExtractor(config.window, config.inDim);
      safety := new SafetyShield(config.actions, DefaultMaxActionsPerTick, DefaultFlapWindow);
      inferenceCount := 0;
    }

    /**
     * One decision cycle. `scorer` is the network followed by calibration,
     * `telemetryScheduled` says whether the telemetry task could be created, and
     * `elapsedMs` is the clock reading taken after the shield.
     */
    method GenerateProposals(ctx: AgentContext, scorer: Scorer, telemetryScheduled: bool, elapsedMs: real)
      returns (proposals: seq<Proposal>)
      requires Valid()
      modifies this, safety
      ensures Valid()
      ensures inferenceCount == old(inferenceCount) + 1
      ensures Outcome(proposals, safety.actionHistory)
           == Cycle(config, old(safety.actionHistory), ctx, scorer, telemetryScheduled, elapsedMs)
    {
      inferenceCount := inferenceCount + 1;
      var failed := false;
      proposals := [];
      var tensor, mask := extractor.Extract(ctx);
      var scored := scorer(tensor, mask);
      if scored.None? || config.topk < 0 {
        failed := true;
      } else {
        var top := TopK(scored.value.probabilities, config.topk);
        var priority := scored.value.priority;
        var i := 0;
        while i < |top|
          invariant 0 <= i <= |top|
          invariant !failed ==> Synthesize(config.actions, top[..i], config.minConfidence, priority) == Some(proposals)
          invariant failed ==> Synthesize(config.actions, top, config.minConfidence, priority) == None
          invariant safety.actionHistory == old(safety.actionHistory) && safety.Valid()
        {
          var c := top[i];
          assert top[..i + 1][..i] == top[..i];
          if c.probability < config.minConfidence {
            i := i + 1;
            continue;
          }
          if c.index >= |config.actions| {
            SynthesizeFailsOnlyOnBadIndex(config.actions, top, config.minConfidence, priority);
            failed := true;
            break;
          }
          proposals := proposals + [ProposalFor(config.actions, c, priority)];
          i := i + 1;
        }
        if !failed {
          assert top[..i] == top;
          if !telemetryScheduled {
            failed := true;
          } else {
            proposals := safety.Validate(proposals, ctx.fsmState, ctx.biosStatus.ok);
          }
        }
      }
      if failed {
        proposals := [];
      }
      if elapsedMs > config.timeBudgetMs {
        proposals := [];
      }
    }
  }
}
