/**
 * ProposalEvaluator.evaluate: keep proposals with confidence at least 0.5,
 * sort them stably in descending order of (priority, confidence), and return
 * at most the first three.
 */
module ProposalEvaluator {
  import opened Models
  import opened Ranking

  const ConfidenceThreshold: real := 0.5
  const MaxResults: nat := 3

  /** The sort key: priority first, confidence as the tie-break. */
  function RankKey(p: Proposal): Key {
    Key(p.priority, p.confidence)
  }

  /** The list comprehension: the confident proposals, in input order. */
  function Eligible(ps: seq<Proposal>): (r: seq<Proposal>)
    ensures |r| <= |ps|
    ensures forall q :: q in r <==> q in ps && q.confidence >= ConfidenceThreshold
  {
    if ps == [] then []
    else if ps[0].confidence >= ConfidenceThreshold then [ps[0]] + Eligible(ps[1..])
    else Eligible(ps[1..])
  }

  function Evaluate(ps: seq<Proposal>): seq<Proposal> {
    Take(SortDesc(Eligible(ps), RankKey), MaxResults)
  }

  /** The result holds at most three proposals, each confident and each taken from the input. */
  lemma EvaluateBounded(ps: seq<Proposal>)
    ensures |Evaluate(ps)| == Min(MaxResults, |Eligible(ps)|)
    ensures multiset(Evaluate(ps)) <= multiset(Eligible(ps))
    ensures forall q :: q in Evaluate(ps) ==> q in ps && q.confidence >= ConfidenceThreshold
  {
    var ranked := SortDesc(Eligible(ps), RankKey);
    SortCount(Eligible(ps), RankKey);
    var r := Evaluate(ps);
    assert ranked == r + ranked[|r|..];
    assert multiset(ranked) == multiset(r) + multiset(ranked[|r|..]);
    forall q | q in r ensures q in ps && q.confidence >= ConfidenceThreshold {
      assert q in multiset(ranked);
    }
  }

  /** The result is non-increasing in (priority, confidence). */
  lemma EvaluateOrdered(ps: seq<Proposal>)
    ensures SortedDesc(Evaluate(ps), RankKey)
  {
    var ranked := SortDesc(Eligible(ps), RankKey);
    SortSorted(Eligible(ps), RankKey);
    PrefixOfSorted(ranked, |Evaluate(ps)|, RankKey);
  }

  /**
   * The result is the top of the confident proposals: any confident proposal left
   * out ranks no higher than the last one returned.
   */
  lemma EvaluateIsTopK(ps: seq<Proposal>)
    ensures forall q :: q in Eligible(ps) && q !in Evaluate(ps) ==>
      |Evaluate(ps)| == MaxResults && KeyLe(RankKey(q), RankKey(Evaluate(ps)[MaxResults - 1]))
  {
    var ranked := SortDesc(Eligible(ps), RankKey);
    SortCount(Eligible(ps), RankKey);
    SortSorted(Eligible(ps), RankKey);
    forall q | q in Eligible(ps) && q !in Evaluate(ps)
      ensures |Evaluate(ps)| == MaxResults && KeyLe(RankKey(q), RankKey(Evaluate(ps)[MaxResults - 1]))
    {
      assert q in multiset(ranked);
      var i :| 0 <= i < |ranked| && ranked[i] == q;
      assert |ranked| > MaxResults && i >= MaxResults;
    }
  }

  /**
   * Stability: among proposals with equal (priority, confidence), the result keeps
   * a prefix of their input order.
   */
  lemma EvaluateStable(ps: seq<Proposal>, k: Key)
    ensures WithKey(Evaluate(ps), RankKey, k) <= WithKey(Eligible(ps), RankKey, k)
  {
    var ranked := SortDesc(Eligible(ps), RankKey);
    SortCount(Eligible(ps), RankKey);
    SortStable(Eligible(ps), RankKey, k);
    var n := |Evaluate(ps)|;
    assert Evaluate(ps) == ranked[..n];
    WithKeyOfPrefix(ranked, n, RankKey, k);
  }

  lemma {:induction false} EligibleOfConfident(ps: seq<Proposal>)
    requires forall q :: q in ps ==> q.confidence >= ConfidenceThreshold
    ensures Eligible(ps) == ps
  {
    if ps != [] {
      assert ps[0] in ps;
      EligibleOfConfident(ps[1..]);
      assert ps == [ps[0]] + ps[1..];
    }
  }

  /** Evaluating an evaluated list changes nothing. */
  lemma EvaluateIdempotent(ps: seq<Proposal>)
    ensures Evaluate(Evaluate(ps)) == Evaluate(ps)
  {
    var r := Evaluate(ps);
    EvaluateBounded(ps);
    EvaluateOrdered(ps);
    EligibleOfConfident(r);
    SortOfSorted(r, RankKey);
  }

  /** Inputs (confidence, priority) = (0.6, 0.9), (0.4, 0.8), (0.7, 0.7): two results, led by "1". */
  lemma EvaluateExample()
    ensures var cmd := [ActuatorCommand("HOLD", map[])];
      var p1 := Proposal("1", "test", 0.6, 0.9, "test", cmd);
      var p2 := Proposal("2", "test", 0.4, 0.8, "test", [ActuatorCommand("MOVE", map[])]);
      var p3 := Proposal("3", "test", 0.7, 0.7, "test", [ActuatorCommand("STOP", map[])]);
      var r := Evaluate([p1, p2, p3]);
      |r| == 2 && r[0].proposalId == "1" && r[1].proposalId == "3"
  {
    var p1 := Proposal("1", "test", 0.6, 0.9, "test", [ActuatorCommand("HOLD", map[])]);
    var p2 := Proposal("2", "test", 0.4, 0.8, "test", [ActuatorCommand("MOVE", map[])]);
    var p3 := Proposal("3", "test", 0.7, 0.7, "test", [ActuatorCommand("STOP", map[])]);
    var ps := [p1, p2, p3];
    assert ps[1..] == [p2, p3] && ps[1..][1..] == [p3];
    assert Eligible(ps) == [p1, p3];
    assert [p1, p3][1..] == [p3];
    assert SortDesc([p3], RankKey) == [p3];
    assert SortDesc([p1, p3], RankKey) == Insert(p1, [p3], RankKey) == [p1, p3];
  }
}
