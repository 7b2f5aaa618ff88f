/**
 * The SafetyShield: a fail-closed lockout, a cap on commands per proposal,
 * all-or-nothing parameter-bound checks against the action catalog, and flap
 * suppression driven by a bounded history of approved first-action names.
 *
 * The pure functions below (`Screen`, `Gate`) state what one call computes;
 * the class `SafetyShield` is the stateful object, and its `Validate` method
 * is proved to agree with them.
 */
module Safety {
  import opened Models

  /** One history slot: the first action name of an approved proposal, `None` if it had no commands. */
  type HistoryEntry = Option<string>

  const ErrorState: string := "ERROR_STATE"
  const DefaultMaxActionsPerTick: int := 3
  const DefaultFlapWindow: nat := 5

  // ----- the catalog -----

  /** The catalog index has entry i as the winner for its name when no later entry shares it. */
  ghost predicate LastNamed(actions: seq<ActionSpec>, i: int)
    requires 0 <= i < |actions|
  {
    forall j :: i < j < |actions| ==> actions[j].name != actions[i].name
  }

  /**
   * The name-keyed dictionary built from the catalog's action list; each entry is
   * stored under its own name, a later entry replacing an earlier one.
   */
  function CatalogIndex(actions: seq<ActionSpec>): (m: map<string, ActionSpec>)
    ensures forall name :: name in m ==> m[name].name == name
  {
    if actions == [] then map[]
    else
      var last := actions[|actions| - 1];
      CatalogIndex(actions[..|actions| - 1])[last.name := last]
  }

  /** Exactly the listed names are keys of the index. */
  lemma {:induction false} CatalogIndexKeys(actions: seq<ActionSpec>, name: string)
    ensures name in CatalogIndex(actions) <==> exists i :: 0 <= i < |actions| && actions[i].name == name
  {
    if actions != [] {
      var front := actions[..|actions| - 1];
      CatalogIndexKeys(front, name);
      if exists i :: 0 <= i < |front| && front[i].name == name {
        var i :| 0 <= i < |front| && front[i].name == name;
        assert actions[i].name == name;
      }
      if exists i :: 0 <= i < |actions| && actions[i].name == name {
        var i :| 0 <= i < |actions| && actions[i].name == name;
        if i < |front| {
          assert front[i].name == name;
        }
      }
    }
  }

  /** A name listed more than once maps to its last entry in the list. */
  lemma {:induction false} CatalogIndexLastWins(actions: seq<ActionSpec>, i: int)
    requires 0 <= i < |actions| && LastNamed(actions, i)
    ensures actions[i].name in CatalogIndex(actions)
    ensures CatalogIndex(actions)[actions[i].name] == actions[i]
  {
    var front := actions[..|actions| - 1];
    if i < |front| {
      assert LastNamed(front, i) by {
        forall j | i < j < |front| ensures front[j].name != front[i].name {
          assert front[j] == actions[j];
        }
      }
      CatalogIndexLastWins(front, i);
      assert actions[|actions| - 1].name != actions[i].name;
    }
  }

  predicate WithinBounds(v: real, b: Bounds) {
    b.vmin <= v <= b.vmax
  }

  /**
   * A command is allowed when its action is in the catalog and each parameter the
   * catalog declares for that action lies in its declared range; parameters the
   * catalog does not declare are not checked.
   */
  predicate CommandAllowed(catalog: map<string, ActionSpec>, cmd: ActuatorCommand) {
    && cmd.name in catalog
    && forall k :: k in cmd.params && k in catalog[cmd.name].params ==>
         WithinBounds(cmd.params[k], catalog[cmd.name].params[k])
  }

  predicate AllAllowed(catalog: map<string, ActionSpec>, cmds: seq<ActuatorCommand>) {
    forall i :: 0 <= i < |cmds| ==> CommandAllowed(catalog, cmds[i])
  }

  /** Count and bound checks together: what a proposal must pass before the flap check. */
  predicate Admissible(catalog: map<string, ActionSpec>, maxActions: int, p: Proposal) {
    |p.proposedActions| <= maxActions && AllAllowed(catalog, p.proposedActions)
  }

  // ----- the history window -----

  function FirstKey(p: Proposal): HistoryEntry {
    if p.proposedActions == [] then None else Some(p.proposedActions[0].name)
  }

  function KeysOf(ps: seq<Proposal>): (r: seq<HistoryEntry>)
    ensures |r| == |ps| && forall i :: 0 <= i < |ps| ==> r[i] == FirstKey(ps[i])
  {
    seq(|ps|, i requires 0 <= i < |ps| => FirstKey(ps[i]))
  }

  lemma KeysOfSnoc(ps: seq<Proposal>, p: Proposal)
    ensures KeysOf(ps + [p]) == KeysOf(ps) + [FirstKey(p)]
  {
  }

  function Occurrences(h: seq<HistoryEntry>, e: HistoryEntry): nat {
    if h == [] then 0
    else Occurrences(h[..|h| - 1], e) + (if h[|h| - 1] == e then 1 else 0)
  }

  /** The last `n` elements of `s` (all of `s` when it is shorter). */
  function LastN<T>(s: seq<T>, n: nat): (r: seq<T>)
    ensures |r| <= n && |r| <= |s|
  {
    if |s| <= n then s else s[|s| - n..]
  }

  /** `deque(maxlen=w).append(e)`: once `w` entries are held the oldest is dropped. */
  function Append(h: seq<HistoryEntry>, e: HistoryEntry, w: nat): seq<HistoryEntry> {
    LastN(h + [e], w)
  }

  function AppendAll(h: seq<HistoryEntry>, es: seq<HistoryEntry>, w: nat): seq<HistoryEntry>
    decreases |es|
  {
    if es == [] then h else AppendAll(Append(h, es[0], w), es[1..], w)
  }

  /**
   * A proposal flaps when the history is non-empty, its first-action key (or `None`)
   * equals the newest history entry, and that key occurs at least twice in the history.
   */
  predicate IsFlapping(h: seq<HistoryEntry>, p: Proposal) {
    h != [] && h[|h| - 1] == FirstKey(p) && Occurrences(h, FirstKey(p)) >= 2
  }

  predicate Accepts(catalog: map<string, ActionSpec>, maxActions: int, h: seq<HistoryEntry>, p: Proposal) {
    Admissible(catalog, maxActions, p) && !IsFlapping(h, p)
  }

  // ----- one call of validate -----

  datatype Outcome = Outcome(approved: seq<Proposal>, history: seq<HistoryEntry>)

  /** The loop of `validate`: proposals in input order, each approval appending to the history. */
  function Screen(catalog: map<string, ActionSpec>, maxActions: int, w: nat,
                  h: seq<HistoryEntry>, ps: seq<Proposal>): Outcome
    decreases |ps|
  {
    if ps == [] then Outcome([], h)
    else if Accepts(catalog, maxActions, h, ps[0]) then
      var rest := Screen(catalog, maxActions, w, Append(h, FirstKey(ps[0]), w), ps[1..]);
      Outcome([ps[0]] + rest.approved, rest.history)
    else
      Screen(catalog, maxActions, w, h, ps[1..])
  }

  /** `validate`: the global lockout, then `Screen`. */
  function Gate(catalog: map<string, ActionSpec>, maxActions: int, w: nat,
                h: seq<HistoryEntry>, ps: seq<Proposal>, fsmState: string, biosOk: bool): Outcome
  {
    if fsmState == ErrorState || !biosOk then Outcome([], h)
    else Screen(catalog, maxActions, w, h, ps)
  }

  // ----- what validate guarantees -----

  predicate IsSubsequence<T(==)>(a: seq<T>, b: seq<T>)
    decreases |b|
  {
    a == [] || (b != [] && ((a[0] == b[0] && IsSubsequence(a[1..], b[1..])) || IsSubsequence(a, b[1..])))
  }

  lemma {:induction false} SubsequenceMembers<T>(a: seq<T>, b: seq<T>)
    requires IsSubsequence(a, b)
    ensures |a| <= |b|
    ensures forall x :: x in a ==> x in b
    decreases |b|
  {
    if a != [] {
      if a[0] == b[0] && IsSubsequence(a[1..], b[1..]) {
        SubsequenceMembers(a[1..], b[1..]);
        forall x | x in a ensures x in b {
          if x != a[0] {
            assert x in a[1..];
          }
        }
      } else {
        SubsequenceMembers(a, b[1..]);
      }
    }
  }

  /** Lockout: in ERROR_STATE or with a failed health flag nothing passes and the history is kept. */
  lemma LockoutBlocksEverything(catalog: map<string, ActionSpec>, maxActions: int, w: nat,
                                h: seq<HistoryEntry>, ps: seq<Proposal>, fsmState: string, biosOk: bool)
    requires fsmState == ErrorState || !biosOk
    ensures Gate(catalog, maxActions, w, h, ps, fsmState, biosOk) == Outcome([], h)
  {
  }

  /** The approved proposals are the input proposals, some left out, in their input order. */
  lemma {:induction false} ScreenIsSubsequence(catalog: map<string, ActionSpec>, maxActions: int, w: nat,
                                              h: seq<HistoryEntry>, ps: seq<Proposal>)
    ensures IsSubsequence(Screen(catalog, maxActions, w, h, ps).approved, ps)
    decreases |ps|
  {
    if ps != [] {
      if Accepts(catalog, maxActions, h, ps[0]) {
        ScreenIsSubsequence(catalog, maxActions, w, Append(h, FirstKey(ps[0]), w), ps[1..]);
      } else {
        ScreenIsSubsequence(catalog, maxActions, w, h, ps[1..]);
      }
    }
  }

  /**
   * Every approved proposal has at most `maxActions` commands, every command names a
   * catalog action, and every parameter the catalog declares lies within its range.
   */
  lemma {:induction false} ScreenApprovesOnlySafe(catalog: map<string, ActionSpec>, maxActions: int, w: nat,
                                                 h: seq<HistoryEntry>, ps: seq<Proposal>)
    ensures forall q :: q in Screen(catalog, maxActions, w, h, ps).approved ==>
      && |q.proposedActions| <= maxActions
      && forall c :: c in q.proposedActions ==>
           && c.name in catalog
           && forall k :: k in c.params && k in catalog[c.name].params ==>
                catalog[c.name].params[k].vmin <= c.params[k] <= catalog[c.name].params[k].vmax
    decreases |ps|
  {
    if ps != [] {
      var h' := if Accepts(catalog, maxActions, h, ps[0]) then Append(h, FirstKey(ps[0]), w) else h;
      ScreenApprovesOnlySafe(catalog, maxActions, w, h', ps[1..]);
      if Accepts(catalog, maxActions, h, ps[0]) {
        forall c | c in ps[0].proposedActions
          ensures CommandAllowed(catalog, c)
        {
          var i :| 0 <= i < |ps[0].proposedActions| && ps[0].proposedActions[i] == c;
        }
      }
    }
  }

  /** Each approval appends exactly its first-action key to the history; rejections append nothing. */
  lemma {:induction false} ScreenHistory(catalog: map<string, ActionSpec>, maxActions: int, w: nat,
                                        h: seq<HistoryEntry>, ps: seq<Proposal>)
    ensures var o := Screen(catalog, maxActions, w, h, ps);
      o.history == AppendAll(h, KeysOf(o.approved), w)
    decreases |ps|
  {
    if ps != [] {
      if Accepts(catalog, maxActions, h, ps[0]) {
        var h' := Append(h, FirstKey(ps[0]), w);
        ScreenHistory(catalog, maxActions, w, h', ps[1..]);
        var rest := Screen(catalog, maxActions, w, h', ps[1..]).approved;
        assert KeysOf([ps[0]] + rest)[1..] == KeysOf(rest);
      } else {
        ScreenHistory(catalog, maxActions, w, h, ps[1..]);
      }
    }
  }

  lemma AppendKeepsLast<T>(s: seq<T>, e: T, w: nat)
    ensures LastN(LastN(s, w) + [e], w) == LastN(s + [e], w)
  {
  }

  /**
   * The bounded deque holds exactly the newest `w` of everything ever appended:
   * at most `w` entries, the oldest evicted first.
   */
  lemma {:induction false} AppendAllKeepsLast(t: seq<HistoryEntry>, es: seq<HistoryEntry>, w: nat)
    ensures AppendAll(LastN(t, w), es, w) == LastN(t + es, w)
    ensures |AppendAll(LastN(t, w), es, w)| <= w
    decreases |es|
  {
    if es != [] {
      AppendKeepsLast(t, es[0], w);
      AppendAllKeepsLast(t + [es[0]], es[1..], w);
      assert t + [es[0]] + es[1..] == t + es;
    }
  }

  /** Processing one batch is the same as processing its two halves in successive calls. */
  lemma {:induction false} ScreenConcat(catalog: map<string, ActionSpec>, maxActions: int, w: nat,
                                       h: seq<HistoryEntry>, ps1: seq<Proposal>, ps2: seq<Proposal>)
    ensures var r1 := Screen(catalog, maxActions, w, h, ps1);
      var r2 := Screen(catalog, maxActions, w, r1.history, ps2);
      Screen(catalog, maxActions, w, h, ps1 + ps2) == Outcome(r1.approved + r2.approved, r2.history)
    decreases |ps1|
  {
    if ps1 != [] {
      assert (ps1 + ps2)[0] == ps1[0] && (ps1 + ps2)[1..] == ps1[1..] + ps2;
      var h' := if Accepts(catalog, maxActions, h, ps1[0]) then Append(h, FirstKey(ps1[0]), w) else h;
      ScreenConcat(catalog, maxActions, w, h', ps1[1..], ps2);
    } else {
      assert ps1 + ps2 == ps2;
    }
  }

  /** One more proposal at the end of a batch is screened against the history the batch left. */
  lemma ScreenSnoc(catalog: map<string, ActionSpec>, maxActions: int, w: nat,
                   h: seq<HistoryEntry>, ps: seq<Proposal>, p: Proposal)
    ensures var r := Screen(catalog, maxActions, w, h, ps);
      Screen(catalog, maxActions, w, h, ps + [p])
        == if Accepts(catalog, maxActions, r.history, p)
           then Outcome(r.approved + [p], Append(r.history, FirstKey(p), w))
           else r
  {
    ScreenConcat(catalog, maxActions, w, h, ps, [p]);
  }

  // ----- the flap law -----

  ghost predicate TripleAt(t: seq<HistoryEntry>, i: int)
    requires 0 <= i && i + 2 < |t|
  {
    t[i] == t[i + 1] && t[i + 1] == t[i + 2]
  }

  /** No key is approved three times in a row. */
  ghost predicate NoTripleRun(t: seq<HistoryEntry>) {
    forall i :: 0 <= i && i + 2 < |t| ==> !TripleAt(t, i)
  }

  lemma TwoAtEnd(h: seq<HistoryEntry>, e: HistoryEntry)
    requires |h| >= 2 && h[|h| - 1] == e && h[|h| - 2] == e
    ensures Occurrences(h, e) >= 2
  {
    var front := h[..|h| - 1];
    assert front[|front| - 1] == e;
    assert Occurrences(front, e) >= 1;
  }

  /**
   * With a window of at least two, approving a proposal can never make its key the
   * third in a row of the approval trace `t` whose newest entries the history holds.
   */
  lemma AcceptedBreaksRun(t: seq<HistoryEntry>, w: nat, p: Proposal)
    requires w >= 2 && NoTripleRun(t) && !IsFlapping(LastN(t, w), p)
    ensures NoTripleRun(t + [FirstKey(p)])
  {
    var t' := t + [FirstKey(p)];
    forall i | 0 <= i && i + 2 < |t'|
      ensures !TripleAt(t', i)
    {
      if i + 2 < |t| {
        assert !TripleAt(t, i);
      } else if TripleAt(t', i) {
        var h := LastN(t, w);
        assert |h| >= 2 && h[|h| - 1] == t[|t| - 1] && h[|h| - 2] == t[|t| - 2];
        TwoAtEnd(h, FirstKey(p));
        assert false;
      }
    }
  }

  /** Approving `p` keeps the shield's invariant between the window and the approval trace. */
  lemma ApprovalKeepsWindow(t: seq<HistoryEntry>, w: nat, p: Proposal)
    requires (w >= 2 ==> NoTripleRun(t)) && !IsFlapping(LastN(t, w), p)
    ensures Append(LastN(t, w), FirstKey(p), w) == LastN(t + [FirstKey(p)], w)
    ensures w >= 2 ==> NoTripleRun(t + [FirstKey(p)])
  {
    if w >= 2 {
      AcceptedBreaksRun(t, w, p);
    }
    AppendKeepsLast(t, FirstKey(p), w);
  }

  /**
   * The flap law across calls: when the window holds at least two entries, the trace
   * of all approvals never contains the same first-action key three times in a row.
   */
  lemma {:induction false} ScreenNoTripleRun(catalog: map<string, ActionSpec>, maxActions: int, w: nat,
                                            t: seq<HistoryEntry>, ps: seq<Proposal>)
    requires w >= 2 && NoTripleRun(t)
    ensures NoTripleRun(t + KeysOf(Screen(catalog, maxActions, w, LastN(t, w), ps).approved))
    decreases |ps|
  {
    if ps == [] {
      assert t + KeysOf([]) == t;
    } else {
      var h := LastN(t, w);
      if Accepts(catalog, maxActions, h, ps[0]) {
        var k := FirstKey(ps[0]);
        AcceptedBreaksRun(t, w, ps[0]);
        AppendKeepsLast(t, k, w);
        ScreenNoTripleRun(catalog, maxActions, w, t + [k], ps[1..]);
        var rest := Screen(catalog, maxActions, w, LastN(t + [k], w), ps[1..]).approved;
        assert Append(h, k, w) == LastN(t + [k], w);
        assert Screen(catalog, maxActions, w, h, ps).approved == [ps[0]] + rest;
        assert KeysOf([ps[0]] + rest) == [k] + KeysOf(rest);
        assert t + [k] + KeysOf(rest) == t + KeysOf([ps[0]] + rest);
      } else {
        ScreenNoTripleRun(catalog, maxActions, w, t, ps[1..]);
      }
    }
  }

  // ----- worked examples -----

  /** A two-action catalog: HOLD_POSITION without parameters, THROTTLE_UP with `level` in [0, 1]. */
  function ExampleCatalog(): map<string, ActionSpec> {
    map["HOLD_POSITION" := ActionSpec("HOLD_POSITION", map[]),
        "THROTTLE_UP" := ActionSpec("THROTTLE_UP", map["level" := Bounds(0.0, 1.0)])]
  }

  /** Occurrences counted one entry at a time, for the examples. */
  lemma OccurrencesSnoc(h: seq<HistoryEntry>, e: HistoryEntry, x: HistoryEntry)
    ensures Occurrences(h + [e], x) == Occurrences(h, x) + (if e == x then 1 else 0)
  {
    assert (h + [e])[..|h|] == h;
  }

  function SingleCommand(id: string, cmd: ActuatorCommand): Proposal {
    Proposal(id, "test", 0.9, 0.8, "test", [cmd])
  }

  /**
   * A declared parameter outside its range is refused, one inside is allowed, a
   * parameter the catalog does not declare is not checked, and an unknown action is refused.
   */
  lemma BoundsExample()
    ensures CommandAllowed(ExampleCatalog(), ActuatorCommand("THROTTLE_UP", map["level" := 1.0]))
    ensures !CommandAllowed(ExampleCatalog(), ActuatorCommand("THROTTLE_UP", map["level" := 1.5]))
    ensures CommandAllowed(ExampleCatalog(), ActuatorCommand("THROTTLE_UP", map["gain" := 7.0]))
    ensures !CommandAllowed(ExampleCatalog(), ActuatorCommand("SELF_DESTRUCT", map[]))
  {
    var cat := ExampleCatalog();
    assert "HOLD_POSITION" != "THROTTLE_UP";
    assert cat["THROTTLE_UP"].params == map["level" := Bounds(0.0, 1.0)];
    assert "SELF_DESTRUCT" != "THROTTLE_UP" && "SELF_DESTRUCT" != "HOLD_POSITION";
    assert "gain" != "level";
    var bad := ActuatorCommand("THROTTLE_UP", map["level" := 1.5]);
    assert "level" in bad.params && "level" in cat["THROTTLE_UP"].params;
    assert !WithinBounds(bad.params["level"], cat["THROTTLE_UP"].params["level"]);
  }

  /**
   * With the default window, three successive HOLD_POSITION proposals on an empty
   * history: the first two are approved and the third is refused as flapping.
   */
  lemma FlapExample()
    ensures var hold := ActuatorCommand("HOLD_POSITION", map[]);
      var p1 := SingleCommand("1", hold);
      var p2 := SingleCommand("2", hold);
      var p3 := SingleCommand("3", hold);
      Screen(ExampleCatalog(), DefaultMaxActionsPerTick, DefaultFlapWindow, [], [p1, p2, p3])
        == Outcome([p1, p2], [Some("HOLD_POSITION"), Some("HOLD_POSITION")])
  {
    var hold := ActuatorCommand("HOLD_POSITION", map[]);
    var p1 := SingleCommand("1", hold);
    var p2 := SingleCommand("2", hold);
    var p3 := SingleCommand("3", hold);
    var cat := ExampleCatalog();
    var k := Some("HOLD_POSITION");
    assert CommandAllowed(cat, hold);
    assert Accepts(cat, 3, [], p1);
    OccurrencesSnoc([], k, k);
    assert [] + [k] == [k];
    assert Accepts(cat, 3, [k], p2);
    OccurrencesSnoc([k], k, k);
    assert [k] + [k] == [k, k];
    assert IsFlapping([k, k], p3);
    assert Append([], k, 5) == [k] && Append([k], k, 5) == [k, k];
    assert Screen(cat, 3, 5, [k, k], [p3]) == Outcome([], [k, k]);
    assert Screen(cat, 3, 5, [k], [p2, p3]) == Outcome([p2], [k, k]) by {
      assert [p2, p3][1..] == [p3];
    }
    assert [p1, p2, p3][1..] == [p2, p3] && [p2, p3][1..] == [p3];
  }

  /** The screening decisions behind `PartialResetExample`, one history at a time. */
  lemma PartialResetSteps(ph: Proposal, pu: Proposal)
    requires ph.proposedActions == [ActuatorCommand("HOLD_POSITION", map[])]
    requires pu.proposedActions == [ActuatorCommand("THROTTLE_UP", map["level" := 0.5])]
    ensures var H, U := Some("HOLD_POSITION"), Some("THROTTLE_UP");
      && Accepts(ExampleCatalog(), 3, [], ph) && Append([], H, 5) == [H]
      && Accepts(ExampleCatalog(), 3, [H], ph) && Append([H], H, 5) == [H, H]
      && Accepts(ExampleCatalog(), 3, [H, H], pu) && Append([H, H], U, 5) == [H, H, U]
      && Accepts(ExampleCatalog(), 3, [H, H, U], ph) && Append([H, H, U], H, 5) == [H, H, U, H]
      && !Accepts(ExampleCatalog(), 3, [H, H, U, H], ph)
  {
    var cat := ExampleCatalog();
    var H, U := Some("HOLD_POSITION"), Some("THROTTLE_UP");
    assert "HOLD_POSITION" != "THROTTLE_UP";
    assert CommandAllowed(cat, ph.proposedActions[0]) && CommandAllowed(cat, pu.proposedActions[0]);
    OccurrencesSnoc([], H, H);
    assert [] + [H] == [H];
    OccurrencesSnoc([H], H, H);
    assert [H] + [H] == [H, H];
    assert [H, H] + [U] == [H, H, U];
    assert [H, H, U] + [H] == [H, H, U, H];
    OccurrencesSnoc([H, H], U, H);
    OccurrencesSnoc([H, H, U], H, H);
  }

  /** Screening a batch that starts with `p`: decide `p`, then the rest on the updated history. */
  lemma ScreenCons(catalog: map<string, ActionSpec>, maxActions: int, w: nat,
                   h: seq<HistoryEntry>, p: Proposal, rest: seq<Proposal>)
    ensures Screen(catalog, maxActions, w, h, [p] + rest)
         == if Accepts(catalog, maxActions, h, p)
            then var r := Screen(catalog, maxActions, w, Append(h, FirstKey(p), w), rest);
                 Outcome([p] + r.approved, r.history)
            else Screen(catalog, maxActions, w, h, rest)
  {
    assert ([p] + rest)[0] == p && ([p] + rest)[1..] == rest;
  }

  /**
   * A different action between repeats does not clear the window: after
   * HOLD, HOLD, THROTTLE_UP, HOLD the window still holds HOLD three times, so the
   * next HOLD is refused.
   */
  lemma PartialResetExample()
    ensures var hold := ActuatorCommand("HOLD_POSITION", map[]);
      var up := ActuatorCommand("THROTTLE_UP", map["level" := 0.5]);
      var ps := [SingleCommand("1", hold), SingleCommand("2", hold), SingleCommand("3", up),
                 SingleCommand("4", hold), SingleCommand("5", hold)];
      Screen(ExampleCatalog(), DefaultMaxActionsPerTick, DefaultFlapWindow, [], ps).approved == ps[..4]
  {
    var hold := ActuatorCommand("HOLD_POSITION", map[]);
    var up := ActuatorCommand("THROTTLE_UP", map["level" := 0.5]);
    var p1, p2, p3 := SingleCommand("1", hold), SingleCommand("2", hold), SingleCommand("3", up);
    var p4, p5 := SingleCommand("4", hold), SingleCommand("5", hold);
    var cat := ExampleCatalog();
    var H, U := Some("HOLD_POSITION"), Some("THROTTLE_UP");
    PartialResetSteps(p1, p3);
    PartialResetSteps(p2, p3);
    PartialResetSteps(p4, p3);
    PartialResetSteps(p5, p3);
    ScreenCons(cat, 3, 5, [H, H, U, H], p5, []);
    ScreenCons(cat, 3, 5, [H, H, U], p4, [p5]);
    ScreenCons(cat, 3, 5, [H, H], p3, [p4, p5]);
    assert [p4] + [p5] == [p4, p5];
    ScreenCons(cat, 3, 5, [H], p2, [p3, p4, p5]);
    assert [p3] + [p4, p5] == [p3, p4, p5];
    ScreenCons(cat, 3, 5, [], p1, [p2, p3, p4, p5]);
    assert [p2] + [p3, p4, p5] == [p2, p3, p4, p5];
    assert [p1] + [p2, p3, p4, p5] == [p1, p2, p3, p4, p5];
    assert [p1, p2, p3, p4, p5][..4] == [p1, p2, p3, p4];
  }

  /**
   * A proposal with no commands records `None`, so it flaps like any other key once
   * `None` is newest and appears twice; on an empty history nothing flaps.
   */
  lemma EmptyCommandFlaps(p: Proposal, q: Proposal)
    requires p.proposedActions == []
    ensures IsFlapping([None, None], p)
    ensures !IsFlapping([], q)
    ensures Screen(ExampleCatalog(), DefaultMaxActionsPerTick, DefaultFlapWindow, [None, None], [p])
         == Outcome([], [None, None])
  {
    var h: seq<HistoryEntry> := [None, None];
    assert h[..1] == [None] && h[..1][..0] == [];
  }

  /** The shield with the two-action catalog approves a valid HOLD_POSITION when active, and nothing in ERROR_STATE. */
  lemma LockoutExample()
    ensures var p := SingleCommand("test", ActuatorCommand("HOLD_POSITION", map[]));
      && Gate(ExampleCatalog(), DefaultMaxActionsPerTick, DefaultFlapWindow, [], [p], "ACTIVE", true).approved == [p]
      && Gate(ExampleCatalog(), DefaultMaxActionsPerTick, DefaultFlapWindow, [], [p], ErrorState, true).approved == []
  {
    var p := SingleCommand("test", ActuatorCommand("HOLD_POSITION", map[]));
    assert "ACTIVE" != ErrorState;
    assert CommandAllowed(ExampleCatalog(), p.proposedActions[0]);
    assert Accepts(ExampleCatalog(), 3, [], p);
  }

  // ----- the stateful shield -----

  class SafetyShield {
    const actionCatalog: map<string, ActionSpec>
    const maxActions: int
    const flapWindow: nat
    var actionHistory: seq<HistoryEntry>
    /** Every key ever appended to the history, oldest first. */
    ghost var approvedKeys: seq<HistoryEntry>

    ghost predicate Valid()
      reads this
    {
      && actionHistory == LastN(approvedKeys, flapWindow)
      && (flapWindow >= 2 ==> NoTripleRun(approvedKeys))
    }

    constructor (actions: seq<ActionSpec>, maxActionsPerTick: int, flapWindow: nat)
      ensures Valid()
      ensures actionCatalog == CatalogIndex(actions)
      ensures maxActions == maxActionsPerTick && this.flapWindow == flapWindow
      ensures actionHistory == [] && approvedKeys == []
    {
      actionCatalog := CatalogIndex(actions);
      maxActions := maxActionsPerTick;
      this.flapWindow := flapWindow;
      actionHistory := [];
      approvedKeys := [];
    }

    /** `_validate_action`: catalog lookup, then each parameter against its declared range. */
    method ValidateAction(cmd: ActuatorCommand) returns (ok: bool)
      ensures ok == CommandAllowed(actionCatalog, cmd)
    {
      if cmd.name !in actionCatalog {
        return false;
      }
      var meta := actionCatalog[cmd.name];
      var remaining := cmd.params.Keys;
      while remaining != {}
        invariant remaining <= cmd.params.Keys
        invariant forall k :: k in cmd.params && k !in remaining && k in meta.params ==>
          WithinBounds(cmd.params[k], meta.params[k])
        decreases remaining
      {
        var k :| k in remaining;
        if k in meta.params && !(meta.params[k].vmin <= cmd.params[k] <= meta.params[k].vmax) {
          return false;
        }
        remaining := remaining - {k};
      }
      return true;
    }

    /** The inner loop of `validate`: every command in turn, stopping at the first refused one. */
    method ValidateAll(cmds: seq<ActuatorCommand>) returns (valid: bool)
      ensures valid == AllAllowed(actionCatalog, cmds)
    {
      valid := true;
      var j := 0;
      while j < |cmds|
        invariant 0 <= j <= |cmds|
        invariant AllAllowed(actionCatalog, cmds[..j])
      {
        var ok := ValidateAction(cmds[j]);
        if !ok {
          return false;
        }
        j := j + 1;
      }
      assert cmds[..j] == cmds;
    }

    /** `validate`: returns the approved proposals in input order and updates the history. */
    method Validate(proposals: seq<Proposal>, fsmState: string, biosOk: bool) returns (filtered: seq<Proposal>)
      requires Valid()
      modifies this
      ensures Valid()
      ensures Outcome(filtered, actionHistory)
           == Gate(actionCatalog, maxActions, flapWindow, old(actionHistory), proposals, fsmState, biosOk)
      ensures approvedKeys == old(approvedKeys) + KeysOf(filtered)
      ensures fsmState == ErrorState || !biosOk ==> filtered == [] && actionHistory == old(actionHistory)
    {
      if fsmState == ErrorState || !biosOk {
        return [];
      }
      filtered := [];
      var i := 0;
      while i < |proposals|
        invariant 0 <= i <= |proposals|
        invariant Valid()
        invariant Outcome(filtered, actionHistory)
               == Screen(actionCatalog, maxActions, flapWindow, old(actionHistory), proposals[..i])
        invariant approvedKeys == old(approvedKeys) + KeysOf(filtered)
      {
        var p := proposals[i];
        ScreenSnoc(actionCatalog, maxActions, flapWindow, old(actionHistory), proposals[..i], p);
        assert proposals[..i + 1] == proposals[..i] + [p];
        if |p.proposedActions| > maxActions {
          i := i + 1;
          continue;
        }
        var valid := ValidateAll(p.proposedActions);
        if valid && !IsFlapping(actionHistory, p) {
          var k := FirstKey(p);
          ApprovalKeepsWindow(approvedKeys, flapWindow, p);
          KeysOfSnoc(filtered, p);
          filtered := filtered + [p];
          actionHistory := Append(actionHistory, k, flapWindow);
          approvedKeys := approvedKeys + [k];
        }
        i := i + 1;
      }
      assert proposals[..i] == proposals;
    }
  }
}
