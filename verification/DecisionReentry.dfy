/**
  What an undo does after a rule has come back to a movement it already ruled on: it pairs the
  rule's first snapshot with its last position.  Rules that assign categories can bring each
  other back, so this is reachable.
*/
module DecisionReentry {
  import opened Common
  import opened AccountingLog
  import opened AccountingIntelligence
  import opened Decisions
  import opened DecisionRuns
  import opened DecisionTheorems

  /** The first snapshot of a rule's identity on a movement is untouched by applying it again. */
  lemma FirstSnapshotStays(ds: Trail, d: Decision)
    requires Enters(ds, d.id)
    ensures FirstSnapshot(ds + [d], d.id) == FirstSnapshot(ds, d.id)
  {
    FirstSnapshotExtends(ds, d, d.id);
  }

  /** A rule that re-enters a movement and is then undone: the treatment put back, exactly. */
  lemma ReentryRestores(w: World, m: Key, r: Rule)
    requires Ok(w) && r in ActiveRules(w.log) && Enters(TrailOf(w, m), r.id)
    ensures var u := Undid(Applied(w, m, r), r.id);
            var ds := TrailOf(w, m);
            && FirstSnapshot(ds, r.id).Some?
            && InForce(u.log, m) == Walk(Entries(ds), Undone(w.log), Corrections(w.log), FirstSnapshot(ds, r.id).value)
  {
    var a := Applied(w, m, r);
    var ds := TrailOf(w, m);
    var d := NewDecision(w, a.log, m, r.id, RankOf(Rules(w.log), r.id));
    ActiveMeans(w.log, r);
    ApplyReplays(w.log, m, r);
    ApplyKeepsOk(w, m, r);
    AppliedTrail(w, m, r, m);
    FirstSnapshotStays(ds, d);
    TopIndexIs(ds + [d], Undone(w.log), |ds|);
    assert (ds + [d])[..|ds|] == ds;
    UndoOfTopRestores(a.log, m, ds + [d], InForce(w.start, m), |ds|);
    UndoInForce(a.log, r.id, m);
  }

  /** A rule a pass picks again is not the decision in force, and some decision stands. */
  lemma PickedAgain(w: World, m: Key, env: Matching, r: Rule)
    requires Ok(w) && Pick(w.log, m, env) == Some(r) && Enters(TrailOf(w, m), r.id)
    ensures r in ActiveRules(w.log) && r.id !in Undone(w.log)
    ensures var ds := TrailOf(w, m);
            var t := TopIndex(ds, Undone(w.log));
            t >= 0 && ds[t].id != r.id
  {
    var ds := TrailOf(w, m);
    var t := TopIndex(ds, Undone(w.log));
    PickIsActive(w.log, m, env);
    ActiveMeans(w.log, r);
    var i :| 0 <= i < |ds| && ds[i].id == r.id;
    assert i <= t;
    assert TrailOk(w.log, m, ds, InForce(w.start, m)) && Speaks(ds[t], Corrections(w.log), Rules(w.log));
  }

  lemma ReentryLands(w: World, m: Key, r: Rule)
    requires Ok(w) && r in ActiveRules(w.log) && Enters(TrailOf(w, m), r.id)
    ensures var ds := TrailOf(w, m);
            && FirstSnapshot(ds, r.id).Some?
            && InForce(Undid(Applied(w, m, r), r.id).log, m)
               == Lands(ds, TopIndex(ds, Undone(w.log)), |ds|, FirstSnapshot(ds, r.id).value, Corrections(w.log))
  {
    var ds := TrailOf(w, m);
    ReentryRestores(w, m, r);
    assert ds[..|ds|] == ds;
    WalkLands(ds, Undone(w.log), Corrections(w.log), |ds|, FirstSnapshot(ds, r.id).value);
  }

  lemma LandsOnceKept(w: World, m: Key, saved: Treatment)
    requires Ok(w) && AllKeepLegs(TrailOf(w, m), TopIndex(TrailOf(w, m), Undone(w.log)), Corrections(w.log))
    ensures var ds := TrailOf(w, m);
            var t := TopIndex(ds, Undone(w.log));
            Lands(ds, t, |ds|, saved, Corrections(w.log)) ==
            if Resembled(ds, t, saved, Corrections(w.log)) then ResultAt(ds, t, InForce(w.start, m)) else saved
  {
    assert TrailOk(w.log, m, TrailOf(w, m), InForce(w.start, m));
    LandsWhereLegsKept(TrailOf(w, m), Undone(w.log), Corrections(w.log), Rules(w.log), InForce(w.start, m), saved);
  }

  /**
    A pass brings a rule back to a movement and the rule is undone next.  With `t` the decision
    that stood when it came back, the undo is right exactly if the treatment before the rule's
    first entry leads to the one `t` put in force.  Where the undone decisions after `t` kept the
    legs they were saved with, that is: it is the same one, or some of them looks like it.
  */
  lemma ReentryUndoIsRightIff(w: World, m: Key, env: Matching, r: Rule)
    requires Ok(w) && Pick(w.log, m, env) == Some(r) && Enters(TrailOf(w, m), r.id)
    ensures var u := Undid(Applied(w, m, r), r.id);
            var ds := TrailOf(w, m);
            var t := TopIndex(ds, Undone(w.log));
            && t >= 0 && ds[t].id != r.id
            && Intended(ds, Undone(w.log) + {r.id}, InForce(w.start, m)) == ds[t].result
            && FirstSnapshot(ds, r.id).Some?
            && var first := FirstSnapshot(ds, r.id).value;
               && (InForce(u.log, m) == ds[t].result <==>
                     Lands(ds, t, |ds|, first, Corrections(w.log)) == ds[t].result)
               && (AllKeepLegs(ds, t, Corrections(w.log)) ==>
                     (InForce(u.log, m) == ds[t].result <==>
                        first == ds[t].result || Resembled(ds, t, first, Corrections(w.log))))
  {
    var ds := TrailOf(w, m);
    var t := TopIndex(ds, Undone(w.log));
    PickedAgain(w, m, env, r);
    ReentryLands(w, m, r);
    TopIndexIs(ds, Undone(w.log) + {r.id}, t);
    if AllKeepLegs(ds, t, Corrections(w.log)) {
      LandsOnceKept(w, m, FirstSnapshot(ds, r.id).value);
    }
  }

  // ---------------------------------------------------------------- two lessons that undo each other's category

  /** Rules match in the category they were learned in. */
  const ENV := Matching((m: Key, c: Option<string>, r: Rule) => c == Some(r.scope),
                        (m: Key, c: Option<string>) => false)

  /** Recording a lesson on other movements leaves `m` alone and adds one rule. */
  lemma Lesson(w: World, id: Id, movements: seq<Key>, p: Proposal, m: Key)
    requires Distinct(movements) && m !in movements && p.lesson.Some?
    ensures var u := Corrected(w, id, movements, p);
            && Undone(u.log) == Undone(w.log)
            && Corrections(u.log).Keys == Corrections(w.log).Keys + {id}
            && ActiveRules(u.log) == Put(ActiveRules(w.log), LearnedRule(id, movements, p)[0])
            && u.start == w.start && TrailOf(u, m) == TrailOf(w, m) && InForce(u.log, m) == InForce(w.log, m)
  {
    CorrectReplays(w.log, id, movements, p);
    CorrectInForce(w.log, id, movements, p, m);
    assert TrailOf(w, m) + [] == TrailOf(w, m);
  }

  /** Applying an active rule to a movement. */
  lemma Application(w: World, m: Key, r: Rule)
    requires Ok(w) && r in ActiveRules(w.log)
    ensures var u := Applied(w, m, r);
            && Ok(u) && u.start == w.start && Undone(u.log) == Undone(w.log) && ActiveRules(u.log) == ActiveRules(w.log)
            && InForce(u.log, m) == AfterApplying(InForce(w.log, m), r)
            && |TrailOf(u, m)| == |TrailOf(w, m)| + 1 && TrailOf(u, m)[..|TrailOf(w, m)|] == TrailOf(w, m)
            && var d := TrailOf(u, m)[|TrailOf(w, m)|];
               d.id == r.id && d.snapshot == InForce(w.log, m) && d.result == InForce(u.log, m)
  {
    ApplyKeepsOk(w, m, r);
    ApplyReplays(w.log, m, r);
  }

  /** With two active rules of which only `r` matches, `r` is picked unless its ruling already stands. */
  lemma OnlyMatch(log: Log, m: Key, r: Rule, other: Rule)
    requires ActiveRules(log) == [r, other] || ActiveRules(log) == [other, r]
    requires InForce(log, m).category == Some(r.scope) && r.scope != other.scope
    requires var t := InForce(log, m).ruling;
             t.None? || (t.value.author != Human && t.value.said != r.said)
    ensures Pick(log, m, ENV) == Some(r)
  {
    var rules := ActiveRules(log);
    var c := InForce(log, m).category;
    assert rules[..1] == [rules[0]] && rules[..1][..0] == [];
    assert Eligible(rules[..1], m, c, ENV) == if rules[0] == r then [r] else [];
    assert Eligible(rules, m, c, ENV) == [r];
  }

  ghost predicate Opposite(a: Rule, b: Rule) {
    a.id != b.id && a.scope != b.scope && a.category == Some(b.scope) && b.category == Some(a.scope) && a.said != b.said
  }

  /** Two active lessons, each assigning the category the other was learned in, and an undecided movement. */
  ghost predicate Opposed(w: World, m: Key, a: Rule, b: Rule) {
    && Ok(w) && Undone(w.log) == {} && TrailOf(w, m) == [] && ActiveRules(w.log) == [a, b] && Opposite(a, b)
    && InForce(w.log, m) == Treatment(None, Some(a.scope))
  }

  ghost predicate AfterA(w: World, m: Key, a: Rule, b: Rule) {
    && Ok(w) && Undone(w.log) == {} && ActiveRules(w.log) == [a, b] && Opposite(a, b)
    && InForce(w.log, m) == Treatment(Some(RuleRuling(a)), Some(b.scope))
    && var ds := TrailOf(w, m); |ds| == 1 && ds[0].id == a.id && ds[0].snapshot.ruling == None
  }

  ghost predicate AfterB(w: World, m: Key, a: Rule, b: Rule) {
    && Ok(w) && Undone(w.log) == {} && ActiveRules(w.log) == [a, b] && Opposite(a, b)
    && InForce(w.log, m) == Treatment(Some(RuleRuling(b)), Some(a.scope))
    && var ds := TrailOf(w, m);
       |ds| == 2 && ds[0].id == a.id && ds[0].snapshot.ruling == None
       && ds[1].id == b.id && ds[1].result == InForce(w.log, m)
  }

  /** One lesson recorded, nothing yet decided on `m`. */
  ghost predicate OneLesson(w: World, m: Key, a: Rule) {
    && Ok(w) && Undone(w.log) == {} && TrailOf(w, m) == [] && ActiveRules(w.log) == [a] &&
        Corrections(w.log).Keys == {a.id}
    && InForce(w.log, m) == Treatment(None, Some(a.scope))
  }

  lemma FirstLesson(start: Log, m: Key, x: seq<Key>, a: Id, p: Proposal)
    requires AllQuiet(start) && Distinct(x) && m !in x && p.lesson.Some? &&
             InForce(start, m) == Treatment(None, p.lesson)
    ensures OneLesson(Corrected(Opening(start), a, x, p), m, LearnedRule(a, x, p)[0])
  {
    OpeningOk(start);
    OpeningLog(start);
    Lesson(Opening(start), a, x, p, m);
    CorrectKeepsOk(Opening(start), a, x, p);
  }

  lemma SecondLesson(w: World, m: Key, y: seq<Key>, a: Rule, b: Id, q: Proposal)
    requires OneLesson(w, m, a) && Distinct(y) && m !in y && q.lesson.Some? && Opposite(a, LearnedRule(b, y, q)[0])
    ensures Opposed(Corrected(w, b, y, q), m, a, LearnedRule(b, y, q)[0])
  {
    Lesson(w, b, y, q, m);
    SecondRule(a, LearnedRule(b, y, q)[0]);
    CorrectKeepsOk(w, b, y, q);
  }

  lemma SecondRule(a: Rule, b: Rule)
    requires a.id != b.id
    ensures Put([a], b) == [a, b]
  {
    PutFresh([a], b);
  }

  /** Two corrections of other movements are enough to get there. */
  lemma OpposedReached(start: Log, m: Key, x: seq<Key>, y: seq<Key>, a: Id, b: Id, p: Proposal, q: Proposal)
    requires AllQuiet(start) && Distinct(x) && Distinct(y) && m !in x && m !in y && a != b
    requires p.lesson.Some? && q.lesson.Some? && p.lesson != q.lesson && p.said != q.said
    requires p.category == q.lesson && q.category == p.lesson && InForce(start, m) == Treatment(None, p.lesson)
    ensures Opposed(Corrected(Corrected(Opening(start), a, x, p), b, y, q), m, LearnedRule(a, x, p)[0],
                    LearnedRule(b, y, q)[0])
  {
    FirstLesson(start, m, x, a, p);
    SecondLesson(Corrected(Opening(start), a, x, p), m, y, LearnedRule(a, x, p)[0], b, q);
  }

  lemma FirstPassAppliesA(w: World, m: Key, a: Rule, b: Rule)
    requires Opposed(w, m, a, b)
    ensures Pick(w.log, m, ENV) == Some(a) && AfterA(Applied(w, m, a), m, a, b)
  {
    OnlyMatch(w.log, m, a, b);
    Application(w, m, a);
  }

  lemma SecondPassAppliesB(w: World, m: Key, a: Rule, b: Rule)
    requires AfterA(w, m, a, b)
    ensures Pick(w.log, m, ENV) == Some(b) && AfterB(Applied(w, m, b), m, a, b)
  {
    OnlyMatch(w.log, m, b, a);
    Application(w, m, b);
    var u := Applied(w, m, b);
    assert TrailOf(u, m)[0] == TrailOf(u, m)[..1][0];
  }

  /** The third pass applies A again; undoing A then drops the ruling of B, which nobody undid. */
  lemma ThirdPassLosesALiveDecision(w: World, m: Key, a: Rule, b: Rule)
    requires AfterB(w, m, a, b)
    ensures Pick(w.log, m, ENV) == Some(a)
    ensures InForce(Undid(Applied(w, m, a), a.id).log, m).ruling == None
    ensures Intended(TrailOf(w, m), {a.id}, InForce(w.start, m)).ruling == Some(RuleRuling(b))
  {
    OnlyMatch(w.log, m, a, b);
    var ds := TrailOf(w, m);
    assert ds[0].id == a.id && FirstSnapshot(ds, a.id) == Some(ds[0].snapshot);
    ReentryRestores(w, m, a);
    StandingStopsTheWalk(ds, Undone(w.log), Corrections(w.log), ds[0].snapshot);
    TopIndexIs(ds, {a.id}, 1);
  }

  lemma StandingStopsTheWalk(ds: Trail, undone: set<Id>, corrections: map<Id, Correction>, t: Treatment)
    requires ds != [] && ds[|ds| - 1].id !in undone
    ensures Walk(Entries(ds), undone, corrections, t) == t
  {
  }

  /** Three learning passes and one undo, from a state two corrections reach: a live decision is lost. */
  lemma ReentryLosesALiveDecision(w: World, m: Key, a: Rule, b: Rule)
    requires Opposed(w, m, a, b)
    ensures var w1 := Applied(w, m, a);
            var w2 := Applied(w1, m, b);
            && Pick(w.log, m, ENV) == Some(a) && Pick(w1.log, m, ENV) == Some(b) && Pick(w2.log, m, ENV) == Some(a)
            && InForce(Undid(Applied(w2, m, a), a.id).log, m).ruling == None
            && Intended(TrailOf(w2, m), {a.id}, InForce(w2.start, m)).ruling == Some(RuleRuling(b))
  {
    FirstPassAppliesA(w, m, a, b);
    SecondPassAppliesB(Applied(w, m, a), m, a, b);
    ThirdPassLosesALiveDecision(Applied(Applied(w, m, a), m, b), m, a, b);
  }
}
