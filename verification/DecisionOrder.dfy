/**
  Consequences of the run invariant: undo order, repeated undo, retired rules, the steps as
  the ledger's methods append them, and matchers that ignore categories.
*/
module DecisionOrder {
  import opened Common
  import opened AccountingLog
  import opened AccountingIntelligence
  import opened Decisions
  import opened DecisionRuns
  import opened DecisionTheorems

  // ---------------------------------------------------------------- undo order

  function UndoAll(w: World, ids: seq<Id>): World {
    if ids == [] then w else Undid(UndoAll(w, ids[..|ids| - 1]), ids[|ids| - 1])
  }

  function Members(ids: seq<Id>): set<Id> { set id | id in ids }

  /** Every undo of the list fits the trails it finds. */
  ghost predicate UndosFit(w: World, ids: seq<Id>) {
    ids == [] || (UndosFit(w, ids[..|ids| - 1]) && UndoFits(UndoAll(w, ids[..|ids| - 1]), ids[|ids| - 1]))
  }

  /** Where nothing has entered a trail twice and legs did not vary, every list of undos fits. */
  lemma {:induction false} PlainUndosFit(w: World, ids: seq<Id>)
    requires Plain(w)
    ensures UndosFit(w, ids) && Plain(UndoAll(w, ids))
  {
    if ids != [] {
      PlainUndosFit(w, ids[..|ids| - 1]);
      PlainUndo(UndoAll(w, ids[..|ids| - 1]), ids[|ids| - 1]);
    }
  }

  lemma UndoneAfter(log: Log, id: Id)
    requires LogOk(log)
    ensures var log' := log + UndoEvents(log, id);
            && LogOk(log') && Corrections(log') == Corrections(log) && Rules(log') == Rules(log)
            && Undone(log') == Undone(log) + {id} * Corrections(log).Keys
  {
    UndoKeepsLog(log, id);
    if id in Undone(log) || id !in Corrections(log) {
      assert log + [] == log;
    } else {
      UndoReplays(log, id);
    }
  }

  lemma OneMoreMember(ids: seq<Id>, known: set<Id>)
    requires ids != []
    ensures Members(ids) * known == Members(ids[..|ids| - 1]) * known + {ids[|ids| - 1]} * known
  {
    assert ids == ids[..|ids| - 1] + [ids[|ids| - 1]];
  }

  /** What a list of undos retires does not depend on its order, fitting or not. */
  lemma {:induction false} UndoAllRetires(w: World, ids: seq<Id>)
    requires LogOk(w.log)
    ensures var u := UndoAll(w, ids);
            && LogOk(u.log) && u.start == w.start && u.trails == w.trails
            && Corrections(u.log) == Corrections(w.log) && Rules(u.log) == Rules(w.log)
            && Undone(u.log) == Undone(w.log) + Members(ids) * Corrections(w.log).Keys
  {
    if ids != [] {
      var last := ids[|ids| - 1];
      UndoAllRetires(w, ids[..|ids| - 1]);
      UndoneAfter(UndoAll(w, ids[..|ids| - 1]).log, last);
      OneMoreMember(ids, Corrections(w.log).Keys);
    }
  }

  lemma {:induction false} UndoAllKeepsOk(w: World, ids: seq<Id>)
    requires Ok(w) && UndosFit(w, ids)
    ensures Ok(UndoAll(w, ids))
  {
    if ids != [] {
      UndoAllKeepsOk(w, ids[..|ids| - 1]);
      UndoKeepsOkIff(UndoAll(w, ids[..|ids| - 1]), ids[|ids| - 1]);
    }
  }

  /** Any two undo orders of the same corrections, with repeats, leave the same rules active. */
  lemma UndoOrderLeavesTheSameRules(w: World, a: seq<Id>, b: seq<Id>)
    requires LogOk(w.log) && Members(a) == Members(b)
    ensures ActiveRules(UndoAll(w, a).log) == ActiveRules(UndoAll(w, b).log)
  {
    UndoAllRetires(w, a);
    UndoAllRetires(w, b);
  }

  /** And the same treatments, when each undo fits where it stands in its order. */
  lemma UndoOrderDoesNotMatter(w: World, a: seq<Id>, b: seq<Id>, m: Key)
    requires Ok(w) && Members(a) == Members(b) && UndosFit(w, a) && UndosFit(w, b)
    ensures InForce(UndoAll(w, a).log, m) == InForce(UndoAll(w, b).log, m)
  {
    UndoAllRetires(w, a);
    UndoAllRetires(w, b);
    UndoAllKeepsOk(w, a);
    UndoAllKeepsOk(w, b);
    assert TrailOk(UndoAll(w, a).log, m, TrailOf(UndoAll(w, a), m), InForce(w.start, m));
    assert TrailOk(UndoAll(w, b).log, m, TrailOf(UndoAll(w, b), m), InForce(w.start, m));
  }

  /** Undoing every correction, each fitting, restores every original treatment; no rule is left in any case. */
  lemma UndoingEverythingRestoresTheOriginal(w: World, ids: seq<Id>, m: Key)
    requires Ok(w) && Corrections(w.log).Keys <= Members(ids)
    ensures UndosFit(w, ids) ==> InForce(UndoAll(w, ids).log, m) == InForce(w.start, m)
    ensures ActiveRules(UndoAll(w, ids).log) == []
  {
    var u := UndoAll(w, ids);
    UndoAllRetires(w, ids);
    if UndosFit(w, ids) {
      UndoAllKeepsOk(w, ids);
      assert TrailOk(u.log, m, TrailOf(u, m), InForce(w.start, m));
      NothingLive(TrailOf(u, m), Undone(u.log), Corrections(u.log), Rules(u.log));
    }
    forall i | 0 <= i < |Rules(u.log)| ensures Rules(u.log)[i].id in Undone(u.log) {
      assert RuleSpeaks(Rules(u.log)[i], Corrections(u.log));
    }
    WithoutAll(Rules(u.log), Undone(u.log));
  }

  lemma NothingLive(ds: Trail, undone: set<Id>, corrections: map<Id, Correction>, rules: seq<Rule>)
    requires AllSpeak(ds, corrections, rules) && corrections.Keys <= undone
    ensures TopIndex(ds, undone) == -1
  {
    forall i | 0 <= i < |ds| ensures ds[i].id in undone {
      assert Speaks(ds[i], corrections, rules);
    }
    TopIndexIs(ds, undone, -1);
  }

  lemma {:induction false} WithoutAll(rules: seq<Rule>, gone: set<Id>)
    requires forall i :: 0 <= i < |rules| ==> rules[i].id in gone
    ensures Without(rules, gone) == []
  {
    if rules != [] {
      WithoutAll(rules[..|rules| - 1], gone);
    }
  }

  /** After an undo, the same undo appends nothing. */
  lemma RepeatedUndoAppendsNothing(log: Log, id: Id)
    requires LogOk(log)
    ensures UndoEvents(log + UndoEvents(log, id), id) == []
  {
    if id in Undone(log) || id !in Corrections(log) {
      assert log + [] == log;
    } else {
      UndoReplays(log, id);
    }
  }

  // ---------------------------------------------------------------- retired rules

  /** Every application in the log names a rule whose correction had not been undone by then. */
  ghost predicate OnlyLiveApplied(log: Log) {
    forall p :: 0 <= p < |log| && log[p].RuleApplied? ==> log[p].ruleId !in Undone(log[..p])
  }

  lemma LiveAppliedExtends(log: Log, es: Log)
    requires OnlyLiveApplied(log)
    requires forall p :: 0 < p < |es| ==> !es[p].RuleApplied?
    requires es != [] && es[0].RuleApplied? ==> es[0].ruleId !in Undone(log)
    ensures OnlyLiveApplied(log + es)
  {
    var all := log + es;
    forall p | 0 <= p < |all| && all[p].RuleApplied? ensures all[p].ruleId !in Undone(all[..p]) {
      if p < |log| {
        assert all[..p] == log[..p];
      } else {
        assert all[..|log|] == log;
        assert all[p] == es[p - |log|];
      }
    }
  }

  lemma {:induction false} LearnedAppliesLiveRules(w: World, movements: seq<Key>, env: Matching)
    requires LogOk(w.log) && OnlyLiveApplied(w.log)
    ensures OnlyLiveApplied(Learned(w, movements, env).log)
  {
    if movements != [] {
      var front := movements[..|movements| - 1];
      var m := movements[|movements| - 1];
      LearnedAppliesLiveRules(w, front, env);
      LearnedKeepsLog(w, front, env);
      AdvanceAppliesLiveRules(Learned(w, front, env), m, env);
    }
  }

  lemma AdvanceAppliesLiveRules(w: World, m: Key, env: Matching)
    requires LogOk(w.log) && OnlyLiveApplied(w.log)
    ensures OnlyLiveApplied(Advance(w, m, env).log)
  {
    PickIsActive(w.log, m, env);
    match Pick(w.log, m, env)
    case None =>
    case Some(r) =>
      ActiveMeans(w.log, r);
      LiveAppliedExtends(w.log, ApplyEvents(InForce(w.log, m), m, r));
  }

  lemma QuietAppliesNothing(es: Log)
    requires AllQuiet(es)
    ensures forall p :: 0 <= p < |es| ==> !es[p].RuleApplied?
  {
    forall p | 0 <= p < |es| ensures !es[p].RuleApplied? {
      assert es[p] in es;
    }
  }

  lemma CorrectAppliesNothing(log: Log, id: Id, movements: seq<Key>, p: Proposal)
    requires OnlyLiveApplied(log)
    ensures OnlyLiveApplied(log + CorrectEvents(log, id, movements, p))
  {
    QuietAppliesNothing(RulingEvents(movements, p));
    LiveAppliedExtends(log, CorrectEvents(log, id, movements, p));
  }

  lemma UndoAppliesNothing(log: Log, id: Id)
    requires OnlyLiveApplied(log)
    ensures OnlyLiveApplied(log + UndoEvents(log, id))
  {
    if UndoEvents(log, id) != [] {
      var c := Corrections(log)[id];
      QuietAppliesNothing(RestoreEvents(log, c, SavedKeys(log, c)));
    }
    LiveAppliedExtends(log, UndoEvents(log, id));
  }

  /** In every run, re-entering or not, no learning pass applies a rule whose correction was undone before. */
  lemma {:induction false} UndoneRulesAreNeverApplied(w: World, steps: seq<Step>, env: Matching)
    requires LogOk(w.log) && OnlyLiveApplied(w.log) && AllPermitted(w, steps, env)
    ensures LogOk(Run(w, steps, env).log) && OnlyLiveApplied(Run(w, steps, env).log)
  {
    if steps != [] {
      var front := steps[..|steps| - 1];
      UndoneRulesAreNeverApplied(w, front, env);
      StepAppliesLiveRules(Run(w, front, env), steps[|steps| - 1], env);
    }
  }

  lemma StepAppliesLiveRules(w: World, s: Step, env: Matching)
    requires LogOk(w.log) && OnlyLiveApplied(w.log) && Permitted(w, s)
    ensures LogOk(Exec(w, s, env).log) && OnlyLiveApplied(Exec(w, s, env).log)
  {
    match s
    case DoCorrect(id, movements, p) =>
      CorrectKeepsLog(w.log, id, movements, p);
      CorrectAppliesNothing(w.log, id, movements, p);
    case DoLearn(movements) =>
      LearnedKeepsLog(w, movements, env);
      LearnedAppliesLiveRules(w, movements, env);
    case DoUndo(id) =>
      UndoKeepsLog(w.log, id);
      UndoAppliesNothing(w.log, id);
  }

  // ---------------------------------------------------------------- the steps are what the methods append

  lemma {:induction false} LearnedLog(w: World, movements: seq<Key>, env: Matching)
    requires Distinct(movements)
    ensures Learned(w, movements, env).log == w.log + LearnedEvents(w.log, movements, env)
    ensures ActiveRules(Learned(w, movements, env).log) == ActiveRules(w.log)
    ensures forall m :: m !in movements ==> InForce(Learned(w, movements, env).log, m) == InForce(w.log, m)
  {
    if movements == [] {
      assert w.log + [] == w.log;
    } else {
      var front := movements[..|movements| - 1];
      var m := movements[|movements| - 1];
      LearnedLog(w, front, env);
      var before := Learned(w, front, env);
      SamePick(before.log, w.log, m, env);
      PickAppends(before, m, env);
      Associate(w.log, LearnedEvents(w.log, front, env), PickEvents(w.log, m, env));
    }
  }

  lemma SamePick(a: Log, b: Log, m: Key, env: Matching)
    requires ActiveRules(a) == ActiveRules(b) && InForce(a, m) == InForce(b, m)
    ensures PickEvents(a, m, env) == PickEvents(b, m, env)
  {
    assert Pick(a, m, env) == Pick(b, m, env);
  }

  lemma PickAppends(w: World, m: Key, env: Matching)
    ensures var u := Advance(w, m, env);
            && u.log == w.log + PickEvents(w.log, m, env) && ActiveRules(u.log) == ActiveRules(w.log)
            && forall k :: k != m ==> InForce(u.log, k) == InForce(w.log, k)
  {
    match Pick(w.log, m, env)
    case None => assert w.log + [] == w.log;
    case Some(r) => ApplyReplays(w.log, m, r);
  }

  /** A learning pass never touches a movement a person has ruled on. */
  lemma {:induction false} LearningRespectsPeople(w: World, movements: seq<Key>, env: Matching, m: Key)
    requires var r := InForce(w.log, m).ruling; r.Some? && r.value.author == Human
    ensures InForce(Learned(w, movements, env).log, m) == InForce(w.log, m)
  {
    if movements != [] {
      LearningRespectsPeople(w, movements[..|movements| - 1], env, m);
      var before := Learned(w, movements[..|movements| - 1], env);
      PickAppends(before, movements[|movements| - 1], env);
    }
  }

  /** One step of a run, carried out by the methods on a ledger object. */
  method Perform(ledger: Ledger, s: Step, env: Matching, ghost w: World)
    requires ledger.events == w.log && Permitted(w, s)
    modifies ledger
    ensures ledger.events == Exec(w, s, env).log
  {
    match s
    case DoCorrect(id, movements, p) =>
      ledger.RecordRuling(id, movements, p);
    case DoLearn(movements) =>
      LearnedLog(w, movements, env);
      var _ := ledger.ApplyLearnedRules(movements, env);
    case DoUndo(id) =>
      var _, _ := ledger.UndoCorrection(id);
  }

  // ---------------------------------------------------------------- lessons that leave what matches alone

  /** Two categories in which exactly the same rules speak about a movement. */
  ghost predicate Alike(env: Matching, m: Key, c: Option<string>, d: Option<string>) {
    forall q :: env.matches(m, c, q) == env.matches(m, d, q)
  }

  /** Wherever the rule applies, the category it assigns, if any, changes nothing about what matches. */
  ghost predicate Steady(r: Rule, env: Matching) {
    r.category.Some? ==> forall m, c :: env.matches(m, c, r) ==> Alike(env, m, c, r.category)
  }

  ghost predicate AllSteady(rules: seq<Rule>, env: Matching) { forall r :: r in rules ==> Steady(r, env) }

  /** Live decisions on one movement: none is a rule over a person's ruling, and rules appear in recorded order. */
  ghost predicate Ranked(ds: Trail, undone: set<Id>) {
    && (forall i, j :: 0 <= i < j < |ds| && ds[j].rank >= 0 && ds[i].rank < 0 ==> ds[i].id in undone)
    && (forall i, j :: 0 <= i < j < |ds| && ds[j].rank >= 0 && ds[i].rank >= 0 && ds[i].id !in undone ==>
          ds[i].rank < ds[j].rank)
  }

  /** The rule of a decision matches in the movement's original category, and left what matches as it was there. */
  ghost predicate SuitsAt(d: Decision, rules: seq<Rule>, m: Key, env: Matching, origin: Treatment) {
    d.rank >= 0 ==>
      && d.rank < |rules| && env.matches(m, origin.category, rules[d.rank])
      && Alike(env, m, d.result.category, origin.category)
  }

  ghost predicate Suits(ds: Trail, rules: seq<Rule>, m: Key, env: Matching, origin: Treatment) {
    forall i :: 0 <= i < |ds| ==> SuitsAt(ds[i], rules, m, env, origin)
  }

  ghost predicate SettledAt(w: World, m: Key, env: Matching) {
    Ranked(TrailOf(w, m), Undone(w.log)) && Suits(TrailOf(w, m), Rules(w.log), m, env, InForce(w.start, m))
  }

  ghost predicate Settled(w: World, env: Matching) {
    AllSteady(Rules(w.log), env) && forall m :: SettledAt(w, m, env)
  }

  /** The place of the last active rule that matches, -1 when none does. */
  function BestRank(rules: seq<Rule>, undone: set<Id>, m: Key, category: Option<string>, env: Matching): (j: int)
    ensures -1 <= j < |rules|
    ensures j >= 0 ==> rules[j].id !in undone && env.matches(m, category, rules[j])
    ensures forall i :: j < i < |rules| && rules[i].id !in undone ==> !env.matches(m, category, rules[i])
  {
    if rules == [] then -1
    else if rules[|rules| - 1].id !in undone && env.matches(m, category, rules[|rules| - 1]) then |rules| - 1
    else BestRank(rules[..|rules| - 1], undone, m, category, env)
  }

  /** The rule a pass picks is the one of best rank. */
  lemma {:induction false} LastEligible(rules: seq<Rule>, undone: set<Id>, m: Key, category: Option<string>,
                                        env: Matching)
    ensures var e := Eligible(Without(rules, undone), m, category, env);
            var j := BestRank(rules, undone, m, category, env);
            if e == [] then j == -1 else j >= 0 && e[|e| - 1] == rules[j]
  {
    if rules != [] {
      LastEligible(rules[..|rules| - 1], undone, m, category, env);
      EligibleStep(rules, undone, m, category, env);
    }
  }

  lemma EligibleStep(rules: seq<Rule>, undone: set<Id>, m: Key, category: Option<string>, env: Matching)
    requires rules != []
    ensures var last := rules[|rules| - 1];
            Eligible(Without(rules, undone), m, category, env)
            == Eligible(Without(rules[..|rules| - 1], undone), m, category, env)
               + if last.id !in undone && env.matches(m, category, last) then [last] else []
  {
    var n := |rules| - 1;
    var front := Without(rules[..n], undone);
    var before := Eligible(front, m, category, env);
    assert before + [] == before;
    if rules[n].id in undone {
      assert front + [] == front;
    } else {
      assert (front + [rules[n]])[..|front|] == front;
    }
  }

  /** What a pick says about the rules and the ruling in force. */
  lemma PickMeans(log: Log, m: Key, env: Matching) returns (j: nat)
    requires LogOk(log) && Pick(log, m, env).Some?
    ensures var r := Pick(log, m, env).value;
            var rules := Rules(log);
            var t := InForce(log, m);
            && j < |rules| && rules[j] == r && r.id !in Undone(log) && RuleSpeaks(r, Corrections(log))
            && env.matches(m, t.category, r)
            && (forall i :: j < i < |rules| && rules[i].id !in Undone(log) ==> !env.matches(m, t.category, rules[i]))
            && !(t.ruling.Some? && t.ruling.value.author == Human) && !Same(t.ruling, r.said, r.legs)
            && RankOf(rules, r.id) == j
  {
    LastEligible(Rules(log), Undone(log), m, InForce(log, m).category, env);
    j := BestRank(Rules(log), Undone(log), m, InForce(log, m).category, env);
    assert RuleSpeaks(Rules(log)[j], Corrections(log));
    RankOfMember(Rules(log), Rules(log)[j]);
  }

  /** On a movement a person has not ruled on, what matches is what matched originally. */
  lemma InForceAlike(log: Log, m: Key, ds: Trail, env: Matching, origin: Treatment)
    requires TrailOk(log, m, ds, origin) && Suits(ds, Rules(log), m, env, origin)
    requires var r := InForce(log, m).ruling; !(r.Some? && r.value.author == Human)
    ensures Alike(env, m, InForce(log, m).category, origin.category)
  {
    var t := TopIndex(ds, Undone(log));
    if t >= 0 {
      assert Speaks(ds[t], Corrections(log), Rules(log)) && SuitsAt(ds[t], Rules(log), m, env, origin);
    }
  }

  /** When rule `j` is the best and not already in force, every live decision is a rule of a lower rank. */
  lemma LiveRanksBelow(ds: Trail, undone: set<Id>, corrections: map<Id, Correction>, rules: seq<Rule>,
                       m: Key, env: Matching, origin: Treatment, j: nat, i: nat)
    requires AllSpeak(ds, corrections, rules) && Ranked(ds, undone) && Suits(ds, rules, m, env, origin)
    requires j < |rules| && RuleSpeaks(rules[j], corrections)
    requires forall k :: j < k < |rules| && rules[k].id !in undone ==> !env.matches(m, origin.category, rules[k])
    requires TopIndex(ds, undone) >= 0 ==>
               var r := ds[TopIndex(ds, undone)].result.ruling;
               r.Some? && r.value.author != Human && !Same(r, rules[j].said, rules[j].legs)
    requires i < |ds| && ds[i].id !in undone
    ensures 0 <= ds[i].rank < j
  {
    var t := TopIndex(ds, undone);
    assert Speaks(ds[t], corrections, rules) && SuitsAt(ds[t], rules, m, env, origin);
    assert Speaks(ds[i], corrections, rules);
    assert 0 <= ds[i].rank <= ds[t].rank;
    assert ds[t].rank != j;
  }

  lemma PickOutranks(w: World, m: Key, env: Matching) returns (j: nat)
    requires Ok(w) && Settled(w, env) && Pick(w.log, m, env).Some?
    ensures var r := Pick(w.log, m, env).value;
            var ds := TrailOf(w, m);
            && j == RankOf(Rules(w.log), r.id) < |Rules(w.log)| && Rules(w.log)[j] == r && r.id !in Undone(w.log)
            && env.matches(m, InForce(w.log, m).category, r) && env.matches(m, InForce(w.start, m).category, r)
            && Alike(env, m, InForce(w.log, m).category, InForce(w.start, m).category)
            && (forall i :: 0 <= i < |ds| && ds[i].id !in Undone(w.log) ==> 0 <= ds[i].rank < j)
            && !Enters(ds, r.id)
  {
    j := PickMeans(w.log, m, env);
    var ds := TrailOf(w, m);
    var undone := Undone(w.log);
    var rules := Rules(w.log);
    var origin := InForce(w.start, m);
    assert TrailOk(w.log, m, ds, origin) && SettledAt(w, m, env);
    InForceAlike(w.log, m, ds, env, origin);
    if TopIndex(ds, undone) >= 0 {
      assert Speaks(ds[TopIndex(ds, undone)], Corrections(w.log), rules);
    }
    forall i | 0 <= i < |ds| && ds[i].id !in undone ensures 0 <= ds[i].rank < j {
      LiveRanksBelow(ds, undone, Corrections(w.log), rules, m, env, origin, j, i);
    }
    forall i | 0 <= i < |ds| ensures ds[i].id != rules[j].id {
      assert Speaks(ds[i], Corrections(w.log), rules);
    }
  }

  lemma RankedExtends(ds: Trail, d: Decision, undone: set<Id>)
    requires Ranked(ds, undone)
    requires d.rank < 0 || forall i :: 0 <= i < |ds| && ds[i].id !in undone ==> 0 <= ds[i].rank < d.rank
    ensures Ranked(ds + [d], undone)
  {
  }

  lemma SuitsExtends(ds: Trail, d: Decision, rules: seq<Rule>, more: seq<Rule>, m: Key, env: Matching,
                     origin: Treatment)
    requires Suits(ds, rules, m, env, origin) && SuitsAt(d, rules, m, env, origin)
    ensures Suits(ds + [d], rules + more, m, env, origin) && Suits(ds + [], rules + more, m, env, origin)
  {
    forall i | 0 <= i < |ds + [d]| ensures SuitsAt((ds + [d])[i], rules + more, m, env, origin) {
      if i < |ds| {
        assert SuitsAt(ds[i], rules, m, env, origin);
      }
    }
    assert forall i :: 0 <= i < |ds| ==> (ds + [])[i] == (ds + [d])[i];
  }

  /** The decision a pick makes suits the movement, because the rule it picks is steady. */
  lemma PickSuits(w: World, m: Key, env: Matching, d: Decision)
    requires Ok(w) && Settled(w, env) && Pick(w.log, m, env).Some?
    requires var r := Pick(w.log, m, env).value;
             d.rank == RankOf(Rules(w.log), r.id) && d.result == AfterApplying(InForce(w.log, m), r)
    ensures SuitsAt(d, Rules(w.log), m, env, InForce(w.start, m))
  {
    var j := PickOutranks(w, m, env);
    var r := Pick(w.log, m, env).value;
    assert r in Rules(w.log) && Steady(r, env);
  }

  lemma TrailSettles(ds: Trail, d: Decision, undone: set<Id>, rules: seq<Rule>, more: seq<Rule>, touched: bool, m: Key,
                     env: Matching, origin: Treatment)
    requires Ranked(ds, undone) && Suits(ds, rules, m, env, origin)
    requires touched ==> SuitsAt(d, rules, m, env, origin)
    requires touched ==>
               d.rank < 0 || forall i :: 0 <= i < |ds| && ds[i].id !in undone ==> 0 <= ds[i].rank < d.rank
    ensures var es := ds + if touched then [d] else [];
            Ranked(es, undone) && Suits(es, rules + more, m, env, origin)
  {
    assert ds + [] == ds;
    if touched {
      RankedExtends(ds, d, undone);
      SuitsExtends(ds, d, rules, more, m, env, origin);
    } else {
      SuitsExtends(ds, d.(rank := -1), rules, more, m, env, origin);
    }
  }

  lemma ApplySettlesAt(w: World, m: Key, env: Matching, r: Rule, d: Decision, k: Key)
    requires SettledAt(w, k, env) && SuitsAt(d, Rules(w.log), m, env, InForce(w.start, m))
    requires forall i :: 0 <= i < |TrailOf(w, m)| && TrailOf(w, m)[i].id !in Undone(w.log) ==>
               0 <= TrailOf(w, m)[i].rank < d.rank
    requires d == NewDecision(w, Applied(w, m, r).log, m, r.id, RankOf(Rules(w.log), r.id))
    ensures SettledAt(Applied(w, m, r), k, env)
  {
    AppliedFrame(w, m, r);
    AppliedTrail(w, m, r, k);
    assert Rules(w.log) + [] == Rules(w.log);
    if k == m {
      TrailSettles(TrailOf(w, m), d, Undone(w.log), Rules(w.log), [], true, m, env, InForce(w.start, m));
    } else {
      assert TrailOf(w, k) + [] == TrailOf(w, k);
    }
  }

  lemma ApplyKeepsSettled(w: World, m: Key, env: Matching)
    requires Ok(w) && Settled(w, env) && Pick(w.log, m, env).Some?
    ensures Settled(Applied(w, m, Pick(w.log, m, env).value), env)
  {
    var r := Pick(w.log, m, env).value;
    var u := Applied(w, m, r);
    var j := PickOutranks(w, m, env);
    var d := NewDecision(w, u.log, m, r.id, j);
    AppliedFrame(w, m, r);
    PickSuits(w, m, env, d);
    forall k ensures SettledAt(u, k, env) {
      ApplySettlesAt(w, m, env, r, d, k);
    }
  }

  lemma AppliedFrame(w: World, m: Key, r: Rule)
    ensures var u := Applied(w, m, r);
            && u.start == w.start && Undone(u.log) == Undone(w.log) && Rules(u.log) == Rules(w.log)
            && InForce(u.log, m) == AfterApplying(InForce(w.log, m), r)
  {
    ApplyReplays(w.log, m, r);
  }

  lemma CorrectKeepsSettled(w: World, id: Id, movements: seq<Key>, p: Proposal, env: Matching)
    requires Settled(w, env) && Distinct(movements) && AllSteady(LearnedRule(id, movements, p), env)
    ensures Settled(Corrected(w, id, movements, p), env)
  {
    var u := Corrected(w, id, movements, p);
    CorrectedFrame(w, id, movements, p);
    forall k ensures SettledAt(u, k, env) {
      assert SettledAt(w, k, env);
      CorrectedTrail(w, id, movements, p, k);
      TrailSettles(TrailOf(w, k), NewDecision(w, u.log, k, id, -1), Undone(w.log), Rules(w.log),
                   LearnedRule(id, movements, p), k in movements, k, env, InForce(w.start, k));
    }
  }

  lemma CorrectedFrame(w: World, id: Id, movements: seq<Key>, p: Proposal)
    requires Distinct(movements)
    ensures var u := Corrected(w, id, movements, p);
            && u.start == w.start && Undone(u.log) == Undone(w.log)
            && Rules(u.log) == Rules(w.log) + LearnedRule(id, movements, p)
  {
    CorrectReplays(w.log, id, movements, p);
  }

  lemma UndoKeepsSettled(w: World, id: Id, env: Matching)
    requires LogOk(w.log) && Settled(w, env)
    ensures Settled(Undid(w, id), env)
  {
    UndoneAfter(w.log, id);
    forall k ensures SettledAt(Undid(w, id), k, env) {
      assert SettledAt(w, k, env) && TrailOf(Undid(w, id), k) == TrailOf(w, k);
      RankedGrows(TrailOf(w, k), Undone(w.log), Undone(Undid(w, id).log));
    }
  }

  lemma RankedGrows(ds: Trail, undone: set<Id>, more: set<Id>)
    requires Ranked(ds, undone) && undone <= more
    ensures Ranked(ds, more)
  {
  }

  lemma {:induction false} LearnedSettled(w: World, movements: seq<Key>, env: Matching)
    requires Ok(w) && Settled(w, env)
    ensures FirstTime(w, movements, env)
    ensures Ok(Learned(w, movements, env)) && Settled(Learned(w, movements, env), env)
  {
    if movements != [] {
      var front := movements[..|movements| - 1];
      var m := movements[|movements| - 1];
      LearnedSettled(w, front, env);
      var before := Learned(w, front, env);
      PickIsActive(before.log, m, env);
      match Pick(before.log, m, env)
      case None =>
      case Some(r) =>
        var _ := PickOutranks(before, m, env);
        ApplyKeepsOk(before, m, r);
        ApplyKeepsSettled(before, m, env);
    }
  }

  /** Every lesson of the run is steady. */
  ghost predicate SteadyThroughout(steps: seq<Step>, env: Matching) {
    forall i :: 0 <= i < |steps| && steps[i].DoCorrect? ==>
      AllSteady(LearnedRule(steps[i].id, steps[i].movements, steps[i].proposal), env)
  }

  lemma SettledStep(w: World, s: Step, env: Matching)
    requires Ok(w) && Settled(w, env) && Permitted(w, s)
    requires s.DoCorrect? ==> AllSteady(LearnedRule(s.id, s.movements, s.proposal), env)
    ensures Settled(Exec(w, s, env), env) && (s.DoLearn? ==> FirstTime(w, s.movements, env))
  {
    match s
    case DoCorrect(id, movements, p) => CorrectKeepsSettled(w, id, movements, p, env);
    case DoLearn(movements) => LearnedSettled(w, movements, env);
    case DoUndo(id) => UndoKeepsSettled(w, id, env);
  }

  /** When lessons are steady, no permitted run ever applies a rule to a movement twice. */
  lemma {:induction false} SteadyRunsNeverReenter(w: World, steps: seq<Step>, env: Matching)
    requires Plain(w) && Settled(w, env) && AllPermitted(w, steps, env)
    requires SteadyThroughout(steps, env) && SameLegsThroughout(steps)
    ensures NeverReenters(w, steps, env) && Settled(Run(w, steps, env), env)
  {
    if steps != [] {
      var front, last := steps[..|steps| - 1], steps[|steps| - 1];
      assert forall i :: 0 <= i < |front| ==> front[i] == steps[i];
      SteadyRunsNeverReenter(w, front, env);
      FirstTimeRunsFit(w, front, env);
      SettledStep(Run(w, front, env), last, env);
    }
  }

  lemma OpeningSettled(start: Log, env: Matching)
    requires AllQuiet(start)
    ensures Settled(Opening(start), env)
  {
    OpeningLog(start);
    forall m ensures SettledAt(Opening(start), m, env) {
      assert TrailOf(Opening(start), m) == [];
    }
  }

  /**
    When no lesson assigns a category that changes what matches, in every permitted run from
    original treatments the treatments are at every point those of the most recent decisions not
    undone.
  */
  lemma SteadyRunsAreIntended(start: Log, steps: seq<Step>, env: Matching)
    requires AllQuiet(start) && AllPermitted(Opening(start), steps, env)
    requires SteadyThroughout(steps, env) && SameLegsThroughout(steps)
    ensures NeverReenters(Opening(start), steps, env) && MeantThroughout(Opening(start), steps, env)
  {
    OpeningOk(start);
    OpeningSettled(start, env);
    SteadyRunsNeverReenter(Opening(start), steps, env);
    FirstTimeRunsFit(Opening(start), steps, env);
    TreatmentsAreIntendedIff(start, steps, env);
  }

  /**
    Whatever the matcher: when no correction both keeps a lesson and assigns a category, every
    permitted run is as intended throughout.
  */
  lemma LessonsWithoutCategoriesAreIntended(start: Log, steps: seq<Step>, env: Matching)
    requires AllQuiet(start) && AllPermitted(Opening(start), steps, env) && SameLegsThroughout(steps)
    requires forall i :: 0 <= i < |steps| && steps[i].DoCorrect? && steps[i].proposal.lesson.Some? ==>
               steps[i].proposal.category == None
    ensures NeverReenters(Opening(start), steps, env) && MeantThroughout(Opening(start), steps, env)
  {
    SteadyRunsAreIntended(start, steps, env);
  }
}
