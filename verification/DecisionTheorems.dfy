/**
  Every correction and every rule application keeps the run invariant, and an undo keeps it
  exactly when it fits.  So a run means what it should at every point exactly when each of
  its undos fits, and always when no rule comes back to a movement it already ruled on.
*/
module DecisionTheorems {
  import opened Common
  import opened AccountingLog
  import opened AccountingIntelligence
  import opened Decisions
  import opened DecisionRuns

  // ---------------------------------------------------------------- the log invariant, step by step

  lemma MemberMeans(rules: seq<Rule>, corrections: map<Id, Correction>, r: Rule)
    requires forall i :: 0 <= i < |rules| ==> RuleSpeaks(rules[i], corrections)
    requires forall i, j :: 0 <= i < j < |rules| ==> rules[i].id != rules[j].id
    requires r in rules
    ensures RuleSpeaks(r, corrections) && 0 <= RankOf(rules, r.id) < |rules| && rules[RankOf(rules, r.id)] == r
  {
    RankOfMember(rules, r);
    var i :| 0 <= i < |rules| && rules[i] == r;
    assert RuleSpeaks(rules[i], corrections);
    assert i == RankOf(rules, r.id);
  }

  lemma ActiveMeans(log: Log, r: Rule)
    requires LogOk(log) && r in ActiveRules(log)
    ensures r in Rules(log) && r.id !in Undone(log) && RuleSpeaks(r, Corrections(log))
    ensures 0 <= RankOf(Rules(log), r.id) < |Rules(log)| && Rules(log)[RankOf(Rules(log), r.id)] == r
  {
    WithoutMembers(Rules(log), Undone(log), r);
    MemberMeans(Rules(log), Corrections(log), r);
  }

  lemma LearnedRuleActive(rules: seq<Rule>, undone: set<Id>, r: Rule)
    requires r.id !in undone && forall i :: 0 <= i < |rules| ==> rules[i].id != r.id
    ensures Put(Without(rules, undone), r) == Without(rules + [r], undone)
  {
    var active := Without(rules, undone);
    forall i | 0 <= i < |active| ensures active[i].id != r.id {
      WithoutMembers(rules, undone, active[i]);
    }
    PutFresh(active, r);
    assert (rules + [r])[..|rules|] == rules;
  }

  lemma RulesFresh(log: Log, id: Id, i: nat)
    requires LogOk(log) && id !in Corrections(log) && i < |Rules(log)|
    ensures Rules(log)[i].id != id
  {
    assert RuleSpeaks(Rules(log)[i], Corrections(log));
  }

  lemma RulesExtend(rules: seq<Rule>, corrections: map<Id, Correction>, c: Correction, p: Proposal)
    requires forall i :: 0 <= i < |rules| ==> RuleSpeaks(rules[i], corrections) && rules[i].id != c.id
    requires c.legs == SavedLegs(c.movements, p) && c.said == p.said && (p.lesson.Some? ==> c.ruleId == Some(c.id))
    ensures var all := rules + LearnedRule(c.id, c.movements, p);
            forall i :: 0 <= i < |all| ==> RuleSpeaks(all[i], corrections[c.id := c])
  {
    var all := rules + LearnedRule(c.id, c.movements, p);
    forall i | 0 <= i < |all| ensures RuleSpeaks(all[i], corrections[c.id := c]) {
      if i < |rules| {
        assert RuleSpeaks(rules[i], corrections);
      }
    }
  }

  lemma CorrectKeepsRules(log: Log, id: Id, movements: seq<Key>, p: Proposal)
    requires LogOk(log) && id !in Corrections(log) && Distinct(movements)
    ensures RulesOk(log + CorrectEvents(log, id, movements, p))
  {
    var rules := Rules(log);
    CorrectReplays(log, id, movements, p);
    forall i | 0 <= i < |rules| ensures rules[i].id != id {
      RulesFresh(log, id, i);
    }
    RulesExtend(rules, Corrections(log), CorrectionOf(id, movements, Snapshot(log, movements), p), p);
    if p.lesson.Some? {
      LearnedRuleActive(rules, Undone(log), LearnedRule(id, movements, p)[0]);
    } else {
      assert rules + [] == rules;
    }
  }

  lemma CorrectKeepsHistory(log: Log, id: Id, movements: seq<Key>, p: Proposal)
    requires HistoryClosed(log) && Distinct(movements)
    ensures HistoryClosed(log + CorrectEvents(log, id, movements, p))
  {
    var log' := log + CorrectEvents(log, id, movements, p);
    CorrectReplays(log, id, movements, p);
    assert Corrections(log').Keys == Corrections(log).Keys + {id};
    forall m, known: set<Id> | Corrections(log').Keys <= known
      ensures History(log', m, known) == History(log', m, Corrections(log').Keys) {
      assert History(log, m, known) == History(log, m, Corrections(log).Keys);
    }
  }

  lemma CorrectKeepsCorrections(log: Log, id: Id, movements: seq<Key>, p: Proposal)
    requires LogOk(log) && Distinct(movements)
    ensures var log' := log + CorrectEvents(log, id, movements, p);
            && (forall x :: x in Corrections(log') ==> CorrectionOk(Corrections(log')[x]))
            && Undone(log') <= Corrections(log').Keys && NothingSavedFor(log')
  {
    CorrectReplays(log, id, movements, p);
    assert CorrectionOk(CorrectionOf(id, movements, Snapshot(log, movements), p));
  }

  lemma CorrectKeepsLog(log: Log, id: Id, movements: seq<Key>, p: Proposal)
    requires LogOk(log) && id !in Corrections(log) && Distinct(movements)
    ensures LogOk(log + CorrectEvents(log, id, movements, p))
  {
    CorrectKeepsRules(log, id, movements, p);
    CorrectKeepsHistory(log, id, movements, p);
    CorrectKeepsCorrections(log, id, movements, p);
  }

  lemma ApplyKeepsLog(log: Log, m: Key, r: Rule)
    requires LogOk(log) && r in ActiveRules(log)
    ensures LogOk(log + ApplyEvents(InForce(log, m), m, r))
  {
    ActiveMeans(log, r);
    ApplyReplays(log, m, r);
    var log' := log + ApplyEvents(InForce(log, m), m, r);
    forall k, known: set<Id> | Corrections(log').Keys <= known
      ensures History(log', k, known) == History(log', k, Corrections(log').Keys) {
      assert History(log, k, known) == History(log, k, Corrections(log).Keys);
    }
  }

  lemma UndoKeepsLog(log: Log, id: Id)
    requires LogOk(log)
    ensures LogOk(log + UndoEvents(log, id))
  {
    if id in Undone(log) || id !in Corrections(log) {
      assert log + [] == log;
    } else {
      UndoReplays(log, id);
      var rules := Rules(log);
      if Corrections(log)[id].ruleId.Some? {
        WithoutTwice(rules, Undone(log), {id});
      } else {
        forall i | 0 <= i < |rules| ensures rules[i].id != id {
          assert RuleSpeaks(rules[i], Corrections(log));
        }
        WithoutAbsent(rules, Undone(log), id);
      }
    }
  }

  // ---------------------------------------------------------------- the trail invariant, step by step

  /** Appending a decision that speaks and is linked to the one in force keeps a trail well formed. */
  lemma TrailExtends(ds: Trail, d: Decision, undone: set<Id>, corrections: map<Id, Correction>, rules: seq<Rule>,
                     origin: Treatment)
    requires Linked(ds, undone, origin) && AllSpeak(ds, corrections, rules)
    requires d.base == TopIndex(ds, undone) && d.snapshot == Intended(ds, undone, origin)
    requires Speaks(d, corrections, rules) && d.id !in undone
    ensures Linked(ds + [d], undone, origin) && AllSpeak(ds + [d], corrections, rules)
    ensures Intended(ds + [d], undone, origin) == d.result
    ensures Entries(ds + [d]) == Entries(ds) + [Entry(d.id, d.snapshot)]
  {
    LinkedExtends(ds, d, undone, origin);
    TopIndexIs(ds + [d], undone, |ds|);
  }

  lemma SpeaksGrows(ds: Trail, corrections: map<Id, Correction>, rules: seq<Rule>, c: Correction, more: seq<Rule>)
    requires AllSpeak(ds, corrections, rules) && c.id !in corrections
    ensures AllSpeak(ds, corrections[c.id := c], rules + more) && !Enters(ds, c.id)
  {
    forall i | 0 <= i < |ds| ensures Speaks(ds[i], corrections[c.id := c], rules + more) {
      assert Speaks(ds[i], corrections, rules);
    }
  }

  lemma CorrectKeepsSaved(log: Log, id: Id, movements: seq<Key>, p: Proposal, m: Key, ds: Trail, d: Decision)
    requires LogOk(log) && id !in Corrections(log) && Distinct(movements) && SavedAgrees(log, m, ds) && !Enters(ds, id)
    requires d.id == id && d.snapshot == InForce(log, m)
    ensures SavedAgrees(log + CorrectEvents(log, id, movements, p), m, ds + if m in movements then [d] else [])
  {
    var log' := log + CorrectEvents(log, id, movements, p);
    CorrectReplays(log, id, movements, p);
    assert ds + [] == ds;
    forall x | x in Corrections(log')
      ensures Lookup(Saved(log', Corrections(log')[x]), m)
              == FirstSnapshot(ds + if m in movements then [d] else [], x) {
      FirstSnapshotExtends(ds, d, x);
      if x == id {
        assert Saved(log, Corrections(log')[x]) == Snapshot(log, movements);
      }
    }
  }

  lemma CorrectedTrail(w: World, id: Id, movements: seq<Key>, p: Proposal, m: Key)
    ensures var log' := w.log + CorrectEvents(w.log, id, movements, p);
            && Corrected(w, id, movements, p).log == log'
            && TrailOf(Corrected(w, id, movements, p), m) == TrailOf(w, m) +
                 if m in movements then [NewDecision(w, log', m, id, -1)] else []
  {
  }

  /** Any movement's trail after a correction, as values. */
  lemma CorrectTouches(log: Log, id: Id, movements: seq<Key>, p: Proposal, m: Key, ds: Trail, d: Decision,
                       origin: Treatment)
    requires LogOk(log) && TrailOk(log, m, ds, origin) && id !in Corrections(log) && Distinct(movements)
    requires d == Decision(id, InForce(log, m), InForce(log + CorrectEvents(log, id, movements, p), m),
                           TopIndex(ds, Undone(log)), -1)
    ensures TrailOk(log + CorrectEvents(log, id, movements, p), m, ds + if m in movements then [d] else [], origin)
  {
    var log' := log + CorrectEvents(log, id, movements, p);
    CorrectReplays(log, id, movements, p);
    CorrectInForce(log, id, movements, p, m);
    SpeaksGrows(ds, Corrections(log), Rules(log), Corrections(log')[id], LearnedRule(id, movements, p));
    CorrectKeepsSaved(log, id, movements, p, m, ds, d);
    assert History(log, m, Corrections(log').Keys) == Entries(ds);
    if m in movements {
      CorrectionSpeaks(d, Corrections(log'), Rules(log'), p, m);
      TrailExtends(ds, d, Undone(log), Corrections(log'), Rules(log'), origin);
    } else {
      assert ds + [] == ds;
    }
  }

  lemma CorrectionSpeaks(d: Decision, corrections: map<Id, Correction>, rules: seq<Rule>, p: Proposal, m: Key)
    requires d.id in corrections && d.rank < 0 && d.result.ruling == Some(HumanRuling(p, m))
    requires corrections[d.id].said == p.said
    ensures Speaks(d, corrections, rules)
  {
  }

  lemma CorrectKeepsTrail(w: World, id: Id, movements: seq<Key>, p: Proposal, m: Key)
    requires Ok(w) && id !in Corrections(w.log) && Distinct(movements)
    ensures TrailOk(Corrected(w, id, movements, p).log, m, TrailOf(Corrected(w, id, movements, p), m),
                    InForce(w.start, m))
  {
    var log' := w.log + CorrectEvents(w.log, id, movements, p);
    CorrectedTrail(w, id, movements, p, m);
    CorrectTouches(w.log, id, movements, p, m, TrailOf(w, m), NewDecision(w, log', m, id, -1), InForce(w.start, m));
  }

  lemma ApplyKeepsSaved(log: Log, m: Key, r: Rule, ds: Trail, d: Decision, k: Key)
    requires LogOk(log) && RuleSpeaks(r, Corrections(log)) && SavedAgrees(log, k, ds)
    requires d.id == r.id && d.snapshot == InForce(log, m)
    ensures SavedAgrees(log + ApplyEvents(InForce(log, m), m, r), k, ds + if k == m then [d] else [])
  {
    var log' := log + ApplyEvents(InForce(log, m), m, r);
    ApplyReplays(log, m, r);
    assert ds + [] == ds;
    forall x | x in Corrections(log')
      ensures Lookup(Saved(log', Corrections(log')[x]), k) == FirstSnapshot(ds + if k == m then [d] else [], x) {
      FirstSnapshotExtends(ds, d, x);
      assert CorrectionOk(Corrections(log)[x]);
    }
  }

  /** The touched movement's trail after an application, as values. */
  lemma ApplyExtendsTrail(log: Log, log': Log, m: Key, r: Rule, ds: Trail, d: Decision, origin: Treatment)
    requires TrailOk(log, m, ds, origin) && RuleSpeaks(r, Corrections(log)) && r.id !in Undone(log)
    requires Undone(log') == Undone(log) && Corrections(log') == Corrections(log) && Rules(log') == Rules(log)
    requires History(log', m, Corrections(log).Keys) == Entries(ds) + [Entry(r.id, InForce(log, m))]
    requires InForce(log', m) == AfterApplying(InForce(log, m), r) && SavedAgrees(log', m, ds + [d])
    requires 0 <= d.rank < |Rules(log)| && Rules(log)[d.rank] == r
    requires d == Decision(r.id, InForce(log, m), InForce(log', m), TopIndex(ds, Undone(log)), d.rank)
    ensures TrailOk(log', m, ds + [d], origin)
  {
    assert Speaks(d, Corrections(log'), Rules(log'));
    TrailExtends(ds, d, Undone(log), Corrections(log'), Rules(log'), origin);
  }

  lemma AppliedTrail(w: World, m: Key, r: Rule, k: Key)
    ensures var log' := w.log + ApplyEvents(InForce(w.log, m), m, r);
            && Applied(w, m, r).log == log'
            && TrailOf(Applied(w, m, r), k) == TrailOf(w, k) +
                 if k == m then [NewDecision(w, log', m, r.id, RankOf(Rules(w.log), r.id))] else []
  {
  }

  lemma ApplyKeepsTrail(w: World, m: Key, r: Rule, k: Key)
    requires Ok(w) && r in ActiveRules(w.log)
    ensures TrailOk(Applied(w, m, r).log, k, TrailOf(Applied(w, m, r), k), InForce(w.start, k))
  {
    var log' := w.log + ApplyEvents(InForce(w.log, m), m, r);
    var d := NewDecision(w, log', m, r.id, RankOf(Rules(w.log), r.id));
    ActiveMeans(w.log, r);
    AppliedTrail(w, m, r, k);
    if k == m {
      ApplyTouches(w.log, m, r, TrailOf(w, m), d, InForce(w.start, m));
    } else {
      ApplyLeaves(w.log, m, r, k, TrailOf(w, k), d, InForce(w.start, k));
      assert TrailOf(w, k) + [] == TrailOf(w, k);
    }
  }

  lemma ApplyTouches(log: Log, m: Key, r: Rule, ds: Trail, d: Decision, origin: Treatment)
    requires LogOk(log) && TrailOk(log, m, ds, origin) && RuleSpeaks(r, Corrections(log)) && r.id !in Undone(log)
    requires 0 <= d.rank < |Rules(log)| && Rules(log)[d.rank] == r
    requires var log' := log + ApplyEvents(InForce(log, m), m, r);
             d == Decision(r.id, InForce(log, m), InForce(log', m), TopIndex(ds, Undone(log)), d.rank)
    ensures TrailOk(log + ApplyEvents(InForce(log, m), m, r), m, ds + [d], origin)
  {
    ApplyReplays(log, m, r);
    ApplyKeepsSaved(log, m, r, ds, d, m);
    ApplyExtendsTrail(log, log + ApplyEvents(InForce(log, m), m, r), m, r, ds, d, origin);
  }

  lemma ApplyLeaves(log: Log, m: Key, r: Rule, k: Key, ds: Trail, d: Decision, origin: Treatment)
    requires LogOk(log) && TrailOk(log, k, ds, origin) && RuleSpeaks(r, Corrections(log)) && k != m
    requires d.id == r.id && d.snapshot == InForce(log, m)
    ensures TrailOk(log + ApplyEvents(InForce(log, m), m, r), k, ds, origin)
  {
    ApplyReplays(log, m, r);
    ApplyKeepsSaved(log, m, r, ds, d, k);
    assert ds + [] == ds;
  }

  /** An undo keeps a movement's trail well formed, and its treatment intended, exactly if it fits. */
  lemma UndoKeepsTrailIff(w: World, id: Id, m: Key)
    requires Ok(w) && id in Corrections(w.log) && id !in Undone(w.log)
    ensures var u := Undid(w, id);
            var ds := TrailOf(w, m);
            var origin := InForce(w.start, m);
            && (Fits(ds, Undone(w.log), Corrections(w.log), id, origin) <==>
                InForce(u.log, m) == Intended(ds, Undone(u.log), origin))
            && (Fits(ds, Undone(w.log), Corrections(w.log), id, origin) <==> TrailOk(u.log, m, ds, origin))
  {
    var log := w.log;
    var ds := TrailOf(w, m);
    var origin := InForce(w.start, m);
    assert TrailOk(log, m, ds, origin);
    UndoReplays(log, id);
    UndoInForce(log, id, m);
    UndoIsRightIff(log, id, m, ds, origin);
    LinkedGrows(ds, Undone(log), Undone(log) + {id}, origin);
  }

  // ---------------------------------------------------------------- runs

  datatype Step =
    | DoCorrect(id: Id, movements: seq<Key>, proposal: Proposal)
    | DoLearn(movements: seq<Key>)
    | DoUndo(id: Id)

  /** One movement of a learning pass. */
  function Advance(w: World, m: Key, env: Matching): World {
    match Pick(w.log, m, env) case None => w case Some(r) => Applied(w, m, r)
  }

  /** A learning pass, one movement at a time. */
  function Learned(w: World, movements: seq<Key>, env: Matching): World {
    if movements == [] then w else
      Advance(Learned(w, movements[..|movements| - 1], env), movements[|movements| - 1], env)
  }

  function Exec(w: World, s: Step, env: Matching): World {
    match s
    case DoCorrect(id, movements, p) => Corrected(w, id, movements, p)
    case DoLearn(movements) => Learned(w, movements, env)
    case DoUndo(id) => Undid(w, id)
  }

  function Run(w: World, steps: seq<Step>, env: Matching): World {
    if steps == [] then w else Exec(Run(w, steps[..|steps| - 1], env), steps[|steps| - 1], env)
  }

  /** What the callers see to: new identities are new, and a selection names a movement once. */
  predicate Permitted(w: World, s: Step) {
    match s
    case DoCorrect(id, movements, _) => id !in Corrections(w.log) && Distinct(movements)
    case DoLearn(movements) => Distinct(movements)
    case DoUndo(_) => true
  }

  predicate AllPermitted(w: World, steps: seq<Step>, env: Matching) {
    steps == [] ||
    (AllPermitted(w, steps[..|steps| - 1], env) && Permitted(Run(w, steps[..|steps| - 1], env), steps[|steps| - 1]))
  }

  /** No rule is applied to a movement its own decision has already ruled on. */
  predicate FirstTime(w: World, movements: seq<Key>, env: Matching) {
    movements == [] ||
    var before := Learned(w, movements[..|movements| - 1], env);
    var m := movements[|movements| - 1];
    && FirstTime(w, movements[..|movements| - 1], env)
    && match Pick(before.log, m, env)
       case None => true
       case Some(r) => !Enters(TrailOf(before, m), r.id)
  }

  predicate NeverReenters(w: World, steps: seq<Step>, env: Matching) {
    steps == [] ||
    var s := steps[|steps| - 1];
    && NeverReenters(w, steps[..|steps| - 1], env)
    && (s.DoLearn? ==> FirstTime(Run(w, steps[..|steps| - 1], env), s.movements, env))
  }

  /** A ledger before any correction: only original treatments. */
  function Opening(start: Log): World { World(start, start, map[]) }

  lemma OpeningLog(start: Log)
    requires AllQuiet(start)
    ensures Undone(start) == {} && Corrections(start) == map[] && Rules(start) == [] && ActiveRules(start) == []
    ensures forall m, known :: History(start, m, known) == []
    ensures forall c :: Saved(start, c) == c.previous
  {
    QuietTail([], start);
    assert [] + start == start;
    forall m, known ensures History(start, m, known) == [] {
      assert History([], m, known) == [];
    }
    forall c ensures Saved(start, c) == c.previous {
      assert Saved([], c) == c.previous;
    }
  }

  lemma OpeningOk(start: Log)
    requires AllQuiet(start)
    ensures Plain(Opening(start))
  {
    OpeningLog(start);
  }

  /** The rule picked is active. */
  lemma PickIsActive(log: Log, m: Key, env: Matching)
    ensures Pick(log, m, env).Some? ==> Pick(log, m, env).value in ActiveRules(log)
  {
    var rules := ActiveRules(log);
    var category := InForce(log, m).category;
    forall r | r in Eligible(rules, m, category, env) ensures r in rules {
      EligibleMembers(rules, m, category, env, r);
    }
  }

  lemma {:induction false} EligibleMembers(rules: seq<Rule>, m: Key, category: Option<string>, env: Matching, r: Rule)
    ensures r in Eligible(rules, m, category, env) ==> r in rules && env.matches(m, category, r)
  {
    if rules != [] {
      EligibleMembers(rules[..|rules| - 1], m, category, env, r);
    }
  }

  lemma {:induction false} LearnedKeepsLog(w: World, movements: seq<Key>, env: Matching)
    requires LogOk(w.log)
    ensures LogOk(Learned(w, movements, env).log)
  {
    if movements != [] {
      var m := movements[|movements| - 1];
      LearnedKeepsLog(w, movements[..|movements| - 1], env);
      var before := Learned(w, movements[..|movements| - 1], env);
      PickIsActive(before.log, m, env);
      match Pick(before.log, m, env)
      case None =>
      case Some(r) => ApplyKeepsLog(before.log, m, r);
    }
  }

  lemma {:induction false} LearnedKeepsOk(w: World, movements: seq<Key>, env: Matching)
    requires Ok(w)
    ensures Ok(Learned(w, movements, env)) && Learned(w, movements, env).start == w.start
    ensures Once(w) && FirstTime(w, movements, env) ==> Once(Learned(w, movements, env))
  {
    if movements != [] {
      var m := movements[|movements| - 1];
      LearnedKeepsOk(w, movements[..|movements| - 1], env);
      var before := Learned(w, movements[..|movements| - 1], env);
      PickIsActive(before.log, m, env);
      match Pick(before.log, m, env)
      case None =>
      case Some(r) =>
        ApplyKeepsOk(before, m, r);
        if Once(before) && !Enters(TrailOf(before, m), r.id) {
          ApplyKeepsOnce(before, m, r);
        }
    }
  }

  lemma ApplyKeepsOnce(w: World, m: Key, r: Rule)
    requires Once(w) && !Enters(TrailOf(w, m), r.id)
    ensures Once(Applied(w, m, r))
  {
    forall k ensures Unrepeated(TrailOf(Applied(w, m, r), k)) {
      AppliedTrail(w, m, r, k);
      assert Unrepeated(TrailOf(w, k));
    }
  }

  lemma ApplyKeepsOk(w: World, m: Key, r: Rule)
    requires Ok(w) && r in ActiveRules(w.log)
    ensures Ok(Applied(w, m, r)) && Applied(w, m, r).start == w.start
  {
    ApplyKeepsLog(w.log, m, r);
    forall k ensures TrailOk(Applied(w, m, r).log, k, TrailOf(Applied(w, m, r), k), InForce(w.start, k)) {
      ApplyKeepsTrail(w, m, r, k);
    }
  }

  lemma CorrectKeepsOk(w: World, id: Id, movements: seq<Key>, p: Proposal)
    requires Ok(w) && id !in Corrections(w.log) && Distinct(movements)
    ensures Ok(Corrected(w, id, movements, p)) && Corrected(w, id, movements, p).start == w.start
  {
    CorrectKeepsLog(w.log, id, movements, p);
    forall m ensures TrailOk(Corrected(w, id, movements, p).log, m, TrailOf(Corrected(w, id, movements, p), m),
                             InForce(w.start, m)) {
      CorrectKeepsTrail(w, id, movements, p, m);
    }
  }

  lemma SpeakersKnown(ds: Trail, corrections: map<Id, Correction>, rules: seq<Rule>, id: Id)
    requires AllSpeak(ds, corrections, rules) && id !in corrections
    ensures !Enters(ds, id)
  {
    forall i | 0 <= i < |ds| ensures ds[i].id != id {
      assert Speaks(ds[i], corrections, rules);
    }
  }

  lemma UnrepeatedExtends(ds: Trail, d: Decision)
    requires Unrepeated(ds) && !Enters(ds, d.id)
    ensures Unrepeated(ds + [d]) && Unrepeated(ds + [])
  {
    assert ds + [] == ds;
  }

  lemma CorrectKeepsOnceAt(w: World, id: Id, movements: seq<Key>, p: Proposal, m: Key)
    requires AllSpeak(TrailOf(w, m), Corrections(w.log), Rules(w.log)) && Unrepeated(TrailOf(w, m)) &&
             id !in Corrections(w.log)
    ensures Unrepeated(TrailOf(Corrected(w, id, movements, p), m))
  {
    var log' := w.log + CorrectEvents(w.log, id, movements, p);
    SpeakersKnown(TrailOf(w, m), Corrections(w.log), Rules(w.log), id);
    CorrectedTrail(w, id, movements, p, m);
    UnrepeatedExtends(TrailOf(w, m), NewDecision(w, log', m, id, -1));
  }

  lemma CorrectKeepsOnce(w: World, id: Id, movements: seq<Key>, p: Proposal)
    requires Ok(w) && Once(w) && id !in Corrections(w.log)
    ensures Once(Corrected(w, id, movements, p))
  {
    forall m ensures Unrepeated(TrailOf(Corrected(w, id, movements, p), m)) {
      assert TrailOk(w.log, m, TrailOf(w, m), InForce(w.start, m)) && Unrepeated(TrailOf(w, m));
      CorrectKeepsOnceAt(w, id, movements, p, m);
    }
  }

  /** The undo of `id` is unknown, repeated, or fits the trail of every movement. */
  ghost predicate UndoFits(w: World, id: Id) {
    id in Undone(w.log) || id !in Corrections(w.log) ||
    forall m :: Fits(TrailOf(w, m), Undone(w.log), Corrections(w.log), id, InForce(w.start, m))
  }

  /** An undo keeps the run invariant, and every treatment intended, if and only if it fits. */
  lemma UndoKeepsOkIff(w: World, id: Id)
    requires Ok(w)
    ensures Undid(w, id).start == w.start && Undid(w, id).trails == w.trails
    ensures Ok(Undid(w, id)) <==> UndoFits(w, id)
    ensures Meant(Undid(w, id)) <==> UndoFits(w, id)
  {
    var u := Undid(w, id);
    UndoKeepsLog(w.log, id);
    if id in Undone(w.log) || id !in Corrections(w.log) {
      assert u.log == w.log;
      OkMeant(u);
    } else {
      forall m
        ensures var (ds, o) := (TrailOf(u, m), InForce(u.start, m));
                && (Fits(ds, Undone(w.log), Corrections(w.log), id, o) <==>
                    InForce(u.log, m) == Intended(ds, Undone(u.log), o))
                && (Fits(ds, Undone(w.log), Corrections(w.log), id, o) <==> TrailOk(u.log, m, ds, o)) {
        UndoKeepsTrailIff(w, id, m);
      }
      UndoKeepsAllIff(w, u, id);
    }
  }

  /** What holds movement by movement holds for all of them. */
  lemma UndoKeepsAllIff(w: World, u: World, id: Id)
    requires id in Corrections(w.log) && id !in Undone(w.log) && u.start == w.start && u.trails == w.trails &&
             LogOk(u.log)
    requires forall m :: var (ds, o) := (TrailOf(u, m), InForce(u.start, m));
               && (Fits(ds, Undone(w.log), Corrections(w.log), id, o) <==>
                   InForce(u.log, m) == Intended(ds, Undone(u.log), o))
               && (Fits(ds, Undone(w.log), Corrections(w.log), id, o) <==> TrailOk(u.log, m, ds, o))
    ensures (Ok(u) <==> UndoFits(w, id)) && (Meant(u) <==> UndoFits(w, id))
  {
    assert forall m :: TrailOf(u, m) == TrailOf(w, m);
  }

  lemma OkMeant(w: World)
    requires Ok(w)
    ensures Meant(w)
  {
    forall m ensures InForce(w.log, m) == Intended(TrailOf(w, m), Undone(w.log), InForce(w.start, m)) {
      assert TrailOk(w.log, m, TrailOf(w, m), InForce(w.start, m));
    }
  }

  /** Where no decision has entered a trail twice and every ruling has the saved legs, every undo fits. */
  lemma OnceFits(w: World, id: Id)
    requires Ok(w) && Once(w) && LegsKept(w)
    ensures UndoFits(w, id)
  {
    forall m ensures Fits(TrailOf(w, m), Undone(w.log), Corrections(w.log), id, InForce(w.start, m)) {
      assert TrailOk(w.log, m, TrailOf(w, m), InForce(w.start, m)) && Unrepeated(TrailOf(w, m));
      assert AllKeepLegs(TrailOf(w, m), -1, Corrections(w.log));
      UnrepeatedFits(TrailOf(w, m), Undone(w.log), Corrections(w.log), Rules(w.log), id, InForce(w.start, m));
    }
  }

  // ---------------------------------------------------------------- the legs a correction is saved with

  /** The explanation resolves to the same legs on every selected movement. */
  predicate SameLegs(movements: seq<Key>, p: Proposal) {
    forall m :: m in movements ==> p.legs(m) == SavedLegs(movements, p)
  }

  lemma LegsKeptGrows(ds: Trail, corrections: map<Id, Correction>, more: map<Id, Correction>, d: Decision)
    requires AllKeepLegs(ds, -1, corrections) && KeepsLegs(d, more)
    requires forall id :: id in corrections ==> id in more && more[id] == corrections[id]
    ensures AllKeepLegs(ds + [d], -1, more)
  {
    forall k | 0 <= k < |ds + [d]| ensures KeepsLegs((ds + [d])[k], more) {
      if k < |ds| {
        assert KeepsLegs(ds[k], corrections);
      }
    }
  }

  lemma LegsStayKept(ds: Trail, corrections: map<Id, Correction>, more: map<Id, Correction>)
    requires AllKeepLegs(ds, -1, corrections)
    requires forall id :: id in corrections ==> id in more && more[id] == corrections[id]
    ensures AllKeepLegs(ds + [], -1, more)
  {
    assert ds + [] == ds;
    forall k | 0 <= k < |ds| ensures KeepsLegs(ds[k], more) {
      assert KeepsLegs(ds[k], corrections);
    }
  }

  /** A ruling keeps its correction's legs exactly if they are the ones saved. */
  lemma CorrectionKeepsLegsIff(log: Log, id: Id, movements: seq<Key>, p: Proposal, m: Key, d: Decision)
    requires Distinct(movements) && m in movements && d.id == id
    requires d.result == InForce(log + CorrectEvents(log, id, movements, p), m)
    ensures KeepsLegs(d, Corrections(log + CorrectEvents(log, id, movements, p))) <==>
            p.legs(m) == SavedLegs(movements, p)
  {
    CorrectReplays(log, id, movements, p);
    CorrectInForce(log, id, movements, p, m);
  }

  lemma CorrectKeepsLegs(w: World, id: Id, movements: seq<Key>, p: Proposal)
    requires LegsKept(w) && id !in Corrections(w.log) && Distinct(movements) && SameLegs(movements, p)
    ensures LegsKept(Corrected(w, id, movements, p))
  {
    var u := Corrected(w, id, movements, p);
    CorrectReplays(w.log, id, movements, p);
    forall m ensures AllKeepLegs(TrailOf(u, m), -1, Corrections(u.log)) {
      assert AllKeepLegs(TrailOf(w, m), -1, Corrections(w.log));
      CorrectedTrail(w, id, movements, p, m);
      if m in movements {
        var d := NewDecision(w, u.log, m, id, -1);
        CorrectionKeepsLegsIff(w.log, id, movements, p, m, d);
        LegsKeptGrows(TrailOf(w, m), Corrections(w.log), Corrections(u.log), d);
      } else {
        LegsStayKept(TrailOf(w, m), Corrections(w.log), Corrections(u.log));
      }
    }
  }

  lemma ApplyKeepsLegs(w: World, m: Key, r: Rule)
    requires LogOk(w.log) && LegsKept(w) && r in ActiveRules(w.log)
    ensures LegsKept(Applied(w, m, r))
  {
    var u := Applied(w, m, r);
    ActiveMeans(w.log, r);
    ApplyReplays(w.log, m, r);
    forall k ensures AllKeepLegs(TrailOf(u, k), -1, Corrections(u.log)) {
      assert AllKeepLegs(TrailOf(w, k), -1, Corrections(w.log));
      AppliedTrail(w, m, r, k);
      if k == m {
        LegsKeptGrows(TrailOf(w, k), Corrections(w.log), Corrections(u.log),
                      NewDecision(w, u.log, m, r.id, RankOf(Rules(w.log), r.id)));
      } else {
        LegsStayKept(TrailOf(w, k), Corrections(w.log), Corrections(u.log));
      }
    }
  }

  lemma {:induction false} LearnedKeepsLegs(w: World, movements: seq<Key>, env: Matching)
    requires Ok(w) && LegsKept(w)
    ensures LegsKept(Learned(w, movements, env))
  {
    if movements != [] {
      var m := movements[|movements| - 1];
      LearnedKeepsLegs(w, movements[..|movements| - 1], env);
      LearnedKeepsOk(w, movements[..|movements| - 1], env);
      var before := Learned(w, movements[..|movements| - 1], env);
      PickIsActive(before.log, m, env);
      match Pick(before.log, m, env)
      case None =>
      case Some(r) => ApplyKeepsLegs(before, m, r);
    }
  }

  lemma UndoKeepsLegs(w: World, id: Id)
    requires LogOk(w.log) && LegsKept(w)
    ensures LegsKept(Undid(w, id))
  {
    var u := Undid(w, id);
    if id in Undone(w.log) || id !in Corrections(w.log) {
      assert u.log == w.log;
    } else {
      UndoReplays(w.log, id);
    }
    forall m ensures AllKeepLegs(TrailOf(u, m), -1, Corrections(u.log)) {
      assert TrailOf(u, m) == TrailOf(w, m);
      assert AllKeepLegs(TrailOf(w, m), -1, Corrections(w.log));
    }
  }

  /** The undo of the decision recorded last, where the undone ones just before it kept their legs. */
  lemma FreshUndoIsRightIff(log: Log, m: Key, ds: Trail, d: Decision, before: map<Id, Correction>, origin: Treatment)
    requires TrailOk(log, m, ds + [d], origin) && d.id !in Undone(log) && !Enters(ds, d.id)
    requires AllKeepLegs(ds, TopIndex(ds, Undone(log)), before)
    requires forall id :: id in before && id != d.id ==> id in Corrections(log) && Corrections(log)[id] == before[id]
    requires d.snapshot == Intended(ds, Undone(log), origin)
    ensures d.id in Corrections(log)
    ensures var restored := RestoreOf(log, Corrections(log)[d.id], m);
            (if restored.Some? then restored.value else InForce(log, m)) == d.snapshot
            <==> KeepsLegs(d, Corrections(log)) || d.result == d.snapshot
  {
    var more := ds + [d];
    TopIndexIs(more, Undone(log), |ds|);
    assert more[..|ds|] == ds;
    UndoOfTopRestores(log, m, more, origin, |ds|);
    FirstSnapshotExtends(ds, d, d.id);
    assert FirstSnapshot(more, d.id) == Some(d.snapshot);
    LegsStillKept(ds, TopIndex(ds, Undone(log)), before, Corrections(log), d.id);
    LinkedPrefix(more, |ds|, Undone(log), origin);
    SpeakPrefix(more, |ds|, Corrections(log), Rules(log));
    WalkFindsIntended(ds, Undone(log), Corrections(log), Rules(log), origin, TopIndex(ds, Undone(log)));
  }

  lemma LegsStillKept(ds: Trail, s: int, before: map<Id, Correction>, after: map<Id, Correction>, id: Id)
    requires AllKeepLegs(ds, s, before) && !Enters(ds, id)
    requires forall x :: x in before && x != id ==> x in after && after[x] == before[x]
    ensures AllKeepLegs(ds, s, after)
  {
    forall k | s < k < |ds| && 0 <= k ensures KeepsLegs(ds[k], after) {
      assert KeepsLegs(ds[k], before) && ds[k].id != id;
    }
  }

  /** A movement's trail right after it was corrected. */
  lemma CorrectedTop(log: Log, id: Id, movements: seq<Key>, p: Proposal, m: Key, ds: Trail, d: Decision,
                     origin: Treatment)
    requires LogOk(log) && TrailOk(log, m, ds, origin) && id !in Corrections(log) && Distinct(movements) &&
             m in movements
    requires d == Decision(id, InForce(log, m), InForce(log + CorrectEvents(log, id, movements, p), m),
                           TopIndex(ds, Undone(log)), -1)
    ensures var a := log + CorrectEvents(log, id, movements, p);
            && TrailOk(a, m, ds + [d], origin) && id !in Undone(a) && !Enters(ds, id)
            && d.snapshot == Intended(ds, Undone(a), origin)
            && forall x :: x in Corrections(log) ==> x in Corrections(a) && Corrections(a)[x] == Corrections(log)[x]
  {
    CorrectTouches(log, id, movements, p, m, ds, d, origin);
    CorrectReplays(log, id, movements, p);
    SpeakersKnown(ds, Corrections(log), Rules(log), id);
  }

  /**
    A correction undone at once, where the decisions undone last on the movement kept the legs they
    were saved with: a selected movement goes back to what it was if and only if its legs are the
    ones saved, or the correction had changed nothing on it.
  */
  lemma CorrectThenUndoIff(w: World, id: Id, movements: seq<Key>, p: Proposal, m: Key)
    requires Ok(w) && id !in Corrections(w.log) && Distinct(movements) && m in movements
    requires AllKeepLegs(TrailOf(w, m), TopIndex(TrailOf(w, m), Undone(w.log)), Corrections(w.log))
    ensures var u := Undid(Corrected(w, id, movements, p), id);
            InForce(u.log, m) == InForce(w.log, m)
            <==> p.legs(m) == SavedLegs(movements, p) || AfterRuling(InForce(w.log, m), p, m) == InForce(w.log, m)
  {
    var a := w.log + CorrectEvents(w.log, id, movements, p);
    var ds := TrailOf(w, m);
    var origin := InForce(w.start, m);
    var d := NewDecision(w, a, m, id, -1);
    assert TrailOk(w.log, m, ds, origin);
    CorrectReplays(w.log, id, movements, p);
    CorrectedTop(w.log, id, movements, p, m, ds, d, origin);
    CorrectInForce(w.log, id, movements, p, m);
    FreshUndoIsRightIff(a, m, ds, d, Corrections(w.log), origin);
    CorrectionKeepsLegsIff(w.log, id, movements, p, m, d);
    CorrectKeepsLog(w.log, id, movements, p);
    UndoInForce(a, id, m);
  }

  // ---------------------------------------------------------------- whole runs

  /** Every undo of the run fits the trails it finds. */
  ghost predicate AllUndosFit(w: World, steps: seq<Step>, env: Matching) {
    steps == [] ||
    var s := steps[|steps| - 1];
    AllUndosFit(w, steps[..|steps| - 1], env) && (s.DoUndo? ==> UndoFits(Run(w, steps[..|steps| - 1], env), s.id))
  }

  /** From the state so far, a step keeps the invariant and the meaning unless it is an undo that does not fit. */
  lemma StepKeepsOkIff(w: World, s: Step, env: Matching)
    requires Ok(w) && Permitted(w, s)
    ensures var u := Exec(w, s, env);
            && u.start == w.start && (Ok(u) <==> (s.DoUndo? ==> UndoFits(w, s.id))) && (Ok(u) <==> Meant(u))
  {
    match s
    case DoCorrect(id, movements, p) =>
      CorrectKeepsOk(w, id, movements, p);
      OkMeant(Exec(w, s, env));
    case DoLearn(movements) =>
      LearnedKeepsOk(w, movements, env);
      OkMeant(Exec(w, s, env));
    case DoUndo(id) => UndoKeepsOkIff(w, id);
  }

  lemma {:induction false} RunKeepsOk(w: World, steps: seq<Step>, env: Matching)
    requires Ok(w) && AllPermitted(w, steps, env) && AllUndosFit(w, steps, env)
    ensures Ok(Run(w, steps, env)) && Run(w, steps, env).start == w.start
  {
    if steps != [] {
      var front := steps[..|steps| - 1];
      RunKeepsOk(w, front, env);
      StepKeepsOkIff(Run(w, front, env), steps[|steps| - 1], env);
    }
  }

  /** Every treatment is intended at the end of the run and at every point before it. */
  ghost predicate MeantThroughout(w: World, steps: seq<Step>, env: Matching) {
    Meant(Run(w, steps, env)) && (steps == [] || MeantThroughout(w, steps[..|steps| - 1], env))
  }

  /** A run is meant at every point exactly when every one of its undos fits. */
  lemma {:induction false} RunIsMeantIff(w: World, steps: seq<Step>, env: Matching)
    requires Ok(w) && AllPermitted(w, steps, env)
    ensures MeantThroughout(w, steps, env) <==> AllUndosFit(w, steps, env)
  {
    if steps == [] {
      OkMeant(w);
    } else {
      var front := steps[..|steps| - 1];
      RunIsMeantIff(w, front, env);
      if AllUndosFit(w, front, env) {
        RunKeepsOk(w, front, env);
        StepKeepsOkIff(Run(w, front, env), steps[|steps| - 1], env);
      }
    }
  }

  /**
    In every run, rules coming back to movements included, the treatments in force are at every
    point those of the most recent decisions not undone, or the original ones, if and only if
    every undo fits the history it finds.
  */
  lemma TreatmentsAreIntendedIff(start: Log, steps: seq<Step>, env: Matching)
    requires AllQuiet(start) && AllPermitted(Opening(start), steps, env)
    ensures MeantThroughout(Opening(start), steps, env) <==> AllUndosFit(Opening(start), steps, env)
  {
    OpeningOk(start);
    RunIsMeantIff(Opening(start), steps, env);
  }

  /** Every correction of the run resolves to the same legs on all its movements. */
  ghost predicate SameLegsThroughout(steps: seq<Step>) {
    forall i :: 0 <= i < |steps| && steps[i].DoCorrect? ==> SameLegs(steps[i].movements, steps[i].proposal)
  }

  /** Nothing has entered twice, and every ruling has the legs its correction was saved with. */
  ghost predicate Plain(w: World) { Ok(w) && Once(w) && LegsKept(w) }

  /** Where legs do not vary, every undo of a run without re-entry fits. */
  lemma {:induction false} FirstTimeRunsFit(w: World, steps: seq<Step>, env: Matching)
    requires Plain(w) && AllPermitted(w, steps, env) && NeverReenters(w, steps, env) && SameLegsThroughout(steps)
    ensures AllUndosFit(w, steps, env) && Plain(Run(w, steps, env))
    ensures Run(w, steps, env).start == w.start
  {
    if steps != [] {
      var front, last := steps[..|steps| - 1], steps[|steps| - 1];
      var before := Run(w, front, env);
      assert forall i :: 0 <= i < |front| ==> front[i] == steps[i];
      FirstTimeRunsFit(w, front, env);
      PlainStep(before, last, env);
    }
  }

  lemma PlainStep(w: World, s: Step, env: Matching)
    requires Plain(w) && Permitted(w, s) && (s.DoCorrect? ==> SameLegs(s.movements, s.proposal))
    requires s.DoLearn? ==> FirstTime(w, s.movements, env)
    ensures Plain(Exec(w, s, env)) && Exec(w, s, env).start == w.start && (s.DoUndo? ==> UndoFits(w, s.id))
  {
    match s
    case DoCorrect(id, movements, p) =>
      CorrectKeepsOk(w, id, movements, p);
      CorrectKeepsOnce(w, id, movements, p);
      CorrectKeepsLegs(w, id, movements, p);
    case DoLearn(movements) =>
      LearnedKeepsOk(w, movements, env);
      LearnedKeepsLegs(w, movements, env);
    case DoUndo(id) => PlainUndo(w, id);
  }

  lemma PlainUndo(w: World, id: Id)
    requires Plain(w)
    ensures UndoFits(w, id) && Plain(Undid(w, id)) && Undid(w, id).start == w.start
  {
    OnceFits(w, id);
    UndoKeepsOkIff(w, id);
    UndoKeepsLegs(w, id);
    assert forall m :: TrailOf(Undid(w, id), m) == TrailOf(w, m);
  }

  /**
    In every run in which no rule re-enters a movement and no explanation resolves differently on
    two movements, the treatment in force is that of the most recent decision not undone, or the
    original one.
  */
  lemma TreatmentIsThatOfLatestLiveDecision(start: Log, steps: seq<Step>, env: Matching, m: Key)
    requires AllQuiet(start) && SameLegsThroughout(steps)
    requires AllPermitted(Opening(start), steps, env) && NeverReenters(Opening(start), steps, env)
    ensures var w := Run(Opening(start), steps, env);
            InForce(w.log, m) == Intended(TrailOf(w, m), Undone(w.log), InForce(start, m))
  {
    OpeningOk(start);
    FirstTimeRunsFit(Opening(start), steps, env);
    OkMeant(Run(Opening(start), steps, env));
  }
}
