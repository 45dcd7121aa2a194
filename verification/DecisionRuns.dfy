/**
  The steps of a run together with their trails, and what each step does to every replay of
  the log: treatments, history, snapshots, rules and undone corrections.
*/
module DecisionRuns {
  import opened Common
  import opened AccountingLog
  import opened AccountingIntelligence
  import opened Decisions

  // ---------------------------------------------------------------- the steps, with their trails

  function Extend(w: World, log: Log, touched: set<Key>, d: Key -> Decision): World {
    World(w.start, log, map m | m in w.trails.Keys + touched ::
            TrailOf(w, m) + if m in touched then [d(m)] else [])
  }

  function NewDecision(w: World, log: Log, m: Key, id: Id, rank: int): Decision {
    Decision(id, InForce(w.log, m), InForce(log, m), TopIndex(TrailOf(w, m), Undone(w.log)), rank)
  }

  function Corrected(w: World, id: Id, movements: seq<Key>, p: Proposal): World {
    var log := w.log + CorrectEvents(w.log, id, movements, p);
    Extend(w, log, (set k | k in movements), m => NewDecision(w, log, m, id, -1))
  }

  function RankOf(rules: seq<Rule>, id: Id): int {
    if rules == [] then -1 else if rules[|rules| - 1].id == id then |rules| - 1 else RankOf(rules[..|rules| - 1], id)
  }

  function Applied(w: World, m: Key, r: Rule): World {
    var log := w.log + ApplyEvents(InForce(w.log, m), m, r);
    Extend(w, log, {m}, k => NewDecision(w, log, k, r.id, RankOf(Rules(w.log), r.id)))
  }

  function Undid(w: World, id: Id): World { w.(log := w.log + UndoEvents(w.log, id)) }

  // ---------------------------------------------------------------- what a step does to the replays

  lemma {:induction false} RulingEventsProject(t: Treatment, movements: seq<Key>, p: Proposal, m: Key)
    requires Distinct(movements)
    ensures Replay(t, RulingEvents(movements, p), m) ==
            (if m in movements then AfterRuling(t, p, m) else t)
  {
    if movements != [] {
      var n := |movements| - 1;
      var k := movements[n];
      var front := RulingEvents(movements[..n], p);
      var tail := [RulingRecorded(k, HumanRuling(p, k))] + CategoryEvents(k, p.category);
      RulingEventsProject(t, movements[..n], p, m);
      ReplayConcat(t, front, tail, m);
      TailProjects(Replay(t, front, m), k, HumanRuling(p, k), p.category, m);
      assert m in movements <==> m in movements[..n] || m == k;
    }
  }

  lemma TailProjects(t: Treatment, k: Key, r: Ruling, category: Option<string>, m: Key)
    requires r.verified
    ensures Replay(t, [RulingRecorded(k, r)] + CategoryEvents(k, category), m) ==
            (if m == k then Treatment(Some(r), if category.Some? then category else t.category) else t)
  {
    var a := [RulingRecorded(k, r)];
    assert a[..0] == [];
    ReplayConcat(t, a, CategoryEvents(k, category), m);
    if category.Some? {
      assert CategoryEvents(k, category)[..0] == [];
    }
  }

  /** Everything a correction changes. */
  lemma CorrectReplays(log: Log, id: Id, movements: seq<Key>, p: Proposal)
    requires Distinct(movements)
    ensures var log' := log + CorrectEvents(log, id, movements, p);
            var c := CorrectionOf(id, movements, Snapshot(log, movements), p);
            && Undone(log') == Undone(log)
            && Corrections(log') == Corrections(log)[id := c]
            && Rules(log') == Rules(log) + LearnedRule(id, movements, p)
            && ActiveRules(log')
                == (if p.lesson.Some? then Put(ActiveRules(log), LearnedRule(id, movements, p)[0])
                    else ActiveRules(log))
            && (forall m, known :: History(log', m, known) ==
                 History(log, m, known) + if m in movements then [Entry(id, InForce(log, m))] else [])
            && (forall x :: Saved(log', x) == Saved(log, x))
  {
    var a := log + RulingEvents(movements, p);
    var c := CorrectionOf(id, movements, Snapshot(log, movements), p);
    QuietTail(log, RulingEvents(movements, p));
    RuleReplays(a, id, movements, p);
    CorrectionReplays(a + RuleEvents(id, movements, p), c);
    Associate(log, RulingEvents(movements, p), RuleEvents(id, movements, p));
    Associate(log, RulingEvents(movements, p) + RuleEvents(id, movements, p), [CorrectionRecorded(c)]);
  }

  lemma CorrectInForce(log: Log, id: Id, movements: seq<Key>, p: Proposal, m: Key)
    requires Distinct(movements)
    ensures InForce(log + CorrectEvents(log, id, movements, p), m) ==
            (if m in movements then AfterRuling(InForce(log, m), p, m) else InForce(log, m))
  {
    var a := log + RulingEvents(movements, p);
    var c := CorrectionOf(id, movements, Snapshot(log, movements), p);
    ReplayConcat(BLANK, log, RulingEvents(movements, p), m);
    RulingEventsProject(InForce(log, m), movements, p, m);
    RuleReplays(a, id, movements, p);
    CorrectionReplays(a + RuleEvents(id, movements, p), c);
    Associate(log, RulingEvents(movements, p), RuleEvents(id, movements, p));
    Associate(log, RulingEvents(movements, p) + RuleEvents(id, movements, p), [CorrectionRecorded(c)]);
  }

  function AfterRuling(t: Treatment, p: Proposal, m: Key): Treatment {
    Treatment(Some(HumanRuling(p, m)), if p.category.Some? then p.category else t.category)
  }

  lemma RuleReplays(log: Log, id: Id, movements: seq<Key>, p: Proposal)
    ensures var log' := log + RuleEvents(id, movements, p);
            && Undone(log') == Undone(log) && Corrections(log') == Corrections(log)
            && Rules(log') == Rules(log) + LearnedRule(id, movements, p)
            && ActiveRules(log')
                == (if p.lesson.Some? then Put(ActiveRules(log), LearnedRule(id, movements, p)[0])
                    else ActiveRules(log))
            && (forall m, known :: History(log', m, known) == History(log, m, known))
            && (forall x :: Saved(log', x) == Saved(log, x))
            && (forall m :: InForce(log', m) == InForce(log, m))
  {
    if p.lesson.Some? {
      Unfold(log, RuleEvents(id, movements, p)[0]);
      assert log + RuleEvents(id, movements, p) == log + [RuleEvents(id, movements, p)[0]];
    } else {
      assert log + RuleEvents(id, movements, p) == log;
    }
  }

  lemma CorrectionReplays(log: Log, c: Correction)
    ensures var log' := log + [CorrectionRecorded(c)];
            && Undone(log') == Undone(log) && Corrections(log') == Corrections(log)[c.id := c]
            && Rules(log') == Rules(log) && ActiveRules(log') == ActiveRules(log)
            && (forall m, known :: History(log', m, known) ==
                 History(log, m, known) + if m in c.movements then [Entry(c.id, PreviousOf(c, m))] else [])
            && (forall x :: Saved(log', x) == Saved(log, x))
            && (forall m :: InForce(log', m) == InForce(log, m))
  {
    Unfold(log, CorrectionRecorded(c));
  }

  function AfterApplying(t: Treatment, r: Rule): Treatment {
    Treatment(Some(RuleRuling(r)), if r.category.Some? then r.category else t.category)
  }

  /** Everything one rule application changes. */
  lemma ApplyReplays(log: Log, m: Key, r: Rule)
    ensures var log' := log + ApplyEvents(InForce(log, m), m, r);
            && Undone(log') == Undone(log)
            && Corrections(log') == Corrections(log)
            && Rules(log') == Rules(log)
            && ActiveRules(log') == ActiveRules(log)
            && (forall k, known :: History(log', k, known) ==
                 History(log, k, known) + if k == m && r.id in known then [Entry(r.id, InForce(log, m))] else [])
            && (forall c: Correction :: Saved(log', c) ==
                 if c.ruleId == Some(r.id) && m !in Saved(log, c) then Saved(log, c)[m := InForce(log, m)]
                 else Saved(log, c))
            && (forall k :: InForce(log', k) ==
                 if k == m then AfterApplying(InForce(log, m), r) else InForce(log, k))
  {
    var e := RuleApplied(r.id, m, InForce(log, m));
    var a := log + [e];
    var tail := [RulingRecorded(m, RuleRuling(r))] + CategoryEvents(m, r.category);
    Unfold(log, e);
    QuietTail(a, tail);
    assert log + ApplyEvents(InForce(log, m), m, r) == a + tail;
    forall k ensures InForce(a + tail, k) == (if k == m then AfterApplying(InForce(log, m), r) else InForce(log, k)) {
      ReplayConcat(BLANK, a, tail, k);
      TailProjects(InForce(a, k), m, RuleRuling(r), r.category, k);
    }
  }

  lemma {:induction false} RestorationsProject(t: Treatment, keys: seq<Key>, back: Key -> Option<Treatment>, m: Key)
    requires Distinct(keys)
    ensures Replay(t, Restorations(keys, back), m) == (if m in keys && back(m).Some? then back(m).value else t)
  {
    if keys != [] {
      var n := |keys| - 1;
      RestorationsProject(t, keys[..n], back, m);
      ReplayConcat(t, Restorations(keys[..n], back), Restoration(keys[n], back(keys[n])), m);
      RestorationProjects(Replay(t, Restorations(keys[..n], back), m), keys[n], back(keys[n]), m);
      assert m in keys <==> m in keys[..n] || m == keys[n];
    }
  }

  lemma RestorationProjects(t: Treatment, k: Key, back: Option<Treatment>, m: Key)
    ensures Replay(t, Restoration(k, back), m) == (if m == k && back.Some? then back.value else t)
  {
    if back.Some? {
      assert Restoration(k, back)[..0] == [];
    }
  }

  /** Everything a first undo of a recorded correction changes. */
  lemma UndoReplays(log: Log, id: Id)
    requires id in Corrections(log) && id !in Undone(log) && CorrectionOk(Corrections(log)[id])
    ensures var log' := log + UndoEvents(log, id);
            var c := Corrections(log)[id];
            && Undone(log') == Undone(log) + {id}
            && Corrections(log') == Corrections(log)
            && Rules(log') == Rules(log)
            && ActiveRules(log')
                == (if c.ruleId.Some? then Without(ActiveRules(log), {c.ruleId.value}) else ActiveRules(log))
            && (forall m, known :: History(log', m, known) == History(log, m, known))
            && (forall x :: Saved(log', x) == Saved(log, x))
  {
    var c := Corrections(log)[id];
    var es := RestoreEvents(log, c, SavedKeys(log, c));
    QuietTail(log, es);
    Unfold(log + es, CorrectionUndone(id, c.ruleId));
    Associate(log, es, [CorrectionUndone(id, c.ruleId)]);
  }

  /** What a first undo puts in force on one movement. */
  lemma UndoInForce(log: Log, id: Id, m: Key)
    requires id in Corrections(log) && id !in Undone(log) && CorrectionOk(Corrections(log)[id])
    ensures var restored := RestoreOf(log, Corrections(log)[id], m);
            InForce(log + UndoEvents(log, id), m) == if restored.Some? then restored.value else InForce(log, m)
  {
    var c := Corrections(log)[id];
    RestoreInForce(log, c, m);
    Unfold(log + RestoreEvents(log, c, SavedKeys(log, c)), CorrectionUndone(id, c.ruleId));
    Associate(log, RestoreEvents(log, c, SavedKeys(log, c)), [CorrectionUndone(id, c.ruleId)]);
  }

  lemma RestoreInForce(log: Log, c: Correction, m: Key)
    requires CorrectionOk(c)
    ensures var restored := RestoreOf(log, c, m);
            InForce(log + RestoreEvents(log, c, SavedKeys(log, c)), m)
            == if restored.Some? then restored.value else InForce(log, m)
  {
    var keys := SavedKeys(log, c);
    var back := (m: Key) => RestoreOf(log, c, m);
    SavedKeysOfSaved(log, c);
    ReplayConcat(BLANK, log, Restorations(keys, back), m);
    RestorationsProject(InForce(log, m), keys, back, m);
    assert back(m).Some? ==> m in keys;
  }

  // ---------------------------------------------------------------- rule dictionaries

  lemma {:induction false} PutFresh(rules: seq<Rule>, r: Rule)
    requires forall i :: 0 <= i < |rules| ==> rules[i].id != r.id
    ensures Put(rules, r) == rules + [r]
  {
    if rules != [] {
      PutFresh(rules[1..], r);
      assert rules == [rules[0]] + rules[1..];
    }
  }

  lemma {:induction false} WithoutTwice(rules: seq<Rule>, a: set<Id>, b: set<Id>)
    ensures Without(Without(rules, a), b) == Without(rules, a + b)
  {
    if rules != [] {
      var n := |rules| - 1;
      var x := Without(rules[..n], a);
      WithoutTwice(rules[..n], a, b);
      if rules[n].id in a {
        assert Without(rules, a) == x;
      } else {
        assert (x + [rules[n]])[..|x|] == x;
      }
    }
  }

  lemma {:induction false} WithoutAbsent(rules: seq<Rule>, a: set<Id>, id: Id)
    requires forall i :: 0 <= i < |rules| ==> rules[i].id != id
    ensures Without(rules, a + {id}) == Without(rules, a)
  {
    if rules != [] {
      WithoutAbsent(rules[..|rules| - 1], a, id);
    }
  }

  lemma {:induction false} WithoutMembers(rules: seq<Rule>, gone: set<Id>, r: Rule)
    ensures r in Without(rules, gone) <==> r in rules && r.id !in gone
  {
    if rules != [] {
      var n := |rules| - 1;
      WithoutMembers(rules[..n], gone, r);
      assert r in rules <==> r in rules[..n] || r == rules[n];
    }
  }

  lemma {:induction false} RankOfMember(rules: seq<Rule>, r: Rule)
    requires r in rules
    ensures 0 <= RankOf(rules, r.id) < |rules| && rules[RankOf(rules, r.id)].id == r.id
  {
    if rules[|rules| - 1].id != r.id {
      RankOfMember(rules[..|rules| - 1], r);
    }
  }
}
