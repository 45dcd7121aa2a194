/**
  Corrections, learned-rule application and undo, as methods over the append-only log.
  Each method is tied to a function giving the events it appends; what those events mean
  over whole runs is proved in module Decisions.
*/
module AccountingIntelligence {
  import opened Common
  import opened AccountingLog

  /** Which movement, in which category, a remembered rule speaks about, and when a purpose is merely defaulted. */
  datatype Matching = Matching(
    matches: (Key, Option<string>, Rule) -> bool,
    unknown: (Key, Option<string>) -> bool)

  /**
    What a person's explanation resolved to.  Legs resolve movement by movement, since a named
    component is dropped where it names the movement's own account; `lesson` is the scope of a
    reusable rule, if one is to be kept.
  */
  datatype Proposal = Proposal(legs: Key -> seq<Leg>, said: string, note: string,
                               category: Option<string>, lesson: Option<string>)

  // ---------------------------------------------------------------- recording a correction

  function HumanRuling(p: Proposal, m: Key): Ruling { Ruling(p.said, p.legs(m), Human, true, p.note) }

  /** The legs a correction is saved with: those of the movement resolved last. */
  function SavedLegs(movements: seq<Key>, p: Proposal): seq<Leg> {
    if movements == [] then [] else p.legs(movements[|movements| - 1])
  }

  function CategoryEvents(m: Key, category: Option<string>): Log {
    match category
    case None => []
    case Some(c) => [CategoryAssigned(m, c)]
  }

  function RulingEvents(movements: seq<Key>, p: Proposal): (es: Log)
    ensures AllQuiet(es)
  {
    if movements == [] then [] else
      var m := movements[|movements| - 1];
      RulingEvents(movements[..|movements| - 1], p)
      + ([RulingRecorded(m, HumanRuling(p, m))] + CategoryEvents(m, p.category))
  }

  function Snapshot(log: Log, movements: seq<Key>): map<Key, Treatment> {
    map m | m in movements :: InForce(log, m)
  }

  function LearnedRule(id: Id, movements: seq<Key>, p: Proposal): seq<Rule> {
    match p.lesson
    case None => []
    case Some(scope) => [Rule(id, scope, Semantic(SavedLegs(movements, p)), p.said, p.category, p.note)]
  }

  function RuleEvents(id: Id, movements: seq<Key>, p: Proposal): Log {
    if p.lesson.None? then [] else [RuleRecorded(LearnedRule(id, movements, p)[0])]
  }

  function CorrectionOf(id: Id, movements: seq<Key>, previous: map<Key, Treatment>, p: Proposal): Correction {
    Correction(id, if p.lesson.Some? then Some(id) else None, movements, previous, SavedLegs(movements, p), p.said)
  }

  function CorrectEvents(log: Log, id: Id, movements: seq<Key>, p: Proposal): Log {
    RulingEvents(movements, p) + RuleEvents(id, movements, p)
    + [CorrectionRecorded(CorrectionOf(id, movements, Snapshot(log, movements), p))]
  }

  // ---------------------------------------------------------------- applying learned rules

  /** Component order does not distinguish two remembered meanings. */
  function Output(r: Rule): (multiset<Leg>, Option<string>) { (multiset(Semantic(r.legs)), r.category) }

  function Eligible(rules: seq<Rule>, m: Key, category: Option<string>, env: Matching): seq<Rule> {
    if rules == [] then [] else
      var last := rules[|rules| - 1];
      Eligible(rules[..|rules| - 1], m, category, env) + if env.matches(m, category, last) then [last] else []
  }

  predicate Same(current: Option<Ruling>, said: string, legs: seq<Leg>) {
    current.Some? && current.value.said == said && current.value.legs == legs
  }

  /** The rule applied to `m`, if any, judged on the log as it stands. */
  function Pick(log: Log, m: Key, env: Matching): Option<Rule> {
    var t := InForce(log, m);
    if t.ruling.Some? && t.ruling.value.author == Human then None else
      var eligible := Eligible(ActiveRules(log), m, t.category, env);
      if env.unknown(m, t.category) && |set r | r in eligible :: Output(r)| > 1 then None
      else if eligible == [] then None
      else
        var matched := eligible[|eligible| - 1];
        if Same(t.ruling, matched.said, matched.legs) then None else Some(matched)
  }

  function RuleRuling(r: Rule): Ruling { Ruling(r.said, r.legs, HumanRule, true, r.note) }

  function ApplyEvents(previous: Treatment, m: Key, r: Rule): Log {
    [RuleApplied(r.id, m, previous)] + ([RulingRecorded(m, RuleRuling(r))] + CategoryEvents(m, r.category))
  }

  function PickEvents(log: Log, m: Key, env: Matching): Log {
    match Pick(log, m, env)
    case None => []
    case Some(r) => ApplyEvents(InForce(log, m), m, r)
  }

  /** Everything one pass appends; each movement is judged on the log the pass started from. */
  function LearnedEvents(log: Log, movements: seq<Key>, env: Matching): Log {
    if movements == [] then [] else
      LearnedEvents(log, movements[..|movements| - 1], env) + PickEvents(log, movements[|movements| - 1], env)
  }

  lemma LearnedEventsStep(log: Log, movements: seq<Key>, env: Matching, i: nat)
    requires i < |movements|
    ensures LearnedEvents(log, movements[..i + 1], env)
            == LearnedEvents(log, movements[..i], env) + PickEvents(log, movements[i], env)
    ensures PickCount(log, movements[..i + 1], env)
            == PickCount(log, movements[..i], env) + if Pick(log, movements[i], env).Some? then 1 else 0
  {
    assert movements[..i + 1][..i] == movements[..i];
  }

  function PickCount(log: Log, movements: seq<Key>, env: Matching): nat {
    if movements == [] then 0 else
      PickCount(log, movements[..|movements| - 1], env)
      + if Pick(log, movements[|movements| - 1], env).Some? then 1 else 0
  }

  // ---------------------------------------------------------------- undo

  /** The most recent entry not in `undone`. */
  function Latest(h: seq<Entry>, undone: set<Id>): Option<Id> {
    if h == [] then None
    else if h[|h| - 1].id !in undone then Some(h[|h| - 1].id)
    else Latest(h[..|h| - 1], undone)
  }

  /** The last position of `id`, or the length when it is absent. */
  function LastIndex(h: seq<Entry>, id: Id): (n: nat)
    ensures n <= |h|
  {
    LastIndexFrom(h, |h|, id)
  }

  function LastIndexFrom(h: seq<Entry>, n: nat, id: Id): (r: nat)
    requires n <= |h|
    ensures r <= |h|
  {
    if n == 0 then |h| else if h[n - 1].id == id then n - 1 else LastIndexFrom(h, n - 1, id)
  }

  /** Whether a snapshot's ruling carries the words and legs of `c`; identities play no part. */
  predicate LooksLike(prior: Option<Ruling>, c: Correction) {
    prior.Some? && prior.value.said == c.said && (prior.value.legs == c.legs || prior.value.legs == Semantic(c.legs))
  }

  /** Walk back over already-undone predecessors, replacing a snapshot that looks like theirs by what preceded them. */
  function Walk(h: seq<Entry>, undone: set<Id>, corrections: map<Id, Correction>, saved: Treatment): Treatment {
    if h == [] then saved else
      var e := h[|h| - 1];
      if e.id !in undone then saved else
        Walk(h[..|h| - 1], undone, corrections,
             if e.id in corrections && LooksLike(saved.ruling, corrections[e.id]) then e.previous else saved)
  }

  /** What an undo of `c` puts back on `m`, or nothing when a later decision stands. */
  function RestoreOf(log: Log, c: Correction, m: Key): Option<Treatment> {
    var saved := Saved(log, c);
    var undone := Undone(log);
    var corrections := Corrections(log);
    var h := History(log, m, corrections.Keys);
    if m !in saved || Latest(h, undone) != Some(c.id) then None else
      var back := Walk(h[..LastIndex(h, c.id)], undone, corrections, saved[m]);
      var current := InForce(log, m).ruling;
      var expected := if current.Some? && current.value.author == HumanRule then Semantic(c.legs) else c.legs;
      if Same(current, c.said, expected) then Some(back) else None
  }

  /** One restoration per key that has something to put back. */
  function Restorations(keys: seq<Key>, back: Key -> Option<Treatment>): (es: Log)
    ensures AllQuiet(es)
  {
    if keys == [] then [] else
      var m := keys[|keys| - 1];
      Restorations(keys[..|keys| - 1], back) + Restoration(m, back(m))
  }

  function Restoration(m: Key, back: Option<Treatment>): Log {
    match back
    case None => []
    case Some(t) => [TreatmentRestored(m, t)]
  }

  function RestoreEvents(log: Log, c: Correction, keys: seq<Key>): Log {
    Restorations(keys, m => RestoreOf(log, c, m))
  }

  lemma RestoreEventsStep(log: Log, c: Correction, keys: seq<Key>, i: nat)
    requires i < |keys|
    ensures RestoreEvents(log, c, keys[..i + 1])
            == RestoreEvents(log, c, keys[..i]) + Restoration(keys[i], RestoreOf(log, c, keys[i]))
  {
    assert keys[..i + 1][..i] == keys[..i];
  }

  function UndoEvents(log: Log, id: Id): Log {
    if id in Undone(log) || id !in Corrections(log) then [] else
      var c := Corrections(log)[id];
      RestoreEvents(log, c, SavedKeys(log, c)) + [CorrectionUndone(id, c.ruleId)]
  }

  function Of(histories: map<Key, seq<Entry>>, m: Key): seq<Entry> {
    if m in histories then histories[m] else []
  }

  function AddEvent(histories: map<Key, seq<Entry>>, e: Event, known: set<Id>): (r: map<Key, seq<Entry>>)
    ensures forall m :: Of(r, m) == Of(histories, m) + EntryOf(e, m, known)
  {
    match e
    case CorrectionRecorded(c) =>
      map m | m in histories.Keys + (set k | k in c.movements) :: Of(histories, m) + EntryOf(e, m, known)
    case RuleApplied(r, k, p) =>
      if r in known then histories[k := Of(histories, k) + [Entry(r, p)]] else histories
    case _ => histories
  }

  // ---------------------------------------------------------------- the methods

  class Ledger {
    var events: Log

    constructor (start: Log)
      ensures events == start
    {
      events := start;
    }

    method Append(e: Event)
      modifies this
      ensures events == old(events) + [e]
    {
      events := events + [e];
    }

    method SaveCorrection(id: Id, movements: seq<Key>, previous: map<Key, Treatment>, p: Proposal)
      modifies this
      ensures events == old(events) + RuleEvents(id, movements, p)
                        + [CorrectionRecorded(CorrectionOf(id, movements, previous, p))]
    {
      var ruleId := None;
      var legs := SavedLegs(movements, p);
      if p.lesson.Some? {
        ruleId := Some(id);
        Append(RuleRecorded(Rule(id, p.lesson.value, Semantic(legs), p.said, p.category, p.note)));
      }
      Append(CorrectionRecorded(Correction(id, ruleId, movements, previous, legs, p.said)));
    }

    /** Snapshot the treatments in force, write the rulings, then record the correction and its lesson. */
    method RecordRuling(id: Id, movements: seq<Key>, p: Proposal)
      modifies this
      ensures events == old(events) + CorrectEvents(old(events), id, movements, p)
    {
      var previous := Snapshot(events, movements);
      ghost var start := events;
      for i := 0 to |movements|
        invariant events == start + RulingEvents(movements[..i], p)
      {
        assert movements[..i + 1][..i] == movements[..i];
        Append(RulingRecorded(movements[i], HumanRuling(p, movements[i])));
        if p.category.Some? {
          Append(CategoryAssigned(movements[i], p.category.value));
        }
      }
      assert movements[..|movements|] == movements;
      SaveCorrection(id, movements, previous, p);
    }

    method ApplyRule(m: Key, previous: Treatment, r: Rule)
      modifies this
      ensures events == old(events) + ApplyEvents(previous, m, r)
    {
      Append(RuleApplied(r.id, m, previous));
      Append(RulingRecorded(m, RuleRuling(r)));
      if r.category.Some? {
        Append(CategoryAssigned(m, r.category.value));
      }
    }

    /** One movement of a pass, judged on the snapshot the pass started from. */
    method ApplyBest(snapshot: Log, m: Key, env: Matching) returns (learned: bool)
      modifies this
      ensures events == old(events) + PickEvents(snapshot, m, env)
      ensures learned == Pick(snapshot, m, env).Some?
    {
      var matched := Pick(snapshot, m, env);
      learned := matched.Some?;
      if learned {
        ApplyRule(m, InForce(snapshot, m), matched.value);
      }
    }

    method ApplyLearnedRules(movements: seq<Key>, env: Matching) returns (applied: nat)
      modifies this
      ensures events == old(events) + LearnedEvents(old(events), movements, env)
      ensures applied == PickCount(old(events), movements, env)
    {
      var snapshot := events;
      applied := 0;
      for i := 0 to |movements|
        invariant events == snapshot + LearnedEvents(snapshot, movements[..i], env)
        invariant applied == PickCount(snapshot, movements[..i], env)
      {
        LearnedEventsStep(snapshot, movements, env, i);
        Associate(snapshot, LearnedEvents(snapshot, movements[..i], env), PickEvents(snapshot, movements[i], env));
        var learned := ApplyBest(snapshot, movements[i], env);
        applied := applied + if learned then 1 else 0;
      }
      assert movements[..|movements|] == movements;
    }

    /** Each movement's decisions, gathered in one pass over the log. */
    method Histories(known: set<Id>) returns (histories: map<Key, seq<Entry>>)
      ensures forall m :: Of(histories, m) == History(events, m, known)
    {
      histories := map[];
      for i := 0 to |events|
        invariant forall m :: Of(histories, m) == History(events[..i], m, known)
      {
        assert events[..i + 1][..i] == events[..i];
        histories := AddEvent(histories, events[i], known);
      }
      assert events[..|events|] == events;
    }

    /** The snapshots an undo may bring back, in order: the correction's own, then its rule's first applications. */
    method PreviousTreatments(c: Correction) returns (keys: seq<Key>, saved: map<Key, Treatment>)
      ensures keys == SavedKeys(events, c) && saved == Saved(events, c)
    {
      keys, saved := c.movements, c.previous;
      for i := 0 to |events|
        invariant keys == SavedKeys(events[..i], c) && saved == Saved(events[..i], c)
      {
        assert events[..i + 1][..i] == events[..i];
        match events[i]
        case RuleApplied(r, k, p) =>
          if c.ruleId == Some(r) {
            if k !in keys {
              keys := keys + [k];
            }
            if k !in saved {
              saved := saved[k := p];
            }
          }
        case _ =>
      }
      assert events[..|events|] == events;
    }

    method FollowPredecessors(h: seq<Entry>, undone: set<Id>, corrections: map<Id, Correction>, start: Treatment)
      returns (saved: Treatment)
      ensures saved == Walk(h, undone, corrections, start)
    {
      saved := start;
      var n := |h|;
      assert h[..n] == h;
      while n > 0
        invariant 0 <= n <= |h|
        invariant Walk(h[..n], undone, corrections, saved) == Walk(h, undone, corrections, start)
      {
        assert h[..n][..n - 1] == h[..n - 1];
        var e := h[n - 1];
        if e.id !in undone {
          return;
        }
        if e.id in corrections && LooksLike(saved.ruling, corrections[e.id]) {
          saved := e.previous;
        }
        n := n - 1;
      }
    }

    /** One movement of an undo, judged on the log as it stood when the undo began. */
    method Restore(log: Log, c: Correction, m: Key, history: seq<Entry>, saved: map<Key, Treatment>,
                   undone: set<Id>, corrections: map<Id, Correction>)
    returns (restored: bool)
      requires undone == Undone(log) && corrections == Corrections(log)
      requires saved == Saved(log, c) && history == History(log, m, corrections.Keys)
      modifies this
      ensures events == old(events) + Restoration(m, RestoreOf(log, c, m))
      ensures restored == RestoreOf(log, c, m).Some?
    {
      restored := false;
      if m !in saved || Latest(history, undone) != Some(c.id) {
        return;
      }
      var back := FollowPredecessors(history[..LastIndex(history, c.id)], undone, corrections, saved[m]);
      var current := InForce(log, m).ruling;
      var expected := if current.Some? && current.value.author == HumanRule then Semantic(c.legs) else c.legs;
      if Same(current, c.said, expected) {
        Append(TreatmentRestored(m, back));
        restored := true;
      }
    }

    method RestoreAll(c: Correction, keys: seq<Key>, histories: map<Key, seq<Entry>>, saved: map<Key, Treatment>,
                      undone: set<Id>, corrections: map<Id, Correction>)
    returns (changed: nat)
      requires undone == Undone(events) && corrections == Corrections(events) && saved == Saved(events, c)
      requires forall m :: Of(histories, m) == History(events, m, corrections.Keys)
      modifies this
      ensures events == old(events) + RestoreEvents(old(events), c, keys)
      ensures changed == |RestoreEvents(old(events), c, keys)|
    {
      var log := events;
      changed := 0;
      for i := 0 to |keys|
        invariant events == log + RestoreEvents(log, c, keys[..i])
        invariant changed == |RestoreEvents(log, c, keys[..i])|
      {
        RestoreEventsStep(log, c, keys, i);
        Associate(log, RestoreEvents(log, c, keys[..i]), Restoration(keys[i], RestoreOf(log, c, keys[i])));
        var restored := Restore(log, c, keys[i], Of(histories, keys[i]), saved, undone, corrections);
        changed := changed + if restored then 1 else 0;
      }
      assert keys[..|keys|] == keys;
    }

    method UndoCorrection(id: Id) returns (ok: bool, changed: nat)
      modifies this
      ensures events == old(events) + UndoEvents(old(events), id)
      ensures ok <==> id in Undone(old(events)) || id in Corrections(old(events))
      ensures changed == if UndoEvents(old(events), id) == [] then 0 else |UndoEvents(old(events), id)| - 1
    {
      var undone := Undone(events);
      if id in undone {
        return true, 0;
      }
      var corrections := Corrections(events);
      if id !in corrections {
        return false, 0;
      }
      var c := corrections[id];
      var histories := Histories(corrections.Keys);
      var keys, saved := PreviousTreatments(c);
      changed := RestoreAll(c, keys, histories, saved, undone, corrections);
      Append(CorrectionUndone(id, c.ruleId));
      ok := true;
    }
  }
}
