/**
  The append-only accounting log and its replays: the treatment in force, the active
  learned rules and the per-movement decision history.  Everything an undo decides is
  read back from this log.
*/
module AccountingLog {
  import opened Common

  type Key = string
  type Id = string

  datatype Leg = Leg(major: string, account: string, share: string)

  datatype Author = Human | HumanRule | Machine(name: string)

  datatype Ruling = Ruling(said: string, legs: seq<Leg>, author: Author, verified: bool, note: string)

  /** What a movement means right now: its ruling and its category, either of which may be absent. */
  datatype Treatment = Treatment(ruling: Option<Ruling>, category: Option<string>)

  const BLANK := Treatment(None, None)

  /** A remembered lesson.  `scope` stands for everything the matcher reads (context, dates, exclusions). */
  datatype Rule = Rule(id: Id, scope: string, legs: seq<Leg>, said: string, category: Option<string>, note: string)

  datatype Correction = Correction(id: Id, ruleId: Option<Id>, movements: seq<Key>,
                                   previous: map<Key, Treatment>, legs: seq<Leg>, said: string)

  datatype Event =
    | RulingRecorded(movement: Key, ruling: Ruling)
    | CategoryAssigned(movement: Key, category: string)
    | TreatmentRestored(movement: Key, previous: Treatment)
    | RuleRecorded(rule: Rule)
    | RuleApplied(ruleId: Id, movement: Key, previous: Treatment)
    | CorrectionRecorded(correction: Correction)
    | CorrectionUndone(correctionId: Id, retracted: Option<Id>)

  type Log = seq<Event>

  /** A remembered relationship does not keep the allocation of the payment it was learned from. */
  function Semantic(legs: seq<Leg>): seq<Leg> {
    seq(|legs|, i requires 0 <= i < |legs| => legs[i].(share := ""))
  }

  /** The same components in the same order, none with a share. */
  predicate SharesDropped(legs: seq<Leg>, from: seq<Leg>) {
    |legs| == |from| && forall i :: 0 <= i < |legs| ==> legs[i] == Leg(from[i].major, from[i].account, "")
  }

  lemma SemanticDropsShares(legs: seq<Leg>, from: seq<Leg>)
    ensures legs == Semantic(from) <==> SharesDropped(legs, from)
  {
  }

  // ---------------------------------------------------------------- projection

  /** One event's effect on one movement; a verified ruling is never overwritten by an unverified one. */
  function Project(t: Treatment, e: Event, m: Key): Treatment {
    match e
    case RulingRecorded(k, r) =>
      if k == m && (t.ruling.None? || r.verified || !t.ruling.value.verified) then t.(ruling := Some(r)) else t
    case CategoryAssigned(k, c) => if k == m then t.(category := Some(c)) else t
    case TreatmentRestored(k, p) => if k == m then p else t
    case _ => t
  }

  function Replay(t: Treatment, log: Log, m: Key): Treatment {
    if log == [] then t else Project(Replay(t, log[..|log| - 1], m), log[|log| - 1], m)
  }

  function InForce(log: Log, m: Key): Treatment { Replay(BLANK, log, m) }

  lemma {:induction false} ReplayConcat(t: Treatment, a: Log, b: Log, m: Key)
    ensures Replay(t, a + b, m) == Replay(Replay(t, a, m), b, m)
  {
    if b == [] {
      assert a + b == a;
    } else {
      ReplayConcat(t, a, b[..|b| - 1], m);
      assert (a + b)[..|a + b| - 1] == a + b[..|b| - 1];
    }
  }

  lemma Associate(a: Log, b: Log, c: Log)
    ensures a + b + c == a + (b + c)
  {
  }

  // ---------------------------------------------------------------- replays of the log

  function Undone(log: Log): set<Id> {
    if log == [] then {} else
      var rest := Undone(log[..|log| - 1]);
      match log[|log| - 1]
      case CorrectionUndone(id, _) => rest + {id}
      case _ => rest
  }

  function Corrections(log: Log): (cs: map<Id, Correction>)
    ensures forall id :: id in cs ==> cs[id].id == id
  {
    if log == [] then map[] else
      var rest := Corrections(log[..|log| - 1]);
      match log[|log| - 1]
      case CorrectionRecorded(c) => rest[c.id := c]
      case _ => rest
  }

  /** Every rule ever recorded, in order. */
  function Rules(log: Log): seq<Rule> {
    if log == [] then [] else
      var rest := Rules(log[..|log| - 1]);
      match log[|log| - 1]
      case RuleRecorded(r) => rest + [r]
      case _ => rest
  }

  /** An insertion-ordered dictionary keyed on rule identity: assignment. */
  function Put(rules: seq<Rule>, r: Rule): seq<Rule> {
    if rules == [] then [r]
    else if rules[0].id == r.id then [r] + rules[1..]
    else [rules[0]] + Put(rules[1..], r)
  }

  /** Keep the rules whose identity is not in `gone`. */
  function Without(rules: seq<Rule>, gone: set<Id>): seq<Rule> {
    if rules == [] then [] else
      var last := rules[|rules| - 1];
      Without(rules[..|rules| - 1], gone) + if last.id in gone then [] else [last]
  }

  /** Replay of rule additions and retractions. */
  function ActiveRules(log: Log): seq<Rule> {
    if log == [] then [] else
      var rest := ActiveRules(log[..|log| - 1]);
      match log[|log| - 1]
      case RuleRecorded(r) => Put(rest, r)
      case CorrectionUndone(_, Some(r)) => Without(rest, {r})
      case _ => rest
  }

  /** One decision in a movement's history with the exact treatment that preceded it. */
  datatype Entry = Entry(id: Id, previous: Treatment)

  /** The decisions of `known` that touched `m`, oldest first. */
  function History(log: Log, m: Key, known: set<Id>): seq<Entry> {
    if log == [] then [] else
      History(log[..|log| - 1], m, known) + EntryOf(log[|log| - 1], m, known)
  }

  /** What one event adds to a movement's history. */
  function EntryOf(e: Event, m: Key, known: set<Id>): seq<Entry> {
    match e
    case CorrectionRecorded(c) => if m in c.movements then [Entry(c.id, PreviousOf(c, m))] else []
    case RuleApplied(r, k, p) => if k == m && r in known then [Entry(r, p)] else []
    case _ => []
  }

  function PreviousOf(c: Correction, m: Key): Treatment {
    if m in c.previous then c.previous[m] else BLANK
  }

  /** The treatments an undo of `c` may bring back: its own snapshots, then the first snapshot of each application. */
  function Saved(log: Log, c: Correction): map<Key, Treatment> {
    if log == [] then c.previous else
      var rest := Saved(log[..|log| - 1], c);
      match log[|log| - 1]
      case RuleApplied(r, k, p) => if c.ruleId == Some(r) && k !in rest then rest[k := p] else rest
      case _ => rest
  }

  /** The keys of `Saved`, in dictionary order. */
  function SavedKeys(log: Log, c: Correction): seq<Key> {
    if log == [] then c.movements else
      var rest := SavedKeys(log[..|log| - 1], c);
      match log[|log| - 1]
      case RuleApplied(r, k, _) => if c.ruleId == Some(r) && k !in rest then rest + [k] else rest
      case _ => rest
  }

  lemma {:induction false} SavedKeysOfSaved(log: Log, c: Correction)
    requires Distinct(c.movements) && forall k :: k in c.movements <==> k in c.previous
    ensures Distinct(SavedKeys(log, c))
    ensures forall k :: k in SavedKeys(log, c) <==> k in Saved(log, c)
  {
    if log != [] {
      SavedKeysOfSaved(log[..|log| - 1], c);
    }
  }

  // ---------------------------------------------------------------- events that only project

  predicate Quiet(e: Event) {
    e.RulingRecorded? || e.CategoryAssigned? || e.TreatmentRestored?
  }

  predicate AllQuiet(es: Log) { forall e :: e in es ==> Quiet(e) }

  /** `b` replays exactly as `a` in everything but the treatments. */
  ghost predicate SameDecisions(a: Log, b: Log) {
    && Undone(a) == Undone(b)
    && Corrections(a) == Corrections(b)
    && Rules(a) == Rules(b)
    && ActiveRules(a) == ActiveRules(b)
    && (forall m, known :: History(a, m, known) == History(b, m, known))
    && (forall c :: Saved(a, c) == Saved(b, c))
  }

  lemma {:induction false} QuietTail(log: Log, es: Log)
    requires AllQuiet(es)
    ensures SameDecisions(log, log + es)
  {
    if es == [] {
      assert log + es == log;
    } else {
      var front := es[..|es| - 1];
      assert forall e :: e in front ==> e in es;
      QuietTail(log, front);
      assert (log + es)[..|log + es| - 1] == log + front;
      assert Quiet(es[|es| - 1]);
    }
  }

  /** Unfolds every replay over one appended event. */
  lemma Unfold(log: Log, e: Event)
    ensures (log + [e])[..|log + [e]| - 1] == log && (log + [e])[|log + [e]| - 1] == e
  {
  }
}
