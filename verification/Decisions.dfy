/**
  What the event log means.  A run is a sequence of corrections, learned-rule passes and
  undos; a ghost trail remembers, per movement, each decision with the treatment it put in
  force.  The code never sees the trail: it compares words and legs in old snapshots.
*/
module Decisions {
  import opened Common
  import opened AccountingLog
  import opened AccountingIntelligence

  /**
    `base` is the position of the decision in force when this one was recorded, -1 for the
    original treatment; `rank` is the applied rule's place among all rules, -1 for a human ruling.
  */
  datatype Decision = Decision(id: Id, snapshot: Treatment, result: Treatment, base: int, rank: int)

  type Trail = seq<Decision>

  datatype World = World(start: Log, log: Log, trails: map<Key, Trail>)

  function TrailOf(w: World, m: Key): Trail { if m in w.trails then w.trails[m] else [] }

  /** The most recent decision not undone, -1 when there is none. */
  function TopIndex(ds: Trail, undone: set<Id>): (r: int)
    ensures -1 <= r < |ds|
    ensures r >= 0 ==> ds[r].id !in undone
    ensures forall k :: r < k < |ds| ==> ds[k].id in undone
  {
    if ds == [] then -1
    else if ds[|ds| - 1].id !in undone then |ds| - 1
    else TopIndex(ds[..|ds| - 1], undone)
  }

  function ResultAt(ds: Trail, j: int, origin: Treatment): Treatment
    requires -1 <= j < |ds|
  {
    if j < 0 then origin else ds[j].result
  }

  /** The intended meaning: the treatment of the most recent decision not undone, or the original one. */
  function Intended(ds: Trail, undone: set<Id>, origin: Treatment): Treatment {
    ResultAt(ds, TopIndex(ds, undone), origin)
  }

  lemma TopIndexIs(ds: Trail, undone: set<Id>, r: int)
    requires -1 <= r < |ds|
    requires r >= 0 ==> ds[r].id !in undone
    requires forall k :: r < k < |ds| ==> ds[k].id in undone
    ensures TopIndex(ds, undone) == r
  {
  }

  // ---------------------------------------------------------------- the run invariant

  function Entries(ds: Trail): seq<Entry> {
    seq(|ds|, i requires 0 <= i < |ds| => Entry(ds[i].id, ds[i].snapshot))
  }

  ghost predicate LinkedAt(ds: Trail, i: nat, undone: set<Id>, origin: Treatment)
    requires i < |ds|
  {
    && -1 <= ds[i].base < i
    && ds[i].snapshot == ResultAt(ds, ds[i].base, origin)
    && forall k :: ds[i].base < k < i ==> ds[k].id in undone
  }

  /** Each snapshot is the result of an earlier decision, and everything in between has been undone. */
  ghost predicate Linked(ds: Trail, undone: set<Id>, origin: Treatment) {
    forall i :: 0 <= i < |ds| ==> LinkedAt(ds, i, undone, origin)
  }

  /** The ruling a decision leaves carries its correction's words, and an applied rule its legs without shares. */
  ghost predicate Speaks(d: Decision, corrections: map<Id, Correction>, rules: seq<Rule>) {
    && d.id in corrections
    && d.result.ruling.Some?
    && d.result.ruling.value.said == corrections[d.id].said
    && (d.rank < 0 ==> d.result.ruling.value.author == Human)
    && (d.rank >= 0 ==>
          && d.result.ruling.value.author == HumanRule
          && d.result.ruling.value.legs == Semantic(corrections[d.id].legs)
          && d.rank < |rules| && rules[d.rank].id == d.id)
  }

  /** The movement's ruling has the legs its correction was saved with. */
  predicate KeepsLegs(d: Decision, corrections: map<Id, Correction>) {
    && d.id in corrections && d.result.ruling.Some?
    && var r := d.result.ruling.value;
       r.legs == if r.author == HumanRule then Semantic(corrections[d.id].legs) else corrections[d.id].legs
  }

  /** So have all decisions after `s`. */
  predicate AllKeepLegs(ds: Trail, s: int, corrections: map<Id, Correction>) {
    forall k :: s < k < |ds| && 0 <= k ==> KeepsLegs(ds[k], corrections)
  }

  ghost predicate AllSpeak(ds: Trail, corrections: map<Id, Correction>, rules: seq<Rule>) {
    forall i :: 0 <= i < |ds| ==> Speaks(ds[i], corrections, rules)
  }

  predicate Enters(ds: Trail, id: Id) { exists i :: 0 <= i < |ds| && ds[i].id == id }

  /** The first snapshot of `id` in a history. */
  function FirstSnapshot(ds: Trail, id: Id): (r: Option<Treatment>)
    ensures r.Some? <==> Enters(ds, id)
  {
    if ds == [] then None
    else if ds[0].id == id then Some(ds[0].snapshot)
    else FirstSnapshot(ds[1..], id)
  }

  function Lookup(saved: map<Key, Treatment>, m: Key): Option<Treatment> {
    if m in saved then Some(saved[m]) else None
  }

  ghost predicate SavedAgrees(log: Log, m: Key, ds: Trail) {
    forall id :: id in Corrections(log) ==> Lookup(Saved(log, Corrections(log)[id]), m) == FirstSnapshot(ds, id)
  }

  ghost predicate TrailOk(log: Log, m: Key, ds: Trail, origin: Treatment) {
    && Entries(ds) == History(log, m, Corrections(log).Keys)
    && InForce(log, m) == Intended(ds, Undone(log), origin)
    && Linked(ds, Undone(log), origin)
    && AllSpeak(ds, Corrections(log), Rules(log))
    && SavedAgrees(log, m, ds)
  }

  ghost predicate RuleSpeaks(r: Rule, corrections: map<Id, Correction>) {
    && r.id in corrections
    && corrections[r.id].ruleId == Some(r.id)
    && r.said == corrections[r.id].said
    && r.legs == Semantic(corrections[r.id].legs)
  }

  ghost predicate CorrectionOk(c: Correction) {
    && (c.ruleId == None || c.ruleId == Some(c.id))
    && Distinct(c.movements)
    && forall k :: k in c.movements <==> k in c.previous
  }

  ghost predicate RulesOk(log: Log) {
    var rules := Rules(log);
    && (forall i :: 0 <= i < |rules| ==> RuleSpeaks(rules[i], Corrections(log)))
    && (forall i, j :: 0 <= i < j < |rules| ==> rules[i].id != rules[j].id)
    && ActiveRules(log) == Without(rules, Undone(log))
  }

  /** Only recorded corrections are ever applied, so widening `known` finds no more decisions. */
  ghost predicate HistoryClosed(log: Log) {
    forall m, known: set<Id> :: Corrections(log).Keys <= known ==>
      History(log, m, known) == History(log, m, Corrections(log).Keys)
  }

  ghost predicate NothingSavedFor(log: Log) {
    forall c: Correction :: (c.ruleId == None || c.ruleId.value !in Corrections(log)) ==> Saved(log, c) == c.previous
  }

  ghost predicate LogOk(log: Log) {
    && (forall id :: id in Corrections(log) ==> CorrectionOk(Corrections(log)[id]))
    && Undone(log) <= Corrections(log).Keys
    && RulesOk(log)
    && HistoryClosed(log)
    && NothingSavedFor(log)
  }

  /** The invariant of every run; a rule may enter one movement's trail any number of times. */
  ghost predicate Ok(w: World) {
    && LogOk(w.log)
    && forall m :: TrailOk(w.log, m, TrailOf(w, m), InForce(w.start, m))
  }

  /** Every movement is treated as intended. */
  ghost predicate Meant(w: World) {
    forall m :: InForce(w.log, m) == Intended(TrailOf(w, m), Undone(w.log), InForce(w.start, m))
  }

  predicate Unrepeated(ds: Trail) { forall i, j :: 0 <= i < j < |ds| ==> ds[i].id != ds[j].id }

  /** No decision has entered a movement's trail twice. */
  ghost predicate Once(w: World) { forall m :: Unrepeated(TrailOf(w, m)) }

  /** Every ruling has the legs its correction was saved with. */
  ghost predicate LegsKept(w: World) { forall m :: AllKeepLegs(TrailOf(w, m), -1, Corrections(w.log)) }

  // ---------------------------------------------------------------- small facts about trails

  lemma LinkedGrows(ds: Trail, undone: set<Id>, more: set<Id>, origin: Treatment)
    requires Linked(ds, undone, origin) && undone <= more
    ensures Linked(ds, more, origin)
  {
    forall i | 0 <= i < |ds| ensures LinkedAt(ds, i, more, origin) {
      assert LinkedAt(ds, i, undone, origin);
    }
  }

  lemma LinkedPrefix(ds: Trail, n: nat, undone: set<Id>, origin: Treatment)
    requires n <= |ds| && Linked(ds, undone, origin)
    ensures Linked(ds[..n], undone, origin)
  {
    forall i | 0 <= i < n ensures LinkedAt(ds[..n], i, undone, origin) {
      assert LinkedAt(ds, i, undone, origin);
    }
  }

  lemma LinkedExtends(ds: Trail, d: Decision, undone: set<Id>, origin: Treatment)
    requires Linked(ds, undone, origin)
    requires d.base == TopIndex(ds, undone) && d.snapshot == Intended(ds, undone, origin)
    ensures Linked(ds + [d], undone, origin)
  {
    var es := ds + [d];
    forall i | 0 <= i < |es| ensures LinkedAt(es, i, undone, origin) {
      if i < |ds| {
        assert LinkedAt(ds, i, undone, origin);
      }
    }
  }

  lemma {:induction false} FirstSnapshotAt(ds: Trail, i: nat)
    requires i < |ds| && Unrepeated(ds)
    ensures FirstSnapshot(ds, ds[i].id) == Some(ds[i].snapshot)
  {
    if i > 0 {
      assert forall j, k :: 0 <= j < k < |ds[1..]| ==> ds[1..][j].id == ds[j + 1].id && ds[1..][k].id == ds[k + 1].id;
      FirstSnapshotAt(ds[1..], i - 1);
    }
  }

  lemma {:induction false} FirstSnapshotExtends(ds: Trail, d: Decision, id: Id)
    ensures FirstSnapshot(ds + [d], id) ==
            (if FirstSnapshot(ds, id).Some? then FirstSnapshot(ds, id)
             else if d.id == id then Some(d.snapshot) else None)
  {
    if ds == [] {
      assert ds + [d] == [d];
    } else {
      assert (ds + [d])[1..] == ds[1..] + [d];
      FirstSnapshotExtends(ds[1..], d, id);
    }
  }

  // ---------------------------------------------------------------- the walk

  /** The snapshot carries the words and legs the decision's correction was saved with. */
  predicate Resembles(saved: Treatment, d: Decision, corrections: map<Id, Correction>) {
    && d.id in corrections && saved.ruling.Some?
    && var c, r := corrections[d.id], saved.ruling.value;
       r.said == c.said && (r.legs == c.legs || SharesDropped(r.legs, c.legs))
  }

  /** The last decision after `s` and before `n` that the snapshot resembles, `s` when there is none. */
  function LastMet(ds: Trail, s: int, n: nat, saved: Treatment, corrections: map<Id, Correction>): (k: int)
    requires -1 <= s && n <= |ds|
    ensures k == s || (s < k < n && Resembles(saved, ds[k], corrections))
    ensures forall i :: s <= k < i < n ==> !Resembles(saved, ds[i], corrections)
  {
    if n <= s + 1 then s
    else if Resembles(saved, ds[n - 1], corrections) then n - 1
    else LastMet(ds, s, n - 1, saved, corrections)
  }

  /**
    Where a snapshot leads past the undone decisions from `n` down to `s`: from each one it meets to
    what that decision found, until nothing that is left resembles it.
  */
  function Lands(ds: Trail, s: int, n: nat, saved: Treatment, corrections: map<Id, Correction>): Treatment
    requires -1 <= s && n <= |ds|
  {
    var k := LastMet(ds, s, n, saved, corrections);
    if k <= s then saved else Lands(ds, s, k, ds[k].snapshot, corrections)
  }

  /** One undone predecessor of the walk. */
  lemma WalkStep(ds: Trail, undone: set<Id>, corrections: map<Id, Correction>, n: nat, saved: Treatment)
    requires 0 < n <= |ds| && ds[n - 1].id in undone
    ensures Walk(Entries(ds[..n]), undone, corrections, saved)
            == Walk(Entries(ds[..n - 1]), undone, corrections,
                    if Resembles(saved, ds[n - 1], corrections) then ds[n - 1].snapshot else saved)
  {
    assert Entries(ds[..n])[..n - 1] == Entries(ds[..n - 1]);
    if saved.ruling.Some? && ds[n - 1].id in corrections {
      SemanticDropsShares(saved.ruling.value.legs, corrections[ds[n - 1].id].legs);
    }
  }

  /**
    Where the walk ends, from any snapshot and over any history: at the treatment the decisions it
    meets lead to, whatever legs they left.
  */
  lemma {:induction false} WalkLands(ds: Trail, undone: set<Id>, corrections: map<Id, Correction>, n: nat,
                                     saved: Treatment)
    requires TopIndex(ds, undone) < n <= |ds|
    ensures Walk(Entries(ds[..n]), undone, corrections, saved)
            == Lands(ds, TopIndex(ds, undone), n, saved, corrections)
  {
    var s := TopIndex(ds, undone);
    if n > s + 1 {
      WalkStep(ds, undone, corrections, n, saved);
      WalkLands(ds, undone, corrections, n - 1,
                if Resembles(saved, ds[n - 1], corrections) then ds[n - 1].snapshot else saved);
    } else {
      WalkStops(ds, undone, corrections, n, saved);
    }
  }

  lemma WalkStops(ds: Trail, undone: set<Id>, corrections: map<Id, Correction>, n: nat, saved: Treatment)
    requires n <= |ds| && n == TopIndex(ds, undone) + 1
    ensures Walk(Entries(ds[..n]), undone, corrections, saved) == saved
  {
  }

  lemma LooksLikeItself(d: Decision, corrections: map<Id, Correction>, rules: seq<Rule>)
    requires Speaks(d, corrections, rules) && KeepsLegs(d, corrections)
    ensures Resembles(d.result, d, corrections)
  {
    SemanticDropsShares(d.result.ruling.value.legs, corrections[d.id].legs);
  }

  /**
    From the result of decision `j`, with everything after it undone, the snapshot leads to the
    result of `s` or to that of a decision that did not keep its legs.
  */
  lemma {:induction false} LandsAmong(ds: Trail, undone: set<Id>, corrections: map<Id, Correction>, rules: seq<Rule>,
                                      origin: Treatment, n: nat, j: int) returns (e: int)
    requires Linked(ds, undone, origin) && AllSpeak(ds, corrections, rules)
    requires TopIndex(ds, undone) <= j < n <= |ds|
    ensures TopIndex(ds, undone) <= e < n
    ensures Lands(ds, TopIndex(ds, undone), n, ResultAt(ds, j, origin), corrections) == ResultAt(ds, e, origin)
    ensures e > TopIndex(ds, undone) ==> !KeepsLegs(ds[e], corrections)
    decreases n
  {
    var s := TopIndex(ds, undone);
    var k := LastMet(ds, s, n, ResultAt(ds, j, origin), corrections);
    if k <= s {
      if j > s && KeepsLegs(ds[j], corrections) {
        assert Speaks(ds[j], corrections, rules);
        LooksLikeItself(ds[j], corrections, rules);
      }
      e := j;
    } else {
      assert LinkedAt(ds, k, undone, origin);
      e := LandsAmong(ds, undone, corrections, rules, origin, k, ds[k].base);
    }
  }

  /**
    The heart of the undo: starting from any snapshot that is the result of decision `j` with
    everything after `j` undone, the walk over values ends at the intended treatment, even when
    it is misled by decisions that carry identical words and legs, as long as the undone ones
    kept the legs they were saved with.
  */
  lemma WalkFindsIntended(ds: Trail, undone: set<Id>, corrections: map<Id, Correction>, rules: seq<Rule>,
                          origin: Treatment, j: int)
    requires Linked(ds, undone, origin) && AllSpeak(ds, corrections, rules)
    requires AllKeepLegs(ds, TopIndex(ds, undone), corrections)
    requires -1 <= j < |ds|
    requires forall k :: j < k < |ds| ==> ds[k].id in undone
    ensures Walk(Entries(ds), undone, corrections, ResultAt(ds, j, origin)) == Intended(ds, undone, origin)
  {
    assert ds[..|ds|] == ds;
    WalkLands(ds, undone, corrections, |ds|, ResultAt(ds, j, origin));
    if ds != [] {
      var e := LandsAmong(ds, undone, corrections, rules, origin, |ds|, j);
    }
  }

  lemma {:induction false} LatestIsTop(ds: Trail, undone: set<Id>)
    ensures Latest(Entries(ds), undone) ==
            (if TopIndex(ds, undone) < 0 then None else Some(ds[TopIndex(ds, undone)].id))
  {
    if ds != [] {
      assert Entries(ds)[..|ds| - 1] == Entries(ds[..|ds| - 1]);
      LatestIsTop(ds[..|ds| - 1], undone);
    }
  }

  /** The last entry of the decision in force is the one in force. */
  lemma {:induction false} LastIndexOfTop(ds: Trail, n: nat, undone: set<Id>, t: nat)
    requires t == TopIndex(ds, undone) && t < n <= |ds|
    ensures LastIndexFrom(Entries(ds), n, ds[t].id) == t
  {
    if t < n - 1 {
      LastIndexOfTop(ds, n - 1, undone, t);
    }
  }

  /** Some decision after `s` carries the words and legs of the snapshot. */
  predicate Resembled(ds: Trail, s: int, saved: Treatment, corrections: map<Id, Correction>) {
    exists k :: s < k < |ds| && 0 <= k && Resembles(saved, ds[k], corrections)
  }

  /**
    Where undone decisions kept the legs they were saved with, any snapshot at all leads to the
    latest decision standing if some undone decision after it looks like the snapshot, and
    otherwise to itself.
  */
  lemma LandsWhereLegsKept(ds: Trail, undone: set<Id>, corrections: map<Id, Correction>, rules: seq<Rule>,
                           origin: Treatment, saved: Treatment)
    requires Linked(ds, undone, origin) && AllSpeak(ds, corrections, rules)
    requires AllKeepLegs(ds, TopIndex(ds, undone), corrections)
    ensures Lands(ds, TopIndex(ds, undone), |ds|, saved, corrections) ==
            if Resembled(ds, TopIndex(ds, undone), saved, corrections) then Intended(ds, undone, origin) else saved
  {
    var s := TopIndex(ds, undone);
    var k := LastMet(ds, s, |ds|, saved, corrections);
    if k > s {
      assert Resembled(ds, s, saved, corrections);
      MetLeadsToTop(ds, undone, corrections, rules, origin, k);
    }
  }

  lemma MetLeadsToTop(ds: Trail, undone: set<Id>, corrections: map<Id, Correction>, rules: seq<Rule>,
                      origin: Treatment, k: nat)
    requires Linked(ds, undone, origin) && AllSpeak(ds, corrections, rules)
    requires AllKeepLegs(ds, TopIndex(ds, undone), corrections)
    requires TopIndex(ds, undone) < k < |ds|
    ensures Lands(ds, TopIndex(ds, undone), k, ds[k].snapshot, corrections) == Intended(ds, undone, origin)
  {
    assert LinkedAt(ds, k, undone, origin);
    assert ds[k].snapshot == ResultAt(ds, ds[k].base, origin);
    var e := LandsAmong(ds, undone, corrections, rules, origin, k, ds[k].base);
    assert e == TopIndex(ds, undone);
  }

  // ---------------------------------------------------------------- exactly when an undo is right

  /**
    What is in force on a movement once the decision in force, at `t`, has been undone.  Unless its
    ruling has the legs its correction was saved with, it is retired but nothing is put back.
    Otherwise the undo puts back what the first snapshot the decision ever took of the movement
    leads to, past the undone decisions down to the latest one standing before `t`.
  */
  function LeftInForce(ds: Trail, undone: set<Id>, corrections: map<Id, Correction>, t: nat): Treatment
    requires t < |ds|
  {
    var front := ds[..t];
    if !KeepsLegs(ds[t], corrections) then ds[t].result
    else Lands(front, TopIndex(front, undone), t, FirstSnapshot(ds, ds[t].id).value, corrections)
  }

  /**
    Whether undoing `id` leaves a movement as intended, read off its history.  It matters only when
    `id` is in force, at `t`: what is left has to agree with the latest decision standing before `t`
    that is not `id` itself.
  */
  predicate Fits(ds: Trail, undone: set<Id>, corrections: map<Id, Correction>, id: Id, origin: Treatment) {
    var t := TopIndex(ds, undone);
    t < 0 || ds[t].id != id ||
    LeftInForce(ds, undone, corrections, t) == Intended(ds[..t], undone + {id}, origin)
  }

  /** Once the decision in force, at `t`, is undone as well, what counts is what came before it. */
  lemma IntendedWithoutTop(ds: Trail, undone: set<Id>, origin: Treatment, t: nat)
    requires t == TopIndex(ds, undone)
    ensures Intended(ds, undone + {ds[t].id}, origin) == Intended(ds[..t], undone + {ds[t].id}, origin)
  {
    var front := ds[..t];
    var g := TopIndex(front, undone + {ds[t].id});
    forall k | g < k < |ds| ensures ds[k].id in undone + {ds[t].id} {
      if k < t {
        assert ds[k] == front[k];
      }
    }
    TopIndexIs(ds, undone + {ds[t].id}, g);
  }

  /** What an undo of the decision in force puts back: nothing unless its legs are the saved ones. */
  lemma UndoOfTopRestores(log: Log, m: Key, ds: Trail, origin: Treatment, t: nat)
    requires TrailOk(log, m, ds, origin) && t == TopIndex(ds, Undone(log))
    ensures ds[t].id in Corrections(log) && Enters(ds, ds[t].id)
    ensures RestoreOf(log, Corrections(log)[ds[t].id], m)
            == if !KeepsLegs(ds[t], Corrections(log)) then None else
                 Some(Walk(Entries(ds[..t]), Undone(log), Corrections(log), FirstSnapshot(ds, ds[t].id).value))
  {
    assert Speaks(ds[t], Corrections(log), Rules(log));
    var id := ds[t].id;
    var c := Corrections(log)[id];
    assert c.id == id && Enters(ds, id);
    LatestIsTop(ds, Undone(log));
    LastIndexOfTop(ds, |ds|, Undone(log), t);
    assert Entries(ds)[..t] == Entries(ds[..t]);
    assert Lookup(Saved(log, c), m) == FirstSnapshot(ds, id);
  }

  lemma UndoOfTopLeaves(log: Log, m: Key, ds: Trail, origin: Treatment, t: nat)
    requires TrailOk(log, m, ds, origin) && t == TopIndex(ds, Undone(log))
    ensures ds[t].id in Corrections(log)
    ensures var restored := RestoreOf(log, Corrections(log)[ds[t].id], m);
            (if restored.Some? then restored.value else InForce(log, m))
            == LeftInForce(ds, Undone(log), Corrections(log), t)
  {
    UndoOfTopRestores(log, m, ds, origin, t);
    assert ds[..t][..t] == ds[..t];
    WalkLands(ds[..t], Undone(log), Corrections(log), t, FirstSnapshot(ds, ds[t].id).value);
  }

  lemma UndoOfAnother(log: Log, c: Correction, m: Key, ds: Trail, origin: Treatment)
    requires TrailOk(log, m, ds, origin)
    requires var t := TopIndex(ds, Undone(log)); t < 0 || ds[t].id != c.id
    ensures RestoreOf(log, c, m) == None
    ensures Intended(ds, Undone(log) + {c.id}, origin) == InForce(log, m)
  {
    LatestIsTop(ds, Undone(log));
    TopIndexIs(ds, Undone(log) + {c.id}, TopIndex(ds, Undone(log)));
  }

  /** On one movement: an undo leaves the intended treatment in force if and only if it fits the trail. */
  lemma UndoIsRightIff(log: Log, id: Id, m: Key, ds: Trail, origin: Treatment)
    requires TrailOk(log, m, ds, origin)
    requires id in Corrections(log) && id !in Undone(log)
    ensures var restored := RestoreOf(log, Corrections(log)[id], m);
            Intended(ds, Undone(log) + {id}, origin) == (if restored.Some? then restored.value else InForce(log, m))
            <==> Fits(ds, Undone(log), Corrections(log), id, origin)
  {
    var t := TopIndex(ds, Undone(log));
    if t < 0 || ds[t].id != id {
      UndoOfAnother(log, Corrections(log)[id], m, ds, origin);
    } else {
      UndoOfTopLeaves(log, m, ds, origin, t);
      IntendedWithoutTop(ds, Undone(log), origin, t);
    }
  }

  /** With legs kept, a decision's own snapshot leads to the latest decision standing before it. */
  lemma OwnSnapshotLands(ds: Trail, undone: set<Id>, corrections: map<Id, Correction>, rules: seq<Rule>,
                         origin: Treatment, t: nat)
    requires Linked(ds, undone, origin) && AllSpeak(ds, corrections, rules) && t == TopIndex(ds, undone)
    requires AllKeepLegs(ds[..t], TopIndex(ds[..t], undone), corrections)
    ensures var front := ds[..t];
            Lands(front, TopIndex(front, undone), t, ds[t].snapshot, corrections) == Intended(front, undone, origin)
  {
    var front := ds[..t];
    assert LinkedAt(ds, t, undone, origin);
    LinkedPrefix(ds, t, undone, origin);
    SpeakPrefix(ds, t, corrections, rules);
    assert ds[t].snapshot == ResultAt(front, ds[t].base, origin);
    if t > 0 {
      var s := TopIndex(front, undone);
      assert s >= 0 ==> ds[s] == front[s];
      var e := LandsAmong(front, undone, corrections, rules, origin, t, ds[t].base);
    }
  }

  lemma SpeakPrefix(ds: Trail, n: nat, corrections: map<Id, Correction>, rules: seq<Rule>)
    requires n <= |ds| && AllSpeak(ds, corrections, rules)
    ensures AllSpeak(ds[..n], corrections, rules)
  {
    forall i | 0 <= i < n ensures Speaks(ds[..n][i], corrections, rules) {
      assert Speaks(ds[i], corrections, rules);
    }
  }

  /**
    When no decision has entered twice and those before kept their legs, an undo fits exactly if
    the decision in force kept its own, or what it put in force is intended without it as well.
  */
  lemma UnrepeatedFitsIff(ds: Trail, undone: set<Id>, corrections: map<Id, Correction>, rules: seq<Rule>,
                          origin: Treatment, t: nat)
    requires Linked(ds, undone, origin) && AllSpeak(ds, corrections, rules) && Unrepeated(ds)
    requires t == TopIndex(ds, undone) && AllKeepLegs(ds[..t], TopIndex(ds[..t], undone), corrections)
    ensures Fits(ds, undone, corrections, ds[t].id, origin) <==>
            KeepsLegs(ds[t], corrections) || ds[t].result == Intended(ds, undone + {ds[t].id}, origin)
  {
    FirstSnapshotAt(ds, t);
    TopIndexIs(ds[..t], undone + {ds[t].id}, TopIndex(ds[..t], undone));
    IntendedWithoutTop(ds, undone, origin, t);
    OwnSnapshotLands(ds, undone, corrections, rules, origin, t);
  }

  /**
    Where all decisions kept their legs as well, every undo fits: the first snapshot is the one the
    decision in force took.
  */
  lemma UnrepeatedFits(ds: Trail, undone: set<Id>, corrections: map<Id, Correction>, rules: seq<Rule>, id: Id,
                       origin: Treatment)
    requires Linked(ds, undone, origin) && AllSpeak(ds, corrections, rules) && Unrepeated(ds)
    requires AllKeepLegs(ds, -1, corrections)
    ensures Fits(ds, undone, corrections, id, origin)
  {
    var t := TopIndex(ds, undone);
    if t >= 0 && ds[t].id == id {
      UnrepeatedFitsIff(ds, undone, corrections, rules, origin, t);
    }
  }
}
