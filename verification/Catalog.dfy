/**
  The merchant catalog: records under permanent ids, the alias index derived from them, graded
  replacement, layered installation and the three enrichment queues.
*/
module Catalog {
  import opened Common
  import opened TextOrder

  type Key = string

  datatype Grade = Verified | Corroborated | Unverified | Unknown(text: string)

  /** `body` is everything a record says besides its identity, grade and source. */
  datatype Record = Record(key: Key, aliases: set<Key>, grade: Grade, source: string, body: string)

  type Records = map<Key, Record>
  type Index = map<Key, Key>

  function Rank(g: Grade): nat {
    match g
    case Verified => 3
    case Corroborated => 2
    case Unverified => 1
    case Unknown(_) => 0
  }

  /** `a` is trusted at least as much as `b`: verified first, then corroborated, then unverified, then all else. */
  predicate AsTrusted(a: Grade, b: Grade) {
    match b
    case Verified => a == Verified
    case Corroborated => a == Verified || a == Corroborated
    case Unverified => a == Verified || a == Corroborated || a == Unverified
    case Unknown(_) => true
  }

  /** The numbers the code compares order the grades by trust. */
  lemma RankIsTrust()
    ensures forall a, b :: Rank(a) >= Rank(b) <==> AsTrusted(a, b)
  {
  }

  // ---------------------------------------------------------------- the invariant

  ghost predicate OwnKeys(records: Records) {
    forall k :: k in records ==> records[k].key == k && k in records[k].aliases
  }

  ghost predicate OneOwner(records: Records) {
    forall j, k, a {:trigger a in records[j].aliases, a in records[k].aliases} ::
      j in records && k in records && a in records[j].aliases && a in records[k].aliases ==> j == k
  }

  /** The index holds exactly the pairs the alias lists hold. */
  ghost predicate Inverse(records: Records, index: Index) {
    && (forall k, a {:trigger a in records[k].aliases} ::
          k in records && a in records[k].aliases ==> a in index && index[a] == k)
    && (forall a :: a in index ==> index[a] in records && a in records[index[a]].aliases)
  }

  ghost predicate Consistent(records: Records, index: Index) {
    OwnKeys(records) && Inverse(records, index)
  }

  /** Every unanswered mark belongs to a queued key with the identical example. */
  ghost predicate MarksQueued(pending: map<Key, string>, unanswered: map<Key, string>) {
    forall k :: k in unanswered ==> k in pending && pending[k] == unanswered[k]
  }

  lemma ConsistentHasOneOwner(records: Records, index: Index)
    requires Inverse(records, index)
    ensures OneOwner(records)
  {
  }

  /** A consistent index is determined by the records. */
  lemma IndexIsDetermined(records: Records, a: Index, b: Index)
    requires Inverse(records, a) && Inverse(records, b)
    ensures a == b
  {
    forall x ensures x in a <==> x in b {
    }
    assert a.Keys == b.Keys;
  }

  function Normalized(records: Records): Records {
    map k | k in records :: records[k].(aliases := records[k].aliases + {k})
  }

  lemma NormalizedOwnKeys(records: Records)
    requires OwnKeys(records)
    ensures Normalized(records) == records
  {
    forall k | k in records ensures records[k].aliases + {k} == records[k].aliases {
    }
  }

  // ---------------------------------------------------------------- specifications of the record operations

  function Target(index: Index, k: Key): Key { if k in index then index[k] else k }

  function PriorAliases(records: Records, k: Key): set<Key> { if k in records then records[k].aliases else {} }

  function AliasesAfterAdd(records: Records, index: Index, r: Record): set<Key> {
    {r.key, Target(index, r.key)} + PriorAliases(records, Target(index, r.key))
  }

  function Added(records: Records, index: Index, r: Record): Records {
    var target := Target(index, r.key);
    var aliases := AliasesAfterAdd(records, index, r);
    if target !in records || AsTrusted(r.grade, records[target].grade)
    then records[target := r.(key := target, aliases := aliases)]
    else records[target := records[target].(aliases := aliases)]
  }

  function AddedIndex(records: Records, index: Index, r: Record): Index {
    index[r.key := Target(index, r.key)][Target(index, r.key) := Target(index, r.key)]
  }

  /** An import is put in place where nothing is held, or something less trusted. */
  predicate Wins(records: Records, k: Key, r: Record) { k !in records || !AsTrusted(records[k].grade, r.grade) }

  function Merged(records: Records, imports: Records): Records {
    map k | k in records.Keys + imports.Keys ::
      if k in imports && Wins(records, k, imports[k])
      then Imported(records, k, imports[k])
      else records[k]
  }

  function Winners(records: Records, imports: Records): set<Key> {
    set k | k in imports && Wins(records, k, imports[k])
  }

  function Imported(records: Records, k: Key, r: Record): Record {
    r.(source := "commons", aliases := r.aliases + PriorAliases(records, k))
  }

  /** One step of a merge: the records still to come are untouched. */
  lemma MergeOne(records: Records, imports: Records, todo: set<Key>, k: Key)
    requires k in todo && todo <= imports.Keys
    ensures var now := Merged(records, imports - todo);
            && (k in now <==> k in records) && (k in now ==> now[k] == records[k])
            && Merged(records, imports - (todo - {k}))
               == if Wins(records, k, imports[k]) then now[k := Imported(records, k, imports[k])] else now
  {
    var now := Merged(records, imports - todo);
    var next := Merged(records, imports - (todo - {k}));
    var want := if Wins(records, k, imports[k]) then now[k := Imported(records, k, imports[k])] else now;
    assert next.Keys == want.Keys;
    forall j | j in next ensures next[j] == want[j] {
    }
  }

  /** A winner is counted once. */
  lemma CountOne(records: Records, imports: Records, todo: set<Key>, k: Key)
    requires k in todo && todo <= imports.Keys
    ensures |Winners(records, imports) - (todo - {k})|
            == |Winners(records, imports) - todo| + if Wins(records, k, imports[k]) then 1 else 0
  {
    var w := Winners(records, imports);
    if k in w {
      assert w - (todo - {k}) == (w - todo) + {k};
    } else {
      assert w - (todo - {k}) == w - todo;
    }
  }

  /** A decoded payload: each record under its own key with its self-alias, no alias twice. */
  ghost predicate Decoded(imports: Records) { OwnKeys(imports) && OneOwner(imports) }

  /** Some imported alias already names another record. */
  ghost predicate Clashes(index: Index, imports: Records) {
    exists k, a :: k in imports && a in imports[k].aliases && a in index && index[a] != k
  }

  /** An add cannot make the index inconsistent. */
  lemma AddedConsistent(records: Records, index: Index, r: Record)
    requires Consistent(records, index)
    ensures Consistent(Added(records, index, r), AddedIndex(records, index, r))
    ensures Added(records, index, r)[Target(index, r.key)].aliases == AliasesAfterAdd(records, index, r)
  {
  }

  /** Neither can a merge that does not clash. */
  lemma MergedOneOwner(records: Records, index: Index, imports: Records)
    requires Consistent(records, index) && Decoded(imports) && !Clashes(index, imports)
    ensures OwnKeys(Merged(records, imports)) && OneOwner(Merged(records, imports))
  {
  }

  // ---------------------------------------------------------------- the queues

  type Lint = string -> string

  datatype Queue = Queue(pending: map<Key, string>, unanswered: map<Key, string>, count: nat)

  /** `closed` holds the keys the catalog already answers for and has not restaged. */
  predicate Accepts(closed: set<Key>, key: Key) { key != "" && key !in closed }

  /** One hint: an accepted key is queued unless it is already queued against this same example. */
  function Submit1(q: Queue, closed: set<Key>, lint: Lint, key: Key, example: string): Queue {
    if !Accepts(closed, key) || (key in q.pending && q.pending[key] == lint(example)) then q
    else Queue(q.pending[key := lint(example)], q.unanswered - {key}, q.count + 1)
  }

  function Submitted(q: Queue, closed: set<Key>, lint: Lint, hints: seq<(Key, string)>): Queue {
    if hints == [] then q else
      var (key, example) := hints[|hints| - 1];
      Submit1(Submitted(q, closed, lint, hints[..|hints| - 1]), closed, lint, key, example)
  }

  /** Marks after asking about `keys` and hearing nothing: queued keys only, each with its queued example. */
  function Marked(pending: map<Key, string>, unanswered: map<Key, string>, keys: seq<Key>): map<Key, string> {
    if keys == [] then unanswered else
      var k := keys[|keys| - 1];
      var rest := Marked(pending, unanswered, keys[..|keys| - 1]);
      if k in pending then rest[k := pending[k]] else rest
  }

  /** How many of those marks are newly written. */
  function MarkCount(pending: map<Key, string>, unanswered: map<Key, string>, keys: seq<Key>): nat {
    if keys == [] then 0 else
      var k := keys[|keys| - 1];
      var rest := Marked(pending, unanswered, keys[..|keys| - 1]);
      MarkCount(pending, unanswered, keys[..|keys| - 1])
      + if k in pending && !(k in rest && rest[k] == pending[k]) then 1 else 0
  }

  lemma {:induction false} MarkedStaysQueued(pending: map<Key, string>, before: map<Key, string>, keys: seq<Key>)
    requires MarksQueued(pending, before)
    ensures MarksQueued(pending, Marked(pending, before, keys)) && before.Keys <= Marked(pending, before, keys).Keys
  {
    if keys != [] {
      MarkedStaysQueued(pending, before, keys[..|keys| - 1]);
    }
  }

  lemma OneMoreKey(before: set<Key>, now: set<Key>, k: Key)
    requires before <= now
    ensures |now + {k} - before| == |now - before| + if k in now then 0 else 1
  {
    if k in now {
      assert now + {k} == now;
    } else {
      assert now + {k} - before == (now - before) + {k};
    }
  }

  lemma KeysOfUpdate(m: map<Key, string>, k: Key, v: string)
    ensures m[k := v].Keys == m.Keys + {k}
  {
  }

  lemma MarkGrowth(pending: map<Key, string>, before: map<Key, string>, now: map<Key, string>, k: Key)
    requires MarksQueued(pending, now) && before.Keys <= now.Keys && k in pending
    ensures |now[k := pending[k]].Keys - before.Keys|
            == |now.Keys - before.Keys| + if k in now && now[k] == pending[k] then 0 else 1
  {
    KeysOfUpdate(now, k, pending[k]);
    OneMoreKey(before.Keys, now.Keys, k);
    if k in now {
      assert now[k] == pending[k];
    }
  }

  /** The count is the number of keys that became marked. */
  lemma {:induction false} MarkCountIsGrowth(pending: map<Key, string>, before: map<Key, string>, keys: seq<Key>)
    requires MarksQueued(pending, before)
    ensures MarkCount(pending, before, keys) == |Marked(pending, before, keys).Keys - before.Keys|
  {
    if keys != [] {
      var front := keys[..|keys| - 1];
      MarkCountIsGrowth(pending, before, front);
      MarkedStaysQueued(pending, before, front);
      if keys[|keys| - 1] in pending {
        MarkGrowth(pending, before, Marked(pending, before, front), keys[|keys| - 1]);
      }
    }
  }

  /** One more key of the batch. */
  lemma MarkStep(pending: map<Key, string>, before: map<Key, string>, keys: seq<Key>, i: nat)
    requires i < |keys|
    ensures var now := Marked(pending, before, keys[..i]);
            var k := keys[i];
            var news := k in pending && !(k in now && now[k] == pending[k]);
            && Marked(pending, before, keys[..i + 1]) == (if news then now[k := pending[k]] else now)
            && MarkCount(pending, before, keys[..i + 1]) == MarkCount(pending, before, keys[..i])
                 + if news then 1 else 0
  {
    assert keys[..i + 1][..i] == keys[..i];
    var now := Marked(pending, before, keys[..i]);
    if keys[i] in pending && keys[i] in now && now[keys[i]] == pending[keys[i]] {
      assert now[keys[i] := pending[keys[i]]] == now;
    }
  }

  // ---------------------------------------------------------------- installing a layer

  function TargetOf(index: Index, legacy: bool, k: Key): Key { if legacy then Target(index, k) else k }

  function Targets(index: Index, legacy: bool, layer: Records): set<Key> {
    set k | k in layer :: TargetOf(index, legacy, k)
  }

  /** The layer's entries that name `t`. */
  function Candidates(index: Index, legacy: bool, layer: Records, t: Key): set<Key> {
    set k | k in layer && TargetOf(index, legacy, k) == t
  }

  /** The most trusted candidates. */
  function Finalists(index: Index, legacy: bool, layer: Records, t: Key): set<Key> {
    set k | k in Candidates(index, legacy, layer, t) &&
            forall j :: j in Candidates(index, legacy, layer, t) ==> AsTrusted(layer[k].grade, layer[j].grade)
  }

  /** What two records say apart from their identity. */
  predicate SameData(a: Record, b: Record) { a.grade == b.grade && a.source == b.source && a.body == b.body }

  /** `r` may stand for target `t`: the entry listed under `t` itself, or the one thing all finalists say. */
  ghost predicate Elects(index: Index, legacy: bool, layer: Records, t: Key, r: Record) {
    var finalists := Finalists(index, legacy, layer, t);
    if t in finalists then r == layer[t]
    else (exists k :: k in finalists && layer[k] == r)
         && forall k :: k in finalists ==> SameData(layer[k], r)
  }

  ghost predicate Electable(index: Index, legacy: bool, layer: Records, t: Key) {
    exists r :: Elects(index, legacy, layer, t, r)
  }

  /** What `t` holds once `layer` is installed: a learned layer replaces, a shipped one only fills gaps. */
  ghost predicate InstalledAt(records: Records, index: Index, layer: Records, learned: bool, legacy: bool, t: Key,
                              now: Record) {
    if t in Targets(index, legacy, layer) && (t !in records || learned) then
      exists r :: Elects(index, legacy, layer, t, r) && now == Adopted(records, index, layer, legacy, t, r)
    else t in records && now == records[t]
  }

  /** An elected record under its new id, with every alias of its group and of the record it replaces. */
  function Adopted(records: Records, index: Index, layer: Records, legacy: bool, t: Key, r: Record): Record {
    r.(key := t, aliases := r.aliases + Candidates(index, legacy, layer, t) + {t} + PriorAliases(records, t))
  }

  ghost predicate Installs(records: Records, index: Index, layer: Records, learned: bool, legacy: bool,
                           after: Records) {
    && after.Keys == records.Keys + Targets(index, legacy, layer)
    && forall t :: t in after ==> InstalledAt(records, index, layer, learned, legacy, t, after[t])
  }

  ghost predicate AllElectable(index: Index, layer: Records, legacy: bool) {
    forall t :: t in Targets(index, legacy, layer) ==> Electable(index, legacy, layer, t)
  }

  /** A legacy record is lifted with its own key as its only alias. */
  ghost predicate Lifted(layer: Records) { forall k :: k in layer ==> layer[k].aliases == {k} }

  /** A listing of a layer, as a map. */
  function LayerOf(entries: seq<(Key, Record)>): Records {
    if entries == [] then map[] else
      var (k, r) := entries[|entries| - 1];
      LayerOf(entries[..|entries| - 1])[k := r]
  }

  predicate DistinctKeys(entries: seq<(Key, Record)>) {
    forall i, j :: 0 <= i < j < |entries| ==> entries[i].0 != entries[j].0
  }

  lemma {:induction false} LayerOfLooksUp(entries: seq<(Key, Record)>)
    requires DistinctKeys(entries)
    ensures forall k, r :: (k, r) in entries <==> k in LayerOf(entries) && LayerOf(entries)[k] == r
  {
    if entries != [] {
      var n := |entries| - 1;
      LayerOfLooksUp(entries[..n]);
      assert entries == entries[..n] + [entries[n]];
      assert forall r :: (entries[n].0, r) !in entries[..n];
    }
  }

  lemma TargetsGrow(index: Index, legacy: bool, layer: Records, k: Key, r: Record)
    ensures Targets(index, legacy, layer[k := r]) == Targets(index, legacy, layer) + {TargetOf(index, legacy, k)}
  {
    var a := Targets(index, legacy, layer[k := r]);
    var b := Targets(index, legacy, layer) + {TargetOf(index, legacy, k)};
    forall t | t in b ensures t in a {
      if t in Targets(index, legacy, layer) {
        var j :| j in layer && TargetOf(index, legacy, j) == t;
        assert j in layer[k := r];
      } else {
        assert k in layer[k := r];
      }
    }
  }

  lemma CandidatesGrow(index: Index, legacy: bool, layer: Records, k: Key, r: Record, t: Key)
    ensures Candidates(index, legacy, layer[k := r], t)
            == Candidates(index, legacy, layer, t) + if TargetOf(index, legacy, k) == t then {k} else {}
  {
  }

  /** Filtering on the highest rank gives exactly the finalists. */
  lemma FinalistsAre(index: Index, legacy: bool, layer: Records, t: Key, candidates: seq<Key>, highest: nat,
                     finalists: seq<Key>)
    requires forall k :: k in candidates <==> k in Candidates(index, legacy, layer, t)
    requires forall k :: k in candidates ==> Rank(layer[k].grade) <= highest
    requires exists k :: k in candidates && Rank(layer[k].grade) == highest
    requires forall k :: k in finalists <==> k in candidates && Rank(layer[k].grade) == highest
    ensures forall k :: k in finalists <==> k in Finalists(index, legacy, layer, t)
    ensures finalists != []
  {
    RankIsTrust();
    var best :| best in candidates && Rank(layer[best].grade) == highest;
    assert best in finalists;
  }

  lemma Disagreement(index: Index, legacy: bool, layer: Records, t: Key, finalists: seq<Key>)
    requires forall k :: k in finalists <==> k in Finalists(index, legacy, layer, t)
    requires t !in finalists && exists j, k :: j in finalists && k in finalists && !SameData(layer[j], layer[k])
    ensures !Electable(index, legacy, layer, t)
  {
    var j, k :| j in finalists && k in finalists && !SameData(layer[j], layer[k]);
    forall r ensures !Elects(index, legacy, layer, t, r) {
      assert j in Finalists(index, legacy, layer, t) && k in Finalists(index, legacy, layer, t);
    }
  }

  /** In a layer that is not legacy each entry stands for itself. */
  lemma CurrentElects(index: Index, layer: Records, t: Key)
    requires t in layer
    ensures Elects(index, false, layer, t, layer[t]) && Electable(index, false, layer, t)
  {
    assert Candidates(index, false, layer, t) == {t};
    assert AsTrusted(layer[t].grade, layer[t].grade);
    assert t in Finalists(index, false, layer, t);
    assert Elects(index, false, layer, t, layer[t]);
  }

  /**
    Whether a layer can be installed: a legacy one unless equally ranked entries of one id
    disagree, a current one unless an alias would have two owners.
  */
  ghost predicate Installable(records: Records, index: Index, layer: Records, learned: bool, legacy: bool) {
    if legacy then AllElectable(index, layer, true)
    else forall after :: Installs(records, index, layer, learned, false, after) ==> OneOwner(after)
  }

  lemma CurrentAllElectable(index: Index, layer: Records)
    ensures AllElectable(index, layer, false)
  {
    forall t | t in Targets(index, false, layer) ensures Electable(index, false, layer, t) {
      CurrentElects(index, layer, t);
    }
  }

  lemma LiftedAliases(index: Index, layer: Records, t: Key, r: Record)
    requires Lifted(layer) && Elects(index, true, layer, t, r)
    ensures r.aliases <= Candidates(index, true, layer, t)
  {
    if t !in Finalists(index, true, layer, t) {
      var k :| k in Finalists(index, true, layer, t) && layer[k] == r;
    }
  }

  /** Whoever is elected, the same record results; only identities can differ among finalists. */
  lemma AdoptedIsDetermined(records: Records, index: Index, layer: Records, legacy: bool, t: Key, a: Record, b: Record)
    requires legacy ==> Lifted(layer)
    requires !legacy ==> t in layer
    requires Elects(index, legacy, layer, t, a) && Elects(index, legacy, layer, t, b)
    ensures Adopted(records, index, layer, legacy, t, a) == Adopted(records, index, layer, legacy, t, b)
  {
    if legacy {
      LiftedAliases(index, layer, t, a);
      LiftedAliases(index, layer, t, b);
      if t !in Finalists(index, legacy, layer, t) {
        var k :| k in Finalists(index, legacy, layer, t) && layer[k] == a;
        assert SameData(layer[k], b);
      }
    } else {
      CurrentElects(index, layer, t);
      assert t in Finalists(index, false, layer, t);
    }
  }

  /** A layer determines its outcome, whatever order its entries are listed in. */
  lemma InstallIsDetermined(records: Records, index: Index, layer: Records, learned: bool, legacy: bool, x: Records,
                            y: Records)
    requires legacy ==> Lifted(layer)
    requires Installs(records, index, layer, learned, legacy, x) && Installs(records, index, layer, learned, legacy, y)
    ensures x == y
  {
    assert x.Keys == y.Keys;
    forall t | t in x ensures x[t] == y[t] {
      assert InstalledAt(records, index, layer, learned, legacy, t, x[t]);
      assert InstalledAt(records, index, layer, learned, legacy, t, y[t]);
      if t in Targets(index, legacy, layer) && (t !in records || learned) {
        var a :| Elects(index, legacy, layer, t, a) && x[t] == Adopted(records, index, layer, legacy, t, a);
        var b :| Elects(index, legacy, layer, t, b) && y[t] == Adopted(records, index, layer, legacy, t, b);
        AdoptedIsDetermined(records, index, layer, legacy, t, a, b);
      }
    }
  }

  /** `InstalledAt` looks at one id only. */
  lemma Unchanged(a: Records, b: Records, index: Index, layer: Records, learned: bool, legacy: bool, t: Key,
                  now: Record)
    requires (t in a <==> t in b) && (t in a ==> a[t] == b[t])
    ensures InstalledAt(a, index, layer, learned, legacy, t, now)
            == InstalledAt(b, index, layer, learned, legacy, t, now)
  {
    assert forall r :: Adopted(a, index, layer, legacy, t, r) == Adopted(b, index, layer, legacy, t, r);
  }

  /** An installation with the ids of `todo` still to come. */
  ghost predicate Progress(before: Records, index: Index, layer: Records, learned: bool, legacy: bool, todo: set<Key>,
                           now: Records) {
    var targets := Targets(index, legacy, layer);
    && now.Keys == before.Keys + (targets - todo)
    && (forall t :: t in now && t !in todo ==> InstalledAt(before, index, layer, learned, legacy, t, now[t]))
    && (forall t :: t in todo ==> (t in now <==> t in before) && (t in now ==> now[t] == before[t]))
    && (forall t :: t in targets - todo ==> Electable(index, legacy, layer, t))
  }

  lemma ProgressStep(before: Records, index: Index, layer: Records, learned: bool, legacy: bool, todo: set<Key>,
                     now: Records, t: Key, next: Records)
    requires Progress(before, index, layer, learned, legacy, todo, now)
    requires t in todo && t in Targets(index, legacy, layer) && Electable(index, legacy, layer, t)
    requires t in next && InstalledAt(now, index, layer, learned, legacy, t, next[t])
    requires next.Keys == now.Keys + {t} && forall k :: k in now && k != t ==> next[k] == now[k]
    ensures Progress(before, index, layer, learned, legacy, todo - {t}, next)
  {
    Unchanged(before, now, index, layer, learned, legacy, t, next[t]);
    forall k | k in next && k !in todo - {t} ensures InstalledAt(before, index, layer, learned, legacy, k, next[k]) {
      if k != t {
        assert InstalledAt(before, index, layer, learned, legacy, k, now[k]);
      }
    }
  }

  lemma InstalledOwnKeys(records: Records, index: Index, layer: Records, learned: bool, legacy: bool, after: Records)
    requires OwnKeys(records) && Installs(records, index, layer, learned, legacy, after)
    ensures OwnKeys(after)
  {
    forall t | t in after ensures after[t].key == t && t in after[t].aliases {
      assert InstalledAt(records, index, layer, learned, legacy, t, after[t]);
    }
  }

  /** An alias of a legacy-installed record is one the index already gives it, or its own new key. */
  lemma LegacyAliasOwner(records: Records, index: Index, layer: Records, learned: bool, after: Records, t: Key, a: Key)
    requires Consistent(records, index) && Lifted(layer) && Installs(records, index, layer, learned, true, after)
    requires t in after && a in after[t].aliases
    ensures Target(index, a) == t
  {
    assert InstalledAt(records, index, layer, learned, true, t, after[t]);
    if t in Targets(index, true, layer) && (t !in records || learned) {
      var r :| Elects(index, true, layer, t, r) && after[t] == Adopted(records, index, layer, true, t, r);
      LiftedAliases(index, layer, t, r);
      AdoptedAliasOwner(records, index, layer, t, a);
    }
  }

  lemma AdoptedAliasOwner(records: Records, index: Index, layer: Records, t: Key, a: Key)
    requires Consistent(records, index) && t in Targets(index, true, layer)
    requires a in Candidates(index, true, layer, t) + {t} + PriorAliases(records, t)
    ensures Target(index, a) == t
  {
    if a == t {
      var k :| k in layer && TargetOf(index, true, k) == t;
      if k in index {
        assert index[k] == t && t in records[t].aliases;
      } else {
        assert k == t;
      }
    } else if a in PriorAliases(records, t) {
      assert a in records[t].aliases;
    }
  }

  /** A legacy layer over a consistent catalog never gives an alias two owners. */
  lemma LegacyInstallHasOneOwner(records: Records, index: Index, layer: Records, learned: bool, after: Records)
    requires Consistent(records, index) && Lifted(layer) && Installs(records, index, layer, learned, true, after)
    ensures OneOwner(after)
  {
    forall j, k, a | j in after && k in after && a in after[j].aliases && a in after[k].aliases ensures j == k {
      LegacyAliasOwner(records, index, layer, learned, after, j, a);
      LegacyAliasOwner(records, index, layer, learned, after, k, a);
    }
  }

  lemma TwoOwners(goal: Records, todo: set<Key>, built: Index, k: Key, a: Key)
    requires Inverse(goal - todo, built) && k in goal && a in goal[k].aliases && a in built && built[a] != k
    ensures !OneOwner(goal)
  {
    assert built[a] in goal && a in goal[built[a]].aliases;
  }

  lemma InverseHasOneOwner(records: Records, index: Index)
    requires Inverse(records, index)
    ensures OneOwner(records)
  {
  }

  /** Entering the aliases of one more record keeps the partial index an inverse. */
  lemma InverseGrows(goal: Records, todo: set<Key>, built: Index, k: Key)
    requires k in todo && k in goal && Inverse(goal - todo, built)
    requires forall a :: a in goal[k].aliases && a in built ==> built[a] == k
    ensures Inverse(goal - (todo - {k}), built + map a | a in goal[k].aliases :: k)
  {
    var mine := goal[k].aliases;
    var more := built + map a | a in mine :: k;
    var done := goal - (todo - {k});
    forall a | a in more ensures more[a] in done && a in done[more[a]].aliases {
      if a !in mine {
        assert built[a] in goal - todo;
      }
    }
    forall j, a | j in done && a in done[j].aliases ensures a in more && more[a] == j {
      if j != k {
        assert j in goal - todo && a in (goal - todo)[j].aliases;
      }
    }
  }

  // ---------------------------------------------------------------- the store

  class Store {
    var records: Records
    var index: Index
    var pending: map<Key, string>
    var unanswered: map<Key, string>
    var restaged: set<Key>

    ghost predicate Valid()
      reads this
    {
      Consistent(records, index) && MarksQueued(pending, unanswered)
    }

    constructor ()
      ensures Valid() && records == map[] && index == map[] && pending == map[] && unanswered == map[] && restaged == {}
    {
      records, index, pending, unanswered, restaged := map[], map[], map[], map[], {};
    }

    function Get(key: Key): (r: Option<Record>)
      reads this
    {
      var target := Target(index, key);
      if target in records then Some(records[target]) else None
    }

    /** A lookup finds the record that lists the name among its aliases, if one does. */
    lemma GetFindsOwner(key: Key, r: Record)
      requires Valid()
      ensures Get(key) == Some(r) <==> exists k :: k in records && key in records[k].aliases && r == records[k]
    {
      if key in records {
        assert key in records[key].aliases;
      }
    }

    /** The keys answered for and not restaged. */
    function Closed(): (closed: set<Key>)
      reads this
      ensures forall k :: k in closed <==> Get(k) != None && k !in restaged
    {
      set k | k in index.Keys + records.Keys && Get(k) != None && k !in restaged
    }

    method SubmitHints(hints: seq<(Key, string)>, lint: Lint) returns (n: nat)
      requires Valid()
      modifies this`pending, this`unanswered
      ensures Valid()
      ensures Queue(pending, unanswered, n)
              == Submitted(Queue(old(pending), old(unanswered), 0), old(Closed()), lint, hints)
    {
      n := 0;
      for i := 0 to |hints|
        invariant Valid()
        invariant Queue(pending, unanswered, n)
                  == Submitted(Queue(old(pending), old(unanswered), 0), old(Closed()), lint, hints[..i])
      {
        assert hints[..i + 1][..i] == hints[..i];
        var (key, example) := hints[i];
        if !(key == "" || (Get(key) != None && key !in restaged)) {
          if !(key in pending && pending[key] == lint(example)) {
            pending := pending[key := lint(example)];
            unanswered := unanswered - {key};
            n := n + 1;
          }
        }
      }
      assert hints[..|hints|] == hints;
    }

    /** What is worth asking about: the queue minus the marked keys. */
    method Pending() returns (r: map<Key, string>)
      requires Valid()
      ensures r == map k | k in pending && k !in unanswered :: pending[k]
    {
      r := map k | k in pending && !(k in unanswered && unanswered[k] == pending[k]) :: pending[k];
    }

    method MarkUnanswered(keys: seq<Key>) returns (n: nat)
      requires Valid()
      modifies this`unanswered
      ensures Valid()
      ensures unanswered == Marked(pending, old(unanswered), keys)
      ensures n == MarkCount(pending, old(unanswered), keys) == |unanswered.Keys - old(unanswered).Keys|
    {
      n := 0;
      ghost var before := unanswered;
      for i := 0 to |keys|
        invariant unanswered == Marked(pending, before, keys[..i]) && n == MarkCount(pending, before, keys[..i])
      {
        MarkStep(pending, before, keys, i);
        var k := keys[i];
        if k in pending && !(k in unanswered && unanswered[k] == pending[k]) {
          unanswered := unanswered[k := pending[k]];
          n := n + 1;
        }
      }
      assert keys[..|keys|] == keys;
      MarkCountIsGrowth(pending, before, keys);
      MarkedStaysQueued(pending, before, keys);
    }

    method Restage(stale: Record -> bool, dryRun: bool) returns (keys: seq<Key>)
      requires Valid()
      modifies this`restaged
      ensures Valid()
      ensures Ascending(Less, keys) && forall k :: k in keys <==> k in records && stale(records[k])
      ensures restaged == if dryRun then old(restaged) else old(restaged) + set k | k in keys
    {
      LessIsStrictOrder();
      keys := SortedSet((set k | k in records && stale(records[k])), Less);
      if !dryRun {
        restaged := restaged + set k | k in keys;
      }
    }

    /** Enter one record's aliases, unless another record holds one of them. */
    static method IndexOne(built: Index, k: Key, aliases: set<Key>) returns (clash: bool, more: Index)
      ensures clash <==> exists a :: a in aliases && a in built && built[a] != k
      ensures !clash ==> more == built + map a | a in aliases :: k
    {
      more := built;
      var todo := aliases;
      while todo != {}
        invariant todo <= aliases
        invariant forall a :: a in aliases - todo && a in built ==> built[a] == k
        invariant more == built + map a | a in aliases - todo :: k
        decreases todo
      {
        var a :| a in todo;
        if a in more && more[a] != k {
          return true, built;
        }
        more := more[a := k];
        todo := todo - {a};
      }
      clash := false;
    }

    /** Rebuild the index from the alias lists; refused, with the old index in place, when an alias has two owners. */
    method Reindex() returns (ok: bool)
      modifies this`records, this`index
      ensures ok <==> OneOwner(Normalized(old(records)))
      ensures ok ==> records == Normalized(old(records)) && Inverse(records, index)
      ensures !ok ==> index == old(index)
    {
      var built: Index := map[];
      var todo := records.Keys;
      ghost var goal := Normalized(records);
      while todo != {}
        invariant todo <= records.Keys == goal.Keys
        invariant forall k :: k in records ==> records[k] == if k in todo then old(records)[k] else goal[k]
        invariant Inverse(goal - todo, built)
        invariant index == old(index)
        decreases todo
      {
        var k :| k in todo;
        records := records[k := records[k].(aliases := records[k].aliases + {k})];
        var clash, more := IndexOne(built, k, records[k].aliases);
        if clash {
          ghost var a :| a in goal[k].aliases && a in built && built[a] != k;
          TwoOwners(goal, todo, built, k, a);
          return false;
        }
        InverseGrows(goal, todo, built, k);
        built := more;
        todo := todo - {k};
      }
      assert records == goal && goal - {} == goal;
      InverseHasOneOwner(goal, built);
      index := built;
      ok := true;
    }

    /** Add or update one record under the id its key already names. */
    method Add(submitted: Record)
      requires Valid()
      modifies this
      ensures Valid()
      ensures records == Added(old(records), old(index), submitted)
      ensures index == AddedIndex(old(records), old(index), submitted)
      ensures var gone := records[Target(old(index), submitted.key)].aliases + {submitted.key};
              && pending == old(pending) - gone && unanswered == old(unanswered) - gone &&
                  restaged == old(restaged) - gone
    {
      var target := Target(index, submitted.key);
      var aliases := {submitted.key, target};
      RankIsTrust();
      AddedConsistent(records, index, submitted);
      if target in records {
        aliases := aliases + records[target].aliases;
      }
      var record := submitted.(key := target, aliases := aliases);
      if target !in records || Rank(record.grade) >= Rank(records[target].grade) {
        if target in records {
          record := record.(aliases := record.aliases + records[target].aliases);
        }
        records := records[target := record];
      } else {
        records := records[target := records[target].(aliases := records[target].aliases + aliases)];
      }
      assert records[target].aliases == AliasesAfterAdd(old(records), old(index), submitted);
      assert records == Added(old(records), old(index), submitted);
      NormalizedOwnKeys(records);
      ConsistentHasOneOwner(records, AddedIndex(old(records), old(index), submitted));
      var ok := Reindex();
      IndexIsDetermined(records, index, AddedIndex(old(records), old(index), submitted));
      var gone := aliases + {submitted.key};
      pending, unanswered, restaged := pending - gone, unanswered - gone, restaged - gone;
    }

    /** Put every imported record that wins in place; returns how many did. */
    method ApplyImports(imports: Records) returns (n: nat)
      modifies this`records
      ensures records == Merged(old(records), imports) && n == |Winners(old(records), imports)|
    {
      n := 0;
      ghost var before := records;
      var todo := imports.Keys;
      while todo != {}
        invariant todo <= imports.Keys
        invariant records == Merged(before, imports - todo)
        invariant n == |Winners(before, imports) - todo|
        decreases todo
      {
        var k :| k in todo;
        MergeOne(before, imports, todo, k);
        CountOne(before, imports, todo, k);
        RankIsTrust();
        if k !in records || Rank(imports[k].grade) > Rank(records[k].grade) {
          records := records[k := Imported(records, k, imports[k])];
          n := n + 1;
        }
        todo := todo - {k};
      }
      assert imports - {} == imports;
    }

    /** Import a decoded snapshot as priors, or refuse it whole before anything changes. */
    method Merge(imports: Records) returns (ok: bool, n: nat)
      requires Valid() && Decoded(imports)
      modifies this`records, this`index
      ensures Valid()
      ensures ok <==> !Clashes(old(index), imports)
      ensures ok ==> records == Merged(old(records), imports) && n == |Winners(old(records), imports)|
      ensures !ok ==> records == old(records) && index == old(index)
    {
      if k, a :| k in imports && a in imports[k].aliases && a in index && index[a] != k {
        return false, 0;
      }
      MergedOneOwner(records, index, imports);
      n := ApplyImports(imports);
      NormalizedOwnKeys(records);
      ok := Reindex();
    }

    static method Highest(layer: Records, candidates: seq<Key>) returns (highest: nat)
      requires candidates != [] && forall k :: k in candidates ==> k in layer
      ensures forall k :: k in candidates ==> Rank(layer[k].grade) <= highest
      ensures exists k :: k in candidates && Rank(layer[k].grade) == highest
    {
      highest := Rank(layer[candidates[0]].grade);
      for i := 0 to |candidates|
        invariant forall j :: 0 <= j < i ==> Rank(layer[candidates[j]].grade) <= highest
        invariant exists k :: k in candidates && Rank(layer[k].grade) == highest
      {
        if highest < Rank(layer[candidates[i]].grade) {
          highest := Rank(layer[candidates[i]].grade);
        }
      }
    }

    static method OfRank(layer: Records, candidates: seq<Key>, rank: nat) returns (finalists: seq<Key>)
      requires forall k :: k in candidates ==> k in layer
      ensures forall k :: k in finalists <==> k in candidates && Rank(layer[k].grade) == rank
    {
      finalists := [];
      for i := 0 to |candidates|
        invariant forall k :: k in finalists <==> k in candidates[..i] && Rank(layer[k].grade) == rank
      {
        assert candidates[..i + 1] == candidates[..i] + [candidates[i]];
        if Rank(layer[candidates[i]].grade) == rank {
          finalists := finalists + [candidates[i]];
        }
      }
      assert candidates[..|candidates|] == candidates;
    }

    /** The least finalist when all finalists say the same. */
    static method Unanimous(layer: Records, finalists: seq<Key>) returns (r: Option<Key>)
      requires finalists != [] && forall k :: k in finalists ==> k in layer
      ensures r.Some? ==> r.value in finalists && forall k :: k in finalists ==> SameData(layer[k], layer[r.value])
      ensures r.None? ==> exists j, k :: j in finalists && k in finalists && !SameData(layer[j], layer[k])
    {
      var least := finalists[0];
      for i := 0 to |finalists|
        invariant least in finalists
        invariant forall j :: 0 <= j < i ==> SameData(layer[finalists[j]], layer[finalists[0]])
        invariant SameData(layer[least], layer[finalists[0]])
      {
        if !SameData(layer[finalists[i]], layer[finalists[0]]) {
          return None;
        }
        if Less(finalists[i], least) {
          least := finalists[i];
        }
      }
      r := Some(least);
    }

    /** Which entry of the layer stands for `target`; None refuses the layer. */
    static method Elect(ghost index: Index, ghost legacy: bool, layer: Records, target: Key, candidates: seq<Key>)
      returns (r: Option<Record>)
      requires candidates != [] && forall k :: k in candidates <==> k in Candidates(index, legacy, layer, target)
      ensures r.Some? ==> Elects(index, legacy, layer, target, r.value)
      ensures r.None? ==> !Electable(index, legacy, layer, target)
    {
      assert forall k :: k in candidates ==> k in Candidates(index, legacy, layer, target) && k in layer;
      var highest := Highest(layer, candidates);
      var finalists := OfRank(layer, candidates, highest);
      FinalistsAre(index, legacy, layer, target, candidates, highest, finalists);
      if target in finalists {
        return Some(layer[target]);
      }
      var least := Unanimous(layer, finalists);
      if least.None? {
        Disagreement(index, legacy, layer, target, finalists);
        return None;
      }
      r := Some(layer[least.value]);
    }

    /** The layer's keys grouped under the ids they name. */
    method Group(entries: seq<(Key, Record)>, legacy: bool) returns (grouped: map<Key, seq<Key>>)
      ensures grouped.Keys == Targets(index, legacy, LayerOf(entries))
      ensures forall t :: t in grouped ==>
                grouped[t] != [] && forall k :: k in grouped[t] <==> k in Candidates(index, legacy, LayerOf(entries), t)
    {
      grouped := map[];
      for i := 0 to |entries|
        invariant grouped.Keys == Targets(index, legacy, LayerOf(entries[..i]))
        invariant forall t :: t in grouped ==>
                    grouped[t] != [] && forall k :: k in grouped[t] <==>
                        k in Candidates(index, legacy, LayerOf(entries[..i]), t)
      {
        assert entries[..i + 1][..i] == entries[..i];
        var k := entries[i].0;
        var t := TargetOf(index, legacy, k);
        TargetsGrow(index, legacy, LayerOf(entries[..i]), k, entries[i].1);
        forall x ensures Candidates(index, legacy, LayerOf(entries[..i + 1]), x)
                         == Candidates(index, legacy, LayerOf(entries[..i]), x) + if t == x then {k} else {} {
          CandidatesGrow(index, legacy, LayerOf(entries[..i]), k, entries[i].1, x);
        }
        grouped := grouped[t := (if t in grouped then grouped[t] else []) + [k]];
      }
      assert entries[..|entries|] == entries;
    }

    /** Elect one record for `t` and, where it may, put it in place. */
    method InstallOne(layer: Records, t: Key, candidates: seq<Key>, learned: bool, legacy: bool) returns (ok: bool)
      requires candidates != [] && t in Targets(index, legacy, layer)
      requires forall k :: k in candidates <==> k in Candidates(index, legacy, layer, t)
      modifies this`records
      ensures ok <==> Electable(index, legacy, layer, t)
      ensures ok ==> t in records && InstalledAt(old(records), index, layer, learned, legacy, t, records[t])
      ensures records.Keys == old(records).Keys + if ok then {t} else {}
      ensures forall k :: k in old(records) && k != t ==> records[k] == old(records)[k]
    {
      var r := Elect(index, legacy, layer, t, candidates);
      ok := r.Some?;
      if ok && (t !in records || learned) {
        records := records[t := Adopted(records, index, layer, legacy, t, r.value)];
      }
    }

    /** Elect and adopt one record per id the layer names. */
    method InstallRecords(entries: seq<(Key, Record)>, learned: bool, legacy: bool) returns (ok: bool)
      modifies this`records
      ensures ok <==> AllElectable(index, LayerOf(entries), legacy)
      ensures ok ==> Installs(old(records), index, LayerOf(entries), learned, legacy, records)
    {
      var layer := LayerOf(entries);
      var grouped := Group(entries, legacy);
      ghost var before := records;
      var todo := grouped.Keys;
      while todo != {}
        invariant todo <= grouped.Keys
        invariant Progress(before, index, layer, learned, legacy, todo, records)
        decreases todo
      {
        var t :| t in todo;
        ghost var now := records;
        var installed := InstallOne(layer, t, grouped[t], learned, legacy);
        if !installed {
          return false;
        }
        ProgressStep(before, index, layer, learned, legacy, todo, now, t, records);
        todo := todo - {t};
      }
      ok := true;
    }

    /**
      Install one validated layer.  A legacy layer is refused only when equally ranked entries of
      one id disagree; a current one only when an alias would have two owners.
    */
    method Install(entries: seq<(Key, Record)>, learned: bool, legacy: bool) returns (ok: bool)
      requires Consistent(records, index) && (legacy ==> Lifted(LayerOf(entries)))
      modifies this`records, this`index
      ensures ok ==> Installs(old(records), old(index), LayerOf(entries), learned, legacy, records)
      ensures ok ==> Consistent(records, index)
      ensures ok <==> Installable(old(records), old(index), LayerOf(entries), learned, legacy)
    {
      ghost var layer, before := LayerOf(entries), records;
      ok := InstallRecords(entries, learned, legacy);
      CurrentAllElectable(index, layer);
      if !ok {
        return;
      }
      InstalledOwnKeys(before, index, layer, learned, legacy, records);
      NormalizedOwnKeys(records);
      forall after | Installs(before, index, layer, learned, legacy, after) ensures after == records {
        InstallIsDetermined(before, index, layer, learned, legacy, after, records);
      }
      if legacy {
        LegacyInstallHasOneOwner(before, index, layer, learned, records);
      }
      ok := Reindex();
      if ok {
        ConsistentHasOneOwner(records, index);
      }
    }

    /** Overlay a saved catalog: its records, learned, and its queues. */
    method Load(entries: seq<(Key, Record)>, legacy: bool, queued: map<Key, string>, marks: map<Key, string>,
                again: set<Key>)
      returns (ok: bool)
      requires Valid() && (legacy ==> Lifted(LayerOf(entries))) && MarksQueued(queued, marks)
      modifies this
      ensures ok <==> Installable(old(records), old(index), LayerOf(entries), true, legacy)
      ensures ok ==> Valid() && Installs(old(records), old(index), LayerOf(entries), true, legacy, records)
      ensures ok ==> pending == queued && unanswered == marks && restaged == again
    {
      ok := Install(entries, true, legacy);
      if ok {
        pending, unanswered, restaged := queued, marks, again;
      }
    }
  }
}
