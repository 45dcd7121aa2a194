/** What holds over sequences of catalog operations, resubmissions, listings and reloads. */
module CatalogTheorems {
  import opened Catalog

  // ---------------------------------------------------------------- runs of add and merge

  datatype State = State(records: Records, index: Index)

  datatype Op = Add(record: Record) | Merge(imports: Records)

  ghost function AllAliases(records: Records): set<Key> {
    set k, a | k in records && a in records[k].aliases :: a
  }

  /** The index the alias lists determine. */
  ghost function IndexOf(records: Records): Index {
    map a | a in AllAliases(records) :: var k :| k in records && a in records[k].aliases; k
  }

  lemma IndexOfIsInverse(records: Records)
    requires OneOwner(records)
    ensures Inverse(records, IndexOf(records))
  {
    forall k, a | k in records && a in records[k].aliases
      ensures a in IndexOf(records) && IndexOf(records)[a] == k {
      assert a in AllAliases(records);
    }
  }

  ghost function Exec(s: State, op: Op): State {
    match op
    case Add(r) => State(Added(s.records, s.index, r), AddedIndex(s.records, s.index, r))
    case Merge(imports) =>
      if Clashes(s.index, imports) then s
      else State(Merged(s.records, imports), IndexOf(Merged(s.records, imports)))
  }

  ghost predicate Valid(s: State) { Consistent(s.records, s.index) }

  ghost predicate Allowed(op: Op) { op.Merge? ==> Decoded(op.imports) }

  /** Nothing is lost from `a` to `b`: records, aliases, what every alias names, and the trust held under each id. */
  ghost predicate Remembers(a: State, b: State) {
    && (forall k :: k in a.records ==>
          k in b.records && a.records[k].aliases <= b.records[k].aliases &&
              AsTrusted(b.records[k].grade, a.records[k].grade))
    && (forall x :: x in a.index ==> x in b.index && b.index[x] == a.index[x])
  }

  lemma RemembersOn(a: State, b: State, c: State)
    requires Remembers(a, b) && Remembers(b, c)
    ensures Remembers(a, c)
  {
    forall k | k in a.records
      ensures k in c.records && a.records[k].aliases <= c.records[k].aliases
              && AsTrusted(c.records[k].grade, a.records[k].grade) {
      assert k in b.records && AsTrusted(b.records[k].grade, a.records[k].grade);
      assert AsTrusted(c.records[k].grade, b.records[k].grade);
    }
  }

  lemma AddRemembers(s: State, r: Record)
    requires Valid(s)
    ensures Valid(Exec(s, Add(r))) && Remembers(s, Exec(s, Add(r)))
  {
    AddedConsistent(s.records, s.index, r);
  }

  lemma MergeRemembers(s: State, imports: Records)
    requires Valid(s) && Decoded(imports)
    ensures Valid(Exec(s, Merge(imports))) && Remembers(s, Exec(s, Merge(imports)))
  {
    if !Clashes(s.index, imports) {
      var merged := Merged(s.records, imports);
      MergedOneOwner(s.records, s.index, imports);
      IndexOfIsInverse(merged);
      forall k | k in s.records
        ensures k in merged && s.records[k].aliases <= merged[k].aliases &&
                AsTrusted(merged[k].grade, s.records[k].grade) {
      }
      forall x | x in s.index ensures x in IndexOf(merged) && IndexOf(merged)[x] == s.index[x] {
        assert x in merged[s.index[x]].aliases;
      }
    }
  }

  ghost function Run(s: State, ops: seq<Op>): State {
    if ops == [] then s else Exec(Run(s, ops[..|ops| - 1]), ops[|ops| - 1])
  }

  /** Over every sequence of adds and merges the index stays the inverse of the alias lists and nothing is forgotten. */
  lemma {:induction false} RunsRemember(s: State, ops: seq<Op>)
    requires Valid(s) && forall i :: 0 <= i < |ops| ==> Allowed(ops[i])
    ensures Valid(Run(s, ops)) && Remembers(s, Run(s, ops))
  {
    if ops != [] {
      var before := Run(s, ops[..|ops| - 1]);
      RunsRemember(s, ops[..|ops| - 1]);
      match ops[|ops| - 1] {
        case Add(r) => AddRemembers(before, r);
        case Merge(imports) => MergeRemembers(before, imports);
      }
      RemembersOn(s, before, Run(s, ops));
    }
  }

  /** Trust is never lost over a run: what was verified stays so, and nothing known becomes unknown. */
  lemma {:induction false} GradesOverRuns(s: State, ops: seq<Op>, k: Key)
    requires Valid(s) && (forall i :: 0 <= i < |ops| ==> Allowed(ops[i])) && k in s.records
    ensures k in Run(s, ops).records
    ensures var now := Run(s, ops).records[k].grade;
            match s.records[k].grade
            case Verified => now.Verified?
            case Corroborated => now.Verified? || now.Corroborated?
            case Unverified => !now.Unknown?
            case Unknown(_) => true
  {
    RunsRemember(s, ops);
  }

  // ---------------------------------------------------------------- what one operation comes to

  /** The record kept under an id, and where its grade, source and contents come from. */
  predicate SaysWhat(now: Record, from: Record) {
    now.grade == from.grade && now.source == from.source && now.body == from.body
  }

  /**
    Adding a record: it goes to the id its key already names, keeps every alias held there, and says
    what was submitted unless what was held is more trusted.  Nothing else changes, and only the
    submitted key and the id become names.
  */
  lemma AddMeans(s: State, r: Record)
    requires Valid(s)
    ensures var now := Exec(s, Add(r));
            var id := if r.key in s.index then s.index[r.key] else r.key;
            && now.records.Keys == s.records.Keys + {id}
            && (forall k :: k in s.records && k != id ==> now.records[k] == s.records[k])
            && (id !in s.records ==> SaysWhat(now.records[id], r) && now.records[id].aliases == {r.key, id})
            && (id in s.records ==>
                  && now.records[id].aliases == s.records[id].aliases + {r.key, id}
                  && SaysWhat(now.records[id], if AsTrusted(r.grade, s.records[id].grade) then r else s.records[id]))
            && now.index.Keys == s.index.Keys + {r.key, id} && now.index[r.key] == id && now.index[id] == id
  {
    AddedConsistent(s.records, s.index, r);
  }

  /**
    Merging an import that contradicts no alias: a record is replaced exactly if what is held is less
    trusted, the replacement is marked as coming from the commons, and keeps every alias.
  */
  lemma MergeMeans(s: State, imports: Records)
    requires Valid(s) && Decoded(imports)
    requires forall k, a :: k in imports && a in imports[k].aliases && a in s.index ==> s.index[a] == k
    ensures var now := Exec(s, Merge(imports)).records;
            && now.Keys == s.records.Keys + imports.Keys
            && (forall k :: k in imports && k !in s.records ==>
                  now[k] == imports[k].(source := "commons"))
            && (forall k :: k in imports && k in s.records ==>
                  now[k] == if AsTrusted(s.records[k].grade, imports[k].grade) then s.records[k]
                            else imports[k].(source := "commons", aliases := imports[k].aliases + s.records[k].aliases))
            && (forall k :: k in s.records && k !in imports ==> now[k] == s.records[k])
  {
    forall k | k in imports && k !in s.records
      ensures Merged(s.records, imports)[k] == imports[k].(source := "commons") {
      assert imports[k].aliases + {} == imports[k].aliases;
    }
  }

  /** The id an entry of a layer goes to: its own key, or for a legacy layer what that key already names. */
  function IdOf(index: Index, legacy: bool, k: Key): Key { if legacy && k in index then index[k] else k }

  /** `k` is an entry for `id`, and no entry for it is more trusted. */
  ghost predicate MostTrusted(index: Index, legacy: bool, layer: Records, id: Key, k: Key) {
    && k in layer && IdOf(index, legacy, k) == id
    && forall j :: j in layer && IdOf(index, legacy, j) == id ==> AsTrusted(layer[k].grade, layer[j].grade)
  }

  /**
    Installing a layer: no record is lost and none but a learned layer's are replaced.  What a record
    is replaced by is one of the layer's most trusted entries for that id, the one listed under the
    id itself if it is among them; it keeps the aliases held, and gains the keys of its entries.
  */
  lemma InstallMeans(records: Records, index: Index, layer: Records, learned: bool, legacy: bool, after: Records,
                     id: Key)
    requires Installs(records, index, layer, learned, legacy, after)
    ensures id in after <==> id in records || exists k :: k in layer && IdOf(index, legacy, k) == id
    ensures id in records && !learned ==> after[id] == records[id]
    ensures id in records && (forall k :: k in layer ==> IdOf(index, legacy, k) != id) ==> after[id] == records[id]
    ensures (exists k :: k in layer && IdOf(index, legacy, k) == id) && (id !in records || learned) ==>
              && after[id].key == id && id in after[id].aliases
              && (id in records ==> records[id].aliases <= after[id].aliases)
              && (forall k :: k in layer && IdOf(index, legacy, k) == id ==> k in after[id].aliases)
              && (MostTrusted(index, legacy, layer, id, id) ==> SaysWhat(after[id], layer[id]))
              && exists k :: MostTrusted(index, legacy, layer, id, k) && SaysWhat(after[id], layer[k])
  {
    assert id in Targets(index, legacy, layer) <==> exists k :: k in layer && IdOf(index, legacy, k) == id;
    if id in after {
      assert InstalledAt(records, index, layer, learned, legacy, id, after[id]);
      if id in Targets(index, legacy, layer) && (id !in records || learned) {
        var r :| Elects(index, legacy, layer, id, r) && after[id] == Adopted(records, index, layer, legacy, id, r);
        FinalistsAreMostTrusted(index, legacy, layer, id);
        var k := if id in Finalists(index, legacy, layer, id) then id else
                   var k :| k in Finalists(index, legacy, layer, id) && layer[k] == r; k;
        assert MostTrusted(index, legacy, layer, id, k) && SaysWhat(after[id], layer[k]);
      }
    }
  }

  lemma FinalistsAreMostTrusted(index: Index, legacy: bool, layer: Records, id: Key)
    ensures forall k :: k in Finalists(index, legacy, layer, id) <==> MostTrusted(index, legacy, layer, id, k)
    ensures forall k :: k in Candidates(index, legacy, layer, id) <==> k in layer && IdOf(index, legacy, k) == id
  {
  }

  lemma {:induction false} SomeMostTrusted(layer: Records, keys: set<Key>) returns (best: Key)
    requires keys != {} && keys <= layer.Keys
    ensures best in keys && forall j :: j in keys ==> AsTrusted(layer[best].grade, layer[j].grade)
  {
    var k :| k in keys;
    best := k;
    var rest := keys - {k};
    if rest != {} {
      var other := SomeMostTrusted(layer, rest);
      if !AsTrusted(layer[k].grade, layer[other].grade) {
        best := other;
      }
    }
    forall j | j in keys ensures AsTrusted(layer[best].grade, layer[j].grade) {
      assert j == k || j in rest;
    }
  }

  /** A legacy layer is refused exactly when two most trusted entries of one id differ and none is listed under it. */
  lemma ElectableIff(index: Index, legacy: bool, layer: Records, id: Key)
    requires id in Targets(index, legacy, layer)
    ensures !Electable(index, legacy, layer, id) ==>
              && !MostTrusted(index, legacy, layer, id, id)
              && exists j, k :: MostTrusted(index, legacy, layer, id, j) && MostTrusted(index, legacy, layer, id, k)
                                && !SaysWhat(layer[j], layer[k])
    ensures Electable(index, legacy, layer, id) ==>
              || MostTrusted(index, legacy, layer, id, id)
              || forall j, k :: MostTrusted(index, legacy, layer, id, j) && MostTrusted(index, legacy, layer, id, k) ==>
                                  SaysWhat(layer[j], layer[k])
  {
    FinalistsAreMostTrusted(index, legacy, layer, id);
    var finalists := Finalists(index, legacy, layer, id);
    if Electable(index, legacy, layer, id) {
      var r :| Elects(index, legacy, layer, id, r);
    } else {
      if id in finalists {
        assert Elects(index, legacy, layer, id, layer[id]);
      }
      var k := SomeMostTrusted(layer, Candidates(index, legacy, layer, id));
      assert k in finalists && !Elects(index, legacy, layer, id, layer[k]);
    }
  }

  // ---------------------------------------------------------------- resubmission

  /** Within one list of hints, accepted hints for one key carry one example. */
  ghost predicate OneExample(closed: set<Key>, lint: Lint, hints: seq<(Key, string)>) {
    forall i, j :: 0 <= i < |hints| && 0 <= j < |hints| && hints[i].0 == hints[j].0 && Accepts(closed, hints[i].0) ==>
      lint(hints[i].1) == lint(hints[j].1)
  }

  ghost predicate AllQueued(pending: map<Key, string>, closed: set<Key>, lint: Lint, hints: seq<(Key, string)>) {
    forall i :: 0 <= i < |hints| && Accepts(closed, hints[i].0) ==>
      hints[i].0 in pending && pending[hints[i].0] == lint(hints[i].1)
  }

  /** Submitting counts nothing exactly when every accepted hint is already queued, and then changes nothing. */
  lemma {:induction false} NothingNewIff(q: Queue, closed: set<Key>, lint: Lint, hints: seq<(Key, string)>)
    ensures var r := Submitted(q, closed, lint, hints);
            && r.count >= q.count
            && (r.count == q.count <==> AllQueued(q.pending, closed, lint, hints))
            && (r.count == q.count ==> r == q)
  {
    if hints != [] {
      NothingNewIff(q, closed, lint, hints[..|hints| - 1]);
    }
  }

  /** After submitting, each accepted key is queued with the example of its last hint. */
  lemma {:induction false} LastHintStands(q: Queue, closed: set<Key>, lint: Lint, hints: seq<(Key, string)>, i: nat)
    requires i < |hints| && Accepts(closed, hints[i].0)
    requires forall j :: i < j < |hints| ==> hints[j].0 != hints[i].0 || lint(hints[j].1) == lint(hints[i].1)
    ensures var p := Submitted(q, closed, lint, hints).pending;
            hints[i].0 in p && p[hints[i].0] == lint(hints[i].1)
  {
    if i < |hints| - 1 {
      LastHintStands(q, closed, lint, hints[..|hints| - 1], i);
    }
  }

  /** Submitting the same hints again queues nothing exactly when no accepted key came with two different examples. */
  lemma ResubmissionIsIdempotentIff(q: Queue, closed: set<Key>, lint: Lint, hints: seq<(Key, string)>)
    ensures var once := Submitted(q, closed, lint, hints);
            var twice := Submitted(once, closed, lint, hints);
            && (twice.count == once.count <==> OneExample(closed, lint, hints))
            && (OneExample(closed, lint, hints) ==> twice == once)
  {
    var once := Submitted(q, closed, lint, hints);
    NothingNewIff(once, closed, lint, hints);
    if OneExample(closed, lint, hints) {
      forall i | 0 <= i < |hints| && Accepts(closed, hints[i].0)
        ensures hints[i].0 in once.pending && once.pending[hints[i].0] == lint(hints[i].1) {
        LastHintStands(q, closed, lint, hints, i);
      }
    }
  }

  /** Two hints for one new merchant with different examples: every resubmission queues both again. */
  lemma ResubmissionCanQueueAgain(key: Key, a: string, b: string, lint: Lint)
    requires key != "" && lint(a) != lint(b)
    ensures var once := Submitted(Queue(map[], map[], 0), {}, lint, [(key, a), (key, b)]);
            Submitted(once, {}, lint, [(key, a), (key, b)]).count == once.count + 2
  {
    var hints := [(key, a), (key, b)];
    assert hints[..1] == [(key, a)] && hints[..1][..0] == [];
    var q := Queue(map[], map[], 0);
    var once := Submitted(q, {}, lint, hints);
    assert Submitted(q, {}, lint, hints[..1]).pending[key] == lint(a);
    assert once.pending[key] == lint(b);
    assert Submitted(once, {}, lint, hints[..1]).pending[key] == lint(a);
  }

  /** Some hint names the key, and it is one the queue takes: not empty, and not already answered for. */
  predicate Asked(closed: set<Key>, hints: seq<(Key, string)>, key: Key) {
    key != "" && key !in closed && exists i :: 0 <= i < |hints| && hints[i].0 == key
  }

  /** Every hint for the key carries the example already queued. */
  predicate NothingNew(q: Queue, lint: Lint, hints: seq<(Key, string)>, key: Key) {
    key in q.pending && forall i :: 0 <= i < |hints| && hints[i].0 == key ==> lint(hints[i].1) == q.pending[key]
  }

  /** The example of the last hint for the key. */
  function LastExample(lint: Lint, hints: seq<(Key, string)>, key: Key): string
    requires exists i :: 0 <= i < |hints| && hints[i].0 == key
  {
    var n := |hints| - 1;
    if hints[n].0 == key then lint(hints[n].1) else LastExample(lint, hints[..n], key)
  }

  /**
    After submitting: a key asked for is queued with the example of its last hint and its mark
    survives only if no hint brought anything new; every other key is as it was.
  */
  lemma {:induction false} SubmittedMeans(q: Queue, closed: set<Key>, lint: Lint, hints: seq<(Key, string)>, key: Key)
    ensures var r := Submitted(q, closed, lint, hints);
            && (Asked(closed, hints, key) ==> key in r.pending && r.pending[key] == LastExample(lint, hints, key))
            && (!Asked(closed, hints, key) ==> SameAt(q.pending, r.pending, key))
            && (Asked(closed, hints, key) && !NothingNew(q, lint, hints, key) ==> key !in r.unanswered)
            && (!Asked(closed, hints, key) || NothingNew(q, lint, hints, key) ==>
                  SameAt(q.unanswered, r.unanswered, key))
  {
    if hints != [] {
      var n := |hints| - 1;
      SubmittedMeans(q, closed, lint, hints[..n], key);
      if hints[n].0 != key {
        OtherHint(q, closed, lint, hints, key);
      } else {
        OwnHint(q, closed, lint, hints, key);
      }
    }
  }

  predicate SameAt(a: map<Key, string>, b: map<Key, string>, key: Key) {
    (key in a <==> key in b) && (key in a ==> b[key] == a[key])
  }

  lemma OtherHint(q: Queue, closed: set<Key>, lint: Lint, hints: seq<(Key, string)>, key: Key)
    requires hints != [] && hints[|hints| - 1].0 != key
    ensures var n := |hints| - 1;
            && (Asked(closed, hints, key) <==> Asked(closed, hints[..n], key))
            && (NothingNew(q, lint, hints, key) <==> NothingNew(q, lint, hints[..n], key))
            && (Asked(closed, hints, key) ==> LastExample(lint, hints, key) == LastExample(lint, hints[..n], key))
  {
    var n := |hints| - 1;
    assert forall i :: 0 <= i < n ==> hints[..n][i] == hints[i];
    if Asked(closed, hints, key) {
      var i :| 0 <= i < |hints| && hints[i].0 == key;
      assert hints[..n][i].0 == key;
    }
  }

  lemma OwnHint(q: Queue, closed: set<Key>, lint: Lint, hints: seq<(Key, string)>, key: Key)
    requires hints != [] && hints[|hints| - 1].0 == key
    ensures var n := |hints| - 1;
            && (Asked(closed, hints, key) <==> key != "" && key !in closed)
            && (NothingNew(q, lint, hints, key) <==>
                NothingNew(q, lint, hints[..n], key) && lint(hints[n].1) == q.pending[key])
            && (NothingNew(q, lint, hints[..n], key) && Asked(closed, hints[..n], key) ==>
                LastExample(lint, hints[..n], key) == q.pending[key])
  {
    var n := |hints| - 1;
    assert forall i :: 0 <= i < n ==> hints[..n][i] == hints[i];
    if Asked(closed, hints[..n], key) {
      LastExampleOccurs(lint, hints[..n], key);
    }
  }

  lemma {:induction false} LastExampleOccurs(lint: Lint, hints: seq<(Key, string)>, key: Key)
    requires exists i :: 0 <= i < |hints| && hints[i].0 == key
    ensures exists i :: 0 <= i < |hints| && hints[i].0 == key && lint(hints[i].1) == LastExample(lint, hints, key)
                        && forall j :: i < j < |hints| ==> hints[j].0 != key
  {
    var n := |hints| - 1;
    if hints[n].0 != key {
      LastExampleOccurs(lint, hints[..n], key);
    }
  }

  /** Marking a batch: exactly the batch's queued keys become marked, each with its queued example. */
  lemma {:induction false} MarkedMeans(pending: map<Key, string>, before: map<Key, string>, keys: seq<Key>)
    ensures var now := Marked(pending, before, keys);
            && (forall k :: k in now <==> k in before || (k in keys && k in pending))
            && forall k :: k in now ==> now[k] == if k in keys && k in pending then pending[k] else before[k]
  {
    if keys != [] {
      var n := |keys| - 1;
      MarkedMeans(pending, before, keys[..n]);
      assert forall k :: k in keys <==> k in keys[..n] || k == keys[n];
    }
  }

  // ---------------------------------------------------------------- listings of a layer

  lemma SameEntriesSameLayer(a: seq<(Key, Record)>, b: seq<(Key, Record)>)
    requires DistinctKeys(a) && DistinctKeys(b) && forall e :: e in a <==> e in b
    ensures LayerOf(a) == LayerOf(b)
  {
    LayerOfLooksUp(a);
    LayerOfLooksUp(b);
    var x, y := LayerOf(a), LayerOf(b);
    forall k ensures k in x <==> k in y {
      if k in x {
        assert (k, x[k]) in a;
      }
      if k in y {
        assert (k, y[k]) in b;
      }
    }
    forall k | k in x ensures x[k] == y[k] {
      assert (k, x[k]) in b;
    }
  }

  /**
    Two listings of the same entries, installed over the same catalog: both are refused or
    neither, and neither outcome differs from the other.
  */
  lemma ListingOrderIsIrrelevant(s: State, a: seq<(Key, Record)>, b: seq<(Key, Record)>, learned: bool, legacy: bool)
    requires DistinctKeys(a) && DistinctKeys(b) && (forall e :: e in a <==> e in b) && (legacy ==> Lifted(LayerOf(a)))
    ensures Installable(s.records, s.index, LayerOf(a), learned, legacy)
            <==> Installable(s.records, s.index, LayerOf(b), learned, legacy)
    ensures forall x, y ::
              (Installs(s.records, s.index, LayerOf(a), learned, legacy, x) &&
               Installs(s.records, s.index, LayerOf(b), learned, legacy, y))
              ==> x == y
  {
    SameEntriesSameLayer(a, b);
    forall x, y | Installs(s.records, s.index, LayerOf(a), learned, legacy, x)
                  && Installs(s.records, s.index, LayerOf(b), learned, legacy, y)
      ensures x == y {
      InstallIsDetermined(s.records, s.index, LayerOf(a), learned, legacy, x, y);
    }
  }

  // ---------------------------------------------------------------- saving and loading

  /** An entry that already carries every alias of the record it replaces is restored as it was. */
  lemma RestoredAt(records: Records, index: Index, layer: Records, t: Key, now: Record)
    requires t in layer && layer[t].key == t && t in layer[t].aliases && PriorAliases(records, t) <= layer[t].aliases
    requires InstalledAt(records, index, layer, true, false, t, now)
    ensures now == layer[t]
  {
    CurrentElects(index, layer, t);
    assert TargetOf(index, false, t) == t;
    var r :| Elects(index, false, layer, t, r) && now == Adopted(records, index, layer, false, t, r);
    AdoptedIsDetermined(records, index, layer, false, t, r, layer[t]);
    assert Candidates(index, false, layer, t) == {t};
    assert layer[t].aliases + {t} + {t} + PriorAliases(records, t) == layer[t].aliases;
  }

  lemma CurrentTargets(index: Index, layer: Records)
    ensures Targets(index, false, layer) == layer.Keys
  {
    forall k | k in layer ensures k in Targets(index, false, layer) {
      assert TargetOf(index, false, k) == k;
    }
  }

  lemma ReloadedAt(shipped: State, saved: State, after: Records, t: Key)
    requires Valid(saved) && Remembers(shipped, saved)
    requires Installs(shipped.records, shipped.index, saved.records, true, false, after)
    requires t in saved.records && t in after
    ensures after[t] == saved.records[t]
  {
    assert PriorAliases(shipped.records, t) <= saved.records[t].aliases;
    RestoredAt(shipped.records, shipped.index, saved.records, t, after[t]);
  }

  lemma ReloadedKeys(shipped: State, saved: State, after: Records)
    requires forall k :: k in shipped.records ==> k in saved.records
    requires after.Keys == shipped.records.Keys + Targets(shipped.index, false, saved.records)
    ensures after.Keys == saved.records.Keys
  {
    CurrentTargets(shipped.index, saved.records);
  }

  lemma ReloadOver(shipped: State, saved: State, after: Records)
    requires Valid(saved) && Remembers(shipped, saved)
    requires Installs(shipped.records, shipped.index, saved.records, true, false, after)
    ensures after == saved.records
  {
    ReloadedKeys(shipped, saved, after);
    forall t | t in after ensures after[t] == saved.records[t] {
      ReloadedAt(shipped, saved, after, t);
    }
  }

  /**
    Loading what was saved, over the shipped layer it grew from, restores exactly the saved
    records, without an alias conflict.
  */
  lemma ReloadRestores(shipped: State, ops: seq<Op>, after: Records)
    requires Valid(shipped) && forall i :: 0 <= i < |ops| ==> Allowed(ops[i])
    requires Installs(shipped.records, shipped.index, Run(shipped, ops).records, true, false, after)
    ensures after == Run(shipped, ops).records && OneOwner(after)
  {
    RunsRemember(shipped, ops);
    ReloadOver(shipped, Run(shipped, ops), after);
    ConsistentHasOneOwner(Run(shipped, ops).records, Run(shipped, ops).index);
  }

  /** Loading what a run of adds and merges saved, over the layer it started from, always succeeds and restores it. */
  method Reload(store: Store, entries: seq<(Key, Record)>, queued: map<Key, string>, marks: map<Key, string>,
                again: set<Key>,
                ghost shipped: State, ghost ops: seq<Op>)
    returns (ok: bool)
    requires store.Valid() && shipped == State(store.records, store.index)
    requires forall i :: 0 <= i < |ops| ==> Allowed(ops[i])
    requires LayerOf(entries) == Run(shipped, ops).records && MarksQueued(queued, marks)
    modifies store
    ensures ok && store.Valid() && State(store.records, store.index) == Run(shipped, ops)
    ensures store.pending == queued && store.unanswered == marks && store.restaged == again
  {
    forall after | Installs(shipped.records, shipped.index, LayerOf(entries), true, false, after)
      ensures after == Run(shipped, ops).records && OneOwner(after) {
      ReloadRestores(shipped, ops, after);
    }
    ok := store.Load(entries, false, queued, marks, again);
    RunsRemember(shipped, ops);
    IndexIsDetermined(store.records, store.index, Run(shipped, ops).index);
  }
}
