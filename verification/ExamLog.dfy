/**
  The hash-chained run log and the resume state rebuilt from it.  The hash is any function of a
  record's body; what the chain gives is proved for two logs between whose bodies the hash does
  not collide.  Costs are counted in a smallest unit of money.
*/
module ExamLog {

  type Hash = string

  const GENESIS: Hash := ""

  datatype Cell = Cell(doc: string, candidate: string, run: int, mode: string)

  datatype Payload = Payload(cell: Cell, ok: bool, cost: int, rest: string)

  datatype Body = Body(payload: Payload, prev: Hash)

  datatype Record = Record(body: Body, hash: Hash)

  type Log = seq<Record>

  type Hasher = Body -> Hash

  ghost predicate NeverGenesis(h: Hasher, log: Log) { forall i :: 0 <= i < |log| ==> h(log[i].body) != GENESIS }

  /** No record of one log has the hash of a different record of the other, and none has the genesis value. */
  ghost predicate Distinguishes(h: Hasher, a: Log, b: Log) {
    && NeverGenesis(h, a) && NeverGenesis(h, b)
    && forall i, j :: 0 <= i < |a| && 0 <= j < |b| && h(a[i].body) == h(b[j].body) ==> a[i].body == b[j].body
  }

  // ---------------------------------------------------------------- replay

  function LastHash(log: Log): Hash { if log == [] then GENESIS else log[|log| - 1].hash }

  function Completed(log: Log): set<Cell> {
    if log == [] then {} else
      var r := log[|log| - 1];
      Completed(log[..|log| - 1]) + if r.body.payload.ok then {r.body.payload.cell} else {}
  }

  function Spent(log: Log): int {
    if log == [] then 0 else Spent(log[..|log| - 1]) + log[|log| - 1].body.payload.cost
  }

  lemma ReplayGrows(log: Log, r: Record)
    ensures LastHash(log + [r]) == r.hash
    ensures Completed(log + [r]) == Completed(log) + if r.body.payload.ok then {r.body.payload.cell} else {}
    ensures Spent(log + [r]) == Spent(log) + r.body.payload.cost
  {
    assert (log + [r])[..|log|] == log;
  }

  predicate OkAt(log: Log, p: nat, c: Cell) {
    p < |log| && log[p].body.payload.ok && log[p].body.payload.cell == c
  }

  /** A cell is done exactly when some record of it is ok. */
  lemma {:induction false} CompletedIff(log: Log, c: Cell)
    ensures c in Completed(log) <==> exists p: nat :: OkAt(log, p, c)
  {
    if log != [] {
      var n := |log| - 1;
      CompletedIff(log[..n], c);
      if p: nat :| OkAt(log, p, c) {
        assert p == n || OkAt(log[..n], p, c);
      }
      if p: nat :| OkAt(log[..n], p, c) {
        assert OkAt(log, p, c);
      }
      assert OkAt(log, n, c) <==> log[n].body.payload.ok && log[n].body.payload.cell == c;
    }
  }

  /** What was spent is what the records cost, ok or not. */
  lemma {:induction false} SpentAddsUp(a: Log, b: Log)
    ensures Spent(a + b) == Spent(a) + Spent(b)
    ensures forall r :: Spent([r]) == r.body.payload.cost
  {
    forall r ensures Spent([r]) == r.body.payload.cost {
      assert [r][..0] == [];
    }
    if b == [] {
      assert a + b == a;
    } else {
      SpentAddsUp(a, b[..|b| - 1]);
      assert (a + b)[..|a + b| - 1] == a + b[..|b| - 1];
    }
  }

  // ---------------------------------------------------------------- the chain

  predicate LinkedTo(r: Record, prev: Hash, h: Hasher) { r.body.prev == prev && r.hash == h(r.body) }

  predicate IntactAt(log: Log, i: nat, h: Hasher)
    requires i < |log|
  {
    LinkedTo(log[i], LastHash(log[..i]), h)
  }

  predicate Intact(log: Log, h: Hasher) { forall i :: 0 <= i < |log| ==> IntactAt(log, i, h) }

  function Chained(payload: Payload, log: Log, h: Hasher): Record {
    var body := Body(payload, LastHash(log));
    Record(body, h(body))
  }

  lemma IntactPrefix(log: Log, n: nat, h: Hasher)
    requires n <= |log| && forall i :: 0 <= i < n ==> IntactAt(log, i, h)
    ensures Intact(log[..n], h)
  {
    forall i | 0 <= i < n ensures IntactAt(log[..n], i, h) {
      assert IntactAt(log, i, h);
      assert log[..n][..i] == log[..i];
    }
  }

  lemma IntactFront(log: Log, n: nat, h: Hasher)
    requires n <= |log| && Intact(log[..n], h)
    ensures forall i :: 0 <= i < n ==> IntactAt(log, i, h)
  {
    forall i | 0 <= i < n ensures IntactAt(log, i, h) {
      assert IntactAt(log[..n], i, h);
      assert log[..n][..i] == log[..i];
    }
  }

  class RunStore {
    const h: Hasher
    var file: Log
    var lastHash: Hash
    var completed: set<Cell>
    var spent: int

    /** The resume state is exactly what a replay of the file gives. */
    ghost predicate Valid()
      reads this
    {
      lastHash == LastHash(file) && completed == Completed(file) && spent == Spent(file)
    }

    constructor (h: Hasher, existing: Log)
      ensures Valid() && file == existing && this.h == h
    {
      this.h := h;
      file := existing;
      var last, done, total := GENESIS, {}, 0;
      for i := 0 to |existing|
        invariant last == LastHash(existing[..i]) && done == Completed(existing[..i]) && total == Spent(existing[..i])
      {
        assert existing[..i + 1][..i] == existing[..i];
        last := existing[i].hash;
        if existing[i].body.payload.ok {
          done := done + {existing[i].body.payload.cell};
        }
        total := total + existing[i].body.payload.cost;
      }
      assert existing[..|existing|] == existing;
      lastHash, completed, spent := last, done, total;
    }

    method Append(payload: Payload)
      requires Valid()
      modifies this
      ensures Valid()
      ensures file == old(file) + [Chained(payload, old(file), h)]
    {
      var body := Body(payload, lastHash);
      var record := Record(body, h(body));
      ReplayGrows(file, record);
      file := file + [record];
      lastHash := record.hash;
      if payload.ok {
        completed := completed + {payload.cell};
      }
      spent := spent + payload.cost;
    }

    /** Recompute the chain: the count is the length of the longest intact prefix. */
    method VerifyChain() returns (intact: bool, count: nat)
      ensures intact <==> Intact(file, h)
      ensures count <= |file| && Intact(file[..count], h) && (intact ==> count == |file|)
      ensures forall n :: count < n <= |file| ==> !Intact(file[..n], h)
    {
      var prev := GENESIS;
      count := 0;
      while count < |file|
        invariant count <= |file| && prev == LastHash(file[..count])
        invariant forall i :: 0 <= i < count ==> IntactAt(file, i, h)
      {
        if file[count].body.prev != prev || h(file[count].body) != file[count].hash {
          assert !IntactAt(file, count, h);
          IntactPrefix(file, count, h);
          forall n | count < n <= |file| ensures !Intact(file[..n], h) {
            if Intact(file[..n], h) {
              IntactFront(file, n, h);
            }
          }
          return false, count;
        }
        assert IntactAt(file, count, h);
        assert file[..count + 1][..count] == file[..count];
        prev := file[count].hash;
        count := count + 1;
      }
      IntactPrefix(file, count, h);
      intact := true;
    }
  }

  // ---------------------------------------------------------------- what the chain gives

  /** Every log built by appending verifies. */
  lemma AppendKeepsIntact(log: Log, payload: Payload, h: Hasher)
    requires Intact(log, h)
    ensures Intact(log + [Chained(payload, log, h)], h)
  {
    var more := log + [Chained(payload, log, h)];
    forall i | 0 <= i < |more| ensures IntactAt(more, i, h) {
      if i < |log| {
        assert IntactAt(log, i, h);
        assert more[..i] == log[..i];
      } else {
        assert more[..i] == log;
      }
    }
  }

  /** Two intact logs with the same final hash are identical, record for record. */
  lemma {:induction false} SameEndSameLog(a: Log, b: Log, h: Hasher)
    requires Distinguishes(h, a, b) && Intact(a, h) && Intact(b, h) && LastHash(a) == LastHash(b)
    ensures a == b
  {
    EndsOffGenesis(a, h);
    EndsOffGenesis(b, h);
    if a != [] {
      var (m, n) := (|a| - 1, |b| - 1);
      assert IntactAt(a, m, h) && IntactAt(b, n, h);
      assert a[m].body == b[n].body;
      IntactPrefix(a, m, h);
      IntactPrefix(b, n, h);
      SameEndSameLog(a[..m], b[..n], h);
      assert a == a[..m] + [a[m]] && b == b[..n] + [b[n]];
    }
  }

  lemma EndsOffGenesis(a: Log, h: Hasher)
    requires NeverGenesis(h, a) && Intact(a, h)
    ensures LastHash(a) == GENESIS <==> a == []
  {
    if a != [] {
      assert IntactAt(a, |a| - 1, h);
    }
  }

  /** The count `VerifyChain` returns is determined by the log. */
  ghost predicate IsCount(log: Log, count: nat, h: Hasher) {
    count <= |log| && Intact(log[..count], h) && forall n :: count < n <= |log| ==> !Intact(log[..n], h)
  }

  // ---------------------------------------------------------------- logs that were altered

  /** `other` agrees with `log` up to position `d` and, if both go on, differs there. */
  predicate DifferFrom(log: Log, other: Log, d: nat) {
    && d <= |log| && d <= |other| && other[..d] == log[..d]
    && (d < |log| && d < |other| ==> other[d] != log[d])
  }

  /** No link of an intact log fails at `count` unless `other` ends there. */
  lemma CountEnds(other: Log, count: nat, h: Hasher)
    requires IsCount(other, count, h)
    ensures forall i :: 0 <= i < count ==> IntactAt(other, i, h)
    ensures count < |other| ==> !IntactAt(other, count, h)
  {
    IntactFront(other, count, h);
    if count < |other| && IntactAt(other, count, h) {
      IntactPrefix(other, count + 1, h);
    }
  }

  /** The unaltered part still verifies. */
  lemma CommonIsIntact(log: Log, other: Log, d: nat, h: Hasher)
    requires Intact(log, h) && DifferFrom(log, other, d)
    ensures forall i :: 0 <= i < d ==> IntactAt(other, i, h)
  {
    forall i | 0 <= i < d ensures IntactAt(other, i, h) {
      assert IntactAt(log, i, h);
      assert other[..i] == other[..d][..i] == log[..i];
      assert other[i] == other[..d][i] == log[..d][i] == log[i];
    }
  }

  /** Two intact stretches that end in the same record are the same stretch. */
  lemma SameRecordSamePast(log: Log, j: nat, other: Log, k: nat, h: Hasher)
    requires Distinguishes(h, log, other) && j < |log| && k < |other| && other[k] == log[j]
    requires Intact(log, h) && forall i :: 0 <= i <= k ==> IntactAt(other, i, h)
    ensures k == j && other[..k] == log[..j]
  {
    IntactPrefix(log, j, h);
    IntactPrefix(other, k, h);
    assert IntactAt(log, j, h) && IntactAt(other, k, h);
    SameEndSameLog(log[..j], other[..k], h);
  }

  lemma PrefixesDiffer(log: Log, other: Log, d: nat, k: nat)
    requires DifferFrom(log, other, d) && k < |other|
    ensures d < k < |log| ==> other[..k] != log[..k]
  {
    if d < k < |log| {
      assert other[..k][d] != log[..k][d];
    }
  }

  /** Past the first difference, an intact stretch holds no record of the original, wherever it stood. */
  lemma NothingReused(log: Log, other: Log, d: nat, k: nat, h: Hasher)
    requires Distinguishes(h, log, other) && Intact(log, h) && DifferFrom(log, other, d) && d <= k < |other|
    requires forall i :: 0 <= i <= k ==> IntactAt(other, i, h)
    ensures other[k] !in log
  {
    if j :| 0 <= j < |log| && log[j] == other[k] {
      PrefixesDiffer(log, other, d, k);
      SameRecordSamePast(log, j, other, k, h);
    }
  }

  /**
    Any alteration of an intact log, of any length: what came before the first difference still
    verifies; from there on the count ends at the first record the alteration did not link anew,
    and so at the latest at the first record kept from the original.
  */
  lemma AlterationIsLocated(log: Log, other: Log, d: nat, count: nat, h: Hasher)
    requires Distinguishes(h, log, other) && Intact(log, h) && DifferFrom(log, other, d) && IsCount(other, count, h)
    ensures d <= count
    ensures forall k :: d <= k < count ==> IntactAt(other, k, h) && other[k] !in log
    ensures count < |other| ==> !IntactAt(other, count, h)
    ensures Intact(other, h) <==> forall k :: d <= k < |other| ==> IntactAt(other, k, h)
  {
    CountEnds(other, count, h);
    CommonIsIntact(log, other, d, h);
    forall k | d <= k < count ensures other[k] !in log {
      NothingReused(log, other, d, k, h);
    }
    assert other[..|other|] == other;
  }

  /** An altered log that still verifies ends in another hash, so a known last hash gives it away. */
  lemma AlterationChangesTheEnd(log: Log, other: Log, h: Hasher)
    requires Distinguishes(h, log, other) && Intact(log, h) && Intact(other, h) && other != log
    ensures LastHash(other) != LastHash(log)
  {
    if LastHash(other) == LastHash(log) {
      SameEndSameLog(log, other, h);
    }
  }

  /** The log that appending these payloads one by one writes. */
  function Appended(log: Log, payloads: seq<Payload>, h: Hasher): Log {
    if payloads == [] then log else
      var before := Appended(log, payloads[..|payloads| - 1], h);
      before + [Chained(payloads[|payloads| - 1], before, h)]
  }

  function Payloads(log: Log): seq<Payload> { seq(|log|, i requires 0 <= i < |log| => log[i].body.payload) }

  lemma {:induction false} AppendedIsIntact(log: Log, payloads: seq<Payload>, h: Hasher)
    requires Intact(log, h)
    ensures Intact(Appended(log, payloads, h), h)
  {
    if payloads != [] {
      AppendedIsIntact(log, payloads[..|payloads| - 1], h);
      AppendKeepsIntact(Appended(log, payloads[..|payloads| - 1], h), payloads[|payloads| - 1], h);
    }
  }

  lemma AppendedOneMore(log: Log, payloads: seq<Payload>, p: Payload, h: Hasher)
    ensures Appended(log, payloads + [p], h)
            == Appended(log, payloads, h) + [Chained(p, Appended(log, payloads, h), h)]
  {
    assert (payloads + [p])[..|payloads|] == payloads;
  }

  lemma LastIsChained(log: Log, h: Hasher)
    requires log != [] && IntactAt(log, |log| - 1, h)
    ensures var front := log[..|log| - 1]; log == front + [Chained(log[|log| - 1].body.payload, front, h)]
  {
  }

  lemma FrontPayloads(log: Log, d: nat)
    requires d < |log|
    ensures var n := |log| - 1;
            log[..n][..d] == log[..d] && Payloads(log[d..]) == Payloads(log[..n][d..]) + [log[n].body.payload]
  {
  }

  lemma FrontIntact(log: Log, d: nat, h: Hasher)
    requires log != [] && forall i :: d <= i < |log| ==> IntactAt(log, i, h)
    ensures var front := log[..|log| - 1]; forall i :: d <= i < |front| ==> IntactAt(front, i, h)
  {
    var front := log[..|log| - 1];
    forall i | d <= i < |front| ensures IntactAt(front, i, h) {
      assert IntactAt(log, i, h) && front[..i] == log[..i];
    }
  }

  lemma {:induction false} IntactTailIsAppended(log: Log, d: nat, h: Hasher)
    requires d <= |log| && forall i :: d <= i < |log| ==> IntactAt(log, i, h)
    ensures log == Appended(log[..d], Payloads(log[d..]), h)
    decreases |log|
  {
    if d == |log| {
      assert log[..d] == log && Payloads(log[d..]) == [];
    } else {
      var front := log[..|log| - 1];
      FrontIntact(log, d, h);
      IntactTailIsAppended(front, d, h);
      FrontPayloads(log, d);
      AppendedOneMore(log[..d], Payloads(front[d..]), log[|log| - 1].body.payload, h);
      LastIsChained(log, h);
    }
  }

  /**
    Exactly which alterations the chain alone cannot show: cutting the log back to where the
    difference begins and appending other records, or none, in the ordinary way.
  */
  lemma UnnoticedIffAppended(log: Log, other: Log, d: nat, h: Hasher)
    requires Intact(log, h) && DifferFrom(log, other, d)
    ensures Intact(other, h) <==> other == Appended(log[..d], Payloads(other[d..]), h)
  {
    assert forall i :: 0 <= i < d ==> IntactAt(log, i, h);
    IntactPrefix(log, d, h);
    AppendedIsIntact(log[..d], Payloads(other[d..]), h);
    if Intact(other, h) {
      IntactTailIsAppended(other, d, h);
    }
  }

  /**
    Replacing one record of an intact log breaks the chain at that record or right after it; the
    one such edit that leaves an intact log is of the last record, redone with a matching hash.
  */
  lemma EditIsLocated(log: Log, i: nat, r: Record, h: Hasher, count: nat)
    requires i < |log| && r != log[i] && Intact(log, h) && Distinguishes(h, log, log[i := r])
    requires IsCount(log[i := r], count, h)
    ensures count == if LinkedTo(r, LastHash(log[..i]), h) then i + 1 else i
    ensures Intact(log[i := r], h) <==> i == |log| - 1 && LinkedTo(r, LastHash(log[..i]), h)
  {
    var edited := log[i := r];
    assert edited[..i] == log[..i];
    AlterationIsLocated(log, edited, i, count, h);
    if i + 1 < |log| {
      assert edited[i + 1] in log;
    }
    assert edited[..|edited|] == edited;
  }

  // ---------------------------------------------------------------- a hash that never collides

  /** A hash that distinguishes any two logs. */
  ghost predicate Ideal(h: Hasher) { forall a, b :: Distinguishes(h, a, b) }

  function Unary(n: nat): string { if n == 0 then "0" else "1" + Unary(n - 1) }

  function Size(x: int): nat { if x < 0 then -x else x }

  function Number(x: int): string { [if x < 0 then '-' else '+'] + Unary(Size(x)) }

  /** A text after its length, so that what follows it cannot be taken for part of it. */
  function Text(s: string): string { Unary(|s|) + s }

  /** Everything a body holds, one field after another. */
  function Spelled(b: Body): Hash {
    var c := b.payload.cell;
    Text(c.doc) + (Text(c.candidate) + (Number(c.run) + (Text(c.mode) + SpelledRest(b))))
  }

  function SpelledRest(b: Body): string {
    Number(if b.payload.ok then 1 else 0) + (Number(b.payload.cost) + (Text(b.payload.rest) + Text(b.prev)))
  }

  lemma {:induction false} UnaryApart(m: nat, n: nat, x: string, y: string)
    requires Unary(m) + x == Unary(n) + y
    ensures m == n && x == y
  {
    var (a, b) := (Unary(m) + x, Unary(n) + y);
    if m == 0 || n == 0 {
      assert a[0] == b[0];
      assert x == a[1..] && y == b[1..];
    } else {
      assert a[1..] == Unary(m - 1) + x && b[1..] == Unary(n - 1) + y;
      UnaryApart(m - 1, n - 1, x, y);
    }
  }

  lemma SignApart(c: char, d: char, x: string, y: string)
    requires [c] + x == [d] + y
    ensures c == d && x == y
  {
    assert c == ([c] + x)[0] && d == ([d] + y)[0] && x == ([c] + x)[1..] && y == ([d] + y)[1..];
  }

  lemma NumberApart(m: int, n: int, x: string, y: string)
    requires Number(m) + x == Number(n) + y
    ensures m == n && x == y
  {
    var (c, d) := (if m < 0 then '-' else '+', if n < 0 then '-' else '+');
    assert Number(m) + x == [c] + (Unary(Size(m)) + x) && Number(n) + y == [d] + (Unary(Size(n)) + y);
    SignApart(c, d, Unary(Size(m)) + x, Unary(Size(n)) + y);
    UnaryApart(Size(m), Size(n), x, y);
  }

  lemma TextApart(s: string, t: string, x: string, y: string)
    requires Text(s) + x == Text(t) + y
    ensures s == t && x == y
  {
    assert Text(s) + x == Unary(|s|) + (s + x) && Text(t) + y == Unary(|t|) + (t + y);
    UnaryApart(|s|, |t|, s + x, t + y);
    assert s == (s + x)[..|s|] && t == (t + y)[..|t|] && x == (s + x)[|s|..] && y == (t + y)[|t|..];
  }

  lemma CellApart(c: Cell, d: Cell, x: string, y: string)
    requires Text(c.doc) + (Text(c.candidate) + (Number(c.run) + (Text(c.mode) + x)))
             == Text(d.doc) + (Text(d.candidate) + (Number(d.run) + (Text(d.mode) + y)))
    ensures c == d && x == y
  {
    TextApart(c.doc, d.doc, Text(c.candidate) + (Number(c.run) + (Text(c.mode) + x)),
              Text(d.candidate) + (Number(d.run) + (Text(d.mode) + y)));
    TextApart(c.candidate, d.candidate, Number(c.run) + (Text(c.mode) + x), Number(d.run) + (Text(d.mode) + y));
    NumberApart(c.run, d.run, Text(c.mode) + x, Text(d.mode) + y);
    TextApart(c.mode, d.mode, x, y);
  }

  lemma RestApart(a: Body, b: Body)
    requires SpelledRest(a) == SpelledRest(b)
    ensures a.payload.ok == b.payload.ok && a.payload.cost == b.payload.cost
    ensures a.payload.rest == b.payload.rest && a.prev == b.prev
  {
    var (p, q) := (a.payload, b.payload);
    NumberApart(if p.ok then 1 else 0, if q.ok then 1 else 0, Number(p.cost) + (Text(p.rest) + Text(a.prev)),
                Number(q.cost) + (Text(q.rest) + Text(b.prev)));
    NumberApart(p.cost, q.cost, Text(p.rest) + Text(a.prev), Text(q.rest) + Text(b.prev));
    TextApart(p.rest, q.rest, Text(a.prev), Text(b.prev));
    assert Text(a.prev) + "" == Text(a.prev) && Text(b.prev) + "" == Text(b.prev);
    TextApart(a.prev, b.prev, "", "");
  }

  /** Different bodies are spelled differently, and no spelling is empty. */
  lemma SpelledApart(a: Body, b: Body)
    requires Spelled(a) == Spelled(b)
    ensures a == b
  {
    CellApart(a.payload.cell, b.payload.cell, SpelledRest(a), SpelledRest(b));
    RestApart(a, b);
  }

  lemma UnaryNotEmpty(n: nat)
    ensures Unary(n) != ""
  {
  }

  /** There is a hash for which everything above holds of any two logs. */
  lemma SomeHashIsIdeal()
    ensures exists h: Hasher :: Ideal(h)
  {
    forall a: Log, b: Log ensures Distinguishes(Spelled, a, b) {
      forall r: Body ensures Spelled(r) != GENESIS {
        UnaryNotEmpty(|r.payload.cell.doc|);
      }
      forall i, j | 0 <= i < |a| && 0 <= j < |b| && Spelled(a[i].body) == Spelled(b[j].body)
        ensures a[i].body == b[j].body {
        SpelledApart(a[i].body, b[j].body);
      }
    }
    assert Ideal(Spelled);
  }
}
