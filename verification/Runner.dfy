/**
  The exam over one run log: every cell not yet done, a budget checked against actual spend
  before each attempt, errors recorded, and any number of interrupted sessions resumed.
*/
module Runner {
  import opened ExamLog

  datatype Config = Config(documents: seq<string>, candidates: seq<string>, runs: nat, mode: string, budget: int)

  /** What an attempt ends in; a crash leaves nothing in the log. */
  datatype Attempt = Answered(cost: int, rest: string) | AdapterError(message: string) | Crashed

  datatype Outcome = Finished | BudgetExceeded | Interrupted

  /** The attempt made of a cell when the log holds so many records. */
  type Attempts = (Cell, nat) -> Attempt

  // ---------------------------------------------------------------- the matrix, in order

  function CellsOfCandidate(config: Config, doc: string, candidate: string, n: nat): seq<Cell> {
    if n == 0 then [] else CellsOfCandidate(config, doc, candidate, n - 1) + [Cell(doc, candidate, n, config.mode)]
  }

  function CellsOfDocument(config: Config, doc: string, candidates: seq<string>): seq<Cell> {
    if candidates == [] then [] else
      CellsOfDocument(config, doc, candidates[..|candidates| - 1])
      + CellsOfCandidate(config, doc, candidates[|candidates| - 1], config.runs)
  }

  function Cells(config: Config, documents: seq<string>): seq<Cell> {
    if documents == [] then [] else
      Cells(config, documents[..|documents| - 1])
          + CellsOfDocument(config, documents[|documents| - 1], config.candidates)
  }

  /** The matrix pairs every document with every candidate and run, in the mode configured. */
  lemma {:induction false} CandidateCells(config: Config, doc: string, candidate: string, n: nat)
    ensures var cells := CellsOfCandidate(config, doc, candidate, n);
            |cells| == n && forall r :: 0 <= r < n ==> cells[r] == Cell(doc, candidate, r + 1, config.mode)
  {
    if n > 0 {
      CandidateCells(config, doc, candidate, n - 1);
    }
  }

  /** The candidates follow one another, all runs of one before the next. */
  lemma {:induction false} DocumentCells(config: Config, doc: string, candidates: seq<string>, k: nat, r: nat)
    requires k < |candidates| && r < config.runs
    ensures var cells := CellsOfDocument(config, doc, candidates);
            && |cells| == |candidates| * config.runs && k * config.runs + r < |cells|
            && cells[k * config.runs + r] == Cell(doc, candidates[k], r + 1, config.mode)
  {
    var n := |candidates| - 1;
    DocumentSize(config, doc, candidates);
    DocumentSize(config, doc, candidates[..n]);
    RowFits(k, |candidates|, r, config.runs);
    if k < n {
      RowFits(k, n, r, config.runs);
      DocumentCells(config, doc, candidates[..n], k, r);
    } else {
      CandidateCells(config, doc, candidates[n], config.runs);
    }
  }

  /** The documents follow one another, all candidates of one before the next. */
  lemma {:induction false} MatrixCells(config: Config, documents: seq<string>, d: nat, x: nat)
    requires d < |documents| && x < |config.candidates| * config.runs
    ensures var cells := Cells(config, documents);
            var size := |config.candidates| * config.runs;
            && |cells| == |documents| * size && d * size + x < |cells|
            && x < |CellsOfDocument(config, documents[d], config.candidates)|
            && cells[d * size + x] == CellsOfDocument(config, documents[d], config.candidates)[x]
  {
    var n := |documents| - 1;
    var size := |config.candidates| * config.runs;
    MatrixSize(config, documents);
    MatrixSize(config, documents[..n]);
    DocumentSize(config, documents[d], config.candidates);
    RowFits(d, |documents|, x, size);
    if d < n {
      RowFits(d, n, x, size);
      MatrixCells(config, documents[..n], d, x);
    }
  }

  lemma {:induction false} RowFits(k: nat, n: nat, r: nat, size: nat)
    requires k < n && r < size
    ensures k * size + r < n * size
    decreases n
  {
    assert n * size == (n - 1) * size + size;
    if k < n - 1 {
      RowFits(k, n - 1, r, size);
    }
  }

  /** Cells not completed, counted once for each place they have in the matrix. */
  function Remaining(cells: seq<Cell>, done: set<Cell>): nat {
    if cells == [] then 0 else
      Remaining(cells[..|cells| - 1], done) + if cells[|cells| - 1] in done then 0 else 1
  }

  // ---------------------------------------------------------------- the discipline of a session

  /** The record at `p` was appended for an unfinished cell while spend was below the budget. */
  ghost predicate DueAt(log: Log, p: nat, budget: int)
    requires p < |log|
  {
    log[p].body.payload.cell !in Completed(log[..p]) && Spent(log[..p]) < budget && log[p].body.payload.cost >= 0
  }

  /** Everything from position `n` on was due when it was appended. */
  ghost predicate DueFrom(log: Log, n: nat, budget: int) {
    forall p :: n <= p < |log| ==> DueAt(log, p, budget)
  }

  /** The cell is done, or an attempt at it since position `n` came to an error. */
  ghost predicate Settled(log: Log, n: nat, c: Cell, attempts: Attempts) {
    c in Completed(log) || exists p: nat :: n <= p && FailedAt(log, p, c, attempts)
  }

  predicate FailedAt(log: Log, p: nat, c: Cell, attempts: Attempts) {
    p < |log| && log[p].body.payload.cell == c && attempts(c, p).AdapterError?
  }

  predicate AnsweredAt(log: Log, p: nat, c: Cell, attempts: Attempts) {
    p < |log| && log[p].body.payload.cell == c && attempts(c, p).Answered?
  }

  /** A record is ok, with the answer and its cost, or an error that cost nothing, as the attempt came out. */
  predicate Reports(payload: Payload, a: Attempt) {
    match a
    case Answered(cost, rest) => payload.ok && payload.cost == cost && payload.rest == rest
    case AdapterError(message) => !payload.ok && payload.cost == 0 && payload.rest == message
    case Crashed => false
  }

  /** What a session adds: a chained, due extension of the log. */
  ghost predicate Extends(before: Log, after: Log, budget: int, h: Hasher) {
    && before <= after
    && DueFrom(after, |before|, budget)
    && (forall p :: |before| <= p < |after| ==> IntactAt(after, p, h))
  }

  ghost predicate CostsNonNegative(attempts: Attempts) {
    forall c, n :: attempts(c, n).Answered? ==> attempts(c, n).cost >= 0
  }

  lemma DueGrows(before: Log, log: Log, r: Record, budget: int, h: Hasher)
    requires Extends(before, log, budget, h)
    requires r.body.payload.cell !in Completed(log) && Spent(log) < budget && r.body.payload.cost >= 0
    requires r == Chained(r.body.payload, log, h)
    ensures Extends(before, log + [r], budget, h)
  {
    var more := log + [r];
    forall p | |before| <= p < |more| ensures DueAt(more, p, budget) && IntactAt(more, p, h) {
      if p < |log| {
        assert DueAt(log, p, budget) && IntactAt(log, p, h);
        assert more[..p] == log[..p];
      } else {
        assert more[..p] == log;
      }
    }
  }

  lemma SettledGrows(log: Log, r: Record, n: nat, c: Cell, attempts: Attempts)
    requires Settled(log, n, c, attempts)
    ensures Settled(log + [r], n, c, attempts)
  {
    ReplayGrows(log, r);
    if c !in Completed(log) {
      var p: nat :| n <= p && FailedAt(log, p, c, attempts);
      assert FailedAt(log + [r], p, c, attempts);
    }
  }

  lemma ExtendsTransitive(a: Log, b: Log, c: Log, budget: int, h: Hasher)
    requires Extends(a, b, budget, h) && Extends(b, c, budget, h)
    ensures Extends(a, c, budget, h)
  {
    forall p | |a| <= p < |c| ensures DueAt(c, p, budget) && IntactAt(c, p, h) {
      if p < |b| {
        assert DueAt(b, p, budget) && IntactAt(b, p, h);
        assert b[p] == c[p] && b[..p] == c[..p];
      }
    }
  }

  // ---------------------------------------------------------------- one session, as a function

  /** A session under way while `outcome` is Finished; stopped for good otherwise. */
  datatype Session = Session(log: Log, outcome: Outcome)

  function Recorded(cell: Cell, a: Attempt): Payload
    requires !a.Crashed?
  {
    match a
    case Answered(cost, rest) => Payload(cell, true, cost, rest)
    case AdapterError(message) => Payload(cell, false, 0, message)
  }

  /** One cell: skipped when done, refused when the budget is spent, otherwise attempted and recorded. */
  function Visit(s: Session, cell: Cell, budget: int, attempts: Attempts, h: Hasher): Session {
    if s.outcome != Finished || cell in Completed(s.log) then s
    else if Spent(s.log) >= budget then s.(outcome := BudgetExceeded)
    else
      var a := attempts(cell, |s.log|);
      if a.Crashed? then s.(outcome := Interrupted)
      else Session(s.log + [Chained(Recorded(cell, a), s.log, h)], Finished)
  }

  function VisitAll(s: Session, cells: seq<Cell>, budget: int, attempts: Attempts, h: Hasher): Session {
    if cells == [] then s else
      Visit(VisitAll(s, cells[..|cells| - 1], budget, attempts, h), cells[|cells| - 1], budget, attempts, h)
  }

  lemma VisitOneMore(s: Session, cells: seq<Cell>, cell: Cell, budget: int, attempts: Attempts, h: Hasher)
    ensures VisitAll(s, cells + [cell], budget, attempts, h)
            == Visit(VisitAll(s, cells, budget, attempts, h), cell, budget, attempts, h)
  {
    assert (cells + [cell])[..|cells|] == cells;
  }

  lemma {:induction false} VisitConcat(s: Session, a: seq<Cell>, b: seq<Cell>, budget: int, attempts: Attempts,
                                       h: Hasher)
    ensures VisitAll(s, a + b, budget, attempts, h)
            == VisitAll(VisitAll(s, a, budget, attempts, h), b, budget, attempts, h)
  {
    if b == [] {
      assert a + b == a;
    } else {
      var front, last := b[..|b| - 1], b[|b| - 1];
      VisitConcat(s, a, front, budget, attempts, h);
      VisitOneMore(s, a + front, last, budget, attempts, h);
      VisitOneMore(VisitAll(s, a, budget, attempts, h), front, last, budget, attempts, h);
      LastApart(a, b);
    }
  }

  lemma LastApart(a: seq<Cell>, b: seq<Cell>)
    requires b != []
    ensures var (front, last) := (b[..|b| - 1], b[|b| - 1]); b == front + [last] && a + b == a + front + [last]
  {
  }

  lemma {:induction false} StoppedStays(s: Session, cells: seq<Cell>, budget: int, attempts: Attempts, h: Hasher)
    requires s.outcome != Finished
    ensures VisitAll(s, cells, budget, attempts, h) == s
  {
    if cells != [] {
      StoppedStays(s, cells[..|cells| - 1], budget, attempts, h);
    }
  }

  /** A session that stopped among the first cells visits none of the others. */
  lemma StoppedEarly(s: Session, a: seq<Cell>, cells: seq<Cell>, budget: int, attempts: Attempts, h: Hasher)
    requires a <= cells && VisitAll(s, a, budget, attempts, h).outcome != Finished
    ensures VisitAll(s, cells, budget, attempts, h) == VisitAll(s, a, budget, attempts, h)
  {
    assert cells == a + cells[|a|..];
    VisitConcat(s, a, cells[|a|..], budget, attempts, h);
    StoppedStays(VisitAll(s, a, budget, attempts, h), cells[|a|..], budget, attempts, h);
  }

  /** The record at `p` is of a cell of the list and says exactly what the attempt made of it there came to. */
  ghost predicate MadeAt(log: Log, p: nat, cells: seq<Cell>, attempts: Attempts)
    requires p < |log|
  {
    log[p].body.payload.cell in cells && Reports(log[p].body.payload, attempts(log[p].body.payload.cell, p))
  }

  ghost predicate MadeFrom(log: Log, n: nat, cells: seq<Cell>, attempts: Attempts) {
    forall p :: n <= p < |log| ==> MadeAt(log, p, cells, attempts)
  }

  lemma MadeGrows(log: Log, r: Record, n: nat, cells: seq<Cell>, more: seq<Cell>, attempts: Attempts)
    requires MadeFrom(log, n, cells, attempts) && forall c :: c in cells ==> c in more
    ensures MadeFrom(log, n, more, attempts)
    ensures MadeAt(log + [r], |log|, more, attempts) ==> MadeFrom(log + [r], n, more, attempts)
  {
    forall p | n <= p < |log| ensures MadeAt(log, p, more, attempts) && MadeAt(log + [r], p, more, attempts) {
      assert MadeAt(log, p, cells, attempts);
    }
  }

  /** Whatever a session adds is due, chained, and what its attempts came to. */
  lemma {:induction false} SessionExtends(log: Log, cells: seq<Cell>, budget: int, attempts: Attempts, h: Hasher)
    requires CostsNonNegative(attempts)
    ensures var after := VisitAll(Session(log, Finished), cells, budget, attempts, h).log;
            Extends(log, after, budget, h) && MadeFrom(after, |log|, cells, attempts)
  {
    if cells != [] {
      var n := |cells| - 1;
      var before := VisitAll(Session(log, Finished), cells[..n], budget, attempts, h);
      SessionExtends(log, cells[..n], budget, attempts, h);
      assert cells == cells[..n] + [cells[n]];
      VisitExtends(log, before, cells[..n], cells[n], budget, attempts, h);
    }
  }

  lemma VisitExtends(log: Log, s: Session, cells: seq<Cell>, cell: Cell, budget: int, attempts: Attempts, h: Hasher)
    requires CostsNonNegative(attempts) && Extends(log, s.log, budget, h) && MadeFrom(s.log, |log|, cells, attempts)
    ensures var after := Visit(s, cell, budget, attempts, h).log;
            Extends(log, after, budget, h) && MadeFrom(after, |log|, cells + [cell], attempts)
  {
    var a := attempts(cell, |s.log|);
    if s.outcome != Finished || cell in Completed(s.log) || Spent(s.log) >= budget || a.Crashed? {
      MadeGrows(s.log, Record(Body(Payload(cell, false, 0, ""), GENESIS), GENESIS), |log|, cells, cells + [cell],
                attempts);
    } else {
      var r := Chained(Recorded(cell, a), s.log, h);
      DueGrows(log, s.log, r, budget, h);
      MadeGrows(s.log, r, |log|, cells, cells + [cell], attempts);
    }
  }

  /** A session that finishes leaves undone only cells whose attempt failed in it. */
  lemma {:induction false} FinishSettles(log: Log, cells: seq<Cell>, budget: int, attempts: Attempts, h: Hasher,
                                         c: Cell)
    requires VisitAll(Session(log, Finished), cells, budget, attempts, h).outcome == Finished && c in cells
    ensures Settled(VisitAll(Session(log, Finished), cells, budget, attempts, h).log, |log|, c, attempts)
  {
    var n := |cells| - 1;
    var before := VisitAll(Session(log, Finished), cells[..n], budget, attempts, h);
    assert cells == cells[..n] + [cells[n]];
    assert before.outcome == Finished;
    SessionGrows(log, cells[..n], budget, attempts, h);
    var a := attempts(cells[n], |before.log|);
    var r := Chained(Recorded(cells[n], if a.Crashed? then AdapterError("") else a),
                     before.log, h);
    if c in cells[..n] {
      FinishSettles(log, cells[..n], budget, attempts, h, c);
      SettledGrows(before.log, r, |log|, c, attempts);
    } else if c !in Completed(before.log) {
      NewRecordSettles(before.log, r, |log|, attempts);
    }
  }

  lemma {:induction false} SessionGrows(log: Log, cells: seq<Cell>, budget: int, attempts: Attempts, h: Hasher)
    ensures |log| <= |VisitAll(Session(log, Finished), cells, budget, attempts, h).log|
  {
    if cells != [] {
      SessionGrows(log, cells[..|cells| - 1], budget, attempts, h);
    }
  }

  lemma NewRecordSettles(log: Log, r: Record, n: nat, attempts: Attempts)
    requires n <= |log| && Reports(r.body.payload, attempts(r.body.payload.cell, |log|))
    ensures Settled(log + [r], n, r.body.payload.cell, attempts)
  {
    ReplayGrows(log, r);
    assert r.body.payload.ok || FailedAt(log + [r], |log|, r.body.payload.cell, attempts);
  }

  /** A cell is done after a session exactly if it was before, or some attempt the session recorded was answered. */
  lemma CompletionIff(before: Log, after: Log, cells: seq<Cell>, attempts: Attempts, c: Cell)
    requires before <= after && MadeFrom(after, |before|, cells, attempts)
    ensures c in Completed(after) <==>
            c in Completed(before) || exists p: nat :: |before| <= p && AnsweredAt(after, p, c, attempts)
  {
    CompletedIff(after, c);
    CompletedIff(before, c);
    if c in Completed(after) {
      var p: nat :| OkAt(after, p, c);
      if p < |before| {
        assert OkAt(before, p, c);
      } else {
        assert MadeAt(after, p, cells, attempts) && AnsweredAt(after, p, c, attempts);
      }
    }
    if p: nat :| OkAt(before, p, c) {
      assert OkAt(after, p, c);
    }
    if p: nat :| |before| <= p && AnsweredAt(after, p, c, attempts) {
      assert MadeAt(after, p, cells, attempts) && OkAt(after, p, c);
    }
  }

  /** Why a session stopped: something is left undone, and the budget is spent or its attempt crashed. */
  ghost predicate StoppedAt(s: Session, c: Cell, budget: int, attempts: Attempts) {
    && c !in Completed(s.log)
    && (s.outcome == BudgetExceeded ==> Spent(s.log) >= budget)
    && (s.outcome == Interrupted ==> Spent(s.log) < budget && attempts(c, |s.log|).Crashed?)
  }

  lemma {:induction false} StopMeans(log: Log, cells: seq<Cell>, budget: int, attempts: Attempts,
                                     h: Hasher)
    returns (c: Cell)
    requires VisitAll(Session(log, Finished), cells, budget, attempts, h).outcome != Finished
    ensures c in cells && StoppedAt(VisitAll(Session(log, Finished), cells, budget, attempts, h), c, budget, attempts)
  {
    var n := |cells| - 1;
    if VisitAll(Session(log, Finished), cells[..n], budget, attempts, h).outcome != Finished {
      c := StopMeans(log, cells[..n], budget, attempts, h);
    } else {
      c := cells[n];
    }
  }

  function CellsAdded(log: Log, n: nat): seq<Cell>
    requires n <= |log|
  {
    seq(|log| - n, i requires 0 <= i < |log| - n => log[n + i].body.payload.cell)
  }

  /** A cell is attempted at most once in a session for each place it has in the matrix. */
  lemma {:induction false} OncePerPlace(log: Log, cells: seq<Cell>, budget: int, attempts: Attempts, h: Hasher)
    ensures var after := VisitAll(Session(log, Finished), cells, budget, attempts, h).log;
            |log| <= |after| && multiset(CellsAdded(after, |log|)) <= multiset(cells)
  {
    if cells != [] {
      var n := |cells| - 1;
      var before := VisitAll(Session(log, Finished), cells[..n], budget, attempts, h);
      OncePerPlace(log, cells[..n], budget, attempts, h);
      assert cells == cells[..n] + [cells[n]];
      var after := Visit(before, cells[n], budget, attempts, h);
      if after.log != before.log {
        assert CellsAdded(after.log, |log|) == CellsAdded(before.log, |log|) + [cells[n]];
      }
    }
  }

  /** One more run of a candidate, and what is left to visit if it stopped. */
  lemma CandidateStep(s: Session, config: Config, doc: string, candidate: string, run: nat, attempts: Attempts,
                      h: Hasher)
    requires run < config.runs
    ensures var next := Visit(VisitAll(s, CellsOfCandidate(config, doc, candidate, run), config.budget, attempts, h),
                              Cell(doc, candidate, run + 1, config.mode), config.budget, attempts, h);
            && VisitAll(s, CellsOfCandidate(config, doc, candidate, run + 1), config.budget, attempts, h) == next
            && (next.outcome != Finished ==>
                  VisitAll(s, CellsOfCandidate(config, doc, candidate, config.runs), config.budget, attempts, h)
                      == next)
  {
    var cells := CellsOfCandidate(config, doc, candidate, run + 1);
    VisitOneMore(s, CellsOfCandidate(config, doc, candidate, run), Cell(doc, candidate, run + 1, config.mode),
                 config.budget, attempts, h);
    CandidatePrefix(config, doc, candidate, run + 1, config.runs);
    if VisitAll(s, cells, config.budget, attempts, h).outcome != Finished {
      StoppedEarly(s, cells, CellsOfCandidate(config, doc, candidate, config.runs), config.budget, attempts, h);
    }
  }

  /** One more candidate of a document. */
  lemma DocumentStep(s: Session, config: Config, doc: string, k: nat, attempts: Attempts, h: Hasher)
    requires k < |config.candidates|
    ensures var next := VisitAll(VisitAll(s, CellsOfDocument(config, doc, config.candidates[..k]), config.budget,
                                          attempts, h),
                                 CellsOfCandidate(config, doc, config.candidates[k], config.runs), config.budget,
                                 attempts, h);
            && VisitAll(s, CellsOfDocument(config, doc, config.candidates[..k + 1]), config.budget, attempts, h) == next
            && (next.outcome != Finished ==>
                  VisitAll(s, CellsOfDocument(config, doc, config.candidates), config.budget, attempts, h) == next)
  {
    var before := CellsOfDocument(config, doc, config.candidates[..k]);
    var cells := CellsOfDocument(config, doc, config.candidates[..k + 1]);
    assert config.candidates[..k + 1][..k] == config.candidates[..k];
    VisitConcat(s, before, CellsOfCandidate(config, doc, config.candidates[k], config.runs), config.budget, attempts,
                h);
    DocumentPrefix(config, doc, config.candidates, k + 1);
    if VisitAll(s, cells, config.budget, attempts, h).outcome != Finished {
      StoppedEarly(s, cells, CellsOfDocument(config, doc, config.candidates), config.budget, attempts, h);
    }
  }

  /** One more document. */
  lemma ExamStep(s: Session, config: Config, d: nat, attempts: Attempts, h: Hasher)
    requires d < |config.documents|
    ensures var next := VisitAll(VisitAll(s, Cells(config, config.documents[..d]), config.budget, attempts, h),
                                 CellsOfDocument(config, config.documents[d], config.candidates), config.budget,
                                 attempts, h);
            && VisitAll(s, Cells(config, config.documents[..d + 1]), config.budget, attempts, h) == next
            && (next.outcome != Finished ==>
                  VisitAll(s, Cells(config, config.documents), config.budget, attempts, h) == next)
  {
    var before := Cells(config, config.documents[..d]);
    var cells := Cells(config, config.documents[..d + 1]);
    assert config.documents[..d + 1][..d] == config.documents[..d];
    VisitConcat(s, before, CellsOfDocument(config, config.documents[d], config.candidates), config.budget, attempts, h);
    CellsPrefix(config, config.documents, d + 1);
    if VisitAll(s, cells, config.budget, attempts, h).outcome != Finished {
      StoppedEarly(s, cells, Cells(config, config.documents), config.budget, attempts, h);
    }
  }

  // ---------------------------------------------------------------- the exam

  method RunCell(store: RunStore, cell: Cell, budget: int, attempts: Attempts) returns (outcome: Outcome)
    requires store.Valid()
    modifies store
    ensures store.Valid()
    ensures Session(store.file, outcome) == Visit(Session(old(store.file), Finished), cell, budget, attempts, store.h)
    ensures var before := old(store.file);
            if cell in Completed(before) then outcome == Finished && store.file == before
            else if Spent(before) >= budget then outcome == BudgetExceeded && store.file == before
            else if attempts(cell, |before|).Crashed? then outcome == Interrupted && store.file == before
            else outcome == Finished && exists payload: Payload ::
              && payload.cell == cell && Reports(payload, attempts(cell, |before|))
              && store.file == before + [Chained(payload, before, store.h)]
  {
    if cell in store.completed {
      return Finished;
    }
    if store.spent >= budget {
      return BudgetExceeded;
    }
    var attempt := attempts(cell, |store.file|);
    if attempt.Crashed? {
      return Interrupted;
    }
    store.Append(Recorded(cell, attempt));
    outcome := Finished;
  }

  method RunCandidate(store: RunStore, config: Config, doc: string, candidate: string, attempts: Attempts)
    returns (outcome: Outcome)
    requires store.Valid()
    modifies store
    ensures store.Valid()
    ensures Session(store.file, outcome) == VisitAll(Session(old(store.file), Finished),
              CellsOfCandidate(config, doc, candidate, config.runs), config.budget, attempts, store.h)
  {
    ghost var start := Session(store.file, Finished);
    for run := 0 to config.runs
      invariant store.Valid()
      invariant Session(store.file, Finished)
                == VisitAll(start, CellsOfCandidate(config, doc, candidate, run), config.budget, attempts, store.h)
    {
      CandidateStep(start, config, doc, candidate, run, attempts, store.h);
      outcome := RunCell(store, Cell(doc, candidate, run + 1, config.mode), config.budget, attempts);
      if outcome != Finished {
        return;
      }
    }
    outcome := Finished;
  }

  method RunDocument(store: RunStore, config: Config, doc: string, attempts: Attempts) returns (outcome: Outcome)
    requires store.Valid()
    modifies store
    ensures store.Valid()
    ensures Session(store.file, outcome) == VisitAll(Session(old(store.file), Finished),
              CellsOfDocument(config, doc, config.candidates), config.budget, attempts, store.h)
  {
    ghost var start := Session(store.file, Finished);
    for k := 0 to |config.candidates|
      invariant store.Valid()
      invariant Session(store.file, Finished)
                == VisitAll(start, CellsOfDocument(config, doc, config.candidates[..k]), config.budget, attempts,
                            store.h)
    {
      DocumentStep(start, config, doc, k, attempts, store.h);
      outcome := RunCandidate(store, config, doc, config.candidates[k], attempts);
      if outcome != Finished {
        return;
      }
    }
    assert config.candidates[..|config.candidates|] == config.candidates;
    outcome := Finished;
  }

  /**
    The nested loops over documents, candidates and runs visit the matrix in order.  What is
    recorded is what was attempted; a finish leaves undone only cells whose attempt failed.
  */
  method RunExam(store: RunStore, config: Config, attempts: Attempts) returns (outcome: Outcome)
    requires store.Valid() && CostsNonNegative(attempts)
    modifies store
    ensures store.Valid()
    ensures var cells := Cells(config, config.documents);
            && Session(store.file, outcome)
                == VisitAll(Session(old(store.file), Finished), cells, config.budget, attempts, store.h)
            && Extends(old(store.file), store.file, config.budget, store.h)
            && MadeFrom(store.file, |old(store.file)|, cells, attempts)
            && (forall c :: c in Completed(store.file) <==>
                  c in Completed(old(store.file))
                  || exists p: nat :: |old(store.file)| <= p && AnsweredAt(store.file, p, c, attempts))
            && (outcome == Finished ==> forall c :: c in cells ==> Settled(store.file, |old(store.file)|, c, attempts))
            && (outcome != Finished ==>
                  exists c :: c in cells && StoppedAt(Session(store.file, outcome), c, config.budget, attempts))
  {
    ghost var start := Session(store.file, Finished);
    ghost var cells := Cells(config, config.documents);
    outcome := RunDocuments(store, config, attempts);
    SessionExtends(start.log, cells, config.budget, attempts, store.h);
    forall c ensures c in Completed(store.file) <==>
                     c in Completed(start.log)
                     || exists p: nat :: |start.log| <= p && AnsweredAt(store.file, p, c, attempts) {
      CompletionIff(start.log, store.file, cells, attempts, c);
    }
    if outcome == Finished {
      forall c | c in cells ensures Settled(store.file, |start.log|, c, attempts) {
        FinishSettles(start.log, cells, config.budget, attempts, store.h, c);
      }
    } else {
      ghost var c := StopMeans(start.log, cells, config.budget, attempts, store.h);
    }
  }

  method RunDocuments(store: RunStore, config: Config, attempts: Attempts) returns (outcome: Outcome)
    requires store.Valid()
    modifies store
    ensures store.Valid()
    ensures Session(store.file, outcome)
            == VisitAll(Session(old(store.file), Finished), Cells(config, config.documents), config.budget, attempts,
                        store.h)
  {
    ghost var start := Session(store.file, Finished);
    for d := 0 to |config.documents|
      invariant store.Valid()
      invariant Session(store.file, Finished)
                == VisitAll(start, Cells(config, config.documents[..d]), config.budget, attempts, store.h)
    {
      ExamStep(start, config, d, attempts, store.h);
      outcome := RunDocument(store, config, config.documents[d], attempts);
      if outcome != Finished {
        return;
      }
    }
    assert config.documents[..|config.documents|] == config.documents;
    outcome := Finished;
  }

  lemma {:induction false} CellsPrefix(config: Config, documents: seq<string>, d: nat)
    requires d <= |documents|
    ensures Cells(config, documents[..d]) <= Cells(config, documents)
  {
    if d == |documents| {
      assert documents[..d] == documents;
    } else {
      CellsPrefix(config, documents[..|documents| - 1], d);
      assert documents[..|documents| - 1][..d] == documents[..d];
    }
  }

  lemma {:induction false} DocumentPrefix(config: Config, doc: string, candidates: seq<string>, k: nat)
    requires k <= |candidates|
    ensures CellsOfDocument(config, doc, candidates[..k]) <= CellsOfDocument(config, doc, candidates)
  {
    if k == |candidates| {
      assert candidates[..k] == candidates;
    } else {
      DocumentPrefix(config, doc, candidates[..|candidates| - 1], k);
      assert candidates[..|candidates| - 1][..k] == candidates[..k];
    }
  }

  lemma {:induction false} CandidatePrefix(config: Config, doc: string, candidate: string, run: nat, runs: nat)
    requires run <= runs
    ensures CellsOfCandidate(config, doc, candidate, run) <= CellsOfCandidate(config, doc, candidate, runs)
  {
    if run < runs {
      CandidatePrefix(config, doc, candidate, run, runs - 1);
    }
  }

  /** The plan's count of what remains. */
  method Plan(store: RunStore, config: Config) returns (total: nat, remaining: nat)
    requires store.Valid()
    ensures total == |config.documents| * |config.candidates| * config.runs == |Cells(config, config.documents)|
    ensures var cells := Cells(config, config.documents);
            remaining == |set i | 0 <= i < |cells| && cells[i] !in Completed(store.file)|
    ensures remaining == 0 <==> forall c :: c in Cells(config, config.documents) ==> c in Completed(store.file)
  {
    total := |config.documents| * |config.candidates| * config.runs;
    MatrixSize(config, config.documents);
    var cells := Cells(config, config.documents);
    remaining := 0;
    for i := 0 to |cells|
      invariant remaining == Remaining(cells[..i], store.completed)
    {
      RemainingStep(cells, store.completed, i);
      if cells[i] !in store.completed {
        remaining := remaining + 1;
      }
    }
    assert cells[..|cells|] == cells;
    RemainingPlaces(cells, store.completed);
    RemainingZero(cells, store.completed);
  }

  lemma RemainingStep(cells: seq<Cell>, done: set<Cell>, i: nat)
    requires i < |cells|
    ensures Remaining(cells[..i + 1], done) == Remaining(cells[..i], done) + if cells[i] in done then 0 else 1
  {
    assert cells[..i + 1][..i] == cells[..i];
  }

  /** What remains are the places of the matrix whose cell is not done. */
  lemma {:induction false} RemainingPlaces(cells: seq<Cell>, done: set<Cell>)
    ensures Remaining(cells, done) == |set i | 0 <= i < |cells| && cells[i] !in done|
  {
    if cells != [] {
      var n := |cells| - 1;
      RemainingPlaces(cells[..n], done);
      var front := set i | 0 <= i < n && cells[..n][i] !in done;
      var last := if cells[n] in done then {} else {n};
      assert (set i | 0 <= i < |cells| && cells[i] !in done) == front + last;
    }
  }

  lemma {:induction false} RemainingZero(cells: seq<Cell>, done: set<Cell>)
    ensures Remaining(cells, done) == 0 <==> forall c :: c in cells ==> c in done
  {
    if cells != [] {
      RemainingZero(cells[..|cells| - 1], done);
      assert cells == cells[..|cells| - 1] + [cells[|cells| - 1]];
    }
  }

  lemma {:induction false} CandidateSize(config: Config, doc: string, candidate: string, n: nat)
    ensures |CellsOfCandidate(config, doc, candidate, n)| == n
  {
    if n > 0 {
      CandidateSize(config, doc, candidate, n - 1);
    }
  }

  lemma {:induction false} DocumentSize(config: Config, doc: string, candidates: seq<string>)
    ensures |CellsOfDocument(config, doc, candidates)| == |candidates| * config.runs
  {
    if candidates != [] {
      var n := |candidates| - 1;
      DocumentSize(config, doc, candidates[..n]);
      CandidateSize(config, doc, candidates[n], config.runs);
      assert n * config.runs + config.runs == (n + 1) * config.runs;
    }
  }

  lemma {:induction false} MatrixSize(config: Config, documents: seq<string>)
    ensures |Cells(config, documents)| == |documents| * |config.candidates| * config.runs
    ensures |Cells(config, documents)| == |documents| * (|config.candidates| * config.runs)
  {
    if documents != [] {
      var n := |documents| - 1;
      MatrixSize(config, documents[..n]);
      DocumentSize(config, documents[n], config.candidates);
      OneMoreRow(n, |config.candidates|, config.runs);
    }
  }

  lemma OneMoreRow(n: nat, a: nat, b: nat)
    ensures (n + 1) * a * b == n * a * b + a * b
  {
    assert (n + 1) * a == n * a + a;
    Distribute(n * a, a, b);
  }

  lemma Distribute(x: nat, y: nat, b: nat)
    ensures (x + y) * b == x * b + y * b
  {
  }

  // ---------------------------------------------------------------- any number of sessions

  /** Each log grew from the one before by one session under the same budget. */
  ghost predicate Sessions(logs: seq<Log>, budget: int, h: Hasher) {
    logs != [] && logs[0] == [] && forall i :: 0 <= i < |logs| - 1 ==> Extends(logs[i], logs[i + 1], budget, h)
  }

  lemma {:induction false} SessionsCompose(logs: seq<Log>, budget: int, h: Hasher)
    requires Sessions(logs, budget, h)
    ensures Extends([], logs[|logs| - 1], budget, h)
  {
    var n := |logs| - 1;
    if n > 0 {
      assert Sessions(logs[..n], budget, h) by {
        forall i | 0 <= i < n - 1 ensures Extends(logs[..n][i], logs[..n][i + 1], budget, h) {
          assert Extends(logs[i], logs[i + 1], budget, h);
        }
      }
      SessionsCompose(logs[..n], budget, h);
      assert Extends(logs[n - 1], logs[n - 1 + 1], budget, h);
      ExtendsTransitive([], logs[n - 1], logs[n], budget, h);
    }
  }

  lemma {:induction false} CompletedBefore(log: Log, n: nat, p: nat)
    requires p < n <= |log| && log[p].body.payload.ok
    ensures log[p].body.payload.cell in Completed(log[..n])
  {
    assert log[..n][..n - 1] == log[..n - 1];
    if p < n - 1 {
      CompletedBefore(log, n - 1, p);
    }
  }

  /**
    However often the exam was interrupted and resumed: the log verifies, no cell has two ok
    records, and spend before the last record was below the budget.
  */
  lemma SessionsAreBounded(logs: seq<Log>, budget: int, h: Hasher)
    requires Sessions(logs, budget, h)
    ensures var log := logs[|logs| - 1];
            && Intact(log, h)
            && (forall p, q :: 0 <= p < q < |log| && log[p].body.payload.ok && log[q].body.payload.ok ==>
                  log[p].body.payload.cell != log[q].body.payload.cell)
            && (log != [] ==> Spent(log) < budget + log[|log| - 1].body.payload.cost)
  {
    SessionsCompose(logs, budget, h);
    var log := logs[|logs| - 1];
    forall p, q | 0 <= p < q < |log| && log[p].body.payload.ok && log[q].body.payload.ok
      ensures log[p].body.payload.cell != log[q].body.payload.cell {
      CompletedBefore(log, q, p);
      assert DueAt(log, q, budget);
    }
    if log != [] {
      assert DueAt(log, |log| - 1, budget);
    }
  }

  /** Reopening the log file restores the store: same completed cells, spend and last hash. */
  method Resume(store: RunStore) returns (resumed: RunStore)
    requires store.Valid()
    ensures fresh(resumed) && resumed.Valid() && resumed.file == store.file && resumed.h == store.h
    ensures resumed.completed == store.completed && resumed.spent == store.spent && resumed.lastHash == store.lastHash
  {
    resumed := new RunStore(store.h, store.file);
  }
}
