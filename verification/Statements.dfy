/**
  Statement histories of one account: every document bridges its opening to its closing by the
  events it witnesses, and consecutive monthly statements must join up.  Amounts are in cents.
*/
module Statements {

  datatype Doc = Doc(id: nat, monthly: bool, start: int, end: int, opening: int, closing: int, events: seq<int>)

  function Sum(amounts: seq<int>): int {
    if amounts == [] then 0 else Sum(amounts[..|amounts| - 1]) + amounts[|amounts| - 1]
  }

  function Witnessed(docs: seq<Doc>): int {
    if docs == [] then 0 else Witnessed(docs[..|docs| - 1]) + Sum(docs[|docs| - 1].events)
  }

  // ---------------------------------------------------------------- the generator

  /** One statement carried forward: the closing balance is the opening plus the month's events. */
  method BalanceDoc(id: nat, start: int, end: int, opening: int, events: seq<int>) returns (closing: int, doc: Doc)
    ensures doc == Doc(id, true, start, end, opening, closing, events) && closing == opening + Sum(events)
  {
    closing := opening;
    for i := 0 to |events|
      invariant closing == opening + Sum(events[..i])
    {
      assert events[..i + 1][..i] == events[..i];
      closing := closing + events[i];
    }
    assert events[..|events|] == events;
    doc := Doc(id, true, start, end, opening, closing, events);
  }

  /** One month of an account: its first and last day and the amounts of its events. */
  datatype Month = Month(start: int, end: int, events: seq<int>)

  /** Months follow one another without overlap. */
  predicate Calendar(months: seq<Month>) {
    && (forall i :: 0 <= i < |months| ==> months[i].start <= months[i].end)
    && (forall i, j :: 0 <= i < j < |months| ==> months[i].end < months[j].start)
  }

  /** The statements of consecutive months, each carried forward from the one before. */
  function Chain(opening: int, months: seq<Month>): seq<Doc> {
    if months == [] then [] else
      var n := |months| - 1;
      var m := months[n];
      var before := Chain(opening, months[..n]);
      var o := if before == [] then opening else before[|before| - 1].closing;
      before + [Doc(n, true, m.start, m.end, o, o + Sum(m.events), m.events)]
  }

  method BuildChain(opening: int, months: seq<Month>) returns (docs: seq<Doc>)
    ensures docs == Chain(opening, months)
  {
    docs := [];
    var balance := opening;
    for i := 0 to |months|
      invariant docs == Chain(opening, months[..i]) && |docs| == i
      invariant balance == if docs == [] then opening else docs[|docs| - 1].closing
    {
      assert months[..i + 1][..i] == months[..i];
      var doc;
      balance, doc := BalanceDoc(i, months[i].start, months[i].end, balance, months[i].events);
      docs := docs + [doc];
    }
    assert months[..|months|] == months;
  }

  // ---------------------------------------------------------------- the checker

  predicate Before(a: Doc, b: Doc) { a.end < b.end || (a.end == b.end && a.id <= b.id) }

  function Insert(d: Doc, docs: seq<Doc>): (r: seq<Doc>)
    ensures |r| == |docs| + 1
  {
    if docs == [] then [d]
    else if Before(docs[|docs| - 1], d) then docs + [d]
    else Insert(d, docs[..|docs| - 1]) + [docs[|docs| - 1]]
  }

  /** The monthly statements, sorted on period end and identity. */
  function Monthly(history: seq<Doc>): seq<Doc> {
    if history == [] then [] else
      var d := history[|history| - 1];
      var rest := Monthly(history[..|history| - 1]);
      if d.monthly then Insert(d, rest) else rest
  }

  /**
    The closing of the last document ending before `start` (latest end; the later listed wins a
    tie), or the declared balance.
  */
  function SeedOf(history: seq<Doc>, start: int, declared: int): int {
    var p := LastBefore(history, start);
    if p < 0 then declared else history[p].closing
  }

  function LastBefore(history: seq<Doc>, start: int): (p: int)
    ensures -1 <= p < |history|
    ensures p >= 0 ==> history[p].end < start
    ensures forall i :: 0 <= i < |history| && history[i].end < start ==>
              p >= 0 && (history[i].end < history[p].end || (history[i].end == history[p].end && i <= p))
  {
    if history == [] then -1 else
      var n := |history| - 1;
      var p := LastBefore(history[..n], start);
      if history[n].end < start && (p < 0 || history[p].end <= history[n].end) then n else p
  }

  /** A document the seed can come from: none that ends before `start` ends later, or as late and is listed later. */
  predicate LastEarlier(history: seq<Doc>, start: int, p: nat) {
    && p < |history| && history[p].end < start
    && forall i :: 0 <= i < |history| && history[i].end < start ==>
         history[i].end < history[p].end || (history[i].end == history[p].end && i <= p)
  }

  /** The seed is what that document closed with; what was declared counts only when nothing ended earlier. */
  lemma SeedIsLastClosing(history: seq<Doc>, start: int, declared: int)
    ensures forall p: nat :: LastEarlier(history, start, p) ==> SeedOf(history, start, declared) == history[p].closing
    ensures (forall i :: 0 <= i < |history| ==> history[i].end >= start) ==>
              SeedOf(history, start, declared) == declared
    ensures (exists i :: 0 <= i < |history| && history[i].end < start) ==>
              exists p: nat :: LastEarlier(history, start, p)
  {
    var last := LastBefore(history, start);
    if last >= 0 {
      assert LastEarlier(history, start, last);
    }
    forall p: nat | LastEarlier(history, start, p) ensures p == last {
    }
  }

  predicate Bridges(d: Doc) { d.closing == d.opening + Sum(d.events) }

  predicate Joined(docs: seq<Doc>) { forall i :: 0 <= i < |docs| - 1 ==> docs[i + 1].opening == docs[i].closing }

  predicate Accepted(history: seq<Doc>, declared: int) {
    var monthly := Monthly(history);
    && (forall i :: 0 <= i < |history| ==> Bridges(history[i]))
    && (monthly != [] ==> monthly[0].opening == SeedOf(history, monthly[0].start, declared))
    && Joined(monthly)
  }

  method VerifyHistory(history: seq<Doc>, declared: int) returns (ok: bool)
    ensures ok <==> Accepted(history, declared)
  {
    for i := 0 to |history|
      invariant forall j :: 0 <= j < i ==> Bridges(history[j])
    {
      if !Bridges(history[i]) {
        return false;
      }
    }
    var monthly := Monthly(history);
    if monthly == [] {
      return true;
    }
    if monthly[0].opening != SeedOf(history, monthly[0].start, declared) {
      return false;
    }
    for i := 0 to |monthly| - 1
      invariant forall j :: 0 <= j < i ==> monthly[j + 1].opening == monthly[j].closing
    {
      if monthly[i + 1].opening != monthly[i].closing {
        return false;
      }
    }
    ok := true;
  }

  // ---------------------------------------------------------------- sums and order

  lemma {:induction false} SumAddsUp(a: seq<int>, b: seq<int>)
    ensures Sum(a + b) == Sum(a) + Sum(b) && forall x :: Sum([x]) == x
  {
    forall x: int ensures Sum([x]) == x {
      assert [x][..0] == [];
    }
    if b == [] {
      assert a + b == a;
    } else {
      SumAddsUp(a, b[..|b| - 1]);
      assert (a + b)[..|a + b| - 1] == a + b[..|b| - 1];
    }
  }

  predicate InOrder(docs: seq<Doc>) {
    forall i, j :: 0 <= i < j < |docs| ==>
      docs[i].end < docs[j].end || (docs[i].end == docs[j].end && docs[i].id <= docs[j].id)
  }

  function IfAt(d: Doc, end: int, id: nat): seq<Doc> { if d.monthly && d.end == end && d.id == id then [d] else [] }

  /** The monthly statements of one period end and identity, as listed. */
  function At(docs: seq<Doc>, end: int, id: nat): seq<Doc> {
    if docs == [] then [] else At(docs[..|docs| - 1], end, id) + IfAt(docs[|docs| - 1], end, id)
  }

  lemma {:induction false} InsertInOrder(d: Doc, docs: seq<Doc>)
    requires InOrder(docs)
    ensures InOrder(Insert(d, docs)) && forall x :: x in Insert(d, docs) <==> x == d || x in docs
  {
    forall x ensures x in Insert(d, docs) <==> x == d || x in docs {
      InsertMembers(d, docs, x);
    }
    if docs != [] && !Before(docs[|docs| - 1], d) {
      var n := |docs| - 1;
      InsertInOrder(d, docs[..n]);
      var front := Insert(d, docs[..n]);
      forall i | 0 <= i < |front| ensures Before(front[i], docs[n]) {
        assert front[i] in front;
      }
    }
  }

  lemma AtOneMore(docs: seq<Doc>, d: Doc, end: int, id: nat)
    ensures At(docs + [d], end, id) == At(docs, end, id) + IfAt(d, end, id)
  {
    assert (docs + [d])[..|docs|] == docs;
  }

  lemma EitherOrder(a: seq<Doc>, b: seq<Doc>, c: seq<Doc>)
    requires b == [] || c == []
    ensures a + b + c == a + c + b
  {
  }

  lemma {:induction false} InsertKeeps(d: Doc, docs: seq<Doc>, end: int, id: nat)
    ensures At(Insert(d, docs), end, id) == At(docs, end, id) + IfAt(d, end, id)
  {
    if docs == [] || Before(docs[|docs| - 1], d) {
      AtOneMore(docs, d, end, id);
      assert docs == [] ==> docs + [d] == [d];
    } else {
      var front, last := docs[..|docs| - 1], docs[|docs| - 1];
      InsertKeeps(d, front, end, id);
      AtOneMore(Insert(d, front), last, end, id);
      EitherOrder(At(front, end, id), IfAt(d, end, id), IfAt(last, end, id));
    }
  }

  lemma {:induction false} MonthlyKeeps(history: seq<Doc>, end: int, id: nat)
    ensures At(Monthly(history), end, id) == At(history, end, id)
  {
    if history != [] {
      var n := |history| - 1;
      MonthlyKeeps(history[..n], end, id);
      InsertKeeps(history[n], Monthly(history[..n]), end, id);
    }
  }

  lemma {:induction false} MonthlyInOrder(history: seq<Doc>)
    ensures InOrder(Monthly(history)) && forall d :: d in Monthly(history) ==> d.monthly
  {
    if history != [] {
      MonthlyInOrder(history[..|history| - 1]);
      InsertInOrder(history[|history| - 1], Monthly(history[..|history| - 1]));
    }
  }

  /** The statements compared are the monthly ones, by period end and identity, as listed among equals. */
  lemma MonthlyIsInOrder(history: seq<Doc>)
    ensures InOrder(Monthly(history)) && forall end, id :: At(Monthly(history), end, id) == At(history, end, id)
    ensures forall d :: d in Monthly(history) ==> d.monthly
  {
    MonthlyInOrder(history);
    forall end, id ensures At(Monthly(history), end, id) == At(history, end, id) {
      MonthlyKeeps(history, end, id);
    }
  }

  // ---------------------------------------------------------------- telescoping

  lemma {:induction false} InsertMembers(d: Doc, docs: seq<Doc>, x: Doc)
    ensures x in Insert(d, docs) <==> x == d || x in docs
  {
    if docs != [] && !Before(docs[|docs| - 1], d) {
      InsertMembers(d, docs[..|docs| - 1], x);
      assert docs == docs[..|docs| - 1] + [docs[|docs| - 1]];
    }
  }

  lemma WitnessedOneMore(docs: seq<Doc>, d: Doc)
    ensures Witnessed(docs + [d]) == Witnessed(docs) + Sum(d.events)
  {
    assert (docs + [d])[..|docs|] == docs;
  }

  lemma {:induction false} InsertWitnesses(d: Doc, docs: seq<Doc>)
    ensures Witnessed(Insert(d, docs)) == Witnessed(docs) + Sum(d.events)
  {
    if docs == [] || Before(docs[|docs| - 1], d) {
      WitnessedOneMore(docs, d);
      assert docs + [d] == Insert(d, docs);
    } else {
      var front := docs[..|docs| - 1];
      InsertWitnesses(d, front);
      WitnessedOneMore(Insert(d, front), docs[|docs| - 1]);
    }
  }

  lemma {:induction false} MonthlyMembers(history: seq<Doc>, x: Doc)
    ensures x in Monthly(history) <==> x in history && x.monthly
  {
    if history != [] {
      var d := history[|history| - 1];
      MonthlyMembers(history[..|history| - 1], x);
      InsertMembers(d, Monthly(history[..|history| - 1]), x);
      assert history == history[..|history| - 1] + [d];
    }
  }

  lemma {:induction false} JoinedTelescopes(docs: seq<Doc>)
    requires docs != [] && Joined(docs) && forall i :: 0 <= i < |docs| ==> Bridges(docs[i])
    ensures docs[|docs| - 1].closing == docs[0].opening + Witnessed(docs)
  {
    var n := |docs| - 1;
    if n == 0 {
      assert docs[..0] == [];
    } else {
      JoinedTelescopes(docs[..n]);
      assert docs[(n - 1) + 1].opening == docs[n - 1].closing;
    }
  }

  /** What the monthly statements of a history witness, whatever order the documents are listed in. */
  function WitnessedMonthly(history: seq<Doc>): int {
    if history == [] then 0 else
      var d := history[|history| - 1];
      WitnessedMonthly(history[..|history| - 1]) + if d.monthly then Sum(d.events) else 0
  }

  lemma {:induction false} SortingKeepsWitnesses(history: seq<Doc>)
    ensures Witnessed(Monthly(history)) == WitnessedMonthly(history)
  {
    if history != [] {
      SortingKeepsWitnesses(history[..|history| - 1]);
      InsertWitnesses(history[|history| - 1], Monthly(history[..|history| - 1]));
    }
  }

  /** In an accepted history the last closing is the seed plus every event its monthly statements witness. */
  lemma AcceptedHistoryTelescopes(history: seq<Doc>, declared: int)
    requires Accepted(history, declared) && Monthly(history) != []
    ensures var monthly := Monthly(history);
            monthly[|monthly| - 1].closing
            == SeedOf(history, monthly[0].start, declared) + WitnessedMonthly(history)
  {
    var monthly := Monthly(history);
    forall i | 0 <= i < |monthly| ensures Bridges(monthly[i]) {
      MonthlyMembers(history, monthly[i]);
      assert monthly[i] in history;
    }
    JoinedTelescopes(monthly);
    SortingKeepsWitnesses(history);
  }

  /** The chain's documents, one a month, bridged and joined. */
  ghost predicate Shaped(c: seq<Doc>, opening: int, months: seq<Month>) {
    && |c| == |months| && Joined(c) && (c != [] ==> c[0].opening == opening)
    && forall i :: 0 <= i < |c| ==>
         && Bridges(c[i]) && c[i].monthly && c[i].start == months[i].start && c[i].end == months[i].end && c[i].id == i
         && c[i].events == months[i].events
  }

  lemma ShapedExtends(c: seq<Doc>, opening: int, months: seq<Month>, d: Doc, m: Month)
    requires Shaped(c, opening, months)
    requires d.opening == (if c == [] then opening else c[|c| - 1].closing)
    requires Bridges(d) && d.monthly && d.start == m.start && d.end == m.end && d.id == |c| && d.events == m.events
    ensures Shaped(c + [d], opening, months + [m])
  {
    var more := c + [d];
    forall i | 0 <= i < |more| - 1 ensures more[i + 1].opening == more[i].closing {
      if i + 1 < |c| {
        assert c[i + 1].opening == c[i].closing;
      }
    }
  }

  lemma {:induction false} ChainShape(opening: int, months: seq<Month>)
    ensures Shaped(Chain(opening, months), opening, months)
  {
    if months != [] {
      var n := |months| - 1;
      var m := months[n];
      var before := Chain(opening, months[..n]);
      ChainShape(opening, months[..n]);
      var o := if before == [] then opening else before[|before| - 1].closing;
      ShapedExtends(before, opening, months[..n], Doc(n, true, m.start, m.end, o, o + Sum(m.events), m.events), m);
      assert months == months[..n] + [m];
    }
  }

  lemma {:induction false} MonthlyOfOrdered(docs: seq<Doc>)
    requires forall i :: 0 <= i < |docs| ==> docs[i].monthly
    requires forall i, j :: 0 <= i < j < |docs| ==> Before(docs[i], docs[j])
    ensures Monthly(docs) == docs
  {
    if docs != [] {
      MonthlyOfOrdered(docs[..|docs| - 1]);
    }
  }

  lemma ChainFollows(c: seq<Doc>, opening: int, months: seq<Month>, i: nat, j: nat)
    requires Shaped(c, opening, months) && Calendar(months) && i < j < |c|
    ensures c[i].start <= c[i].end < c[j].end && Before(c[i], c[j])
  {
  }

  lemma NothingBefore(docs: seq<Doc>, start: int, declared: int)
    requires forall i :: 0 <= i < |docs| ==> docs[i].end >= start
    ensures SeedOf(docs, start, declared) == declared
  {
  }

  lemma NothingBeforeChain(c: seq<Doc>, opening: int, months: seq<Month>)
    requires Shaped(c, opening, months) && Calendar(months)
    ensures c != [] ==> SeedOf(c, c[0].start, opening) == opening
  {
    if c != [] {
      forall i | 0 <= i < |c| ensures c[i].end >= c[0].start {
        assert months[i].start <= months[i].end && (i > 0 ==> months[0].end < months[i].start);
      }
      NothingBefore(c, c[0].start, opening);
    }
  }

  /** Every chain of statements built month by month is accepted. */
  lemma BuiltChainsAreAccepted(opening: int, months: seq<Month>)
    requires Calendar(months)
    ensures Accepted(Chain(opening, months), opening)
  {
    ChainShape(opening, months);
    var c := Chain(opening, months);
    forall i, j | 0 <= i < j < |c| ensures c[i].start <= c[i].end < c[j].end && Before(c[i], c[j]) {
      ChainFollows(c, opening, months, i, j);
    }
    MonthlyOfOrdered(c);
    NothingBeforeChain(c, opening, months);
  }
}
