/**
  The two cost-basis replays agree, conserve units and basis, and both compute the same
  closed form: whole lots from the front, then one rounded share.
*/
module FifoTheorems {
  import opened Common
  import opened Money
  import opened Fifo

  // ---------------------------------------------------------------- agreement

  /** The in-place loop and the checker's queue make the same sale of any non-negative quantity. */
  lemma {:induction false} SalesAgree(lots: seq<Lot>, left: int, basis: int)
    requires left >= 0
    ensures var sale := SellLots(lots, left, basis);
            && (sale.status == Done <==> Replay(lots, left, basis).Some?)
            && (sale.status == Done ==> Replay(lots, left, basis) == Some((sale.lots, sale.basis)))
    decreases |lots|, left
  {
    if left > 0 && lots != [] {
      var lot := lots[0];
      var take := Min(left, lot.units);
      if take == lot.units {
        SalesAgree(lots[1..], left - take, basis + lot.basis);
      } else {
        var part := HalfUp(lot.basis * take, lot.units);
        SalesAgree([Lot(lot.units - take, lot.basis - part)] + lots[1..], 0, basis + part);
      }
    }
  }

  lemma InOrderAppend(events: seq<Event>, last: Event)
    requires InOrder(events) && forall x :: x in events ==> Before(x, last)
    ensures InOrder(events + [last])
  {
    forall i | 0 <= i < |events| ensures Before(events[i], last) {
      assert events[i] in events;
    }
  }

  lemma {:induction false} InsertInOrder(e: Event, events: seq<Event>)
    requires InOrder(events)
    ensures InOrder(Insert(e, events)) && forall x :: x in Insert(e, events) <==> x == e || x in events
  {
    if events != [] {
      var n := |events| - 1;
      assert events == events[..n] + [events[n]];
      if Before(events[n], e) {
        forall x | x in events ensures Before(x, e) {
          assert x == events[n] || Before(x, events[n]);
        }
        InOrderAppend(events, e);
      } else {
        InsertInOrder(e, events[..n]);
        InOrderAppend(Insert(e, events[..n]), events[n]);
      }
    }
  }

  function IfAt(e: Event, date: int, id: nat): seq<Event> { if e.date == date && e.id == id then [e] else [] }

  /** The events of one date and identity, in the order given. */
  function At(events: seq<Event>, date: int, id: nat): seq<Event> {
    if events == [] then [] else
      At(events[..|events| - 1], date, id) + IfAt(events[|events| - 1], date, id)
  }

  lemma AtOneMore(events: seq<Event>, e: Event, date: int, id: nat)
    ensures At(events + [e], date, id) == At(events, date, id) + IfAt(e, date, id)
  {
    assert (events + [e])[..|events|] == events;
  }

  lemma EitherOrder(a: seq<Event>, b: seq<Event>, c: seq<Event>)
    requires b == [] || c == []
    ensures a + b + c == a + c + b
  {
  }

  lemma {:induction false} InsertKeeps(e: Event, events: seq<Event>, date: int, id: nat)
    ensures At(Insert(e, events), date, id) == At(events, date, id) + IfAt(e, date, id)
  {
    if events == [] || Before(events[|events| - 1], e) {
      AtOneMore(events, e, date, id);
      assert events == [] ==> events + [e] == [e];
    } else {
      var front, last := events[..|events| - 1], events[|events| - 1];
      InsertKeeps(e, front, date, id);
      AtOneMore(Insert(e, front), last, date, id);
      EitherOrder(At(front, date, id), IfAt(e, date, id), IfAt(last, date, id));
    }
  }

  lemma {:induction false} SortedKeeps(events: seq<Event>, date: int, id: nat)
    ensures At(Sorted(events), date, id) == At(events, date, id)
  {
    if events != [] {
      var n := |events| - 1;
      SortedKeeps(events[..n], date, id);
      InsertKeeps(events[n], Sorted(events[..n]), date, id);
    }
  }

  lemma {:induction false} SortedInOrder(events: seq<Event>)
    ensures InOrder(Sorted(events))
  {
    if events != [] {
      SortedInOrder(events[..|events| - 1]);
      InsertInOrder(events[|events| - 1], Sorted(events[..|events| - 1]));
    }
  }

  /** The checker's order: by date and then identity, and as given among events that share both. */
  lemma SortedIsInOrder(events: seq<Event>)
    ensures InOrder(Sorted(events)) && forall date, id :: At(Sorted(events), date, id) == At(events, date, id)
  {
    SortedInOrder(events);
    forall date, id ensures At(Sorted(events), date, id) == At(events, date, id) {
      SortedKeeps(events, date, id);
    }
  }

  lemma InsertLast(e: Event, events: seq<Event>)
    requires forall i :: 0 <= i < |events| ==> Before(events[i], e)
    ensures Insert(e, events) == events + [e]
  {
  }

  lemma {:induction false} SortedWhenInOrder(events: seq<Event>)
    requires InOrder(events)
    ensures Sorted(events) == events
  {
    if events != [] {
      SortedWhenInOrder(events[..|events| - 1]);
      InsertLast(events[|events| - 1], events[..|events| - 1]);
    }
  }

  predicate DateOrdered(orders: seq<Order>) {
    forall i, j :: 0 <= i < j < |orders| ==> orders[i].date <= orders[j].date
  }

  predicate Positive(o: Order) { o.kind == Other || (o.units > 0 && o.price > 0) }

  /**
    The event states the order: what was traded, how much of it and at what price, or the cash that
    moved; a purchase costs what it pays and gains nothing, a sale gains what it pays over its cost.
  */
  predicate States(e: Event, o: Order) {
    && e.date == o.date && e.kind == o.kind && e.security == o.security
    && match o.kind
       case Buy => e.units == o.units && e.price == o.price && e.basis == -e.amount && e.gain == 0
       case Sell => e.units == o.units && e.price == o.price && e.gain == e.amount - e.basis
       case Other => e.amount == o.cash && e.units == e.price == e.basis == e.gain == 0
  }

  lemma TradeStates(g: Generated, o: Order)
    requires g.status == Done && Trade(g, o).status == Done
    ensures var after := Trade(g, o).events;
            |after| == |g.events| + 1 && after[..|g.events|] == g.events
            && States(after[|g.events|], o) && after[|g.events|].id == |after|
  {
  }

  /** One event for each order, numbered in order. */
  predicate Follow(es: seq<Event>, orders: seq<Order>) {
    |es| == |orders| && forall i :: 0 <= i < |es| ==> States(es[i], orders[i]) && es[i].id == i + 1
  }

  lemma FollowOneMore(es: seq<Event>, orders: seq<Order>, more: seq<Event>, o: Order)
    requires Follow(es, orders) && |more| == |es| + 1 && more[..|es|] == es
    requires States(more[|es|], o) && more[|es|].id == |more|
    ensures Follow(more, orders + [o])
  {
    forall i | 0 <= i < |es| ensures more[i] == es[i] {
      assert more[..|es|][i] == more[i];
    }
  }

  lemma GenerateOneMore(book: Book, orders: seq<Order>, o: Order)
    ensures var g := Generate(book, orders);
            Generate(book, orders + [o]) == if g.status != Done then g else Trade(g, o)
  {
    assert (orders + [o])[..|orders|] == orders;
  }

  lemma FollowStep(g: Generated, orders: seq<Order>, o: Order)
    requires g.status == Done && Trade(g, o).status == Done && Follow(g.events, orders)
    ensures Follow(Trade(g, o).events, orders + [o])
  {
    TradeStates(g, o);
    FollowOneMore(g.events, orders, Trade(g, o).events, o);
  }

  /** A completed run emits one event per order, numbered in order. */
  lemma {:induction false} EventsFollowOrders(book: Book, orders: seq<Order>)
    requires Generate(book, orders).status == Done
    ensures Follow(Generate(book, orders).events, orders)
  {
    if orders != [] {
      var front, last := orders[..|orders| - 1], orders[|orders| - 1];
      EventsFollowOrders(book, front);
      FollowStep(Generate(book, front), front, last);
      GenerateOneMore(book, front, last);
      assert orders == front + [last];
    }
  }

  lemma TradeChecked(g: Generated, o: Order)
    requires g.status == Done && Trade(g, o).status == Done
    ensures var after := Trade(g, o);
            && after.events == g.events + [after.events[|g.events|]]
            && Check(g.book, after.events[|g.events|]) == if Positive(o) then Some(after.book) else None
  {
    if o.kind == Sell && Positive(o) {
      SalesAgree(LotsOf(g.book, o.security), o.units, 0);
      SaleOfNothingOwned(LotsOf(g.book, o.security), o.units);
    }
  }

  predicate AllPositive(orders: seq<Order>) { forall i :: 0 <= i < |orders| ==> Positive(orders[i]) }

  lemma AllPositiveStep(orders: seq<Order>)
    requires orders != []
    ensures AllPositive(orders) <==> AllPositive(orders[..|orders| - 1]) && Positive(orders[|orders| - 1])
  {
  }

  lemma OneMoreEvent(book: Book, events: seq<Event>, e: Event)
    ensures CheckAll(book, events + [e])
            == match CheckAll(book, events) { case None => Option<Book>.None case Some(b) => Check(b, e) }
  {
    assert (events + [e])[..|events|] == events;
  }

  lemma {:induction false} CheckedStepByStep(book: Book, orders: seq<Order>)
    requires Generate(book, orders).status == Done
    ensures CheckAll(book, Generate(book, orders).events)
            == if AllPositive(orders) then Some(Generate(book, orders).book) else None
  {
    if orders != [] {
      var n := |orders| - 1;
      var before := Generate(book, orders[..n]);
      CheckedStepByStep(book, orders[..n]);
      TradeChecked(before, orders[n]);
      OneMoreEvent(book, before.events, Trade(before, orders[n]).events[|before.events|]);
      AllPositiveStep(orders);
    }
  }

  /** A sale that completes had lots to sell. */
  lemma SaleOfNothingOwned(lots: seq<Lot>, left: int)
    requires left > 0 && SellLots(lots, left, 0).status == Done
    ensures lots != []
  {
  }

  /**
    Every run the generator completes in date order: the checker accepts it exactly when all
    trades have a positive quantity and price, and then holds the very same lots.
  */
  lemma CheckerAgreesWithGenerator(initial: seq<Position>, orders: seq<Order>)
    requires DateOrdered(orders) && Generate(Seed(initial), orders).status == Done
    ensures var g := Generate(Seed(initial), orders);
            CheckAll(Seed(initial), Sorted(g.events))
            == if AllPositive(orders) then Some(g.book) else None
  {
    EventsFollowOrders(Seed(initial), orders);
    SortedWhenInOrder(Generate(Seed(initial), orders).events);
    CheckedStepByStep(Seed(initial), orders);
  }

  // ---------------------------------------------------------------- what an accepted list of events says

  /** The cents nearest to an exact product of units and price, a tie going up. */
  predicate Rounds(cents: int, units: int, price: int) {
    2 * cents * 100000000 - 100000000 <= 2 * (units * price) < 2 * cents * 100000000 + 100000000
  }

  lemma AmountRounds(units: int, price: int, cents: int)
    requires units * price >= 0
    ensures Amount(units, price) == cents <==> Rounds(cents, units, price)
  {
    HalfUpIs(units * price, UNIT);
  }

  /**
    What one event has to say, given the lots held before and after it.  A purchase costs its rounded
    price and opens a lot at that cost; a sale brings in its rounded price, states as basis what the
    generator takes out of the lots, and as gain what is left of the cash.
  */
  ghost predicate Meets(before: Book, e: Event, after: Book) {
    var lots := LotsOf(before, e.security);
    match e.kind
    case Other => after == before
    case Buy =>
      && e.units > 0 && e.price > 0 && Rounds(-e.amount, e.units, e.price)
      && after == before[e.security := lots + [Lot(e.units, -e.amount)]]
    case Sell =>
      && e.units > 0 && e.price > 0 && Rounds(e.amount, e.units, e.price)
      && SellLots(lots, e.units, 0) == Sale(Done, SellLots(lots, e.units, 0).lots, e.basis)
      && e.gain == e.amount - e.basis
      && after == before[e.security := SellLots(lots, e.units, 0).lots]
  }

  /** `books` are the lots held before, between and after the events. */
  ghost predicate Holds(books: seq<Book>, events: seq<Event>) {
    |books| == |events| + 1 && forall i :: 0 <= i < |events| ==> Meets(books[i], events[i], books[i + 1])
  }

  lemma CheckMeets(before: Book, e: Event, after: Book)
    ensures Check(before, e) == Some(after) <==> Meets(before, e, after)
  {
    var lots := LotsOf(before, e.security);
    if e.kind != Other && e.units > 0 && e.price > 0 {
      MulPositive(e.units, e.price);
      AmountRounds(e.units, e.price, e.amount);
      AmountRounds(e.units, e.price, -e.amount);
      SalesAgree(lots, e.units, 0);
    }
  }

  lemma MulPositive(a: nat, b: nat)
    ensures a * b >= 0
  {
    MulNonNegative(a, b);
  }

  lemma {:induction false} AcceptedHolds(book: Book, events: seq<Event>) returns (books: seq<Book>)
    requires CheckAll(book, events).Some?
    ensures Holds(books, events) && books[0] == book && CheckAll(book, events) == Some(books[|events|])
  {
    if events == [] {
      books := [book];
    } else {
      var n := |events| - 1;
      var before := AcceptedHolds(book, events[..n]);
      var after := CheckAll(book, events).value;
      CheckMeets(before[n], events[n], after);
      books := before + [after];
    }
  }

  lemma {:induction false} HeldIsAccepted(books: seq<Book>, events: seq<Event>)
    requires Holds(books, events)
    ensures CheckAll(books[0], events) == Some(books[|events|])
  {
    if events != [] {
      var n := |events| - 1;
      var front := books[..n + 1];
      forall i | 0 <= i < n ensures Meets(front[i], events[..n][i], front[i + 1]) {
        assert Meets(books[i], events[i], books[i + 1]);
      }
      HeldIsAccepted(front, events[..n]);
      assert Meets(front[n], events[n], books[n + 1]);
      CheckMeets(front[n], events[n], books[n + 1]);
    }
  }

  /** The checker accepts exactly the lists of events in which each says what the lots before it make of it. */
  lemma AcceptedIff(book: Book, events: seq<Event>, after: Book)
    ensures CheckAll(book, events) == Some(after) <==>
            exists books :: Holds(books, events) && books[0] == book && books[|events|] == after
  {
    if CheckAll(book, events) == Some(after) {
      var books := AcceptedHolds(book, events);
    }
    if books :| Holds(books, events) && books[0] == book && books[|events|] == after {
      HeldIsAccepted(books, events);
    }
  }

  /** The opening lots of one security, in the order the positions list them. */
  function Opening(ps: seq<Position>, s: string): seq<Lot> {
    if ps == [] then [] else OpeningOf(ps[0], s) + Opening(ps[1..], s)
  }

  function OpeningOf(p: Position, s: string): seq<Lot> {
    if p.security == s then [Lot(p.units, p.basis)] else []
  }

  lemma {:induction false} OpeningConcat(ps: seq<Position>, p: Position, s: string)
    ensures Opening(ps + [p], s) == Opening(ps, s) + OpeningOf(p, s)
  {
    if ps == [] {
      assert ps + [p] == [p] && [p][1..] == [];
    } else {
      OpeningConcat(ps[1..], p, s);
      FirstOpening(ps, p, s);
      Associate(OpeningOf(ps[0], s), Opening(ps[1..], s), OpeningOf(p, s));
    }
  }

  lemma FirstOpening(ps: seq<Position>, p: Position, s: string)
    requires ps != []
    ensures Opening(ps + [p], s) == OpeningOf(ps[0], s) + Opening(ps[1..] + [p], s)
  {
    assert (ps + [p])[1..] == ps[1..] + [p];
  }

  lemma Associate(a: seq<Lot>, b: seq<Lot>, c: seq<Lot>)
    ensures a + (b + c) == a + b + c
  {
  }

  lemma {:induction false} SeedHolds(ps: seq<Position>, s: string)
    ensures LotsOf(Seed(ps), s) == Opening(ps, s)
  {
    if ps != [] {
      var front, last := ps[..|ps| - 1], ps[|ps| - 1];
      SeedHolds(front, s);
      OpeningConcat(front, last, s);
      assert ps == front + [last];
    }
  }

  /** Only securities of some position have lots to begin with. */
  lemma {:induction false} SeedKeys(ps: seq<Position>, s: string)
    ensures s in Seed(ps) <==> exists p :: p in ps && p.security == s
  {
    if ps != [] {
      var front, last := ps[..|ps| - 1], ps[|ps| - 1];
      SeedKeys(front, s);
      assert forall p :: p in ps <==> p in front || p == last;
    }
  }

  /** A sale that falls short has used up every lot on the way. */
  lemma {:induction false} ShortUsesEverything(lots: seq<Lot>, left: int, basis: int)
    requires Healthy(lots) && left > Units(lots)
    ensures SellLots(lots, left, basis) == Sale(Short, [], basis + Basis(lots))
    decreases |lots|
  {
    if lots != [] {
      BasisNonNegative(lots[1..]);
      FirstGoesWhole(lots, left, basis);
      ShortUsesEverything(lots[1..], left - lots[0].units, basis + lots[0].basis);
    } else {
      BasisNonNegative(lots);
    }
  }

  // ---------------------------------------------------------------- conservation

  lemma {:induction false} TotalsConcat(a: seq<Lot>, b: seq<Lot>)
    ensures Units(a + b) == Units(a) + Units(b) && Basis(a + b) == Basis(a) + Basis(b)
  {
    if a == [] {
      assert a + b == b;
    } else {
      assert (a + b)[1..] == a[1..] + b;
      TotalsConcat(a[1..], b);
    }
  }

  /** A completed sale takes exactly its quantity out of the lots, and exactly its basis. */
  lemma {:induction false} SaleConserves(lots: seq<Lot>, left: int, basis: int)
    requires SellLots(lots, left, basis).status == Done
    ensures var sale := SellLots(lots, left, basis);
            && Units(sale.lots) == Units(lots) - left
            && Basis(sale.lots) + sale.basis == Basis(lots) + basis
    decreases |lots|, Abs(left)
  {
    if left != 0 {
      var lot := lots[0];
      var take := Min(left, lot.units);
      var part := if take == lot.units then lot.basis else HalfUp(lot.basis * take, lot.units);
      if lot.units - take == 0 {
        SaleConserves(lots[1..], left - take, basis + part);
      } else {
        var kept := [Lot(lot.units - take, lot.basis - part)];
        TotalsConcat(kept, lots[1..]);
        assert (kept + lots[1..])[1..] == lots[1..];
        SaleConserves(kept + lots[1..], left - take, basis + part);
      }
    }
  }

  datatype Flow = Flow(bought: int, sold: int, paid: int, realised: int)

  /** What the emitted events say went in and out of one security. */
  function FlowOf(events: seq<Event>, s: string): Flow {
    if events == [] then Flow(0, 0, 0, 0) else
      var f := FlowOf(events[..|events| - 1], s);
      var e := events[|events| - 1];
      if e.security != s || e.kind == Other then f
      else if e.kind == Buy then f.(bought := f.bought + e.units, paid := f.paid + e.basis)
      else f.(sold := f.sold + e.units, realised := f.realised + e.basis)
  }

  /** One trade's effect on one security, against the event it emits. */
  lemma TradeConserves(g: Generated, o: Order, s: string)
    requires g.status == Done && Trade(g, o).status == Done
    ensures var after := Trade(g, o);
            var e := after.events[|g.events|];
            var mine := e.security == s && e.kind != Other;
            && after.events == g.events + [e] && (e.kind == Sell ==> e.amount - e.gain == e.basis)
            && Units(LotsOf(after.book, s)) - Units(LotsOf(g.book, s))
               == (if !mine then 0 else if e.kind == Buy then e.units else -e.units)
            && Basis(LotsOf(after.book, s)) - Basis(LotsOf(g.book, s))
               == (if !mine then 0 else if e.kind == Buy then e.basis else -e.basis)
  {
    var lots := LotsOf(g.book, o.security);
    match o.kind
    case Buy =>
      TotalsConcat(lots, [Lot(o.units, Amount(o.units, o.price))]);
    case Sell =>
      SaleConserves(lots, o.units, 0);
      SaleOfMissing(o.units);
    case Other =>
  }

  /**
    Seed plus bought equals sold plus held, in units and, to the cent, in basis; and cash less gain
    is realised basis.
  */
  lemma {:induction false} RunConserves(book: Book, orders: seq<Order>, s: string)
    requires Generate(book, orders).status == Done
    ensures var g := Generate(book, orders);
            var f := FlowOf(g.events, s);
            && Units(LotsOf(book, s)) + f.bought == f.sold + Units(LotsOf(g.book, s))
            && Basis(LotsOf(book, s)) + f.paid == f.realised + Basis(LotsOf(g.book, s))
    ensures forall e :: e in Generate(book, orders).events && e.kind == Sell ==> e.amount - e.gain == e.basis
  {
    if orders != [] {
      var n := |orders| - 1;
      var before := Generate(book, orders[..n]);
      RunConserves(book, orders[..n], s);
      TradeConserves(before, orders[n], s);
      assert Generate(book, orders).events[..|before.events|] == before.events;
    }
  }

  lemma SaleOfMissing(left: int)
    ensures SellLots([], left, 0).lots == []
  {
  }

  // ---------------------------------------------------------------- healthy lots and the closed form

  predicate Healthy(lots: seq<Lot>) { forall i :: 0 <= i < |lots| ==> lots[i].units > 0 && lots[i].basis >= 0 }

  /** Every share taken lies between zero and the lot's remaining basis, so lots stay healthy. */
  lemma {:induction false} SaleKeepsHealth(lots: seq<Lot>, left: int, basis: int)
    requires Healthy(lots) && left >= 0
    ensures var sale := SellLots(lots, left, basis);
            Healthy(sale.lots) && basis <= sale.basis <= basis + Basis(lots)
    decreases |lots|, left
  {
    if lots != [] {
      BasisNonNegative(lots[1..]);
    }
    if left > 0 && lots != [] {
      var lot := lots[0];
      if lot.units <= left {
        SaleKeepsHealth(lots[1..], left - lot.units, basis + lot.basis);
      } else {
        HalfUpShare(lot.basis, left, lot.units);
      }
    }
  }

  ghost predicate HealthyBook(book: Book) { forall s :: Healthy(LotsOf(book, s)) }

  lemma PositiveAmount(units: int, price: int)
    requires units > 0 && price > 0
    ensures Amount(units, price) >= 0
  {
    assert units * price > 0;
  }

  /**
    Over every sequence of positive trades, refused ones included, every lot held has units left
    and a basis of at least zero.
  */
  lemma {:induction false} RunKeepsHealth(book: Book, orders: seq<Order>)
    requires HealthyBook(book) && AllPositive(orders)
    ensures HealthyBook(Generate(book, orders).book)
  {
    if orders != [] {
      var n := |orders| - 1;
      var o := orders[n];
      var before := Generate(book, orders[..n]);
      assert AllPositive(orders[..n]) && Positive(o);
      RunKeepsHealth(book, orders[..n]);
      if before.status == Done {
        TradeKeepsHealth(before, o);
      }
    }
  }

  lemma TradeKeepsHealth(g: Generated, o: Order)
    requires HealthyBook(g.book) && Positive(o)
    ensures HealthyBook(Trade(g, o).book)
  {
    var lots := LotsOf(g.book, o.security);
    assert Healthy(lots);
    match o.kind {
      case Buy => PositiveAmount(o.units, o.price);
      case Sell => SaleKeepsHealth(lots, o.units, 0);
      case Other =>
    }
    forall s ensures Healthy(LotsOf(Trade(g, o).book, s)) {
      assert Healthy(LotsOf(g.book, s));
    }
  }

  lemma {:induction false} BasisNonNegative(lots: seq<Lot>)
    requires Healthy(lots)
    ensures Basis(lots) >= 0 && Units(lots) >= |lots|
  {
    if lots != [] {
      BasisNonNegative(lots[1..]);
    }
  }

  /** A sale is refused exactly when the lots do not cover it. */
  lemma {:induction false} ShortIff(lots: seq<Lot>, left: int, basis: int)
    requires Healthy(lots) && left >= 0
    ensures SellLots(lots, left, basis).status == if left <= Units(lots) then Done else Short
    decreases |lots|, left
  {
    if lots != [] {
      BasisNonNegative(lots[1..]);
      if lots[0].units <= left {
        ShortIff(lots[1..], left - lots[0].units, basis + lots[0].basis);
      }
    }
  }

  lemma FirstAndTail(lots: seq<Lot>, k: nat)
    requires 0 < k < |lots|
    ensures var tail := lots[1..];
            && Units(lots[..k]) == lots[0].units + Units(tail[..k - 1]) &&
                Basis(lots[..k]) == lots[0].basis + Basis(tail[..k - 1])
            && tail[k - 1] == lots[k] && tail[k - 1 + 1..] == lots[k + 1..]
  {
    assert lots[..k][1..] == lots[1..][..k - 1];
  }

  /** A lot that is covered goes whole. */
  lemma FirstGoesWhole(lots: seq<Lot>, q: int, basis: int)
    requires lots != [] && 0 < lots[0].units <= q
    ensures SellLots(lots, q, basis) == SellLots(lots[1..], q - lots[0].units, basis + lots[0].basis)
  {
  }

  /** A lot that is more than covered gives up a share. */
  lemma FirstGivesShare(lots: seq<Lot>, rest: nat, basis: int)
    requires lots != [] && rest < lots[0].units
    ensures var share := HalfUp(lots[0].basis * rest, lots[0].units);
            SellLots(lots, rest, basis)
                == Sale(Done, [Lot(lots[0].units - rest, lots[0].basis - share)] + lots[1..], basis + share)
  {
    if rest == 0 {
      assert lots == [Lot(lots[0].units, lots[0].basis)] + lots[1..];
    }
  }

  /**
    What first-in-first-out means: the first `k` lots go whole, and the next lot gives up
    `rest` units at the rounded share of its basis, which is within half a cent of exact.
  */
  lemma {:induction false} SaleIsFirstInFirstOut(lots: seq<Lot>, k: nat, rest: nat, basis: int)
    requires Healthy(lots) && k < |lots| && rest < lots[k].units
    ensures var q := Units(lots[..k]) + rest;
            var share := HalfUp(lots[k].basis * rest, lots[k].units);
            && SellLots(lots, q, basis) ==
                 Sale(Done, [Lot(lots[k].units - rest, lots[k].basis - share)] + lots[k + 1..],
                      basis + Basis(lots[..k]) + share)
            && 2 * Abs(share * lots[k].units - lots[k].basis * rest) <= lots[k].units
    decreases k
  {
    HalfUpError(lots[k].basis * rest, lots[k].units);
    if k == 0 {
      assert lots[..0] == [];
      FirstGivesShare(lots, rest, basis);
    } else {
      var tail := lots[1..];
      FirstAndTail(lots, k);
      BasisNonNegative(tail[..k - 1]);
      FirstGoesWhole(lots, Units(lots[..k]) + rest, basis);
      SaleIsFirstInFirstOut(tail, k - 1, rest, basis + lots[0].basis);
    }
  }

  /** Several sales from the same lots, one after another. */
  function SellParts(lots: seq<Lot>, parts: seq<nat>): Sale {
    if parts == [] then Sale(Done, lots, 0) else
      var before := SellParts(lots, parts[..|parts| - 1]);
      if before.status != Done then before else SellLots(before.lots, parts[|parts| - 1], before.basis)
  }

  function Total(parts: seq<nat>): nat { if parts == [] then 0 else Total(parts[..|parts| - 1]) + parts[|parts| - 1] }

  /** Sales the lots cover between them all go through, and nothing is lost to rounding on the way. */
  lemma {:induction false} PartSalesConserve(lots: seq<Lot>, parts: seq<nat>)
    requires Healthy(lots) && Total(parts) <= Units(lots)
    ensures var sale := SellParts(lots, parts);
            && sale.status == Done && Healthy(sale.lots)
            && Units(sale.lots) == Units(lots) - Total(parts) && Basis(sale.lots) + sale.basis == Basis(lots)
  {
    if parts != [] {
      var n := |parts| - 1;
      PartSalesConserve(lots, parts[..n]);
      var before := SellParts(lots, parts[..n]);
      ShortIff(before.lots, parts[n], before.basis);
      SaleKeepsHealth(before.lots, parts[n], before.basis);
      SaleConserves(before.lots, parts[n], before.basis);
    }
  }

  /** However many sales the lots are split into, together they realise the whole basis to the cent. */
  lemma PartSalesExhaustTheLots(lots: seq<Lot>, parts: seq<nat>)
    requires Healthy(lots) && Total(parts) == Units(lots)
    ensures SellParts(lots, parts) == Sale(Done, [], Basis(lots))
  {
    PartSalesConserve(lots, parts);
    BasisNonNegative(SellParts(lots, parts).lots);
  }
}
