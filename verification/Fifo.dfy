/**
  First-in-first-out cost basis, twice: the generator consumes a lot list in place, the checker
  replays the emitted events over its own queues.  Quantities are counted in units of 1e-8,
  prices and amounts in cents, so every product and share is an exact integer quotient.
*/
module Fifo {
  import opened Common
  import opened Money

  const UNIT := 100000000

  datatype Lot = Lot(units: int, basis: int)

  datatype Kind = Buy | Sell | Other

  datatype Order = Order(date: int, kind: Kind, security: string, units: int, price: int, cash: int)

  datatype Event = Event(date: int, id: nat, kind: Kind, security: string, units: int, price: int,
                         amount: int, basis: int, gain: int)

  datatype Position = Position(security: string, units: int, basis: int)

  type Book = map<string, seq<Lot>>

  function LotsOf(book: Book, s: string): seq<Lot> { if s in book then book[s] else [] }

  function Units(lots: seq<Lot>): int { if lots == [] then 0 else lots[0].units + Units(lots[1..]) }

  function Basis(lots: seq<Lot>): int { if lots == [] then 0 else lots[0].basis + Basis(lots[1..]) }

  function Amount(units: int, price: int): int { HalfUp(units * price, UNIT) }

  // ---------------------------------------------------------------- the generator

  datatype Status = Done | Short | DivisionByZero

  datatype Sale = Sale(status: Status, lots: seq<Lot>, basis: int)

  /** The generator's loop: take from the first lot, drop it when it is empty, stop when nothing is left to sell. */
  function SellLots(lots: seq<Lot>, left: int, basis: int): Sale
    decreases |lots|, Abs(left)
  {
    if left == 0 then Sale(Done, lots, basis)
    else if lots == [] then Sale(Short, lots, basis)
    else
      var lot := lots[0];
      var take := Min(left, lot.units);
      if take != lot.units && lot.units == 0 then Sale(DivisionByZero, lots, basis) else
        var part := if take == lot.units then lot.basis else HalfUp(lot.basis * take, lot.units);
        if lot.units - take == 0 then SellLots(lots[1..], left - take, basis + part)
        else SellLots([Lot(lot.units - take, lot.basis - part)] + lots[1..], left - take, basis + part)
  }

  /** One turn of the loop: what is left to do does the rest of the sale, with less to do. */
  lemma SellStep(lots: seq<Lot>, left: int, basis: int, take: int, part: int)
    requires left != 0 && lots != [] && take == Min(left, lots[0].units)
    requires take == lots[0].units || lots[0].units != 0
    requires part == if take == lots[0].units then lots[0].basis else HalfUp(lots[0].basis * take, lots[0].units)
    ensures var lot := lots[0];
            var next := if lot.units - take == 0 then lots[1..] else lots[0 := Lot(lot.units - take, lot.basis - part)];
            && SellLots(lots, left, basis) == SellLots(next, left - take, basis + part)
            && (|next| < |lots| || (|next| == |lots| && Abs(left - take) < Abs(left)))
  {
    var lot := lots[0];
    assert lots[0 := Lot(lot.units - take, lot.basis - part)] == [Lot(lot.units - take, lot.basis - part)] + lots[1..];
  }

  datatype Generated = Generated(status: Status, book: Book, events: seq<Event>)

  /** One trade: what happens to the book and the event emitted. */
  function Trade(g: Generated, o: Order): Generated {
    var id := |g.events| + 1;
    var amount := Amount(o.units, o.price);
    match o.kind
    case Buy =>
      Generated(Done, g.book[o.security := LotsOf(g.book, o.security) + [Lot(o.units, amount)]],
                g.events + [Event(o.date, id, Buy, o.security, o.units, o.price, -amount, amount, 0)])
    case Sell =>
      var sale := SellLots(LotsOf(g.book, o.security), o.units, 0);
      var book := if o.security in g.book then g.book[o.security := sale.lots] else g.book;
      if sale.status != Done then Generated(sale.status, book, g.events)
      else Generated(Done, book,
             g.events + [Event(o.date, id, Sell, o.security, o.units, o.price, amount, sale.basis,
                               amount - sale.basis)])
    case Other => Generated(Done, g.book, g.events + [Event(o.date, id, Other, o.security, 0, 0, o.cash, 0, 0)])
  }

  function Generate(book: Book, orders: seq<Order>): Generated {
    if orders == [] then Generated(Done, book, []) else
      var g := Generate(book, orders[..|orders| - 1]);
      if g.status != Done then g else Trade(g, orders[|orders| - 1])
  }

  class Life {
    var book: Book
    var events: seq<Event>

    constructor (seed: Book)
      ensures book == seed && events == []
    {
      book, events := seed, [];
    }

    /** Consume `quantity` from the security's lots in place; on a refusal the lots already consumed stay consumed. */
    method SellFrom(security: string, quantity: int) returns (status: Status, basis: int)
      modifies this`book
      ensures var sale := SellLots(LotsOf(old(book), security), quantity, 0);
              && status == sale.status && basis == sale.basis
              && book == if security in old(book) then old(book)[security := sale.lots] else old(book)
    {
      basis := 0;
      var left := quantity;
      while left != 0
        invariant (book.Keys == old(book).Keys) && forall s :: s in book && s != security ==> book[s] == old(book)[s]
        invariant SellLots(LotsOf(book, security), left, basis) == SellLots(LotsOf(old(book), security), quantity, 0)
        decreases |LotsOf(book, security)|, Abs(left)
      {
        if LotsOf(book, security) == [] {
          assert security in old(book) ==> book == old(book)[security := []];
          return Short, basis;
        }
        var lots := book[security];
        var lot := lots[0];
        var take := Min(left, lot.units);
        if take != lot.units && lot.units == 0 {
          assert book == old(book)[security := lots];
          return DivisionByZero, basis;
        }
        var part := if take == lot.units then lot.basis else HalfUp(lot.basis * take, lot.units);
        SellStep(lots, left, basis, take, part);
        basis := basis + part;
        left := left - take;
        if lot.units - take == 0 {
          book := book[security := lots[1..]];
        } else {
          book := book[security := lots[0 := Lot(lot.units - take, lot.basis - part)]];
        }
      }
      assert security in old(book) ==> book == old(book)[security := book[security]];
      assert security !in old(book) ==> book == old(book);
      status := Done;
    }

    /** Record one order, or refuse a sale the lots do not cover; only the order's own security is touched. */
    method Record(o: Order) returns (status: Status)
      modifies this
      ensures Generated(status, book, events) == Trade(Generated(Done, old(book), old(events)), o)
      ensures forall s :: s != o.security ==>
                (s in book <==> s in old(book)) && LotsOf(book, s) == LotsOf(old(book), s)
      ensures o.security in book <==> o.security in old(book) || o.kind == Buy
      ensures o.kind == Other ==> book == old(book)
      ensures old(events) <= events && |events| == |old(events)| + if status == Done then 1 else 0
    {
      var id := |events| + 1;
      var amount := Amount(o.units, o.price);
      status := Done;
      match o.kind
      case Buy =>
        book := book[o.security := LotsOf(book, o.security) + [Lot(o.units, amount)]];
        events := events + [Event(o.date, id, Buy, o.security, o.units, o.price, -amount, amount, 0)];
      case Sell =>
        var basis;
        status, basis := SellFrom(o.security, o.units);
        if status == Done {
          events := events + [Event(o.date, id, Sell, o.security, o.units, o.price, amount, basis, amount - basis)];
        }
      case Other =>
        events := events + [Event(o.date, id, Other, o.security, 0, 0, o.cash, 0, 0)];
    }
  }

  // ---------------------------------------------------------------- the checker

  /** The checker's loop: pop a covered lot, shrink the last one; None when the queue runs dry. */
  function Replay(queue: seq<Lot>, remaining: int, basis: int): Option<(seq<Lot>, int)>
    decreases |queue|, Abs(remaining)
  {
    if remaining <= 0 then Some((queue, basis))
    else if queue == [] then None
    else
      var (n, cost) := (queue[0].units, queue[0].basis);
      var take := Min(n, remaining);
      if take == n then Replay(queue[1..], remaining - take, basis + cost)
      else
        var used := HalfUp(cost * take, n);
        Replay([Lot(n - take, cost - used)] + queue[1..], remaining - take, basis + used)
  }

  /** One event against the checker's queues; None is a refusal. */
  function Check(book: Book, e: Event): Option<Book> {
    if e.kind == Other then Some(book)
    else if !(e.units > 0 && e.price > 0) then None
    else
      var gross := Amount(e.units, e.price);
      if e.kind == Buy then
        if e.amount != -gross then None
        else Some(book[e.security := LotsOf(book, e.security) + [Lot(e.units, gross)]])
      else if e.amount != gross then None
      else match Replay(LotsOf(book, e.security), e.units, 0)
        case None => None
        case Some((queue, basis)) =>
          if e.gain != gross - basis || e.basis != basis then None else Some(book[e.security := queue])
  }

  function CheckAll(book: Book, events: seq<Event>): Option<Book> {
    if events == [] then Some(book) else
      match CheckAll(book, events[..|events| - 1])
      case None => None
      case Some(b) => Check(b, events[|events| - 1])
  }

  function Seed(ps: seq<Position>): Book {
    if ps == [] then map[] else
      var p := ps[|ps| - 1];
      var book := Seed(ps[..|ps| - 1]);
      book[p.security := LotsOf(book, p.security) + [Lot(p.units, p.basis)]]
  }

  predicate Before(a: Event, b: Event) { a.date < b.date || (a.date == b.date && a.id <= b.id) }

  predicate InOrder(events: seq<Event>) {
    forall i, j :: 0 <= i < j < |events| ==>
      events[i].date < events[j].date || (events[i].date == events[j].date && events[i].id <= events[j].id)
  }

  function Insert(e: Event, events: seq<Event>): seq<Event> {
    if events == [] then [e]
    else if Before(events[|events| - 1], e) then events + [e]
    else Insert(e, events[..|events| - 1]) + [events[|events| - 1]]
  }

  /** Events sorted on date, then identity. */
  function Sorted(events: seq<Event>): seq<Event> {
    if events == [] then [] else Insert(events[|events| - 1], Sorted(events[..|events| - 1]))
  }

  method ReplaySale(start: seq<Lot>, quantity: int) returns (r: Option<(seq<Lot>, int)>)
    ensures r == Replay(start, quantity, 0)
  {
    var queue, remaining, basis := start, quantity, 0;
    while remaining > 0
      invariant Replay(queue, remaining, basis) == Replay(start, quantity, 0)
      decreases |queue|, Abs(remaining)
    {
      if queue == [] {
        return None;
      }
      var (n, cost) := (queue[0].units, queue[0].basis);
      var take := Min(n, remaining);
      var used := if take == n then cost else HalfUp(cost * take, n);
      basis := basis + used;
      remaining := remaining - take;
      queue := if take == n then queue[1..] else [Lot(n - take, cost - used)] + queue[1..];
    }
    r := Some((queue, basis));
  }

  method SeedBook(initial: seq<Position>) returns (book: Book)
    ensures book == Seed(initial)
  {
    book := map[];
    for i := 0 to |initial|
      invariant book == Seed(initial[..i])
    {
      assert initial[..i + 1][..i] == initial[..i];
      var p := initial[i];
      book := book[p.security := LotsOf(book, p.security) + [Lot(p.units, p.basis)]];
    }
    assert initial[..|initial|] == initial;
  }

  lemma CheckStep(start: Book, events: seq<Event>, i: nat, book: Book)
    requires i < |events| && CheckAll(start, events[..i]) == Some(book)
    ensures CheckAll(start, events[..i + 1]) == Check(book, events[i])
    ensures Check(book, events[i]) == None ==> CheckAll(start, events) == None
  {
    assert events[..i + 1][..i] == events[..i];
    if Check(book, events[i]) == None {
      RefusalStands(start, events, i + 1);
    }
  }

  method CheckEvents(start: Book, events: seq<Event>) returns (r: Option<Book>)
    ensures r == CheckAll(start, events)
  {
    var book := start;
    for i := 0 to |events|
      invariant CheckAll(start, events[..i]) == Some(book)
    {
      CheckStep(start, events, i, book);
      var step := CheckOne(book, events[i]);
      if step.None? {
        return None;
      }
      book := step.value;
    }
    assert events[..|events|] == events;
    r := Some(book);
  }

  /** The checker: per security the units and basis left, or a refusal. */
  method VerifyFifo(events: seq<Event>, initial: seq<Position>) returns (r: Option<map<string, (int, int)>>)
    ensures var final := CheckAll(Seed(initial), Sorted(events));
            && (r == None <==> final == None)
            && (r.Some? ==> r.value == map s | s in final.value :: (Units(final.value[s]), Basis(final.value[s])))
  {
    var book := SeedBook(initial);
    var final := CheckEvents(book, Sorted(events));
    if final.None? {
      return None;
    }
    r := Some(map s | s in final.value :: (Units(final.value[s]), Basis(final.value[s])));
  }

  method CheckOne(book: Book, e: Event) returns (r: Option<Book>)
    ensures r == Check(book, e)
  {
    if e.kind == Other {
      return Some(book);
    }
    if !(e.units > 0 && e.price > 0) {
      return None;
    }
    var gross := Amount(e.units, e.price);
    var queue := LotsOf(book, e.security);
    if e.kind == Buy {
      if e.amount != -gross {
        return None;
      }
      return Some(book[e.security := queue + [Lot(e.units, gross)]]);
    }
    if e.amount != gross {
      return None;
    }
    var sale := ReplaySale(queue, e.units);
    if sale.None? || e.gain != gross - sale.value.1 || e.basis != sale.value.1 {
      return None;
    }
    r := Some(book[e.security := sale.value.0]);
  }

  lemma {:induction false} RefusalStands(book: Book, events: seq<Event>, n: nat)
    requires n <= |events| && CheckAll(book, events[..n]) == None
    ensures CheckAll(book, events) == None
    decreases |events| - n
  {
    if n == |events| {
      assert events[..n] == events;
    } else {
      assert events[..n + 1][..n] == events[..n];
      RefusalStands(book, events, n + 1);
    }
  }
}
