/**
  The five-year mortgage: a balance rounded to the cent every month, an escrow account and one
  refinance.  The generator writes statements while it updates running balances; the checker
  amortises independently.  The terms are the rounded installment of a principal, a rate and a
  term in months, and the month's interest on a balance, which `CentRounded` fixes.
*/
module Mortgage {
  import opened Money

  const OPENING := 63000000
  const REFINANCE_MONTH := 23
  const RATE_SCALE := 120000

  datatype Terms = Terms(pay: (int, int, int) -> int, interest: (int, int) -> int)

  /** A month's interest is the balance times a twelfth of the yearly rate, half-up to the cent. */
  ghost predicate CentRounded(t: Terms) {
    forall balance, rate :: t.interest(balance, rate) == HalfUp(balance * rate, RATE_SCALE)
  }

  /** Hundredths of a percent per year. */
  function RateAt(i: nat): int { if i < 24 then 525 else 425 }

  function December(i: nat): bool { i % 12 == 11 }

  function Deposit(i: nat): int { if December(i) then 91663 else 91667 }

  function Tax(i: nat): int { if December(i) then 1100000 else 0 }

  datatype Statement = Statement(opening: int, closing: int, payment: int, principal: int, interest: int,
                                 installment: int,
                                 escrowOpening: int, escrowDeposit: int, tax: int, escrowClosing: int,
                                 rate: int, remaining: int, number: int, payoff: int)

  datatype State = State(balance: int, escrow: int, installment: int)

  function Start(t: Terms): State { State(OPENING, 0, t.pay(OPENING, 525, 360)) }

  function Next(s: State, i: nat, t: Terms): State {
    var balance := s.balance - (s.installment - t.interest(s.balance, RateAt(i)));
    State(balance, s.escrow + Deposit(i) - Tax(i),
          if i == REFINANCE_MONTH then t.pay(balance, 425, 336) else s.installment)
  }

  function After(n: nat, t: Terms): State { if n == 0 then Start(t) else Next(After(n - 1, t), n - 1, t) }

  /** The statement of month `i` when the running balances are `s`. */
  function StatementFor(s: State, i: nat, t: Terms): Statement {
    var next := Next(s, i, t);
    Statement(s.balance, if i == REFINANCE_MONTH then 0 else next.balance, s.installment + Deposit(i),
              s.balance - next.balance, t.interest(s.balance, RateAt(i)), s.installment,
              s.escrow, Deposit(i), Tax(i), next.escrow, RateAt(i), 359 - i, if i < 24 then i + 1 else i - 23,
              if i == REFINANCE_MONTH then next.balance else 0)
  }

  function Schedule(n: nat, t: Terms): seq<Statement> {
    if n == 0 then [] else Schedule(n - 1, t) + [StatementFor(After(n - 1, t), n - 1, t)]
  }

  /** The generator's month-by-month updates. */
  method Build(n: nat, t: Terms) returns (statements: seq<Statement>)
    ensures statements == Schedule(n, t)
  {
    statements := [];
    var balance, escrow, installment := OPENING, 0, t.pay(OPENING, 525, 360);
    for i := 0 to n
      invariant State(balance, escrow, installment) == After(i, t)
      invariant statements == Schedule(i, t)
    {
      var openingLoan, escrowOpening := balance, escrow;
      var interest := t.interest(balance, RateAt(i));
      var principal := installment - interest;
      balance := balance - principal;
      escrow := escrow + Deposit(i);
      escrow := escrow - Tax(i);
      var payment := installment + Deposit(i);
      statements := statements
          + [Statement(openingLoan, if i == REFINANCE_MONTH then 0 else balance, payment, principal,
        interest, installment, escrowOpening, Deposit(i), Tax(i), escrow, RateAt(i),
        if i < 24 then 360 - i - 1 else 336 - (i - 24) - 1, if i < 24 then i + 1 else i - 23,
        if i == REFINANCE_MONTH then balance else 0)];
      if i == REFINANCE_MONTH {
        installment := t.pay(balance, 425, 336);
      }
    }
  }

  // ---------------------------------------------------------------- what a schedule of statements is

  /** The figures of month `i` agree among themselves and with the terms in force. */
  predicate FiguresOf(f: Statement, i: nat, t: Terms) {
    && f.rate == (if i < 24 then 525 else 425)
    && f.interest == t.interest(f.opening, f.rate)
    && f.principal + f.interest == f.installment
    && f.escrowDeposit == (if i % 12 == 11 then 91663 else 91667)
    && f.tax == (if i % 12 == 11 then 1100000 else 0)
    && f.escrowClosing == f.escrowOpening + f.escrowDeposit - f.tax
    && f.payment == f.installment + f.escrowDeposit
    && f.remaining == 359 - i
    && f.number == (if i < 24 then i + 1 else i - 23)
    && if i == 23 then f.closing == 0 && f.payoff == f.opening - f.principal else f.closing == f.opening - f.principal
  }

  /** Month `i + 1` goes on where month `i` stopped, with a new loan of the payoff after month 23. */
  predicate Continues(f: Statement, next: Statement, i: nat, t: Terms) {
    && next.escrowOpening == f.escrowClosing
    && if i == 23 then next.opening == f.payoff && next.installment == t.pay(f.payoff, 425, 336)
       else next.opening == f.closing && next.installment == f.installment
  }

  /** A loan of 630000.00 at 5.25 over 360 months, refinanced after 24 payments at 4.25 over the 336 left. */
  predicate Amortises(statements: seq<Statement>, t: Terms) {
    && (statements != [] ==>
          && statements[0].opening == 63000000 && statements[0].escrowOpening == 0
          && statements[0].installment == t.pay(63000000, 525, 360))
    && (forall i :: 0 <= i < |statements| ==> FiguresOf(statements[i], i, t))
    && (forall i :: 0 <= i < |statements| - 1 ==> Continues(statements[i], statements[i + 1], i, t))
  }

  /** In such a schedule the figures a month opens with are those of the running balances. */
  lemma {:induction false} OpensWith(statements: seq<Statement>, t: Terms, i: nat)
    requires Amortises(statements, t) && i < |statements|
    ensures State(statements[i].opening, statements[i].escrowOpening, statements[i].installment) == After(i, t)
  {
    if i > 0 {
      OpensWith(statements, t, i - 1);
      assert FiguresOf(statements[i - 1], i - 1, t);
      assert Continues(statements[i - 1], statements[i - 1 + 1], i - 1, t);
    }
  }

  /** Agreeing month by month with the running balances is amortising the loan. */
  lemma AmortisesIff(statements: seq<Statement>, t: Terms)
    ensures Amortises(statements, t) <==> forall i :: 0 <= i < |statements| ==> Agrees(statements[i], i, t)
  {
    if Amortises(statements, t) {
      forall i | 0 <= i < |statements| ensures Agrees(statements[i], i, t) {
        OpensWith(statements, t, i);
        assert FiguresOf(statements[i], i, t);
      }
    }
    if forall i :: 0 <= i < |statements| ==> Agrees(statements[i], i, t) {
      forall i | 0 <= i < |statements| ensures FiguresOf(statements[i], i, t) {
        assert Agrees(statements[i], i, t);
      }
      forall i | 0 <= i < |statements| - 1 ensures Continues(statements[i], statements[i + 1], i, t) {
        assert Agrees(statements[i], i, t) && Agrees(statements[i + 1], i + 1, t);
      }
      if statements != [] {
        assert Agrees(statements[0], 0, t);
      }
    }
  }

  /** The checker: every stated figure is compared with an independent amortisation. */
  method Verify(statements: seq<Statement>, t: Terms) returns (ok: bool)
    ensures ok <==> Amortises(statements, t)
  {
    var balance, escrow, installment := OPENING, 0, t.pay(OPENING, 525, 360);
    AmortisesIff(statements, t);
    for i := 0 to |statements|
      invariant State(balance, escrow, installment) == After(i, t)
      invariant forall j :: 0 <= j < i ==> Agrees(statements[j], j, t)
    {
      var f := statements[i];
      var interest := t.interest(balance, RateAt(i));
      var principal := installment - interest;
      if f.opening != balance || f.rate != RateAt(i) || f.interest != interest || f.principal != principal
         || f.installment != installment || f.remaining != 359 - i || f.number != (if i < 24 then i + 1 else i - 23) {
        assert !Agrees(f, i, t);
        return false;
      }
      balance := balance - principal;
      if f.escrowOpening != escrow || f.escrowDeposit != Deposit(i) || f.tax != Tax(i) {
        assert !Agrees(f, i, t);
        return false;
      }
      escrow := escrow + (Deposit(i) - Tax(i));
      if f.escrowClosing != escrow || f.payment != installment + Deposit(i) {
        assert !Agrees(f, i, t);
        return false;
      }
      if i == REFINANCE_MONTH {
        if f.payoff != balance || f.closing != 0 {
          assert !Agrees(f, i, t);
          return false;
        }
        installment := t.pay(balance, 425, 336);
      } else if f.closing != balance {
        assert !Agrees(f, i, t);
        return false;
      }
    }
    ok := true;
  }

  /** The statement the generator would have written; the payoff is stated in the refinance month only. */
  predicate Agrees(f: Statement, i: nat, t: Terms) {
    var want := StatementFor(After(i, t), i, t);
    if i == REFINANCE_MONTH then f == want else f.(payoff := 0) == want
  }

  /** The generator writes such a schedule, and states a payoff in the refinance month only. */
  lemma ScheduleAmortises(n: nat, t: Terms)
    ensures |Schedule(n, t)| == n && Amortises(Schedule(n, t), t)
    ensures forall i :: 0 <= i < n && i != 23 ==> Schedule(n, t)[i].payoff == 0
  {
    if n > 0 {
      ScheduleAgrees(n, t, 0);
    }
    forall i | 0 <= i < n ensures Agrees(Schedule(n, t)[i], i, t) && (i != 23 ==> Schedule(n, t)[i].payoff == 0) {
      ScheduleAgrees(n, t, i);
      ScheduleAt(n, t, i);
    }
    AmortisesIff(Schedule(n, t), t);
  }

  lemma {:induction false} ScheduleAt(n: nat, t: Terms, i: nat)
    requires i < n
    ensures |Schedule(n, t)| == n && Schedule(n, t)[i] == StatementFor(After(i, t), i, t)
  {
    if i < n - 1 {
      ScheduleAt(n - 1, t, i);
    } else if n > 1 {
      ScheduleAt(n - 1, t, 0);
    }
  }

  /** The checker accepts every schedule the generator writes, of any length. */
  lemma {:induction false} ScheduleAgrees(n: nat, t: Terms, i: nat)
    requires i < n
    ensures |Schedule(n, t)| == n && Agrees(Schedule(n, t)[i], i, t)
  {
    if i < n - 1 {
      ScheduleAgrees(n - 1, t, i);
    } else if n > 1 {
      ScheduleAgrees(n - 1, t, 0);
    }
  }

  // ---------------------------------------------------------------- what holds after any number of months

  /** The escrow account holds the deposits of the running year and is emptied every December. */
  lemma {:induction false} EscrowCycles(n: nat, t: Terms)
    ensures After(n, t).escrow == n % 12 * 91667
  {
    if n > 0 {
      EscrowCycles(n - 1, t);
      NextMonth(n - 1);
    }
  }

  lemma NextMonth(n: nat)
    ensures (n + 1) % 12 == if n % 12 == 11 then 0 else n % 12 + 1
  {
  }

  function PrincipalPaid(statements: seq<Statement>): int {
    if statements == [] then 0
    else PrincipalPaid(statements[..|statements| - 1]) + statements[|statements| - 1].principal
  }

  lemma PaidGrows(statements: seq<Statement>, f: Statement)
    ensures PrincipalPaid(statements + [f]) == PrincipalPaid(statements) + f.principal
  {
    assert (statements + [f])[..|statements|] == statements;
  }

  /** Through the refinance, the opening principal equals the balance plus all principal paid. */
  lemma {:induction false} PrincipalIsConserved(n: nat, t: Terms)
    ensures After(n, t).balance + PrincipalPaid(Schedule(n, t)) == OPENING
  {
    if n > 0 {
      PrincipalIsConserved(n - 1, t);
      PaidGrows(Schedule(n - 1, t), StatementFor(After(n - 1, t), n - 1, t));
    }
  }

  // ---------------------------------------------------------------- drift of the rounded balance

  function Rounded(t: Terms, principal: int, rate: int, installment: int, k: nat): int {
    if k == 0 then principal else
      var b := Rounded(t, principal, rate, installment, k - 1);
      b - (installment - t.interest(b, rate))
  }

  function MonthlyRate(rate: int): real { rate as real / 120000.0 }

  /** The same recurrence without rounding; `grow` adds a month's interest. */
  function Exact(principal: real, grow: real -> real, installment: real, k: nat): real {
    if k == 0 then principal else grow(Exact(principal, grow, installment, k - 1)) - installment
  }

  function Pow(x: real, j: nat): real { if j == 0 then 1.0 else x * Pow(x, j - 1) }

  /** The sum of x to the powers 0 to k-1. */
  function PowerSum(x: real, k: nat): real { if k == 0 then 0.0 else PowerSum(x, k - 1) + Pow(x, k - 1) }

  /** The same sum, built the way the drift accumulates. */
  function Accumulated(grow: real -> real, k: nat): real {
    if k == 0 then 0.0 else 1.0 + grow(Accumulated(grow, k - 1))
  }

  lemma {:induction false} PowerSumStep(x: real, k: nat)
    requires k > 0
    ensures PowerSum(x, k) == 1.0 + x * PowerSum(x, k - 1)
  {
    if k > 1 {
      PowerSumStep(x, k - 1);
      assert x * (PowerSum(x, k - 2) + Pow(x, k - 2)) == x * PowerSum(x, k - 2) + x * Pow(x, k - 2);
    }
  }

  lemma {:induction false} AccumulatedIsPowerSum(g: real, k: nat)
    ensures Accumulated((x: real) => x * g, k) == PowerSum(g, k)
  {
    if k > 0 {
      AccumulatedIsPowerSum(g, k - 1);
      PowerSumStep(g, k);
    }
  }

  function AbsR(x: real): real { if x < 0.0 then -x else x }

  /** One month's rounding, in cents. */
  lemma InterestError(t: Terms, balance: int, rate: int)
    requires CentRounded(t)
    ensures AbsR(t.interest(balance, rate) as real - balance as real * MonthlyRate(rate)) <= 0.5
  {
    HalfUpError(balance * rate, RATE_SCALE);
    var i := t.interest(balance, rate);
    var e := i * RATE_SCALE - balance * rate;
    assert -RATE_SCALE <= 2 * e <= RATE_SCALE;
    var br := balance as real * rate as real;
    assert (balance * rate) as real == br;
    assert balance as real * MonthlyRate(rate) == br / 120000.0;
    assert e as real == i as real * 120000.0 - br;
    assert i as real - br / 120000.0 == e as real / 120000.0;
  }

  lemma ProductNonNegative(a: real, g: real)
    requires a >= 0.0 && g >= 0.0
    ensures a * g >= 0.0
  {
  }

  lemma DifferenceTimes(a: real, b: real, g: real)
    ensures (a - b) * g == a * g - b * g
  {
  }

  lemma ScaleAbs(x: real, y: real, g: real)
    requires g >= 0.0 && AbsR(x) <= y
    ensures AbsR(x * g) <= y * g
  {
    ProductNonNegative(y - x, g);
    ProductNonNegative(y - -x, g);
    DifferenceTimes(y, x, g);
    DifferenceTimes(y, -x, g);
    Negated(x, g);
  }

  lemma Negated(x: real, g: real)
    ensures (-x) * g == -(x * g)
  {
  }

  lemma HalfOut(g: real, sum: real)
    ensures 0.5 * sum * g == 0.5 * (g * sum)
  {
  }

  lemma WithInterest(b: real, r: real, g: real)
    requires g == 1.0 + r
    ensures b * g == b + b * r
  {
  }

  /** The step on the products alone. */
  lemma Combine(b: real, carried: real, br: real, xg: real, gs: real, interest: real, installment: real)
    requires AbsR(carried) <= 0.5 * gs && AbsR(interest - br) <= 0.5 && carried == b + br - xg
    ensures AbsR((b - installment + interest) - (xg - installment)) <= 0.5 * (1.0 + gs)
  {
  }

  /** One month scales the drift so far and adds at most half a cent. */
  lemma DriftStep(b: real, x: real, interest: real, installment: real, r: real, g: real, sum: real)
    requires r >= 0.0 && g == 1.0 + r && AbsR(b - x) <= 0.5 * sum && AbsR(interest - b * r) <= 0.5
    ensures AbsR((b - installment + interest) - (x * g - installment)) <= 0.5 * (1.0 + g * sum)
  {
    ScaleAbs(b - x, 0.5 * sum, g);
    HalfOut(g, sum);
    DifferenceTimes(b, x, g);
    WithInterest(b, r, g);
    Combine(b, (b - x) * g, b * r, x * g, g * sum, interest, installment);
  }

  ghost predicate HalfCentAt(t: Terms, rate: int, r: real, b: int) {
    AbsR(t.interest(b, rate) as real - b as real * r) <= 0.5
  }

  ghost predicate GrowsAt(grow: real -> real, g: real, x: real) { grow(x) == x * g }

  /** Interest is within half a cent of the balance times `r`, and `grow` multiplies by g = 1 + r. */
  ghost predicate Compounds(t: Terms, rate: int, r: real, g: real, grow: real -> real) {
    && r >= 0.0 && g == 1.0 + r
    && (forall b {:trigger HalfCentAt(t, rate, r, b)} :: HalfCentAt(t, rate, r, b))
    && (forall x {:trigger GrowsAt(grow, g, x)} :: GrowsAt(grow, g, x))
  }

  lemma DriftNext(t: Terms, rate: int, r: real, g: real, grow: real -> real, b: int, x: real, installment: real,
                  sum: real)
    requires Compounds(t, rate, r, g, grow) && AbsR(b as real - x) <= 0.5 * sum
    ensures AbsR((b as real - installment + t.interest(b, rate) as real) - (grow(x) - installment))
            <= 0.5 * (1.0 + grow(sum))
  {
    assert HalfCentAt(t, rate, r, b) && GrowsAt(grow, g, x) && GrowsAt(grow, g, sum);
    DriftStep(b as real, x, t.interest(b, rate) as real, installment, r, g, sum);
  }

  lemma {:induction false} Drift(t: Terms, principal: int, rate: int, installment: int, r: real, g: real,
                                 grow: real -> real, k: nat)
    requires Compounds(t, rate, r, g, grow)
    ensures AbsR(Rounded(t, principal, rate, installment, k) as real
                 - Exact(principal as real, grow, installment as real, k))
            <= 0.5 * Accumulated(grow, k)
  {
    if k > 0 {
      Drift(t, principal, rate, installment, r, g, grow, k - 1);
      DriftNext(t, rate, r, g, grow, Rounded(t, principal, rate, installment, k - 1),
                Exact(principal as real, grow, installment as real, k - 1), installment as real,
                Accumulated(grow, k - 1));
    }
  }

  /**
    After k payments the cent-rounded balance is within half a cent times the sum of (1+r)^j,
    j < k, of the unrounded recurrence.
  */
  lemma DriftIsBounded(t: Terms, principal: int, rate: nat, installment: int, k: nat)
    requires CentRounded(t)
    ensures var g := 1.0 + MonthlyRate(rate);
            AbsR(Rounded(t, principal, rate, installment, k) as real
                 - Exact(principal as real, (x: real) => x * g, installment as real, k)) <= 0.5 * PowerSum(g, k)
  {
    var r := MonthlyRate(rate);
    var g := 1.0 + r;
    forall b: int ensures HalfCentAt(t, rate, r, b) {
      InterestError(t, b, rate);
    }
    var grow := (x: real) => x * g;
    assert forall x {:trigger GrowsAt(grow, g, x)} :: GrowsAt(grow, g, x);
    Drift(t, principal, rate, installment, r, g, grow, k);
    AccumulatedIsPowerSum(g, k);
  }

  /** The schedule is the rounded recurrence: the first loan up to the refinance, the second after it. */
  lemma {:induction false} ScheduleIsRounded(n: nat, t: Terms)
    ensures n <= 24 ==> After(n, t).balance == Rounded(t, OPENING, 525, t.pay(OPENING, 525, 360), n)
    ensures n >= 24 ==> var payoff := After(24, t).balance;
                        After(n, t).balance == Rounded(t, payoff, 425, t.pay(payoff, 425, 336), n - 24)
    ensures After(n, t).installment == if n < 24 then t.pay(OPENING, 525, 360)
            else t.pay(After(24, t).balance, 425, 336)
  {
    if n > 0 {
      ScheduleIsRounded(n - 1, t);
    }
  }
}
