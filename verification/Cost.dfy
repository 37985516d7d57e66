/** The cost of capital calculator (packages/capital/src/cost.ts), over exact reals. */
module Cost {
  import opened Common
  import opened Powers

  datatype Cadence = Daily | Weekly | Biweekly | Monthly

  function PeriodsPerYear(cadence: Cadence): nat {
    match cadence
    case Daily => 252
    case Weekly => 52
    case Biweekly => 26
    case Monthly => 12
  }

  datatype CashFlow = CashFlow(period: nat, amount: real)

  /** Net present value, summed from the first flow on. */
  function Npv(rate: real, flows: seq<CashFlow>): real
    requires rate > -1.0
  {
    if flows == [] then 0.0
    else
      var last := flows[|flows| - 1];
      Npv(rate, flows[..|flows| - 1]) + last.amount / Pow(1.0 + rate, last.period)
  }

  // ---------------------------------------------------------------------------
  // The solver
  // ---------------------------------------------------------------------------

  const LOW: real := -0.9999
  const HIGH: real := 10.0
  const TOLERANCE: real := 0.000000000001

  function Abs(x: real): real { if x < 0.0 then -x else x }

  function NpvTolerance(flows: seq<CashFlow>, relativeTolerance: real): real {
    var initial := if flows == [] then 1.0 else Abs(flows[0].amount);
    (if initial > 1.0 then initial else 1.0) * relativeTolerance
  }

  /** One is not above zero and the other not below: their product is not positive. */
  ghost predicate OppositeSigns(a: real, b: real) {
    (a <= 0.0 && b >= 0.0) || (a >= 0.0 && b <= 0.0)
  }

  /** The width of the interval after some halvings. */
  ghost function Width(pass: nat): real {
    if pass == 0 then HIGH - LOW else Width(pass - 1) / 2.0
  }

  /** NPV changes sign, or is zero, somewhere between the ends, which `pass` halvings have produced. */
  ghost predicate Bracket(flows: seq<CashFlow>, low: real, high: real, pass: nat) {
    && LOW <= low <= high <= HIGH
    && high - low == Width(pass)
    && OppositeSigns(Npv(low, flows), Npv(high, flows))
  }

  ghost predicate CloseEnough(flows: seq<CashFlow>, rate: real, low: real, high: real, npvTolerance: real)
    requires rate > -1.0
  {
    Abs(Npv(rate, flows)) < npvTolerance || (high - low) / 2.0 < TOLERANCE
  }

  /** After 43 passes half the width is below the tolerance. */
  lemma HalvedEnough(pass: nat)
    requires pass >= 43
    ensures Width(pass) / 2.0 < TOLERANCE
  {
    WidthTimesPower(pass);
    PowTwo43();
    PowAdd(2.0, 43, pass - 43);
    PowAtLeastOne(pass - 43);
    assert Pow(2.0, pass) >= 8796093022208.0;
    if Width(pass) >= 2.0 * TOLERANCE { ProductBound(Width(pass), 2.0 * TOLERANCE, Pow(2.0, pass), 8796093022208.0); }
  }

  lemma {:induction false} WidthTimesPower(pass: nat)
    ensures Width(pass) * Pow(2.0, pass) == HIGH - LOW
  {
    if pass > 0 {
      WidthTimesPower(pass - 1);
    }
  }

  lemma PowTwo43()
    ensures Pow(2.0, 43) == 8796093022208.0
  {
    assert Pow(2.0, 10) == 1024.0 by {
      assert Pow(2.0, 2) == 4.0 && Pow(2.0, 4) == 16.0 && Pow(2.0, 6) == 64.0 && Pow(2.0, 8) == 256.0;
    }
    PowAdd(2.0, 10, 10);
    PowAdd(2.0, 20, 20);
    PowAdd(2.0, 40, 3);
    assert Pow(2.0, 3) == 8.0;
  }

  lemma ProductBound(x: real, x': real, y: real, y': real)
    requires x >= x' > 0.0 && y >= y' > 0.0
    ensures x * y >= x' * y'
  {
    assert x * y >= x' * y;
    assert x' * y >= x' * y';
  }

  lemma SameSign(a: real, b: real)
    ensures a * b > 0.0 <==> (a > 0.0 && b > 0.0) || (a < 0.0 && b < 0.0)
  {
    if a > 0.0 && b > 0.0 { PositiveProduct(a, b); }
    if a < 0.0 && b < 0.0 { PositiveProduct(-a, -b); assert (-a) * (-b) == a * b; }
    if a > 0.0 && b < 0.0 { PositiveProduct(a, -b); assert a * (-b) == -(a * b); }
    if a < 0.0 && b > 0.0 { PositiveProduct(-a, b); assert (-a) * b == -(a * b); }
  }

  lemma {:induction false} PowAtLeastOne(n: nat)
    ensures Pow(2.0, n) >= 1.0
  {
    if n > 0 { PowAtLeastOne(n - 1); }
  }

  /** The half in which the sign changes is the next bracket. */
  lemma ProductSign(a: real, b: real)
    ensures a * b <= 0.0 <==> OppositeSigns(a, b)
  {
    SameSign(a, b);
  }

  /** One pass keeps a bracket of half the width, whichever half it takes. */
  lemma Halve(flows: seq<CashFlow>, low: real, high: real, pass: nat)
    requires Bracket(flows, low, high, pass)
    ensures var mid := (low + high) / 2.0;
      if OppositeSigns(Npv(low, flows), Npv(mid, flows)) then Bracket(flows, low, mid, pass + 1)
      else Bracket(flows, mid, high, pass + 1)
  {
    var mid := (low + high) / 2.0;
    assert mid - low == high - mid == Width(pass) / 2.0;
  }

  /**
   * `rate` is the midpoint of a bracket reached in fewer than 44 passes, and close enough when 44
   * passes are allowed.
   */
  ghost predicate Solves(flows: seq<CashFlow>, rate: real, npvTolerance: real, maxIterations: nat) {
    && LOW <= rate <= HIGH
    && exists low: real, high: real, pass: nat ::
         && Bracket(flows, low, high, pass)
         && pass <= 43 && pass <= maxIterations
         && rate == (low + high) / 2.0
         && (maxIterations >= 44 ==> CloseEnough(flows, rate, low, high, npvTolerance))
  }

  /**
   * Bisection. The answer is the midpoint of a bracket, close enough whenever 44 passes are
   * allowed: the default of 200 is never used up.
   */
  method SolvePeriodicRate(flows: seq<CashFlow>, relativeTolerance: real := TOLERANCE, maxIterations: nat := 200)
    returns (rate: Option<real>)
    ensures rate.None? <==> Npv(LOW, flows) * Npv(HIGH, flows) > 0.0
    ensures rate.Some? ==> Solves(flows, rate.value, NpvTolerance(flows, relativeTolerance), maxIterations)
  {
    var low, high := LOW, HIGH;
    var npvLow := Npv(low, flows);
    var npvHigh := Npv(high, flows);
    if npvLow * npvHigh > 0.0 {
      return None;
    }
    ProductSign(npvLow, npvHigh);
    var npvTolerance := NpvTolerance(flows, relativeTolerance);
    for iteration := 0 to maxIterations
      invariant Bracket(flows, low, high, iteration)
      invariant npvLow == Npv(low, flows)
      invariant iteration <= 43
    {
      var mid := (low + high) / 2.0;
      var npvMid := Npv(mid, flows);
      if iteration >= 43 { HalvedEnough(iteration); }
      if Abs(npvMid) < npvTolerance || (high - low) / 2.0 < TOLERANCE {
        return Some(mid);
      }
      Halve(flows, low, high, iteration);
      ProductSign(npvLow, npvMid);
      if npvLow * npvMid <= 0.0 {
        high := mid;
      } else {
        low := mid;
        npvLow := npvMid;
      }
    }
    return Some((low + high) / 2.0);
  }

  // ---------------------------------------------------------------------------
  // Products
  // ---------------------------------------------------------------------------

  function Annualize(periodicRate: real, periodsPerYear: nat): real {
    Pow(1.0 + periodicRate, periodsPerYear) - 1.0
  }

  datatype ProductKind = CreditCard | LineOfCredit | TermLoan | MerchantCashAdvance | EquipmentFinance

  datatype Terms = Terms(
    kind: ProductKind,
    principal: real,
    originationFee: real,
    cadence: Cadence,
    termPeriods: nat,
    annualRate: Option<real>,
    factorRate: Option<real>)

  datatype CostOfCapital = CostOfCapital(
    kind: ProductKind,
    netProceeds: real,
    totalRepaid: real,
    totalCost: real,
    paymentPerPeriod: real,
    cadence: Cadence,
    termPeriods: nat,
    effectiveApr: Option<real>,
    simpleCostRatio: real,
    flows: seq<CashFlow>)

  function Level(amount: real, periods: nat): real {
    if periods == 0 then 0.0 else amount / periods as real
  }

  function NominalPeriodicRate(terms: Terms): real {
    (if terms.annualRate.Some? then terms.annualRate.value else 0.0) / PeriodsPerYear(terms.cadence) as real
  }

  /** The annuity formula gives a finite number: its denominator is not zero. */
  predicate HasPayment(periodic: real, periods: nat) {
    periodic == 0.0 || (periods > 0 && (periodic >= -1.0 || Pow(1.0 + periodic, periods) != 1.0))
  }

  predicate Computable(terms: Terms) {
    terms.factorRate.Some? || HasPayment(NominalPeriodicRate(terms), terms.termPeriods)
  }

  /** At -100% a period the denominator is infinite and the payment nothing. */
  function AmortizingPayment(principal: real, periodic: real, periods: nat): real
    requires HasPayment(periodic, periods)
  {
    if periodic == 0.0 then Level(principal, periods)
    else if periodic == -1.0 then 0.0
    else
      DenominatorNotZero(periodic, periods);
      principal * periodic / (1.0 - 1.0 / Pow(1.0 + periodic, periods))
  }

  lemma DenominatorNotZero(periodic: real, periods: nat)
    requires HasPayment(periodic, periods) && periodic != 0.0 && periodic != -1.0
    ensures Pow(1.0 + periodic, periods) != 0.0 && 1.0 - 1.0 / Pow(1.0 + periodic, periods) != 0.0
  {
    PowNotZero(1.0 + periodic, periods);
    if periodic > -1.0 {
      GeometricSeries(periodic, periods);
      AnnuityPositive(periodic, periods);
    }
  }

  function PaymentPerPeriod(terms: Terms): real
    requires Computable(terms)
  {
    if terms.factorRate.Some? then Level(terms.principal * terms.factorRate.value, terms.termPeriods)
    else AmortizingPayment(terms.principal, NominalPeriodicRate(terms), terms.termPeriods)
  }

  /** The advance, then one equal repayment at the end of every period. */
  function Schedule(netProceeds: real, payment: real, periods: nat): seq<CashFlow> {
    [CashFlow(0, netProceeds)] + seq(periods, i requires 0 <= i < periods => CashFlow(i + 1, -payment))
  }

  function FlowsOf(terms: Terms): seq<CashFlow>
    requires Computable(terms)
  {
    Schedule(terms.principal - terms.originationFee, PaymentPerPeriod(terms), terms.termPeriods)
  }

  /**
   * `periodic` is the midpoint of an interval over which NPV changes sign, and either the interval
   * is narrower than 2e-12 or the schedule balances at `periodic` to the tolerance.
   */
  ghost predicate TrueRate(flows: seq<CashFlow>, periodic: real) {
    && LOW <= periodic <= HIGH
    && exists low: real, high: real, pass: nat ::
         && Bracket(flows, low, high, pass)
         && periodic == (low + high) / 2.0
         && CloseEnough(flows, periodic, low, high, NpvTolerance(flows, TOLERANCE))
  }

  function Undiscounted(payment: real, periods: nat): real { payment * periods as real }

  function SimpleCostRatio(totalCost: real, principal: real): real {
    if principal == 0.0 then 0.0 else totalCost / principal
  }

  /** The figures reported for a product. */
  ghost predicate Costs(terms: Terms, cost: CostOfCapital) {
    && Computable(terms)
    && cost.kind == terms.kind && cost.cadence == terms.cadence && cost.termPeriods == terms.termPeriods
    && cost.netProceeds + terms.originationFee == terms.principal
    && cost.paymentPerPeriod == PaymentPerPeriod(terms)
    && cost.totalRepaid == Undiscounted(cost.paymentPerPeriod, terms.termPeriods)
    && cost.totalCost == -Npv(0.0, cost.flows)
    && cost.simpleCostRatio == SimpleCostRatio(cost.totalCost, terms.principal)
    && cost.flows == FlowsOf(terms)
    && ReportsTrueRate(cost.effectiveApr, cost.flows, terms.cadence)
  }

  /** `costOfCapital`; None is a payment that is not a finite number. */
  method ComputeCostOfCapital(terms: Terms) returns (cost: Option<CostOfCapital>)
    ensures cost.Some? <==> Computable(terms)
    ensures cost.Some? ==> Costs(terms, cost.value)
  {
    if !Computable(terms) { return None; }
    var netProceeds := terms.principal - terms.originationFee;
    var payment := PaymentPerPeriod(terms);
    var totalRepaid := Undiscounted(payment, terms.termPeriods);
    var flows := Schedule(netProceeds, payment, terms.termPeriods);
    var apr := EffectiveApr(flows, terms.cadence);
    UndiscountedCost(netProceeds, payment, terms.termPeriods);
    var totalCost := totalRepaid - netProceeds;
    var ratio := SimpleCostRatio(totalCost, terms.principal);
    return Some(CostOfCapital(
      terms.kind, netProceeds, totalRepaid, totalCost, payment, terms.cadence, terms.termPeriods, apr, ratio, flows));
  }

  /** No rate when NPV has one sign at both ends of the range; otherwise a true rate, compounded. */
  ghost predicate ReportsTrueRate(apr: Option<real>, flows: seq<CashFlow>, cadence: Cadence) {
    && (apr.None? <==> Npv(LOW, flows) * Npv(HIGH, flows) > 0.0)
    && (apr.Some? ==>
          exists periodic :: TrueRate(flows, periodic) && apr.value == Annualize(periodic, PeriodsPerYear(cadence)))
  }

  method EffectiveApr(flows: seq<CashFlow>, cadence: Cadence) returns (apr: Option<real>)
    ensures ReportsTrueRate(apr, flows, cadence)
  {
    var periodicRate := SolvePeriodicRate(flows);
    if periodicRate.None? {
      return None;
    }
    assert TrueRate(flows, periodicRate.value);
    return Some(Annualize(periodicRate.value, PeriodsPerYear(cadence)));
  }

  /** The total cost is what the schedule leaves the borrower short, undiscounted. */
  lemma UndiscountedCost(net: real, payment: real, periods: nat)
    ensures Undiscounted(payment, periods) - net == -Npv(0.0, Schedule(net, payment, periods))
  {
    NpvOfSchedule(0.0, net, payment, periods);
    AnnuityAtZero(periods);
  }

  /** Total of the level repayments discounted at a rate. */
  lemma {:induction false} NpvOfSchedule(rate: real, net: real, payment: real, periods: nat)
    requires rate > -1.0
    ensures Npv(rate, Schedule(net, payment, periods)) == net - payment * Annuity(rate, periods)
  {
    var flows := Schedule(net, payment, periods);
    if periods == 0 {
      assert flows == [CashFlow(0, net)];
      assert flows[..0] == [];
    } else {
      NpvOfSchedule(rate, net, payment, periods - 1);
      assert flows[..periods] == Schedule(net, payment, periods - 1);
      assert flows[periods] == CashFlow(periods, -payment);
      RepaymentWorth(payment, Pow(1.0 + rate, periods), Annuity(rate, periods - 1));
    }
  }

  lemma RepaymentWorth(payment: real, power: real, annuity: real)
    requires power > 0.0
    ensures -payment * annuity + -payment / power == -payment * (annuity + 1.0 / power)
  {
    var discount := 1.0 / power;
    assert discount * power == 1.0;
    assert payment / power == payment * discount;
  }

  ghost predicate IncreasingNpv(flows: seq<CashFlow>) {
    forall r, s :: -1.0 < r < s ==> Npv(r, flows) < Npv(s, flows)
  }

  lemma SameOrder(flows: seq<CashFlow>, r: real, s: real)
    requires IncreasingNpv(flows) && r > -1.0 && s > -1.0
    ensures r < s <==> Npv(r, flows) < Npv(s, flows)
    ensures r == s <==> Npv(r, flows) == Npv(s, flows)
  {}

  /** With something to repay, NPV strictly increases in the rate. */
  lemma ScheduleIncreases(net: real, payment: real, periods: nat)
    requires payment > 0.0 && periods > 0
    ensures IncreasingNpv(Schedule(net, payment, periods))
  {
    var flows := Schedule(net, payment, periods);
    forall r, s | -1.0 < r < s ensures Npv(r, flows) < Npv(s, flows) {
      NpvOfSchedule(r, net, payment, periods);
      NpvOfSchedule(s, net, payment, periods);
      AnnuityDecreases(r, s, periods);
      assert payment * Annuity(r, periods) > payment * Annuity(s, periods);
    }
  }

  /** The two payment formulas are one: the payment whose discounted total is the principal. */
  lemma PaymentRepaysPrincipal(principal: real, periodic: real, periods: nat)
    requires periodic > -1.0 && periods > 0
    ensures AmortizingPayment(principal, periodic, periods) * Annuity(periodic, periods) == principal
  {
    if periodic == 0.0 {
      AnnuityAtZero(periods);
    } else {
      DenominatorNotZero(periodic, periods);
      GeometricSeries(periodic, periods);
      QuotientTimes(principal, periodic, Annuity(periodic, periods), 1.0 - Discount(periodic, periods));
    }
  }

  lemma QuotientTimes(principal: real, periodic: real, annuity: real, repaid: real)
    requires repaid != 0.0 && periodic != 0.0 && periodic * annuity == repaid
    ensures principal * periodic / repaid * annuity == principal
  {
    var payment := principal * periodic / repaid;
    assert payment * repaid == principal * periodic;
    assert payment * (periodic * annuity) == periodic * (payment * annuity);
    CancelFactor(periodic, payment * annuity, principal);
  }

  lemma CancelFactor(k: real, x: real, y: real)
    requires k != 0.0 && k * x == k * y
    ensures x == y
  {
    assert k * (x - y) == 0.0;
  }

  /**
   * A term loan balances at its nominal periodic rate to the last cent of the fee, so with no fee
   * the nominal rate is the one rate at which it balances.
   */
  lemma NominalRateLeavesTheFee(terms: Terms)
    requires terms.factorRate.None? && terms.termPeriods > 0 && NominalPeriodicRate(terms) > -1.0
    ensures Npv(NominalPeriodicRate(terms), FlowsOf(terms)) == -terms.originationFee
    ensures terms.principal > 0.0 ==> IncreasingNpv(FlowsOf(terms))
  {
    LoanLeavesTheFee(terms.principal, terms.originationFee, NominalPeriodicRate(terms), terms.termPeriods);
  }

  lemma LoanLeavesTheFee(principal: real, fee: real, periodic: real, n: nat)
    requires periodic > -1.0 && n > 0
    ensures var flows := Schedule(principal - fee, AmortizingPayment(principal, periodic, n), n);
      Npv(periodic, flows) == -fee && (principal > 0.0 ==> IncreasingNpv(flows))
  {
    PaymentRepaysPrincipal(principal, periodic, n);
    if principal > 0.0 { PaymentIsPositive(principal, periodic, n); }
    RepaidLoanLeavesTheFee(principal, fee, periodic, n, AmortizingPayment(principal, periodic, n));
  }

  lemma RepaidLoanLeavesTheFee(principal: real, fee: real, periodic: real, n: nat, payment: real)
    requires periodic > -1.0 && n > 0 && payment * Annuity(periodic, n) == principal
    ensures Npv(periodic, Schedule(principal - fee, payment, n)) == -fee
    ensures payment > 0.0 ==> IncreasingNpv(Schedule(principal - fee, payment, n))
  {
    NpvOfSchedule(periodic, principal - fee, payment, n);
    if payment > 0.0 { ScheduleIncreases(principal - fee, payment, n); }
  }

  lemma PaymentIsPositive(principal: real, periodic: real, n: nat)
    requires periodic > -1.0 && n > 0 && principal > 0.0
    ensures AmortizingPayment(principal, periodic, n) > 0.0
  {
    PaymentRepaysPrincipal(principal, periodic, n);
    AnnuityPositive(periodic, n);
    PositiveQuotient(AmortizingPayment(principal, periodic, n), Annuity(periodic, n), principal);
  }

  lemma PositiveQuotient(x: real, y: real, product: real)
    requires y > 0.0 && product > 0.0 && x * y == product
    ensures x > 0.0
  {
    SameSign(x, y);
  }

  /** Netting a fee from the advance puts the true rate strictly above the nominal one. */
  lemma FeeRaisesTheRate(terms: Terms, rate: real)
    requires terms.factorRate.None? && terms.termPeriods > 0 && NominalPeriodicRate(terms) > -1.0
    requires terms.principal > 0.0 && rate > -1.0
    requires Npv(rate, FlowsOf(terms)) == 0.0
    ensures rate > NominalPeriodicRate(terms) <==> terms.originationFee > 0.0
    ensures rate == NominalPeriodicRate(terms) <==> terms.originationFee == 0.0
  {
    NominalRateLeavesTheFee(terms);
    SameOrder(FlowsOf(terms), rate, NominalPeriodicRate(terms));
  }

  /**
   * The rate is within a millionth of a millionth of the root, or leaves less than a millionth of a
   * millionth of the first flow, or of 1 when that is less than 1.
   */
  ghost predicate Finds(flows: seq<CashFlow>, rate: real, root: real)
    requires rate > -1.0
  {
    || -1.0 < (rate - root) * 1_000_000_000_000.0 < 1.0
    || -1.0 < Npv(rate, flows) * 1_000_000_000_000.0 < 1.0
    || (flows != [] && flows[0].amount < Npv(rate, flows) * 1_000_000_000_000.0 < -flows[0].amount)
    || (flows != [] && -flows[0].amount < Npv(rate, flows) * 1_000_000_000_000.0 < flows[0].amount)
  }

  /** Every bracket the solver keeps holds the balancing rate, so a true rate finds it. */
  lemma TrueRateFindsTheRoot(flows: seq<CashFlow>, periodic: real, root: real)
    requires IncreasingNpv(flows) && TrueRate(flows, periodic)
    requires -0.9999 <= root <= 10.0 && Npv(root, flows) == 0.0
    ensures Finds(flows, periodic, root)
  {
    var low: real, high: real, pass: nat :| Bracket(flows, low, high, pass) && periodic == (low + high) / 2.0
      && CloseEnough(flows, periodic, low, high, NpvTolerance(flows, TOLERANCE));
    BracketHoldsRoot(flows, low, high, pass, root);
  }

  lemma BracketHoldsRoot(flows: seq<CashFlow>, low: real, high: real, pass: nat, root: real)
    requires IncreasingNpv(flows) && Bracket(flows, low, high, pass)
    requires LOW <= root <= HIGH && Npv(root, flows) == 0.0
    ensures low <= root <= high
  {
    SameOrder(flows, root, low);
    SameOrder(flows, root, high);
    SameOrder(flows, low, high);
  }

  /**
   * End to end: a loan without a fee reports a rate whenever its own periodic rate is one the solver
   * looks for, and the rate compounded is that one to within the solver's tolerance.
   */
  lemma FreeLoanReportsItsOwnRate(terms: Terms, apr: Option<real>)
    requires terms.factorRate.None? && terms.termPeriods > 0 && terms.originationFee == 0.0 && terms.principal > 0.0
    requires -0.9999 <= NominalPeriodicRate(terms) <= 10.0
    requires ReportsTrueRate(apr, FlowsOf(terms), terms.cadence)
    ensures apr.Some?
    ensures exists periodic: real ::
      && periodic > -1.0 && Finds(FlowsOf(terms), periodic, NominalPeriodicRate(terms))
      && apr.value == Annualize(periodic, PeriodsPerYear(terms.cadence))
  {
    NominalRateLeavesTheFee(terms);
    ReportsTheRoot(apr, FlowsOf(terms), terms.cadence, NominalPeriodicRate(terms));
  }

  /** A schedule that balances at a rate in range reports an APR, compounded from one that finds it. */
  lemma ReportsTheRoot(apr: Option<real>, flows: seq<CashFlow>, cadence: Cadence, root: real)
    requires ReportsTrueRate(apr, flows, cadence) && IncreasingNpv(flows)
    requires -0.9999 <= root <= 10.0 && Npv(root, flows) == 0.0
    ensures apr.Some?
    ensures exists periodic: real ::
      periodic > -1.0 && Finds(flows, periodic, root) && apr.value == Annualize(periodic, PeriodsPerYear(cadence))
  {
    RootInRangeChangesSign(flows, root);
    var periodic :| TrueRate(flows, periodic) && apr.value == Annualize(periodic, PeriodsPerYear(cadence));
    TrueRateFindsTheRoot(flows, periodic, root);
  }

  lemma RootInRangeChangesSign(flows: seq<CashFlow>, root: real)
    requires IncreasingNpv(flows) && LOW <= root <= HIGH && Npv(root, flows) == 0.0
    ensures Npv(LOW, flows) * Npv(HIGH, flows) <= 0.0
  {
    SameOrder(flows, LOW, root);
    SameOrder(flows, root, HIGH);
    SameSign(Npv(LOW, flows), Npv(HIGH, flows));
  }

  /**
   * The solver has no answer for a level schedule exactly when its true rate would lie outside
   * -99.99% to 1000% a period, not only for vectors that never change sign.
   */
  lemma NoRateInRange(net: real, payment: real, periods: nat)
    requires payment > 0.0 && periods > 0
    ensures var flows := Schedule(net, payment, periods);
      Npv(LOW, flows) * Npv(HIGH, flows) > 0.0 <==> Npv(HIGH, flows) < 0.0 || Npv(LOW, flows) > 0.0
  {
    ScheduleIncreases(net, payment, periods);
    var flows := Schedule(net, payment, periods);
    SameSign(Npv(LOW, flows), Npv(HIGH, flows));
    SameOrder(flows, LOW, HIGH);
  }

  /** An advance of 1 repaid as 12 a period later balances at 1100% a period and gets no rate. */
  lemma MixedVectorWithoutRate()
    ensures var flows := Schedule(1.0, 12.0, 1);
      Npv(11.0, flows) == 0.0 && Npv(LOW, flows) * Npv(HIGH, flows) > 0.0
  {
    var flows := Schedule(1.0, 12.0, 1);
    NpvOfSchedule(11.0, 1.0, 12.0, 1);
    NpvOfSchedule(HIGH, 1.0, 12.0, 1);
    assert Pow(12.0, 1) == 12.0 && Pow(11.0, 1) == 11.0;
    assert Annuity(11.0, 1) == Discount(11.0, 1) && Annuity(HIGH, 1) == Discount(HIGH, 1);
    NoRateInRange(1.0, 12.0, 1);
  }

  // ---------------------------------------------------------------------------
  // Factor rates
  // ---------------------------------------------------------------------------

  function Advance(principal: real, factorRate: real, cadence: Cadence, termPeriods: nat): Terms {
    Terms(MerchantCashAdvance, principal, 0.0, cadence, termPeriods, None, Some(factorRate))
  }

  method FactorRateToApr(factorRate: real, cadence: Cadence, termPeriods: nat, principal: real := 100000.0)
    returns (apr: Option<real>)
    ensures ReportsTrueRate(apr, FlowsOf(Advance(principal, factorRate, cadence, termPeriods)), cadence)
    ensures apr.None? <==> principal != 0.0 && (termPeriods == 0 || OutOfRange(factorRate, termPeriods))
  {
    var cost := ComputeCostOfCapital(Advance(principal, factorRate, cadence, termPeriods));
    apr := cost.value.effectiveApr;
    if principal != 0.0 && termPeriods > 0 {
      AdvanceWithoutRate(principal, factorRate, cadence, termPeriods);
    } else {
      AdvanceOfNothing(principal, factorRate, cadence, termPeriods);
    }
  }

  /** Balancing the advance takes more than 1000% a period, or less than -99.99%, or cannot be done. */
  predicate OutOfRange(factor: real, n: nat) {
    Unbalanced(factor, n as real, Annuity(-0.9999, n), 1.0 - Discount(10.0, n))
  }

  predicate Unbalanced(factor: real, k: real, low: real, repaid: real) {
    factor * repaid > 10.0 * k || factor * low < k
  }

  /** What an advance repaid in `k` equal parts is worth, at a rate where they have this annuity value. */
  ghost predicate WorthAs(npv: real, principal: real, factor: real, annuity: real, k: real)
    requires k != 0.0
  {
    npv == principal * (1.0 - factor * (annuity / k))
  }

  lemma NpvOfAdvance(rate: real, principal: real, factor: real, cadence: Cadence, n: nat)
    requires rate > -1.0 && n > 0
    ensures WorthAs(Npv(rate, FlowsOf(Advance(principal, factor, cadence, n))), principal, factor, Annuity(rate, n),
      n as real)
  {
    FlowsOfAdvance(principal, factor, cadence, n);
    NpvOfSpread(rate, principal, principal * factor, n);
    var average := Annuity(rate, n) / n as real;
    ProductAssociates(principal, factor, average);
  }

  lemma AverageTimes(total: real, a: real, k: real)
    requires k != 0.0
    ensures total / k * a == total * (a / k)
  {
    var x, y := total / k, a / k;
    assert x * k == total && y * k == a;
    assert x * (y * k) == (x * k) * y;
  }

  lemma FlowsOfAdvance(principal: real, factor: real, cadence: Cadence, n: nat)
    requires n > 0
    ensures FlowsOf(Advance(principal, factor, cadence, n)) == Schedule(principal, principal * factor / n as real, n)
    ensures principal > 0.0 && factor > 0.0 ==> principal * factor / n as real > 0.0
  {
    var terms := Advance(principal, factor, cadence, n);
    assert terms.principal - terms.originationFee == principal;
    assert PaymentPerPeriod(terms) == principal * factor / n as real;
    if principal > 0.0 && factor > 0.0 { PositiveProduct(principal, factor); }
  }

  /** The solver finds no rate for an advance exactly when none in its range balances it. */
  lemma AdvanceWithoutRate(principal: real, factor: real, cadence: Cadence, n: nat)
    requires principal != 0.0 && n > 0
    ensures var flows := FlowsOf(Advance(principal, factor, cadence, n));
      Npv(LOW, flows) * Npv(HIGH, flows) > 0.0 <==> OutOfRange(factor, n)
  {
    NpvOfAdvance(LOW, principal, factor, cadence, n);
    NpvOfAdvance(HIGH, principal, factor, cadence, n);
    var flows := FlowsOf(Advance(principal, factor, cadence, n));
    WithoutRate(Npv(LOW, flows), Npv(HIGH, flows), principal, factor, n);
  }

  lemma WithoutRate(atLow: real, atHigh: real, principal: real, factor: real, n: nat)
    requires principal != 0.0 && n > 0
    requires WorthAs(atLow, principal, factor, Annuity(LOW, n), n as real)
    requires WorthAs(atHigh, principal, factor, Annuity(HIGH, n), n as real)
    ensures atLow * atHigh > 0.0 <==> OutOfRange(factor, n)
  {
    AnnuitiesInRange(n);
    OneSidedExactly(principal, factor, n as real, Annuity(LOW, n), Annuity(HIGH, n), 1.0 - Discount(HIGH, n), atLow,
      atHigh);
  }

  lemma AnnuitiesInRange(n: nat)
    requires n > 0
    ensures Annuity(LOW, n) > Annuity(HIGH, n) > 0.0
    ensures HIGH * Annuity(HIGH, n) == 1.0 - Discount(HIGH, n)
  {
    AnnuityDecreases(LOW, HIGH, n);
    AnnuityPositive(HIGH, n);
    GeometricSeries(HIGH, n);
  }

  lemma OneSidedExactly(principal: real, factor: real, k: real, low: real, high: real, repaid: real, atLow: real,
      atHigh: real)
    requires principal != 0.0 && k > 0.0 && low > high > 0.0 && HIGH * high == repaid
    requires WorthAs(atLow, principal, factor, low, k) && WorthAs(atHigh, principal, factor, high, k)
    ensures atLow * atHigh > 0.0 <==> Unbalanced(factor, k, low, repaid)
  {
    var a, b := low / k, high / k;
    AverageOrder(low, high, k);
    AveragesPositive(high, k);
    FactorOrder(factor, a, b);
    SameSide(principal, 1.0 - factor * a, 1.0 - factor * b, atLow, atHigh);
    AgainstOne(factor, a, low, k);
    AgainstOne(factor, b, high, k);
    TenTimes(factor, high, repaid, k);
  }

  lemma AveragesPositive(a: real, k: real)
    requires a > 0.0 && k > 0.0
    ensures a / k > 0.0
  {
    var x := a / k;
    assert x * k == a;
    PositiveQuotient(x, k, a);
  }

  lemma AverageOrder(a: real, b: real, k: real)
    requires a > b && k > 0.0
    ensures a / k > b / k
  {
    var x, y := a / k, b / k;
    assert x * k == a && y * k == b;
    if x <= y { ProductOrder(x, y, k); }
  }

  lemma ProductOrder(x: real, y: real, k: real)
    requires k > 0.0
    ensures x <= y <==> x * k <= y * k
  {
    SignOfProduct(y - x, k);
    assert (y - x) * k == y * k - x * k;
  }

  lemma SignOfProduct(d: real, k: real)
    requires k > 0.0
    ensures d * k > 0.0 <==> d > 0.0
    ensures d * k < 0.0 <==> d < 0.0
  {
    SameSign(d, k);
    SameSign(-d, k);
    assert -d * k == -(d * k);
  }

  /** Of two positive averages the larger is moved further from zero by the factor. */
  lemma FactorOrder(factor: real, a: real, b: real)
    requires a > b > 0.0
    ensures factor > 0.0 ==> factor * a > factor * b > 0.0
    ensures factor <= 0.0 ==> factor * a <= 0.0 && factor * b <= 0.0
  {
    if factor > 0.0 {
      PositiveProduct(factor, a - b);
      PositiveProduct(factor, b);
      assert factor * (a - b) == factor * a - factor * b;
    } else {
      SignOfProduct(factor, a);
      SignOfProduct(factor, b);
    }
  }

  lemma ScaledSigns(p: real, u: real)
    ensures p > 0.0 ==> (p * u > 0.0 <==> u > 0.0) && (p * u < 0.0 <==> u < 0.0)
    ensures p < 0.0 ==> (p * u > 0.0 <==> u < 0.0) && (p * u < 0.0 <==> u > 0.0)
  {
    SameSign(p, u);
    SameSign(p, -u);
    assert p * -u == -(p * u);
  }

  lemma SameSide(p: real, u: real, v: real, x: real, y: real)
    requires p != 0.0 && x == p * u && y == p * v
    ensures x * y > 0.0 <==> (u > 0.0 && v > 0.0) || (u < 0.0 && v < 0.0)
  {
    ScaledSigns(p, u);
    ScaledSigns(p, v);
    SameSign(x, y);
  }

  lemma AgainstOne(factor: real, average: real, annuity: real, k: real)
    requires k > 0.0 && average * k == annuity
    ensures factor * average < 1.0 <==> factor * annuity < k
    ensures factor * average > 1.0 <==> factor * annuity > k
  {
    ProductAssociates(factor, average, k);
    ScaleBoth(factor * average, k, factor * annuity);
  }

  lemma TenTimes(factor: real, annuity: real, repaid: real, k: real)
    requires HIGH * annuity == repaid
    ensures factor * annuity > k <==> factor * repaid > HIGH * k
  {
    assert repaid == 10.0 * annuity;
    assert factor * repaid == 10.0 * (factor * annuity);
  }

  /** With nothing advanced every rate balances; with no period to repay in, none does. */
  lemma AdvanceOfNothing(principal: real, factor: real, cadence: Cadence, n: nat)
    requires principal == 0.0 || n == 0
    ensures var flows := FlowsOf(Advance(principal, factor, cadence, n));
      Npv(LOW, flows) * Npv(HIGH, flows) > 0.0 <==> principal != 0.0
  {
    var terms := Advance(principal, factor, cadence, n);
    var payment := PaymentPerPeriod(terms);
    assert terms.principal - terms.originationFee == principal;
    NpvOfSchedule(LOW, principal, payment, n);
    NpvOfSchedule(HIGH, principal, payment, n);
    if n > 0 { assert principal * factor == 0.0 && payment == 0.0; }
    SameSign(principal, principal);
  }

  /** An advance of 100 of which half a cent comes back a period later: both signs, and no rate. */
  lemma LowAdvanceWithoutRate()
    ensures var flows := FlowsOf(Advance(100.0, 0.00005, Monthly, 1));
      && flows == Schedule(100.0, 0.005, 1)
      && Npv(LOW, flows) * Npv(HIGH, flows) > 0.0
  {
    FlowsOfAdvance(100.0, 0.00005, Monthly, 1);
    AdvanceWithoutRate(100.0, 0.00005, Monthly, 1);
    assert Pow(1.0 + LOW, 1) == 0.0001;
    assert Annuity(LOW, 1) == Discount(LOW, 1) == 10000.0;
  }

  lemma SignOfNpv(principal: real, x: real)
    requires principal > 0.0
    ensures principal * (1.0 - x) < 0.0 <==> x > 1.0
    ensures principal * (1.0 - x) == 0.0 <==> x == 1.0
  {}

  lemma ScaleBoth(x: real, w: real, total: real)
    requires w > 0.0 && total == x * w
    ensures total > w <==> x > 1.0
    ensures total < w <==> x < 1.0
  {
    if x > 1.0 { PositiveProduct(x - 1.0, w); }
    if x < 1.0 { PositiveProduct(1.0 - x, w); }
    assert (x - 1.0) * w == total - w;
  }

  /** A factor above 1 loses money at a rate of zero. */
  lemma FactorCostsMoney(principal: real, factor: real, cadence: Cadence, n: nat)
    requires principal > 0.0 && n > 0
    ensures var flows := FlowsOf(Advance(principal, factor, cadence, n));
      Npv(0.0, flows) == principal * (1.0 - factor) && (factor > 1.0 <==> Npv(0.0, flows) < 0.0)
  {
    NpvOfAdvance(0.0, principal, factor, cadence, n);
    AnnuityAtZero(n);
    WorthAtPar(principal, factor, n as real, Npv(0.0, FlowsOf(Advance(principal, factor, cadence, n))));
  }

  lemma WorthAtPar(principal: real, factor: real, k: real, npv: real)
    requires principal > 0.0 && k > 0.0 && WorthAs(npv, principal, factor, k, k)
    ensures npv == principal * (1.0 - factor) && (factor > 1.0 <==> npv < 0.0)
  {
    assert k / k == 1.0;
    SignOfNpv(principal, factor);
  }

  /**
   * 100 advanced and 110 repaid a month later costs 10% a month, which compounds to between 213.7%
   * and 214% a year.
   */
  lemma TenPercentAMonth(apr: Option<real>)
    requires ReportsTrueRate(apr, FlowsOf(Advance(100.0, 1.1, Monthly, 1)), Monthly)
    ensures apr.Some? && 2.137 < apr.value < 2.14
  {
    TenPercentBalances();
    TenPercentReported(apr, FlowsOf(Advance(100.0, 1.1, Monthly, 1)));
  }

  lemma TenPercentReported(apr: Option<real>, flows: seq<CashFlow>)
    requires flows == Schedule(100.0, 110.0, 1) && IncreasingNpv(flows) && Npv(0.1, flows) == 0.0
    requires ReportsTrueRate(apr, flows, Monthly)
    ensures apr.Some? && 2.137 < apr.value < 2.14
  {
    ReportsTheRoot(apr, flows, Monthly, 0.1);
    var periodic :| periodic > -1.0 && Finds(flows, periodic, 0.1) && apr.value == Annualize(periodic, 12);
    FoundNearTenPercent(periodic);
    TwelfthPower(1.0 + periodic);
  }

  lemma TenPercentBalances()
    ensures var flows := FlowsOf(Advance(100.0, 1.1, Monthly, 1));
      flows == Schedule(100.0, 110.0, 1) && IncreasingNpv(flows) && Npv(0.1, flows) == 0.0
  {
    FlowsOfAdvance(100.0, 1.1, Monthly, 1);
    AdvanceIncreases(100.0, 1.1, Monthly, 1);
    OneRepayment(0.1, 100.0, 110.0);
  }

  lemma FoundNearTenPercent(periodic: real)
    requires periodic > -1.0 && Finds(Schedule(100.0, 110.0, 1), periodic, 0.1)
    ensures 1.09999 < 1.0 + periodic < 1.10001
  {
    var npv := Npv(periodic, Schedule(100.0, 110.0, 1));
    OneRepayment(periodic, 100.0, 110.0);
    if -0.000001 < npv < 0.000001 { NearTenPercent(1.0 + periodic, 100.0 - npv); }
  }

  lemma OneRepayment(rate: real, advanced: real, repaid: real)
    requires rate > -1.0
    ensures (advanced - Npv(rate, Schedule(advanced, repaid, 1))) * (1.0 + rate) == repaid
  {
    NpvOfSchedule(rate, advanced, repaid, 1);
    assert Pow(1.0 + rate, 1) == 1.0 + rate;
    assert Annuity(rate, 1) == Discount(rate, 1) == 1.0 / (1.0 + rate);
  }

  lemma NearTenPercent(base: real, advanced: real)
    requires 99.999999 < advanced < 100.000001 && advanced * base == 110.0
    ensures 1.09999 < base < 1.10001
  {
    ProductOrder(base, 1.09999, advanced);
    ProductOrder(1.10001, base, advanced);
  }

  lemma TwelfthPower(base: real)
    requires 1.09999 < base < 1.10001
    ensures 3.137 < Pow(base, 12) < 3.14
  {
    assert Pow(base, 1) == base;
    PowAdd(base, 1, 1);
    PowAdd(base, 2, 1);
    ProductBetween(base, base, 1.09999, 1.10001, 1.09999, 1.10001);
    ProductBetween(Pow(base, 2), base, 1.20997, 1.21003, 1.09999, 1.10001);
    CubeToTwelfth(base);
  }

  lemma CubeToTwelfth(base: real)
    requires 1.33095 < Pow(base, 3) < 1.33105
    ensures 3.137 < Pow(base, 12) < 3.14
  {
    PowAdd(base, 3, 3);
    PowAdd(base, 6, 6);
    ProductBetween(Pow(base, 3), Pow(base, 3), 1.33095, 1.33105, 1.33095, 1.33105);
    ProductBetween(Pow(base, 6), Pow(base, 6), 1.77142, 1.7717, 1.77142, 1.7717);
  }

  lemma ProductBetween(x: real, y: real, a: real, b: real, c: real, d: real)
    requires 0.0 < a < x < b && 0.0 < c < y < d
    ensures a * c < x * y < b * d
  {
    ProductMonotone(a, x, c, y);
    ProductMonotone(x, b, y, d);
  }

  /** With no period there is no payment; without a rate the principal is repaid level; at -100% nothing is. */
  lemma EdgePayments(terms: Terms)
    requires Computable(terms)
    ensures terms.termPeriods == 0 ==> PaymentPerPeriod(terms) == 0.0
    ensures terms.factorRate.None? && terms.annualRate.None? ==>
      PaymentPerPeriod(terms) * terms.termPeriods as real == if terms.termPeriods == 0 then 0.0 else terms.principal
    ensures terms.factorRate.None? && NominalPeriodicRate(terms) == -1.0 ==> PaymentPerPeriod(terms) == 0.0
  {
  }

  /** The payment is missing for a rate over no periods, and for -200% a period over an even number of them. */
  lemma PaymentIsMissingExactly(terms: Terms)
    requires terms.factorRate.None?
    ensures var annual := if terms.annualRate.Some? then terms.annualRate.value else 0.0;
      !Computable(terms) <==>
        annual != 0.0
        && (terms.termPeriods == 0
            || (terms.termPeriods % 2 == 0 && annual == -2.0 * PeriodsPerYear(terms.cadence) as real))
  {
    var annual := if terms.annualRate.Some? then terms.annualRate.value else 0.0;
    var periods := PeriodsPerYear(terms.cadence) as real;
    var rate := annual / periods;
    assert rate == NominalPeriodicRate(terms);
    assert rate * periods == annual;
    if terms.termPeriods > 0 && rate < -1.0 { PowIsOneExactly(1.0 + rate, terms.termPeriods); }
  }

  /** The tolerance is that part of the first flow, or of 1 when that is less. */
  lemma ToleranceIsRelative(flows: seq<CashFlow>, part: real)
    ensures NpvTolerance(flows, part) ==
      if flows != [] && flows[0].amount >= 1.0 then flows[0].amount * part
      else if flows != [] && flows[0].amount <= -1.0 then -flows[0].amount * part
      else part
  {
  }

  /** An annual rate is spread over 252 trading days, 52 or 26 weeks or 12 months. */
  lemma AnnualRateIsSpread(terms: Terms)
    requires terms.annualRate.Some?
    ensures var periodic, annual := NominalPeriodicRate(terms), terms.annualRate.value;
      match terms.cadence
      case Daily => 252.0 * periodic == annual
      case Weekly => 52.0 * periodic == annual
      case Biweekly => 26.0 * periodic == annual
      case Monthly => 12.0 * periodic == annual
  {
  }

  /**
   * A factor repays that many times the principal, fee or no fee; what is repaid beyond what was
   * received is the total cost, and the ratio measures it against the principal.
   */
  lemma FactorRepays(terms: Terms, cost: CostOfCapital)
    requires terms.factorRate.Some? && terms.termPeriods > 0 && Costs(terms, cost)
    ensures cost.totalRepaid == terms.principal * terms.factorRate.value
    ensures cost.totalCost == cost.totalRepaid - (terms.principal - terms.originationFee)
    ensures cost.simpleCostRatio * terms.principal == if terms.principal == 0.0 then 0.0 else cost.totalCost
    ensures terms.principal == 0.0 ==> cost.simpleCostRatio == 0.0
  {
    UndiscountedCost(cost.netProceeds, cost.paymentPerPeriod, terms.termPeriods);
    var total, k := terms.principal * terms.factorRate.value, terms.termPeriods as real;
    assert total / k * k == total;
  }

  /** At any rate from zero up a longer term is worth no less to the borrower. */
  lemma LongerTermIsWorthMore(rate: real, principal: real, factor: real, cadence: Cadence, n: nat, n': nat)
    requires rate >= 0.0 && principal > 0.0 && factor > 0.0 && 1 <= n <= n'
    ensures Npv(rate, FlowsOf(Advance(principal, factor, cadence, n)))
         <= Npv(rate, FlowsOf(Advance(principal, factor, cadence, n')))
    ensures rate > 0.0 && n < n' ==>
      Npv(rate, FlowsOf(Advance(principal, factor, cadence, n)))
       < Npv(rate, FlowsOf(Advance(principal, factor, cadence, n')))
  {
    FlowsOfAdvance(principal, factor, cadence, n);
    FlowsOfAdvance(principal, factor, cadence, n');
    PositiveProduct(principal, factor);
    SpreadOverLongerTerm(rate, principal, principal * factor, n, n');
  }

  lemma SpreadOverLongerTerm(rate: real, net: real, total: real, n: nat, n': nat)
    requires rate >= 0.0 && total > 0.0 && 1 <= n <= n'
    ensures Npv(rate, Schedule(net, total / n as real, n)) <= Npv(rate, Schedule(net, total / n' as real, n'))
    ensures rate > 0.0 && n < n' ==>
      Npv(rate, Schedule(net, total / n as real, n)) < Npv(rate, Schedule(net, total / n' as real, n'))
  {
    AverageFalls(rate, n, n');
    NpvOfSpread(rate, net, total, n);
    NpvOfSpread(rate, net, total, n');
    SpreadOrder(net, total, Annuity(rate, n) / n as real, Annuity(rate, n') / n' as real,
                Npv(rate, Schedule(net, total / n as real, n)), Npv(rate, Schedule(net, total / n' as real, n')));
  }

  /** `npv` is what repaying a total at an average discount is worth. */
  ghost predicate WorthOf(net: real, total: real, average: real, npv: real) {
    npv == net - total * average
  }

  /** Repaying a total in equal parts is worth the total times the average discount. */
  lemma NpvOfSpread(rate: real, net: real, total: real, n: nat)
    requires rate > -1.0 && n > 0
    ensures WorthOf(net, total, Annuity(rate, n) / n as real, Npv(rate, Schedule(net, total / n as real, n)))
  {
    NpvOfSchedule(rate, net, total / n as real, n);
    AverageTimes(total, Annuity(rate, n), n as real);
  }

  lemma SpreadOrder(net: real, total: real, x: real, y: real, a: real, b: real)
    requires total > 0.0 && y <= x && WorthOf(net, total, x, a) && WorthOf(net, total, y, b)
    ensures a <= b
    ensures y < x ==> a < b
  {
    var gap := x - y;
    assert b - a == total * gap;
    if gap > 0.0 { PositiveProduct(total, gap); } else { assert gap == 0.0; }
  }

  /** A higher factor is worth strictly less to the borrower, at any rate. */
  lemma HigherFactorIsWorthLess(rate: real, principal: real, factor: real, factor': real, cadence: Cadence, n: nat)
    requires rate > -1.0 && principal > 0.0 && factor < factor' && 1 <= n
    ensures Npv(rate, FlowsOf(Advance(principal, factor', cadence, n)))
          < Npv(rate, FlowsOf(Advance(principal, factor, cadence, n)))
  {
    NpvOfAdvance(rate, principal, factor, cadence, n);
    NpvOfAdvance(rate, principal, factor', cadence, n);
    AnnuityPositive(rate, n);
    HigherFactor(principal, factor, factor', Annuity(rate, n), n as real,
      Npv(rate, FlowsOf(Advance(principal, factor, cadence, n))),
      Npv(rate, FlowsOf(Advance(principal, factor', cadence, n))));
  }

  lemma HigherFactor(principal: real, factor: real, factor': real, annuity: real, k: real, a: real, b: real)
    requires principal > 0.0 && factor < factor' && annuity > 0.0 && k > 0.0
    requires WorthAs(a, principal, factor, annuity, k) && WorthAs(b, principal, factor', annuity, k)
    ensures b < a
  {
    var average := annuity / k;
    AveragesPositive(annuity, k);
    PositiveProduct(factor' - factor, average);
    var x, y := 1.0 - factor * average, 1.0 - factor' * average;
    assert x - y == (factor' - factor) * average;
    ScaledSigns(principal, x - y);
    assert a - b == principal * (x - y);
  }

  /**
   * The same factor is a different cost over a different term: the true periodic rate is positive,
   * strictly falls as the term lengthens and strictly rises with the factor.
   */
  lemma TrueRateOfAdvance(principal: real, cadence: Cadence,
                          factor: real, n: nat, rate: real, factor': real, n': nat, rate': real)
    requires principal > 0.0 && 1.0 < factor && 1.0 < factor' && n > 0 && n' > 0 && rate > -1.0 && rate' > -1.0
    requires Npv(rate, FlowsOf(Advance(principal, factor, cadence, n))) == 0.0
    requires Npv(rate', FlowsOf(Advance(principal, factor', cadence, n'))) == 0.0
    ensures rate > 0.0
    ensures factor == factor' && n < n' ==> rate' < rate
    ensures factor < factor' && n == n' ==> rate < rate'
    ensures factor == factor' && n == n' ==> rate == rate'
  {
    AdvanceIncreases(principal, factor, cadence, n);
    AdvanceIncreases(principal, factor', cadence, n');
    var flows, flows' :=
      FlowsOf(Advance(principal, factor, cadence, n)), FlowsOf(Advance(principal, factor', cadence, n'));
    FactorCostsMoney(principal, factor, cadence, n);
    SameOrder(flows, 0.0, rate);
    SameOrder(flows', rate, rate');
    if factor == factor' && n < n' { LongerTermIsWorthMore(rate, principal, factor, cadence, n, n'); }
    if factor < factor' && n == n' { HigherFactorIsWorthLess(rate, principal, factor, factor', cadence, n); }
  }

  lemma AdvanceIncreases(principal: real, factor: real, cadence: Cadence, n: nat)
    requires principal > 0.0 && factor > 0.0 && n > 0
    ensures IncreasingNpv(FlowsOf(Advance(principal, factor, cadence, n)))
  {
    FlowsOfAdvance(principal, factor, cadence, n);
    ScheduleIncreases(principal, principal * factor / n as real, n);
  }

  /** Compounding is never below rate times periods, and above it as soon as there are two periods. */
  lemma AnnualizeCompounds(periodicRate: real, periodsPerYear: nat)
    requires periodicRate > -1.0
    ensures Annualize(periodicRate, periodsPerYear) >= periodicRate * periodsPerYear as real
    ensures periodicRate != 0.0 && periodsPerYear >= 2 ==>
      Annualize(periodicRate, periodsPerYear) > periodicRate * periodsPerYear as real
  {
    Bernoulli(periodicRate, periodsPerYear);
  }
}
