/**
 * The scenario runner: one `Scenario` ledger advanced month by month over a
 * 120-month horizon, the early-stop rule that couples a scenario to the ones
 * finished before it, and the run over all scenarios followed by the
 * aggregation. The random draws are inputs: each scenario receives its
 * monthly returns and its annual margin rates.
 */
module Simulation {
  import opened Wrappers
  import opened Ledger
  import Stats

  /** The horizon: months 1 to 120. */
  const Months: nat := 120

  /**
   * The draws one scenario consumes: `monthlyReturns[m - 1]` is the return of month
   * `m`; `annualRates[0]` is the margin rate of the first year and `annualRates[y]` the
   * rate drawn at the end of year `y`.
   */
  datatype Draws = Draws(monthlyReturns: seq<real>, annualRates: seq<real>) {
    predicate WellSized() { |monthlyReturns| == Months && |annualRates| == Months / 12 + 1 }
  }

  // ---------------------------------------------------------------------
  // Specification of one scenario

  /**
   * The ledger after `k` months: the fresh ledger, then month `m` with the
   * return drawn for it and, at a year end, the rate drawn for the next year.
   * At every year end (and at the start) the three accumulators are empty.
   */
  function StateAfter(p: Params, d: Draws, k: nat): (s: State)
    requires p.Valid() && d.WellSized() && k <= Months
    ensures k % 12 == 0 ==> s.interestYtd == 0.0 && s.gainsYtd == 0.0 && s.dividendsYtd == 0.0
  {
    if k == 0 then Initial(p, d.annualRates[0])
    else Step(StateAfter(p, d, k - 1), p, k, d.monthlyReturns[k - 1], d.annualRates[k / 12])
  }

  /** The net worth recorded in each of the first `k` months. */
  function Trajectory(p: Params, d: Draws, k: nat): (t: seq<real>)
    requires p.Valid() && d.WellSized() && k <= Months
    ensures |t| == k
    ensures forall i :: 0 <= i < k ==> t[i] == StateAfter(p, d, i + 1).NetWorth()
  {
    if k == 0 then [] else Trajectory(p, d, k - 1) + [StateAfter(p, d, k).NetWorth()]
  }

  /** A scenario that stops early records only its first month. */
  function ScenarioTrajectory(p: Params, d: Draws, stopEarly: bool): (t: seq<real>)
    requires p.Valid() && d.WellSized()
    ensures |t| == if stopEarly then 1 else Months
  {
    Trajectory(p, d, if stopEarly then 1 else Months)
  }

  /** The margin rate in force after month `k` is the one drawn for year `k / 12`. */
  lemma {:induction false} RateInForce(p: Params, d: Draws, k: nat)
    requires p.Valid() && d.WellSized() && k <= Months
    ensures StateAfter(p, d, k).rate == d.annualRates[k / 12]
  {
    if k > 0 {
      RateInForce(p, d, k - 1);
      if k % 12 != 0 {
        assert (k - 1) / 12 == k / 12;
      }
    }
  }

  /** With no return below -100% and a non-negative start, neither lot ever goes negative. */
  lemma {:induction false} LotsStayNonNegative(p: Params, d: Draws, k: nat)
    requires p.Valid() && d.WellSized() && k <= Months
    requires p.initialValue >= 0.0
    requires forall m :: 0 <= m < Months ==> d.monthlyReturns[m] >= -1.0
    ensures StateAfter(p, d, k).LotsNonNegative()
  {
    if k > 0 {
      LotsStayNonNegative(p, d, k - 1);
    }
  }

  /** Whatever the draws, after every month the two lots share a sign. */
  lemma {:induction false} LotsShareSign(p: Params, d: Draws, k: nat)
    requires p.Valid() && d.WellSized() && k <= Months
    ensures StateAfter(p, d, k).SameSign()
  {
    if k > 0 {
      LotsShareSign(p, d, k - 1);
      StepKeepsSameSign(StateAfter(p, d, k - 1), p, k, d.monthlyReturns[k - 1], d.annualRates[k / 12]);
    }
  }

  /**
   * In every month of every scenario, step 5 as written, reading any stale
   * long-term amount, does what the corrected step does.
   */
  lemma StaleAmountNeverObservable(p: Params, d: Draws, k: nat, stale: real)
    requires p.Valid() && d.WellSized() && 1 <= k <= Months
    ensures var funded := FundExpenses(PayDividend(ApplyReturn(Age(StateAfter(p, d, k - 1)), d.monthlyReturns[k - 1]),
                                                   k, p.dividendYield),
                                       p.MonthlySpending(), p.monthlyIncome);
      ForcedSaleAsWritten(funded, p.marginLimit, Some(stale)) == Some(ForcedSale(funded, p.marginLimit))
  {
    LotsShareSign(p, d, k - 1);
    StaleValueNeverMatters(StateAfter(p, d, k - 1), p, k, d.monthlyReturns[k - 1], stale);
  }

  // ---------------------------------------------------------------------
  // Specification of the whole run

  /** The last value of every non-empty trajectory. */
  function Lasts(sims: seq<seq<real>>): (lasts: seq<real>)
    ensures |lasts| <= |sims|
    ensures (forall i :: 0 <= i < |sims| ==> sims[i] == []) ==> lasts == []
    ensures (forall i :: 0 <= i < |sims| ==> sims[i] != []) ==>
      |lasts| == |sims| && forall i :: 0 <= i < |sims| ==> lasts[i] == sims[i][|sims[i]| - 1]
  {
    if sims == [] then []
    else
      var rest := Lasts(sims[1..]);
      assert forall i :: 1 <= i < |sims| ==> sims[i] == sims[1..][i - 1];
      (if sims[0] == [] then [] else [sims[0][|sims[0]| - 1]]) + rest
  }

  /**
   * The early-stop rule: the mean final net worth of the scenarios already
   * run is negative. It never fires before any scenario has a value.
   */
  predicate StopsEarly(previous: seq<seq<real>>)
    ensures (forall i :: 0 <= i < |previous| ==> previous[i] == []) ==> !StopsEarly(previous)
  {
    var lasts := Lasts(previous);
    |lasts| > 0 && Stats.Mean(lasts) < 0.0
  }

  /** Every collected value is the last value of some non-empty trajectory. */
  lemma {:induction false} LastsFromTrajectories(sims: seq<seq<real>>, k: nat)
    requires k < |Lasts(sims)|
    ensures exists i :: 0 <= i < |sims| && sims[i] != [] && Lasts(sims)[k] == sims[i][|sims[i]| - 1]
  {
    var head := if sims[0] == [] then [] else [sims[0][|sims[0]| - 1]];
    assert Lasts(sims) == head + Lasts(sims[1..]);
    if k >= |head| {
      LastsFromTrajectories(sims[1..], k - |head|);
      var i :| 0 <= i < |sims[1..]| && sims[1..][i] != [] &&
               Lasts(sims[1..])[k - |head|] == sims[1..][i][|sims[1..][i]| - 1];
      assert sims[i + 1] == sims[1..][i];
    }
  }

  /** A scenario only stops early when some earlier scenario ended with a negative net worth. */
  lemma EarlyStopFollowsLoss(previous: seq<seq<real>>)
    requires StopsEarly(previous)
    ensures exists i :: 0 <= i < |previous| && previous[i] != [] && previous[i][|previous[i]| - 1] < 0.0
  {
    var lasts := Lasts(previous);
    var k :| 0 <= k < |lasts| && lasts[k] == Stats.Min(lasts);
    LastsFromTrajectories(previous, k);
  }

  /** The trajectories of all scenarios, each run after the ones before it. */
  function Scenarios(p: Params, draws: seq<Draws>): (all: seq<seq<real>>)
    requires p.Valid() && forall i :: 0 <= i < |draws| ==> draws[i].WellSized()
    ensures |all| == |draws|
    ensures forall i :: 0 <= i < |all| ==> 1 <= |all[i]| <= Months
  {
    if draws == [] then []
    else
      var previous := Scenarios(p, draws[..|draws| - 1]);
      previous + [ScenarioTrajectory(p, draws[|draws| - 1], StopsEarly(previous))]
  }

  lemma {:induction false} ScenariosPrefix(p: Params, draws: seq<Draws>, n: nat)
    requires p.Valid() && forall i :: 0 <= i < |draws| ==> draws[i].WellSized()
    requires n <= |draws|
    ensures Scenarios(p, draws)[..n] == Scenarios(p, draws[..n])
    decreases |draws|
  {
    if n < |draws| {
      var shorter := draws[..|draws| - 1];
      ScenariosPrefix(p, shorter, n);
      assert shorter[..n] == draws[..n];
    } else {
      assert draws[..n] == draws;
    }
  }

  /**
   * Scenario `i` runs the full horizon unless the mean final net worth of
   * scenarios 0 to i-1 is negative, in which case it records one month.
   */
  lemma ScenarioEarlyStop(p: Params, draws: seq<Draws>, i: nat)
    requires p.Valid() && forall j :: 0 <= j < |draws| ==> draws[j].WellSized()
    requires i < |draws|
    ensures var all := Scenarios(p, draws);
      all[i] == ScenarioTrajectory(p, draws[i], StopsEarly(all[..i])) &&
      |all[i]| == if StopsEarly(all[..i]) then 1 else Months
  {
    var all := Scenarios(p, draws);
    ScenariosPrefix(p, draws, i + 1);
    ScenariosPrefix(p, draws, i);
    var upTo := draws[..i + 1];
    assert upTo[..i] == draws[..i];
    assert all[..i + 1][i] == all[i];
    assert all[..i + 1][..i] == all[..i];
  }

  /**
   * The first scenario never stops early, so the aggregated series always
   * span the full 120 months.
   */
  lemma SimulationSpansHorizon(p: Params, draws: seq<Draws>)
    requires p.Valid() && forall j :: 0 <= j < |draws| ==> draws[j].WellSized()
    requires |draws| > 0
    ensures Stats.MaxLen(Scenarios(p, draws)) == Months
    ensures Stats.Aggregate(Scenarios(p, draws)).Some?
  {
    var all := Scenarios(p, draws);
    ScenarioEarlyStop(p, draws, 0);
    assert all[..0] == [];
    assert |all[0]| == Months;
  }

  // ---------------------------------------------------------------------
  // The imperative engine

  /** The ledger of one scenario, updated in place month by month. */
  class Scenario {
    var longTermValue: real
    var longTermBasis: real
    var shortTermValue: real
    var shortTermBasis: real
    var marginLoan: real
    var interestPaidThisYear: real
    var gainsRealizedThisYear: real
    var dividendIncomeThisYear: real
    var annualMarginRate: real

    /** The ledger as a value. */
    function Snapshot(): State
      reads this
    {
      State(Lot(longTermValue, longTermBasis), Lot(shortTermValue, shortTermBasis), marginLoan,
            interestPaidThisYear, gainsRealizedThisYear, dividendIncomeThisYear, annualMarginRate)
    }

    constructor (p: Params, rate: real)
      ensures Snapshot() == Initial(p, rate)
    {
      longTermValue := p.initialValue;
      longTermBasis := p.initialBasis;
      shortTermValue := 0.0;
      shortTermBasis := 0.0;
      marginLoan := 0.0;
      interestPaidThisYear := 0.0;
      gainsRealizedThisYear := 0.0;
      dividendIncomeThisYear := 0.0;
      annualMarginRate := rate;
    }

    /** Step 1. */
    method AgeLots()
      modifies this
      ensures Snapshot() == Age(old(Snapshot()))
    {
      var agingValue := shortTermValue / 12.0;
      var agingBasis := shortTermBasis / 12.0;
      shortTermValue := shortTermValue - agingValue;
      shortTermBasis := shortTermBasis - agingBasis;
      longTermValue := longTermValue + agingValue;
      longTermBasis := longTermBasis + agingBasis;
    }

    /** Step 2. */
    method ApplyMarketReturn(ret: real)
      modifies this
      ensures Snapshot() == ApplyReturn(old(Snapshot()), ret)
    {
      longTermValue := longTermValue * (1.0 + ret);
      shortTermValue := shortTermValue * (1.0 + ret);
    }

    /** Step 3. */
    method ReceiveDividends(month: nat, dividendYield: real)
      modifies this
      ensures Snapshot() == PayDividend(old(Snapshot()), month, dividendYield)
    {
      var totalPortfolioValue := longTermValue + shortTermValue;
      if month % 3 == 0 {
        var payment := totalPortfolioValue * dividendYield;
        marginLoan := marginLoan - payment;
        dividendIncomeThisYear := dividendIncomeThisYear + payment;
      }
    }

    /** Step 4. */
    method CoverExpenses(spending: real, income: real)
      modifies this
      ensures Snapshot() == FundExpenses(old(Snapshot()), spending, income)
    {
      var shortfall := spending - income;
      marginLoan := marginLoan + shortfall;
      var interest := marginLoan * (annualMarginRate / 12.0);
      marginLoan := marginLoan + interest;
      interestPaidThisYear := interestPaidThisYear + interest;
    }

    /** Step 5. */
    method Deleverage(limit: real)
      requires 0.0 < limit < 1.0
      modifies this
      ensures Snapshot() == ForcedSale(old(Snapshot()), limit)
    {
      var total := longTermValue + shortTermValue;
      var ceiling := total * limit;
      if marginLoan > ceiling {
        var amount := AmountToSell(Snapshot(), limit);
        SellToRepay(amount);
      }
    }

    /**
     * The two sales of step 5. The long-term amount sold is bound to zero
     * before the long-term branch, so the short-term branch never reads a
     * value left over from an earlier sale.
     */
    method SellToRepay(amount: real)
      requires amount >= 0.0
      modifies this
      ensures Snapshot() == SellDown(old(Snapshot()), amount)
    {
      ghost var before := Snapshot();
      ghost var lt := SellLot(before.longTerm, amount);
      var soldLongTerm := 0.0;
      if longTermValue > 0.0 {
        soldLongTerm := SellLongTerm(amount);
      }
      assert soldLongTerm == lt.sold;
      if amount > soldLongTerm && shortTermValue > 0.0 {
        SellShortTerm(amount - soldLongTerm);
      }
    }

    /** Sells up to `want` of the long-term lot and repays the loan with it. */
    method SellLongTerm(want: real) returns (sold: real)
      requires want >= 0.0 && longTermValue > 0.0
      modifies this
      ensures var sale := SellLot(old(Snapshot()).longTerm, want);
        sold == sale.sold &&
        Snapshot() == old(Snapshot()).(longTerm := sale.rest, loan := old(marginLoan) - sale.sold,
                                       gainsYtd := old(gainsRealizedThisYear) + sale.gain)
    {
      sold := Ledger.Smaller(want, longTermValue);
      var fraction := sold / longTermValue;
      var gain := fraction * (longTermValue - longTermBasis);
      longTermBasis := longTermBasis - fraction * longTermBasis;
      longTermValue := longTermValue - sold;
      gainsRealizedThisYear := gainsRealizedThisYear + gain;
      marginLoan := marginLoan - sold;
    }

    /** Sells up to `want` of the short-term lot and repays the loan with it. */
    method SellShortTerm(want: real)
      requires want >= 0.0 && shortTermValue > 0.0
      modifies this
      ensures var sale := SellLot(old(Snapshot()).shortTerm, want);
        Snapshot() == old(Snapshot()).(shortTerm := sale.rest, loan := old(marginLoan) - sale.sold,
                                       gainsYtd := old(gainsRealizedThisYear) + sale.gain)
    {
      var sold := Ledger.Smaller(want, shortTermValue);
      var fraction := sold / shortTermValue;
      var gain := fraction * (shortTermValue - shortTermBasis);
      shortTermBasis := shortTermBasis - fraction * shortTermBasis;
      shortTermValue := shortTermValue - sold;
      gainsRealizedThisYear := gainsRealizedThisYear + gain;
      marginLoan := marginLoan - sold;
    }

    /** Step 6, run in a month that is a multiple of 12: harvest, state tax, reset. */
    method CloseYear(threshold: real, gainLimit: real, newRate: real)
      requires threshold >= 0.0
      modifies this
      ensures Snapshot() == SettleYear(Harvest(old(Snapshot()), threshold, gainLimit), newRate)
    {
      var unrealized := longTermValue - longTermBasis;
      var fraction := if longTermValue > 0.0 then unrealized / longTermValue else 0.0;
      if fraction > threshold {
        var room := gainLimit - (gainsRealizedThisYear + dividendIncomeThisYear);
        if room > 0.0 && unrealized > 0.0 {
          var moved := room / fraction;
          if moved > longTermValue {
            moved := longTermValue;
          }
          var movedBasis := (moved / longTermValue) * longTermBasis;
          longTermValue := longTermValue - moved;
          longTermBasis := longTermBasis - movedBasis;
          shortTermValue := shortTermValue + moved;
          shortTermBasis := shortTermBasis + moved;
          gainsRealizedThisYear := gainsRealizedThisYear + room;
        }
      }
      var netIncome := (gainsRealizedThisYear + dividendIncomeThisYear) - interestPaidThisYear;
      marginLoan := marginLoan + netIncome * StateTaxRate;
      interestPaidThisYear := 0.0;
      gainsRealizedThisYear := 0.0;
      dividendIncomeThisYear := 0.0;
      annualMarginRate := newRate;
    }

    /** Steps 1 to 6 of month `month`. */
    method AdvanceMonth(p: Params, month: nat, ret: real, newRate: real)
      requires p.Valid()
      modifies this
      ensures Snapshot() == Step(old(Snapshot()), p, month, ret, newRate)
    {
      AgeLots();
      ApplyMarketReturn(ret);
      ReceiveDividends(month, p.dividendYield);
      CoverExpenses(p.MonthlySpending(), p.monthlyIncome);
      Deleverage(p.marginLimit);
      if month % 12 == 0 {
        CloseYear(p.harvestThreshold, p.taxFreeGainLimit, newRate);
      }
    }
  }

  /**
   * Runs one scenario for months 1 to 120, recording the net worth after
   * each month; when `stopEarly` holds it stops after the first month.
   */
  method RunScenario(p: Params, d: Draws, stopEarly: bool) returns (netWorths: seq<real>)
    requires p.Valid() && d.WellSized()
    ensures netWorths == ScenarioTrajectory(p, d, stopEarly)
  {
    var scenario := new Scenario(p, d.annualRates[0]);
    netWorths := [];
    var month := 1;
    while month <= Months
      invariant 1 <= month <= Months + 1
      invariant stopEarly ==> month == 1
      invariant scenario.Snapshot() == StateAfter(p, d, month - 1)
      invariant netWorths == Trajectory(p, d, month - 1)
    {
      scenario.AdvanceMonth(p, month, d.monthlyReturns[month - 1], d.annualRates[month / 12]);
      assert scenario.Snapshot() == StateAfter(p, d, month);
      var netWorth := (scenario.longTermValue + scenario.shortTermValue) - scenario.marginLoan;
      assert netWorth == StateAfter(p, d, month).NetWorth();
      netWorths := netWorths + [netWorth];
      assert netWorths == Trajectory(p, d, month);
      if stopEarly {
        break;
      }
      month := month + 1;
    }
  }

  /**
   * Runs every scenario in order, deciding each one's early stop from the
   * trajectories already recorded, and aggregates them.
   */
  method RunSimulation(p: Params, draws: seq<Draws>) returns (summary: Stats.Summary, all: seq<seq<real>>)
    requires p.Valid() && |draws| > 0
    requires forall i :: 0 <= i < |draws| ==> draws[i].WellSized()
    ensures all == Scenarios(p, draws)
    ensures Stats.Aggregate(all) == Some(summary)
    ensures |summary.avgSeries| == Months
  {
    all := [];
    var i := 0;
    while i < |draws|
      invariant 0 <= i <= |draws|
      invariant all == Scenarios(p, draws[..i])
    {
      var stop := StopsEarly(all);
      var netWorths := RunScenario(p, draws[i], stop);
      assert draws[..i + 1][..i] == draws[..i];
      all := all + [netWorths];
      i := i + 1;
    }
    assert draws[..|draws|] == draws;
    SimulationSpansHorizon(p, draws);
    summary := Stats.Aggregate(all).value;
  }
}
