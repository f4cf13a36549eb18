/**
 * The per-scenario ledger of the retirement simulation and the pure
 * specification of each of the monthly steps: lot aging, market return,
 * quarterly dividends, expense funding, forced selling (deleveraging) and the
 * year-end harvest / state-tax settlement. All money is exact `real`.
 */
module Ledger {
  import opened Wrappers

  /** One tax bucket of holdings: its market value and its cost basis. */
  datatype Lot = Lot(value: real, basis: real) {
    /** Unrealized gain (negative for a loss). */
    function Gain(): real { value - basis }

    /** This lot has the basis-to-value ratio of `other` (stated without dividing). */
    predicate SameRatio(other: Lot) { basis * other.value == other.basis * value }
  }

  /** The mutable state of one scenario, as a value. */
  datatype State = State(
    longTerm: Lot,
    shortTerm: Lot,
    loan: real,
    interestYtd: real,   // margin interest paid this year
    gainsYtd: real,      // gains realized this year
    dividendsYtd: real,  // dividend income this year
    rate: real)          // current annual margin rate
  {
    function Total(): real { longTerm.value + shortTerm.value }
    function NetWorth(): real { Total() - loan }
    predicate LotsNonNegative() { longTerm.value >= 0.0 && shortTerm.value >= 0.0 }

    /** Neither lot is positive while the other is negative. */
    predicate SameSign() {
      (longTerm.value >= 0.0 && shortTerm.value >= 0.0) || (longTerm.value <= 0.0 && shortTerm.value <= 0.0)
    }

    /** A long-term lot without positive value leaves no positive short-term lot either. */
    predicate ShortTermBacked() { longTerm.value <= 0.0 ==> shortTerm.value <= 0.0 }
  }

  /**
   * The parameters the accounting reads. `monthlyReturnMean` and
   * `monthlyReturnStdDev` describe the distribution the supplied monthly
   * returns are drawn from; the accounting itself never reads them.
   */
  datatype Params = Params(
    initialValue: real,
    initialBasis: real,
    annualSpending: real,
    monthlyIncome: real,
    monthlyReturnMean: real,
    monthlyReturnStdDev: real,
    dividendYield: real,
    marginLimit: real,
    taxFreeGainLimit: real,
    harvestThreshold: real)
  {
    function MonthlySpending(): real { annualSpending / 12.0 }

    /** The margin limit lies strictly between 0 and 1 and the harvest threshold is not negative. */
    predicate Valid() { 0.0 < marginLimit < 1.0 && harvestThreshold >= 0.0 }
  }

  /** Simplified state tax rate on net investment income. */
  const StateTaxRate: real := 0.093

  /** The smaller of two amounts. */
  function Smaller(a: real, b: real): real { if a <= b then a else b }

  /** A fresh scenario: everything held long-term, no loan, empty accumulators. */
  function Initial(p: Params, rate: real): (s: State)
    ensures s.longTerm == Lot(p.initialValue, p.initialBasis) && s.shortTerm == Lot(0.0, 0.0)
    ensures s.loan == 0.0 && s.interestYtd == 0.0 && s.gainsYtd == 0.0 && s.dividendsYtd == 0.0
    ensures s.rate == rate
    ensures s.NetWorth() == p.initialValue && s.SameSign()
  {
    State(Lot(p.initialValue, p.initialBasis), Lot(0.0, 0.0), 0.0, 0.0, 0.0, 0.0, rate)
  }

  // ---------------------------------------------------------------------
  // Step 1: asset aging

  /** One twelfth of the short-term lot, value and basis, becomes long-term. */
  function Age(s: State): (r: State)
    ensures r.Total() == s.Total()
    ensures r.longTerm.basis + r.shortTerm.basis == s.longTerm.basis + s.shortTerm.basis
    ensures r.shortTerm == Lot(s.shortTerm.value * 11.0 / 12.0, s.shortTerm.basis * 11.0 / 12.0)
    ensures r.(longTerm := s.longTerm, shortTerm := s.shortTerm) == s
    ensures s.LotsNonNegative() ==> r.LotsNonNegative()
  {
    var agingValue := s.shortTerm.value / 12.0;
    var agingBasis := s.shortTerm.basis / 12.0;
    s.(shortTerm := Lot(s.shortTerm.value - agingValue, s.shortTerm.basis - agingBasis),
       longTerm := Lot(s.longTerm.value + agingValue, s.longTerm.basis + agingBasis))
  }

  // ---------------------------------------------------------------------
  // Step 2: market return

  /** Both lots grow by the same factor `1 + ret`; bases, loan and accumulators stay. */
  function ApplyReturn(s: State, ret: real): (r: State)
    ensures r.Total() == (1.0 + ret) * s.Total()
    ensures r.longTerm == s.longTerm.(value := (1.0 + ret) * s.longTerm.value)
    ensures r.shortTerm == s.shortTerm.(value := (1.0 + ret) * s.shortTerm.value)
    ensures r.(longTerm := s.longTerm, shortTerm := s.shortTerm) == s
    ensures ret >= -1.0 && s.LotsNonNegative() ==> r.LotsNonNegative()
  {
    var factor := 1.0 + ret;
    s.(longTerm := s.longTerm.(value := s.longTerm.value * factor),
       shortTerm := s.shortTerm.(value := s.shortTerm.value * factor))
  }

  // ---------------------------------------------------------------------
  // Step 3: quarterly dividends

  /** Every third month the portfolio pays `dividendYield` of its value, which pays down the loan. */
  function PayDividend(s: State, month: nat, dividendYield: real): (r: State)
    ensures month % 3 != 0 ==> r == s
    ensures month % 3 == 0 ==> r.dividendsYtd - s.dividendsYtd == s.Total() * dividendYield
    ensures s.loan - r.loan == r.dividendsYtd - s.dividendsYtd
    ensures r.(loan := s.loan, dividendsYtd := s.dividendsYtd) == s
  {
    var total := s.Total();
    if month % 3 == 0 then
      var payment := total * dividendYield;
      s.(loan := s.loan - payment, dividendsYtd := s.dividendsYtd + payment)
    else
      s
  }

  // ---------------------------------------------------------------------
  // Step 4: expense funding and interest

  /**
   * The spending shortfall is borrowed, then one month of interest is charged
   * on the new balance and recorded as interest paid.
   */
  function FundExpenses(s: State, spending: real, income: real): (r: State)
    ensures r.interestYtd - s.interestYtd == (s.loan + (spending - income)) * (s.rate / 12.0)
    ensures r.loan - s.loan == (spending - income) + (r.interestYtd - s.interestYtd)
    ensures r.(loan := s.loan, interestYtd := s.interestYtd) == s
  {
    var shortfall := spending - income;
    var borrowed := s.loan + shortfall;
    var interest := borrowed * (s.rate / 12.0);
    s.(loan := borrowed + interest, interestYtd := s.interestYtd + interest)
  }

  // ---------------------------------------------------------------------
  // Step 5: forced selling

  /** What selling part of one lot produced: the amount sold, the lot left, the gain realized. */
  datatype Sale = Sale(sold: real, rest: Lot, gain: real)

  /**
   * Sells up to `want` from a lot, cutting its basis in proportion and
   * realizing the matching share of its gain. A lot whose value is not
   * positive contributes nothing.
   */
  function SellLot(lot: Lot, want: real): (sale: Sale)
    requires want >= 0.0
    ensures lot.value <= 0.0 ==> sale == Sale(0.0, lot, 0.0)
    ensures lot.value > 0.0 ==>
      0.0 <= sale.sold <= want && sale.sold <= lot.value &&
      (sale.sold == want || sale.sold == lot.value)
    ensures sale.rest.value == lot.value - sale.sold
    ensures lot.value >= 0.0 ==> sale.rest.value >= 0.0
  {
    if lot.value > 0.0 then
      var sold := Smaller(want, lot.value);
      var fraction := sold / lot.value;
      var gain := fraction * (lot.value - lot.basis);
      Sale(sold, Lot(lot.value - sold, lot.basis - fraction * lot.basis), gain)
    else
      Sale(0.0, lot, 0.0)
  }

  /**
   * A partial sale keeps the lot's basis-to-value ratio, realizes the sold
   * fraction of the unrealized gain, and the realized plus the remaining
   * unrealized gain is the gain before the sale.
   */
  lemma SellLotProRata(lot: Lot, want: real)
    requires want >= 0.0
    ensures var sale := SellLot(lot, want);
      sale.gain + sale.rest.Gain() == lot.Gain() &&
      sale.rest.SameRatio(lot) &&
      (lot.value > 0.0 ==> sale.gain == sale.sold / lot.value * lot.Gain())
  {
  }

  /** How much must be sold so that, after the proceeds repay the loan, the loan is back at the limit. */
  function AmountToSell(s: State, limit: real): (amount: real)
    requires 0.0 < limit < 1.0
    ensures amount * (1.0 - limit) == s.loan - s.Total() * limit
    ensures s.loan > s.Total() * limit ==> amount > 0.0
  {
    var excess := s.loan - s.Total() * limit;
    var amount := excess / (1.0 - limit);
    assert amount * (1.0 - limit) == excess;
    amount
  }

  /**
   * Deleveraging. When the loan exceeds `limit` times the portfolio value,
   * sells long-term holdings first and then short-term ones, each sold
   * dollar repaying one dollar of loan. The long-term amount sold is zero
   * when the long-term lot has no positive value.
   */
  function ForcedSale(s: State, limit: real): (r: State)
    requires 0.0 < limit < 1.0
    ensures s.loan <= s.Total() * limit ==> r == s
    ensures s.loan > s.Total() * limit ==> 0.0 <= s.loan - r.loan <= AmountToSell(s, limit)
    ensures s.loan - r.loan == s.Total() - r.Total()
    ensures r.NetWorth() == s.NetWorth()
    ensures r.shortTerm.value != s.shortTerm.value ==> r.longTerm.value <= 0.0
    ensures s.LotsNonNegative() ==> r.LotsNonNegative()
    ensures r.(longTerm := s.longTerm, shortTerm := s.shortTerm, loan := s.loan, gainsYtd := s.gainsYtd) == s
  {
    if s.loan > s.Total() * limit then
      var amount := AmountToSell(s, limit);
      assert amount > 0.0;
      SellDown(s, amount)
    else
      s
  }

  /**
   * Sells `amount` from the long-term lot, then whatever remains of it from
   * the short-term lot, repaying one dollar of loan per dollar sold.
   */
  function SellDown(s: State, amount: real): (r: State)
    requires amount >= 0.0
    ensures 0.0 <= s.loan - r.loan <= amount
    ensures s.loan - r.loan == s.Total() - r.Total()
    ensures r.shortTerm.value != s.shortTerm.value ==> r.longTerm.value <= 0.0
    ensures s.LotsNonNegative() ==> r.LotsNonNegative()
    ensures r.(longTerm := s.longTerm, shortTerm := s.shortTerm, loan := s.loan, gainsYtd := s.gainsYtd) == s
  {
    var lt := SellLot(s.longTerm, amount);
    var st := if amount > lt.sold && s.shortTerm.value > 0.0
              then SellLot(s.shortTerm, amount - lt.sold)
              else Sale(0.0, s.shortTerm, 0.0);
    s.(longTerm := lt.rest, shortTerm := st.rest,
       loan := s.loan - lt.sold - st.sold,
       gainsYtd := s.gainsYtd + lt.gain + st.gain)
  }

  /**
   * The gain a forced sale records is exactly the unrealized gain it takes
   * out of the two lots, and each lot keeps its basis-to-value ratio.
   */
  lemma ForcedSaleRealizesGain(s: State, limit: real)
    requires 0.0 < limit < 1.0
    ensures var r := ForcedSale(s, limit);
      r.gainsYtd - s.gainsYtd == (s.longTerm.Gain() - r.longTerm.Gain()) + (s.shortTerm.Gain() - r.shortTerm.Gain()) &&
      r.longTerm.SameRatio(s.longTerm) &&
      r.shortTerm.SameRatio(s.shortTerm)
  {
    if s.loan > s.Total() * limit {
      SellDownRealizesGain(s, AmountToSell(s, limit));
    }
  }

  lemma SellDownRealizesGain(s: State, amount: real)
    requires amount >= 0.0
    ensures var r := SellDown(s, amount);
      r.gainsYtd - s.gainsYtd == (s.longTerm.Gain() - r.longTerm.Gain()) + (s.shortTerm.Gain() - r.shortTerm.Gain()) &&
      r.longTerm.SameRatio(s.longTerm) &&
      r.shortTerm.SameRatio(s.shortTerm)
  {
    SellLotProRata(s.longTerm, amount);
    var lt := SellLot(s.longTerm, amount);
    if amount > lt.sold && s.shortTerm.value > 0.0 {
      SellLotProRata(s.shortTerm, amount - lt.sold);
    }
  }

  /** Whenever the holdings cover the amount to sell, the sale brings the loan exactly to the limit. */
  lemma ForcedSaleRestoresLimit(s: State, limit: real)
    requires 0.0 < limit < 1.0 && s.LotsNonNegative()
    requires s.loan > s.Total() * limit && AmountToSell(s, limit) <= s.Total()
    ensures ForcedSale(s, limit).loan == ForcedSale(s, limit).Total() * limit
  {
    var amount := AmountToSell(s, limit);
    var lt := SellLot(s.longTerm, amount);
    var st := if amount > lt.sold && s.shortTerm.value > 0.0
              then SellLot(s.shortTerm, amount - lt.sold)
              else Sale(0.0, s.shortTerm, 0.0);
    var r := ForcedSale(s, limit);
    assert r.loan == s.loan - lt.sold - st.sold;
    assert r.Total() == lt.rest.value + st.rest.value;
    if amount > lt.sold {
      assert lt.sold == s.longTerm.value;
      assert s.shortTerm.value > 0.0;
      assert st.sold == amount - lt.sold;
    } else {
      assert st.sold == 0.0;
    }
    assert lt.sold + st.sold == amount;
    assert r.Total() == s.Total() - amount;
  }

  /**
   * After step 5 the loan is within the limit, unless the sale had to
   * liquidate both lots entirely.
   */
  lemma ForcedSaleEnforcesMargin(s: State, limit: real)
    requires 0.0 < limit < 1.0 && s.LotsNonNegative()
    ensures var r := ForcedSale(s, limit);
      r.loan <= r.Total() * limit || (r.longTerm.value == 0.0 && r.shortTerm.value == 0.0)
  {
    if s.loan > s.Total() * limit {
      var amount := AmountToSell(s, limit);
      if amount <= s.Total() {
        ForcedSaleRestoresLimit(s, limit);
      } else {
        var lt := SellLot(s.longTerm, amount);
        assert lt.sold == s.longTerm.value || s.longTerm.value == 0.0;
        assert amount > lt.sold;
        if s.shortTerm.value > 0.0 {
          assert SellLot(s.shortTerm, amount - lt.sold).sold == s.shortTerm.value;
        }
      }
    }
  }

  // ---------------------------------------------------------------------
  // Step 6: year-end harvesting, state tax and reset

  /** The unrealized-gain fraction of the long-term lot, zero when it holds no positive value. */
  function GainFraction(lot: Lot): (f: real)
    ensures lot.value <= 0.0 ==> f == 0.0
    ensures lot.value > 0.0 ==> f * lot.value == lot.Gain()
    ensures f > 0.0 <==> lot.value > 0.0 && lot.Gain() > 0.0
  {
    if lot.value > 0.0 then lot.Gain() / lot.value else 0.0
  }

  /** Room left under the tax-free limit after this year's realized gains and dividends. */
  function HarvestRoom(s: State, gainLimit: real): (room: real)
    ensures room + s.gainsYtd + s.dividendsYtd == gainLimit
  {
    gainLimit - (s.gainsYtd + s.dividendsYtd)
  }

  /** Harvesting happens when the gain fraction exceeds the threshold and there is room and gain. */
  predicate HarvestFires(s: State, threshold: real, gainLimit: real)
    ensures HarvestFires(s, threshold, gainLimit) ==>
      s.longTerm.Gain() > 0.0 && s.gainsYtd + s.dividendsYtd < gainLimit
    ensures threshold >= 0.0 && HarvestFires(s, threshold, gainLimit) ==>
      s.longTerm.value > 0.0 && s.longTerm.basis < s.longTerm.value
  {
    GainFraction(s.longTerm) > threshold && HarvestRoom(s, gainLimit) > 0.0 && s.longTerm.Gain() > 0.0
  }

  /**
   * Tax-gain harvesting: moves enough long-term value (at most all of it) to
   * realize `room` of gain into the short-term lot at a stepped-up basis, and
   * records `room` as realized.
   */
  function Harvest(s: State, threshold: real, gainLimit: real): (r: State)
    requires threshold >= 0.0
    ensures !HarvestFires(s, threshold, gainLimit) ==> r == s
    ensures HarvestFires(s, threshold, gainLimit) ==>
      var moved := r.shortTerm.value - s.shortTerm.value;
      s.longTerm.value > 0.0 && 0.0 < moved <= s.longTerm.value &&
      r.longTerm.value == s.longTerm.value - moved &&
      r.shortTerm.basis - s.shortTerm.basis == moved &&
      r.gainsYtd - s.gainsYtd == HarvestRoom(s, gainLimit)
    ensures r.Total() == s.Total()
    ensures s.LotsNonNegative() ==> r.LotsNonNegative()
    ensures r.(longTerm := s.longTerm, shortTerm := s.shortTerm, gainsYtd := s.gainsYtd) == s
  {
    var unrealized := s.longTerm.Gain();
    var fraction := GainFraction(s.longTerm);
    if fraction > threshold then
      var room := HarvestRoom(s, gainLimit);
      if room > 0.0 && unrealized > 0.0 then
        var wanted := room / fraction;
        var moved := if wanted > s.longTerm.value then s.longTerm.value else wanted;
        var movedBasis := (moved / s.longTerm.value) * s.longTerm.basis;
        s.(longTerm := Lot(s.longTerm.value - moved, s.longTerm.basis - movedBasis),
           shortTerm := Lot(s.shortTerm.value + moved, s.shortTerm.basis + moved),
           gainsYtd := s.gainsYtd + room)
      else
        s
    else
      s
  }

  /**
   * The gain actually stepped up by a harvest (the drop in total unrealized
   * gain) equals the recorded `room` when the harvest is not capped, and is
   * smaller than it when the whole long-term lot is moved.
   */
  lemma HarvestSteppedUpGain(s: State, threshold: real, gainLimit: real)
    requires threshold >= 0.0 && HarvestFires(s, threshold, gainLimit)
    ensures var r := Harvest(s, threshold, gainLimit);
      var steppedUp := (s.longTerm.Gain() + s.shortTerm.Gain()) - (r.longTerm.Gain() + r.shortTerm.Gain());
      var room := HarvestRoom(s, gainLimit);
      (room / GainFraction(s.longTerm) <= s.longTerm.value ==> steppedUp == room) &&
      (room / GainFraction(s.longTerm) > s.longTerm.value ==> steppedUp == s.longTerm.Gain() < room)
  {
    var v, b := s.longTerm.value, s.longTerm.basis;
    var room := HarvestRoom(s, gainLimit);
    var r := Harvest(s, threshold, gainLimit);
    var moved := r.shortTerm.value - s.shortTerm.value;
    assert moved == if room / GainFraction(s.longTerm) > v then v else room / GainFraction(s.longTerm);
    assert r.longTerm.basis == b - (moved / v) * b;
    StepUpArithmetic(v, b, room, moved);
  }

  /** The arithmetic behind a harvest: the gain carried by the moved value. */
  lemma StepUpArithmetic(v: real, b: real, room: real, moved: real)
    requires v > 0.0 && v - b > 0.0 && room > 0.0
    requires moved == if room / ((v - b) / v) > v then v else room / ((v - b) / v)
    ensures room / ((v - b) / v) <= v ==> moved - (moved / v) * b == room
    ensures room / ((v - b) / v) > v ==> moved - (moved / v) * b == v - b < room
  {
  }

  /** A harvest leaves the long-term lot with the basis-to-value ratio it had. */
  lemma HarvestKeepsRatio(s: State, threshold: real, gainLimit: real)
    requires threshold >= 0.0
    ensures var r := Harvest(s, threshold, gainLimit);
      r.longTerm.SameRatio(s.longTerm)
  {
  }

  /**
   * State-tax settlement and reset: the loan rises by 9.3% of this year's net
   * investment income (gains plus dividends minus interest), the three
   * accumulators return to zero and the new annual rate takes over.
   */
  function SettleYear(s: State, newRate: real): (r: State)
    ensures r.loan - s.loan == StateTaxRate * ((s.gainsYtd + s.dividendsYtd) - s.interestYtd)
    ensures r.interestYtd == 0.0 && r.gainsYtd == 0.0 && r.dividendsYtd == 0.0 && r.rate == newRate
    ensures r.longTerm == s.longTerm && r.shortTerm == s.shortTerm
  {
    var income := s.gainsYtd + s.dividendsYtd;
    var netIncome := income - s.interestYtd;
    var taxDue := netIncome * StateTaxRate;
    State(s.longTerm, s.shortTerm, s.loan + taxDue, 0.0, 0.0, 0.0, newRate)
  }

  /** Step 6 as a whole: only in a month that is a multiple of 12. */
  function YearEnd(s: State, p: Params, month: nat, newRate: real): (r: State)
    requires p.Valid()
    ensures month % 12 != 0 ==> r == s
    ensures month % 12 == 0 ==>
      r.interestYtd == 0.0 && r.gainsYtd == 0.0 && r.dividendsYtd == 0.0 && r.rate == newRate
    ensures r.Total() == s.Total()
    ensures s.LotsNonNegative() ==> r.LotsNonNegative()
  {
    if month % 12 == 0 then
      SettleYear(Harvest(s, p.harvestThreshold, p.taxFreeGainLimit), newRate)
    else
      s
  }

  /**
   * At a year end the loan rises by 9.3% of the year's net investment
   * income, the gain recorded by that year end's harvest included.
   */
  lemma YearEndTax(s: State, p: Params, month: nat, newRate: real)
    requires p.Valid() && month % 12 == 0
    ensures var harvested := if HarvestFires(s, p.harvestThreshold, p.taxFreeGainLimit)
                             then HarvestRoom(s, p.taxFreeGainLimit) else 0.0;
      YearEnd(s, p, month, newRate).loan - s.loan ==
        StateTaxRate * ((s.gainsYtd + harvested + s.dividendsYtd) - s.interestYtd)
  {
  }

  // ---------------------------------------------------------------------
  // One month, steps 1 to 6 in order

  /**
   * One month of the scenario. `ret` is the month's drawn return; `newRate`
   * is the annual margin rate drawn at a year end and is ignored otherwise.
   */
  function Step(s: State, p: Params, month: nat, ret: real, newRate: real): (r: State)
    requires p.Valid()
    ensures month % 12 != 0 ==> r.rate == s.rate
    ensures month % 12 == 0 ==>
      r.rate == newRate && r.interestYtd == 0.0 && r.gainsYtd == 0.0 && r.dividendsYtd == 0.0
    ensures ret >= -1.0 && s.LotsNonNegative() ==> r.LotsNonNegative()
  {
    var aged := Age(s);
    var grown := ApplyReturn(aged, ret);
    var paid := PayDividend(grown, month, p.dividendYield);
    var funded := FundExpenses(paid, p.MonthlySpending(), p.monthlyIncome);
    var sold := ForcedSale(funded, p.marginLimit);
    YearEnd(sold, p, month, newRate)
  }

  // ---------------------------------------------------------------------
  // The forced sale as the source writes it

  /**
   * Step 5 as written: the long-term amount sold is only bound inside the
   * long-term branch. When that branch is skipped the short-term check reads
   * `stale`, the value left by an earlier sale, or fails (`None`) when no
   * sale has bound it yet.
   */
  function ForcedSaleAsWritten(s: State, limit: real, stale: Option<real>): (r: Option<State>)
    requires 0.0 < limit < 1.0
  {
    var total := s.Total();
    var ceiling := total * limit;
    if s.loan > ceiling then
      var amount := AmountToSell(s, limit);
      if s.longTerm.value > 0.0 then Some(SellDown(s, amount))
      else if stale.None? then None
      else
        var soldLongTerm := stale.value;
        if amount > soldLongTerm && s.shortTerm.value > 0.0 then
          var st := SellLot(s.shortTerm, amount - soldLongTerm);
          Some(s.(shortTerm := st.rest, loan := s.loan - st.sold, gainsYtd := s.gainsYtd + st.gain))
        else
          Some(s)
    else
      Some(s)
  }

  /** Whenever the long-term lot has value, or no sale is due, the source and the corrected step agree. */
  lemma AsWrittenAgreesWhenBound(s: State, limit: real, stale: Option<real>)
    requires 0.0 < limit < 1.0
    requires s.longTerm.value > 0.0 || s.loan <= s.Total() * limit
    ensures ForcedSaleAsWritten(s, limit, stale) == Some(ForcedSale(s, limit))
  {
  }

  /**
   * After a month whose return is -100%, both lots are worth zero; with any
   * loan left, step 5 fires, and if no earlier sale bound the long-term
   * amount the source fails, while the corrected step leaves the state as is.
   */
  lemma UnboundSaleFails()
    ensures var s := State(Lot(0.0, 700.0), Lot(0.0, 0.0), 100.0, 0.0, 0.0, 0.0, 0.06);
      ForcedSaleAsWritten(s, 0.5, None) == None && ForcedSale(s, 0.5) == s
  {
  }

  /**
   * Every month keeps the two lots on the same side of zero: aging moves a
   * share of one into the other, a return scales both by one factor, a sale
   * stops at zero and a harvest needs a positive long-term lot.
   */
  lemma StepKeepsSameSign(s: State, p: Params, month: nat, ret: real, newRate: real)
    requires p.Valid() && s.SameSign()
    ensures Step(s, p, month, ret, newRate).SameSign()
  {
    var funded := FundExpenses(PayDividend(ApplyReturn(Age(s), ret), month, p.dividendYield),
                               p.MonthlySpending(), p.monthlyIncome);
    FundedShortTermBacked(s, p, month, ret);
    var sold := ForcedSale(funded, p.marginLimit);
    if funded.longTerm.value <= 0.0 {
      NoSaleWithoutHoldings(funded, p.marginLimit);
    }
    assert sold.SameSign();
    var h := Harvest(sold, p.harvestThreshold, p.taxFreeGainLimit);
    assert h.SameSign();
  }

  /** After steps 1 to 4, a long-term lot without positive value means no positive short-term lot. */
  lemma FundedShortTermBacked(s: State, p: Params, month: nat, ret: real)
    requires s.SameSign()
    ensures var funded := FundExpenses(PayDividend(ApplyReturn(Age(s), ret), month, p.dividendYield),
                                       p.MonthlySpending(), p.monthlyIncome);
      funded.SameSign() && funded.ShortTermBacked()
  {
    var aged := Age(s);
    assert aged.SameSign() && aged.ShortTermBacked();
    var grown := ApplyReturn(aged, ret);
    var f := 1.0 + ret;
    var lt, st := aged.longTerm.value, aged.shortTerm.value;
    if f >= 0.0 {
      SignOfProduct(f, lt);
      SignOfProduct(f, st);
    } else {
      SignOfProduct(-f, lt);
      SignOfProduct(-f, st);
    }
    assert grown.SameSign() && grown.ShortTermBacked();
  }

  /** A non-negative factor keeps the sign of what it scales; a positive one keeps a strict sign. */
  lemma SignOfProduct(f: real, x: real)
    requires f >= 0.0
    ensures x >= 0.0 ==> f * x >= 0.0
    ensures x <= 0.0 ==> f * x <= 0.0
    ensures f > 0.0 && f * x <= 0.0 ==> x <= 0.0
    ensures f > 0.0 && f * x >= 0.0 ==> x >= 0.0
  {
  }

  /** With no positive holdings to sell, the corrected step changes nothing. */
  lemma NoSaleWithoutHoldings(s: State, limit: real)
    requires 0.0 < limit < 1.0
    requires s.longTerm.value <= 0.0 && s.shortTerm.value <= 0.0
    ensures ForcedSale(s, limit) == s
  {
  }

  /**
   * On a state where a long-term lot without positive value leaves no
   * positive short-term lot, a stale long-term amount cannot change what the
   * as-written step does: it then agrees with the corrected step.
   */
  lemma StaleValueHarmless(s: State, limit: real, stale: real)
    requires 0.0 < limit < 1.0 && s.ShortTermBacked()
    ensures ForcedSaleAsWritten(s, limit, Some(stale)) == Some(ForcedSale(s, limit))
  {
  }

  /**
   * In every month of a run whose lots share a sign, step 5 as written with
   * any stale long-term amount agrees with the corrected step: only the
   * unbound read is observable.
   */
  lemma StaleValueNeverMatters(s: State, p: Params, month: nat, ret: real, stale: real)
    requires p.Valid() && s.SameSign()
    ensures var funded := FundExpenses(PayDividend(ApplyReturn(Age(s), ret), month, p.dividendYield),
                                       p.MonthlySpending(), p.monthlyIncome);
      ForcedSaleAsWritten(funded, p.marginLimit, Some(stale)) == Some(ForcedSale(funded, p.marginLimit))
  {
    FundedShortTermBacked(s, p, month, ret);
    var funded := FundExpenses(PayDividend(ApplyReturn(Age(s), ret), month, p.dividendYield),
                               p.MonthlySpending(), p.monthlyIncome);
    StaleValueHarmless(funded, p.marginLimit, stale);
  }
}
