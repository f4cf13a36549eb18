# Retirement simulation ledger in Dafny

This project models the deterministic accounting of `run_simulation` in
`simulation.py`. This is a Monte Carlo projection of household net worth over 120 months
for a portfolio financed partly by a margin loan. Each scenario keeps a ledger:
- a long-term lot and a short-term lot, each with a value and a cost basis;
- the margin loan;
- three within-year accumulators (margin interest paid, gains realized, dividend income);
- the current annual margin rate.

Each month the ledger goes through these steps, in this order:
1. aging of one twelfth of the short-term lot into the long-term lot;
2. one market return applied to both lots;
3. quarterly dividends that pay down the loan;
4. the spending shortfall borrowed, then one month of interest charged on the new balance;
5. forced selling when the loan exceeds the brokerage margin limit, long-term first;
6. at a year end: tax-gain harvesting, a 9.3% state tax on net investment income added to the loan, then the accumulators reset and a new rate taken.

The net worth (lots minus loan) is then recorded. After all scenarios have
run, the trajectories are padded to the longest length by repeating their last
value. Then the maximum, mean and minimum are taken month by month.

The random draws are inputs. Each scenario gets a `Draws` value with 120
monthly returns and 11 annual margin rates: the first year's rate, then the rate
drawn at the end of each of the 10 years. All money is exact `real`.

Layout:
- `ledger.dfy` (module `Ledger`): the ledger as a value (`State`, `Lot`, `Params`). It has one
  function per step (`Age`, `ApplyReturn`, `PayDividend`, `FundExpenses`,
  `ForcedSale`, `Harvest`, `SettleYear`, `YearEnd`) and their composition `Step`.
  Lemmas state the conservation and bound properties. It also holds the forced sale as the
  source writes it (see Findings).
- `simulation.dfy` (module `Simulation`): the imperative engine. The class
  `Scenario` holds the ledger as mutable fields, with one method per step. Each method is
  proved to produce exactly the corresponding `Ledger` function's result.
  `RunScenario` is the month loop and `RunSimulation` is the scenario loop. Both
  are proved against the specification functions `StateAfter`, `Trajectory` and
  `Scenarios`.
- `stats.dfy` (module `Stats`): the padding and the max/mean/min aggregation, with
  their ordering and bounding lemmas.
- `wrappers.dfy` (module `Wrappers`): `Option`.

Modelling decisions:
- The early-stop rule at simulation.py:188-190 reads only the final values of
  the scenarios already finished. Those do not change while a scenario runs,
  so the rule is computed once per scenario (`StopsEarly`) and passed to
  `RunScenario` as a flag. A stopped scenario therefore has exactly one month,
  and every other scenario has 120 months. The first scenario can never stop
  early, so the aggregated series always cover 120 months.
- `sell_from_long_term` is bound to 0 before the long-term branch of step 5.
  The source leaves it unbound when the long-term lot has no positive value
  and no earlier sale bound it (see Findings). A value left by an earlier sale
  is read instead when one did bind it. In every reachable month that stale
  value cannot change the outcome, because the two lots always share a sign
  (`Simulation.StaleAmountNeverObservable`).
- When a harvest is capped at the whole long-term lot, the source still adds
  the full room under the tax-free limit to the realized gains. This is more
  than the gain actually stepped up. The model keeps this behaviour, and
  `Ledger.HarvestSteppedUpGain` states it. A harvest can still be capped while
  room and gain are positive, for example when the long-term lot is small.
- The harvest also needs a positive unrealized gain (simulation.py:154). An
  empty trajectory is padded with zeros (simulation.py:196).

## Model

| member | source | states |
|---|---|---|
| `Ledger.Initial` | simulation.py:65-80 | a new scenario holds the whole portfolio (initial value and basis) long-term, has no short-term lot, no loan, zero accumulators and the drawn rate, so its net worth is the initial value and its lots share a sign |
| `Ledger.Age` | simulation.py:87-93 | aging keeps total value and total basis, leaves exactly 11/12 of the short-term value and basis, changes nothing else and keeps lots non-negative |
| `Ledger.ApplyReturn` | simulation.py:95-103 | both lots are scaled by the same factor 1+r, so the total is too; bases, loan, accumulators and rate are untouched; with r >= -1 lots stay non-negative |
| `Ledger.PayDividend` | simulation.py:105-110 | nothing changes unless month % 3 == 0; then the dividend accumulator rises by (lt+st)·yield and the loan falls by exactly the same amount; lots untouched |
| `Ledger.FundExpenses` | simulation.py:112-117 | interest is charged on the balance after the shortfall is borrowed; the loan rises by shortfall plus that interest, and the interest accumulator rises by the same interest |
| `Ledger.SellLot` | simulation.py:124-138 | a lot with no positive value sells nothing; otherwise the amount sold is min(want, value), the lot is never driven negative and the value drops by exactly the amount sold |
| `Ledger.SellLotProRata` | simulation.py:125-137 | a partial sale keeps the lot's basis/value ratio, realizes (sold/value)·(value−basis), and realized plus remaining unrealized gain equals the gain before |
| `Ledger.AmountToSell` | simulation.py:123 | the amount to sell satisfies amount·(1−limit) = loan − limit·total, and is positive whenever the loan is over the limit |
| `Ledger.ForcedSale` | simulation.py:119-138 | no change unless loan > limit·(lt+st); then 0 <= sold <= amount_to_sell, each sold dollar repays one dollar of loan (net worth unchanged), short-term is sold only once long-term is exhausted, lots stay non-negative, interest, dividends and rate untouched |
| `Ledger.SellDown` | simulation.py:124-138 | the two-lot sale repays between 0 and the requested amount, sells short-term only after long-term is gone and keeps lots non-negative |
| `Ledger.SellDownRealizesGain` | simulation.py:124-138 | the gain recorded by the two-lot sale is exactly the unrealized gain removed from the lots, and both lots keep their basis/value ratio |
| `Ledger.ForcedSaleRealizesGain` | simulation.py:125-137 | the forced sale's recorded gain equals the unrealized gain it removes from both lots; both lots keep their basis/value ratio |
| `Ledger.ForcedSaleRestoresLimit` | simulation.py:120-138 | when amount_to_sell <= lt+st and 0 < limit < 1, afterwards loan = limit·(lt+st) exactly |
| `Ledger.ForcedSaleEnforcesMargin` | simulation.py:119-138 | for lots that are non-negative when step 5 starts (always so when no monthly return is below −100%, by `Simulation.LotsStayNonNegative`), the loan ends within limit·(lt+st) unless both lots were sold out; with negative lots the margin can stay breached |
| `Ledger.GainFraction` | simulation.py:143-147 | the gain fraction is 0 for a lot without positive value and otherwise gain/value (fraction·value = gain); it is positive exactly when the lot has positive value and a positive gain |
| `Ledger.HarvestRoom` | simulation.py:151-152 | the definition of line 152's room (`gains_to_harvest`): the tax-free limit minus the year's realized gains and dividends |
| `Ledger.HarvestFires` | simulation.py:150-154 | a harvest only fires with a positive unrealized gain and income below the tax-free limit; with a non-negative threshold the long-term lot is also positive and above its basis |
| `Ledger.Harvest` | simulation.py:142-164 | no change unless the gain fraction exceeds the threshold with room and gain positive; then 0 < value moved <= long-term value, total value unchanged, short-term basis rises by exactly the value moved, gains rise by the room, loan and other accumulators untouched |
| `Ledger.HarvestKeepsRatio` | simulation.py:159-161 | harvesting leaves the long-term lot with its basis/value ratio |
| `Ledger.HarvestSteppedUpGain` | simulation.py:152-164 | the unrealized gain removed by a harvest equals the recorded room when uncapped; when capped at the whole long-term lot it equals that lot's gain, which is less than the room recorded |
| `Ledger.SettleYear` | simulation.py:166-182 | the loan rises by 0.093·(gains + dividends − interest), the three accumulators become 0, the new rate takes over, lots untouched |
| `Ledger.YearEnd` | simulation.py:141-182 | nothing happens unless month % 12 == 0; then accumulators are 0 and the rate is the new draw; total value unchanged; lots stay non-negative |
| `Ledger.YearEndTax` | simulation.py:150-171 | at a year end the loan rises by 0.093·(gains + harvested room + dividends − interest) |
| `Ledger.Step` | simulation.py:84-182 | a month keeps the rate except at a year end, where the new rate is in force and the three accumulators are reset; with r >= -1 lots stay non-negative |
| `Ledger.ForcedSaleAsWritten` | simulation.py:119-138 | step 5 as written, with the unbound or stale long-term amount as an explicit input |
| `Ledger.AsWrittenAgreesWhenBound` | simulation.py:124-132 | the source and the corrected step agree whenever the long-term lot has value or no sale is due |
| `Ledger.UnboundSaleFails` | simulation.py:124-132 | a concrete state (both lots 0, loan 100) where the source fails and the corrected step leaves the state unchanged |
| `Ledger.StepKeepsSameSign` | simulation.py:87-164 | a month never leaves one lot positive and the other negative: aging, a shared return factor, sales that stop at zero and a harvest out of a positive long-term lot all keep the lots on one side of zero |
| `Ledger.FundedShortTermBacked` | simulation.py:87-117 | after steps 1 to 4 of such a month, a long-term lot without positive value means the short-term lot has none either |
| `Ledger.NoSaleWithoutHoldings` | simulation.py:119-138 | with neither lot positive, the corrected step 5 changes nothing |
| `Ledger.StaleValueHarmless` | simulation.py:124-138 | when a long-term lot without positive value leaves no positive short-term lot, step 5 as written with any stale long-term amount equals the corrected step |
| `Ledger.StaleValueNeverMatters` | simulation.py:87-138 | in any month starting from lots that share a sign, the stale long-term amount does not change step 5 |
| `Stats.Max` | simulation.py:199 | the maximum occurs in the column and bounds every element |
| `Stats.Min` | simulation.py:201 | the minimum occurs in the column and is at most every element |
| `Stats.Mean` | simulation.py:189-200 | the mean of a non-empty column (np.mean) lies between its minimum and its maximum |
| `Stats.MaxLen` | simulation.py:195 | max_len bounds every trajectory's length and is attained by one of them (0 when all are empty) |
| `Stats.Pad` | simulation.py:196 | the padded trajectory has length max_len, keeps its original prefix and repeats its last value afterwards; an empty one becomes zeros |
| `Stats.PadAll` | simulation.py:196 | padding keeps the number of trajectories and gives each length max_len |
| `Stats.Aggregate` | simulation.py:195-202 | fails exactly when no trajectory has a value; otherwise the three series have length max_len > 0 |
| `Stats.AggregateOrdered` | simulation.py:198-202 | month by month, max >= mean >= min |
| `Stats.AggregateAttained` | simulation.py:196-201 | each month's maximum and minimum are values some padded trajectory takes in that month |
| `Stats.AggregateBoundsTrajectories` | simulation.py:196-201 | every trajectory, padded with its last value, lies between the min and max series |
| `Simulation.StateAfter` | simulation.py:65-182 | the ledger after k passes of the month loop, with month m's return and, at a year end, the rate for year m/12; at the start and at every year end the three accumulators are 0 |
| `Simulation.Trajectory` | simulation.py:184-186 | the recording has one entry per month, entry i being the net worth after month i+1 |
| `Simulation.ScenarioTrajectory` | simulation.py:84-190 | a scenario records 1 month when it stops early and 120 otherwise |
| `Simulation.RateInForce` | simulation.py:75-80 | after month k the rate in force is the draw for year k/12: the initial draw, replaced at each year end |
| `Simulation.LotsStayNonNegative` | simulation.py:84-186 | with a non-negative start and no monthly return below −100%, neither lot is ever negative |
| `Simulation.LotsShareSign` | simulation.py:65-186 | after every month of a scenario, whatever the draws, the two lots share a sign |
| `Simulation.StaleAmountNeverObservable` | simulation.py:119-138 | in every month of every scenario, step 5 as written with any stale long-term amount does what the corrected step does; only the unbound read differs |
| `Simulation.Lasts` | simulation.py:189 | at most one value per trajectory; exactly each trajectory's last value, in order, when none is empty (always so in a run, by `Scenarios`); nothing when all are empty |
| `Simulation.LastsFromTrajectories` | simulation.py:189 | every collected value is the last value of some non-empty trajectory |
| `Simulation.StopsEarly` | simulation.py:188-190 | the test never fires while no earlier scenario has a value (the source then averages an empty list, and NaN < 0 is false) |
| `Simulation.EarlyStopFollowsLoss` | simulation.py:188-190 | a scenario stops early only if some earlier scenario ended with a negative net worth |
| `Simulation.Scenarios` | simulation.py:63-192 | one trajectory per scenario, each of length between 1 and 120 |
| `Simulation.ScenariosPrefix` | simulation.py:63-192 | the first n trajectories depend only on the first n scenarios' draws |
| `Simulation.ScenarioEarlyStop` | simulation.py:188-190 | scenario i has length 1 exactly when the mean last value of scenarios 0..i−1 is negative, and 120 otherwise |
| `Simulation.SimulationSpansHorizon` | simulation.py:189-195 | with at least one scenario, max_len is 120 and aggregation succeeds |
| `Simulation.Scenario.constructor` | simulation.py:65-80 | the fields start as the initial ledger |
| `Simulation.Scenario.AgeLots` | simulation.py:87-93 | the fields become `Ledger.Age` of the old ledger |
| `Simulation.Scenario.ApplyMarketReturn` | simulation.py:95-103 | the fields become `Ledger.ApplyReturn` of the old ledger |
| `Simulation.Scenario.ReceiveDividends` | simulation.py:105-110 | the fields become `Ledger.PayDividend` of the old ledger |
| `Simulation.Scenario.CoverExpenses` | simulation.py:112-117 | the fields become `Ledger.FundExpenses` of the old ledger |
| `Simulation.Scenario.Deleverage` | simulation.py:119-138 | the fields become `Ledger.ForcedSale` of the old ledger |
| `Simulation.Scenario.SellToRepay` | simulation.py:124-138 | the two sales, with the long-term amount bound to 0 first, give `Ledger.SellDown` of the old ledger |
| `Simulation.Scenario.SellLongTerm` | simulation.py:124-130 | the long-term sale returns the amount sold and updates lot, gains and loan as `Ledger.SellLot` says |
| `Simulation.Scenario.SellShortTerm` | simulation.py:132-138 | the short-term sale updates lot, gains and loan as `Ledger.SellLot` says |
| `Simulation.Scenario.CloseYear` | simulation.py:141-182 | the fields become the harvest, then the tax settlement and reset, of the old ledger |
| `Simulation.Scenario.AdvanceMonth` | simulation.py:84-182 | the fields become `Ledger.Step` of the old ledger |
| `Simulation.RunScenario` | simulation.py:82-190 | the month loop records exactly the specified trajectory: 1 month when stopping early, 120 otherwise |
| `Simulation.RunSimulation` | simulation.py:61-204 | the scenario loop, deciding each early stop from the trajectories already recorded, returns exactly `Scenarios`, and its summary is their aggregation, 120 months long |

## Left out

- Random sampling (`_get_random_number`, simulation.py:20-32): the Normal, Student's t and Laplace draws are replaced by the `Draws` inputs. All scenarios in the source share one random stream, so the draws a scenario sees there depend on the scenarios before it. Here each scenario's draws are given directly.
- Sampler setup (simulation.py:58-59): the monthly mean and standard deviation come from a fractional power and a square root. They are `Params` fields that nothing in the accounting reads.
- `Draws` always holds a full 120 returns and 11 rates. The source draws fewer when a scenario stops early, and never uses the rate drawn at month 120.
- Floating point: all arithmetic is exact `real`. Rounding, and non-finite values from extreme draws, are not modelled.
- `Params.Valid` requires 0 < margin limit < 1, as the API validation does. A limit of 1 would divide by zero at simulation.py:123.
- `Params.Valid` requires a harvest threshold of at least 0 (the API demands more than 0). With a negative threshold, a long-term lot with no positive value has a gain fraction of 0 (simulation.py:147) and still passes the test at line 150. If its unrealized gain is positive, line 155 then divides by that zero fraction.
- The scenario count limit of 5000 from the API is not modelled; `RunSimulation` needs at least one scenario. With none, the source's `max` at line 195 raises an error.
- `plot_results` and `main` (simulation.py:206-287): plotting and printing.
- app.py, api.py and test_models.py: the UI, the HTTP layer and its validation tests. app.py's scan for the first month with a negative average is presentation only.
- Parallel execution of scenarios: the model runs them sequentially, as the source does.

## Findings

| source | as written | input that shows it | evidently intended | confidence | as-written member | corrected member |
|---|---|---|---|---|---|---|
| simulation.py:132 | `sell_from_long_term` is bound only inside the long-term branch (line 124). When that branch is skipped, the short-term test reads a name that is unbound unless an earlier sale, in any scenario, bound it | A forced sale while the long-term lot is worth 0 raises UnboundLocalError if no earlier sale bound the name. One way to get there: a −100% monthly return, leaving both lots at 0 with a positive loan. A stale value, when the name is bound, cannot change the outcome in any reachable month | The long-term amount sold is 0 when the long-term lot has no positive value | medium; not executed | `Ledger.ForcedSaleAsWritten` (`Ledger.UnboundSaleFails`; the stale case: `Simulation.StaleAmountNeverObservable`) | `Ledger.ForcedSale` (`Ledger.ForcedSaleRestoresLimit`) |
