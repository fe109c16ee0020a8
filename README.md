# Wave-picking solver core, modelled in Dafny

`ChallengeSolver` picks a *wave*. A wave is a set of orders to fill, plus a set of warehouse aisles to visit.
- Each order maps item ids to demanded units.
- Each aisle maps item ids to stocked units.
- A wave must carry between `waveSizeLB` and `waveSizeUB` units in total.
- A wave must not pick more of any item than its visited aisles stock.
- The objective is units per visited aisle.

This project models the solver's own Java logic, which does not depend on the MILP engine:
- the feasibility check;
- the objective;
- preprocessing: item → aisles, order → eligible aisles, and dominance pruning into `validOrders`;
- the greedy fallback;
- the routing in `solve` around the engine:
  - return `null` at once when the engine cannot be created;
  - return the engine's wave if it is feasible;
  - otherwise return the greedy result. That covers no wave, an infeasible wave, and an exception caught by `solve`'s handler.

Modules:
- `Wave`:
  - the data (`Instance`, `Solution`, `Stock = map<int, int>`);
  - the unit sums everything is stated in. A sum over a Java `HashMap` or `HashSet` is defined by taking out an arbitrary element. A lemma per sum shows any element may come first, so hash iteration order does not matter.
- `Feasibility`:
  - `isSolutionFeasible`, with its two per-item arrays;
  - `computeObjectiveFunction`.
- `Preprocess`: the three loops of `preprocessData`, and `isOrderDominated`.
- `Ranking`: the greedy's sort. It is a stable sort by units ÷ max(1, eligible aisles), most efficient first. It compares by cross-multiplication, and a lemma ties that comparison to the exact quotient.
- `Greedy`:
  - the scan of `greedyFallback`;
  - `Accepted`, the specification function of the scan;
  - the lemmas about what the fallback returns.
- `Solver`: the `ChallengeSolver` class. Fields that Java leaves `null` are `Option` fields here, with `None` standing for `null`.

The preprocessing structures (`validOrders`, `itemToAisles`, `orderToRequiredAisles`) and `realUpperBound` are never initialised in the source. `preprocessData` is never called. So, as shipped:
- `greedyFallback` dereferences a `null` list, and its exception handler returns `null`;
- `solve` therefore returns the engine's wave when it is feasible and nothing otherwise.

`Solver.SolveAsShipped` states this. The greedy logic is modelled with the structures as explicit inputs, which is what it computes whenever they are set.

## Model

| member | source | states |
|---|---|---|
| `Wave.OrderUnits` | src/main/java/org/sbpo2025/challenge/ChallengeSolver.java:210 | summing an order's entries in map order gives its total units `Units(m)`, whatever the order |
| `Wave.UnitsRemove` | src/main/java/org/sbpo2025/challenge/ChallengeSolver.java:196-197 | an order's total units may be summed starting from any of its entries |
| `Wave.ColumnSumRemove` | src/main/java/org/sbpo2025/challenge/ChallengeSolver.java:295-306 | a per-item column sum over a set of ids may start from any id, so HashSet iteration order does not matter |
| `Wave.OrdersUnitsRemove` | src/main/java/org/sbpo2025/challenge/ChallengeSolver.java:333-337 | the total units of a set of orders may start from any order of the set |
| `Feasibility.AccumulateUnits` | src/main/java/org/sbpo2025/challenge/ChallengeSolver.java:295-306 | after the nested loops, each array cell holds that item's units summed over the selected ids |
| `Feasibility.UnitsAsItemSum` | src/main/java/org/sbpo2025/challenge/ChallengeSolver.java:309 | when every key is below n, a stock's total units equal its units summed over items 0..n-1 |
| `Feasibility.PickedTotal` | src/main/java/org/sbpo2025/challenge/ChallengeSolver.java:309 | the sum of the per-item picked array equals the selected orders' total units, given keys in [0, nItems) |
| `Feasibility.IsSolutionFeasible` | src/main/java/org/sbpo2025/challenge/ChallengeSolver.java:284-322 | false whenever either set is empty (whatever the bounds); otherwise true iff the total units lie in [waveSizeLB, waveSizeUB] and no item below nItems is picked beyond the visited aisles' stock |
| `Feasibility.ComputeObjectiveFunction` | src/main/java/org/sbpo2025/challenge/ChallengeSolver.java:324-344 | 0 when either set is empty; otherwise objective × number of visited aisles = selected orders' total units |
| `Feasibility.TwoAisleUnits` | src/main/java/org/sbpo2025/challenge/ChallengeSolver.java:333-337 | the two orders {0:3, 1:2} and {2:4} total 9 units |
| `Feasibility.TwoAisleWaveFeasible` | src/main/java/org/sbpo2025/challenge/ChallengeSolver.java:284-344 | that instance's wave of both orders and both aisles is feasible, with objective 9 / 2 = 4.5 |
| `Preprocess.CharacterisationsAreUnique` | src/main/java/org/sbpo2025/challenge/ChallengeSolver.java:153-174 | a map meets the item-map (or order-map) characterisation iff it is the map the loops build, so each characterisation fixes one map |
| `Preprocess.BuildItemToAisles` | src/main/java/org/sbpo2025/challenge/ChallengeSolver.java:153-161 | the first loop maps exactly the items 0..nItems-1 to the aisles that hold a positive quantity of them |
| `Preprocess.AislesOfItemsAdd` | src/main/java/org/sbpo2025/challenge/ChallengeSolver.java:167-172 | adding one item to an order's union adds its aisle set when it has an entry, and nothing otherwise |
| `Preprocess.BuildOrderToRequiredAisles` | src/main/java/org/sbpo2025/challenge/ChallengeSolver.java:163-174 | the second loop maps exactly the order ids to the union of `itemToAisles[item]` over their items with an entry |
| `Preprocess.IsOrderDominated` | src/main/java/org/sbpo2025/challenge/ChallengeSolver.java:239-273 | true iff some other order has at least as many units, at most as many eligible aisles, and at least the order's quantity of each of its items; an order never dominates itself |
| `Preprocess.BuildValidOrders` | src/main/java/org/sbpo2025/challenge/ChallengeSolver.java:176-181 | `validOrders` is strictly ascending and holds exactly the order ids that no other order dominates |
| `Preprocess.IdenticalOrdersBothPruned` | src/main/java/org/sbpo2025/challenge/ChallengeSolver.java:244-272 | two distinct orders with identical maps dominate each other, so both are pruned |
| `Preprocess.DominatorSharesEligibleAisles` | src/main/java/org/sbpo2025/challenge/ChallengeSolver.java:252-269 | after preprocessing, a dominating order has exactly the eligible aisles of the order it dominates |
| `Preprocess.EligibleAislesStockADemandedItem` | src/main/java/org/sbpo2025/challenge/ChallengeSolver.java:153-174 | after preprocessing, aisle a is eligible for order o iff a is an aisle that holds a positive quantity of some item in [0, nItems) that o demands |
| `Ranking.CrossMultiplicationComparesEfficiency` | src/main/java/org/sbpo2025/challenge/ChallengeSolver.java:196-204 | the cross-multiplied comparison holds iff units ÷ max(1, aisles) is at least as large |
| `Ranking.Insert` | src/main/java/org/sbpo2025/challenge/ChallengeSolver.java:195 | inserting adds exactly that candidate: the result is a permutation of the list plus it |
| `Ranking.SortByEfficiency` | src/main/java/org/sbpo2025/challenge/ChallengeSolver.java:194-205 | the sorted list is a permutation of the candidates |
| `Ranking.InsertNonIncreasing` | src/main/java/org/sbpo2025/challenge/ChallengeSolver.java:204 | inserting into a list of non-increasing efficiency keeps it non-increasing |
| `Ranking.SortNonIncreasing` | src/main/java/org/sbpo2025/challenge/ChallengeSolver.java:204 | the sort orders candidates by non-increasing efficiency (descending comparator) |
| `Ranking.InsertTies` | src/main/java/org/sbpo2025/challenge/ChallengeSolver.java:195 | inserting a candidate puts it ahead of the candidates it ties with |
| `Ranking.SortKeepsTies` | src/main/java/org/sbpo2025/challenge/ChallengeSolver.java:195 | stability: the candidates of any one efficiency leave the sort in the order they entered it |
| `Ranking.TiesKeepIdsIncreasing` | src/main/java/org/sbpo2025/challenge/ChallengeSolver.java:194 | ties taken from a list with ascending ids come in ascending id order |
| `Ranking.InsertDistinctIds` | src/main/java/org/sbpo2025/challenge/ChallengeSolver.java:195 | inserting a candidate of a new order keeps the ids distinct |
| `Ranking.SortDistinctIds` | src/main/java/org/sbpo2025/challenge/ChallengeSolver.java:194-195 | sorting candidates of distinct orders keeps them distinct |
| `Greedy.Candidates` | src/main/java/org/sbpo2025/challenge/ChallengeSolver.java:196-199 | each valid order is scored with its total units and its number of eligible aisles, in `validOrders` order |
| `Greedy.ScoreOrders` | src/main/java/org/sbpo2025/challenge/ChallengeSolver.java:196-199 | the per-order loop computes exactly those scores |
| `Greedy.Scan` | src/main/java/org/sbpo2025/challenge/ChallengeSolver.java:208-223 | the loop with `break` ends with the accepted trace's total, its order ids, and the union of their eligible aisles |
| `Greedy.GreedyFallback` | src/main/java/org/sbpo2025/challenge/ChallengeSolver.java:186-227 | returns exactly the greedy result: sort, scan, then the wave only if its total lies in [waveSizeLB, waveSizeUB] |
| `Greedy.SumUnitsAppend` | src/main/java/org/sbpo2025/challenge/ChallengeSolver.java:214 | the running total over two stretches of accepted orders is the sum of their totals |
| `Greedy.SumUnitsNonNegative` | src/main/java/org/sbpo2025/challenge/ChallengeSolver.java:214 | with non-negative units, the running total is never negative |
| `Greedy.EligibleUnionAdd` | src/main/java/org/sbpo2025/challenge/ChallengeSolver.java:217 | accepting an order adds exactly its eligible aisles to the selected aisles |
| `Greedy.AcceptedFrom` | src/main/java/org/sbpo2025/challenge/ChallengeSolver.java:208-213 | the scan accepts only candidates it visits |
| `Greedy.AcceptedDistinct` | src/main/java/org/sbpo2025/challenge/ChallengeSolver.java:208-213 | over candidates of distinct orders, no order is accepted twice |
| `Greedy.AcceptedRunningTotals` | src/main/java/org/sbpo2025/challenge/ChallengeSolver.java:212-220 | every running total after an acceptance is within `realUpperBound`, and every one before the last acceptance is below waveSizeLB, so the scan stops right after the first acceptance that reaches the bound |
| `Greedy.AcceptedRejectsOnlyOverCap` | src/main/java/org/sbpo2025/challenge/ChallengeSolver.java:208-223 | a rejection does not end the scan: when it ends short of the bound, every candidate it did not accept would overflow the cap on top of the final total |
| `Greedy.AcceptedNothing` | src/main/java/org/sbpo2025/challenge/ChallengeSolver.java:212 | when no candidate fits under the cap, nothing is accepted |
| `Greedy.OrderIdsUnits` | src/main/java/org/sbpo2025/challenge/ChallengeSolver.java:210-214 | over distinct orders, the running total equals the selected orders' total units |
| `Greedy.CandidatesFacts` | src/main/java/org/sbpo2025/challenge/ChallengeSolver.java:194-199 | the sorted candidates carry their orders' true totals, come from `validOrders`, and stay distinct when `validOrders` is |
| `Greedy.GreedyTraceFacts` | src/main/java/org/sbpo2025/challenge/ChallengeSolver.java:208-223 | the accepted orders are valid orders, none twice, and total at most `realUpperBound` when any are accepted |
| `Greedy.GreedyFallbackSound` | src/main/java/org/sbpo2025/challenge/ChallengeSolver.java:225-227 | a wave is returned iff the selected orders' total lies in [waveSizeLB, waveSizeUB]; its orders are valid orders, within `realUpperBound` when non-empty, and its aisles are the union of their eligible aisles |
| `Greedy.GreedyVisitOrder` | src/main/java/org/sbpo2025/challenge/ChallengeSolver.java:194-205 | candidates are visited by non-increasing efficiency, and ties keep their `validOrders` order (ascending ids when `validOrders` ascends) |
| `Greedy.GreedyEmptyWave` | src/main/java/org/sbpo2025/challenge/ChallengeSolver.java:219-227 | with waveSizeLB ≤ 0 ≤ waveSizeUB and every valid order over the cap, the fallback returns empty sets, which the feasibility check rejects |
| `Greedy.GreedyShortfallOnlyByCap` | src/main/java/org/sbpo2025/challenge/ChallengeSolver.java:208-225 | when the scan ends below waveSizeLB, every valid order it left out would have taken the total over `realUpperBound` |
| `Greedy.GreedyWaveIsValidSolution` | src/main/java/org/sbpo2025/challenge/ChallengeSolver.java:213-217 | with the preprocessed maps, a returned wave names only existing orders and aisles |
| `Greedy.ShortStockPreprocessed` | src/main/java/org/sbpo2025/challenge/ChallengeSolver.java:153-174 | the two maps of the short-stock instance are the ones preprocessing builds |
| `Greedy.ShortStockGreedy` | src/main/java/org/sbpo2025/challenge/ChallengeSolver.java:208-227 | on that instance the fallback returns order 0 with aisle 0 |
| `Greedy.ShortStockInfeasible` | src/main/java/org/sbpo2025/challenge/ChallengeSolver.java:315-319 | that wave picks 2 units of item 0 where its aisle stocks 1 |
| `Greedy.GreedyMayMissCoverage` | src/main/java/org/sbpo2025/challenge/ChallengeSolver.java:208-227 | per-item coverage is never checked: a wave the fallback returns can fail the feasibility check |
| `Solver.ChallengeSolver.constructor` | src/main/java/org/sbpo2025/challenge/ChallengeSolver.java:30-38 | stores the instance and leaves the preprocessing fields `null` and `realUpperBound` 0 |
| `Solver.ChallengeSolver.PreprocessData` | src/main/java/org/sbpo2025/challenge/ChallengeSolver.java:152-184 | puts the item and order maps into the existing maps (other keys keep their entries), and refills `validOrders` with exactly the undominated orders, ascending |
| `Solver.ChallengeSolver.GreedyFallback` | src/main/java/org/sbpo2025/challenge/ChallengeSolver.java:186-234 | `None` when `validOrders` is `null`; otherwise the greedy result over the fields |
| `Solver.ChallengeSolver.Solve` | src/main/java/org/sbpo2025/challenge/ChallengeSolver.java:45-149 | `None` when the engine cannot be created; the engine's wave when it is feasible; the fallback's result when there is no wave or the wave is infeasible |
| `Solver.SolveAsShipped` | src/main/java/org/sbpo2025/challenge/ChallengeSolver.java:24-38 | a freshly built solver returns only a feasible engine wave, and returns one whenever the engine's wave is feasible; the fallback never contributes |

## Left out

- The MILP model built with OR-Tools/SCIP, its solve call, and the `> 0.5` reading of its variables (ChallengeSolver.java:43-134) are foreign library calls over floating-point outputs. `Solve` takes their result as an `EngineOutcome` parameter, which is one of:
  - `Unavailable`: `createSolver` returned `null`;
  - `NoWave`: the status was neither optimal nor feasible, or the `try` threw;
  - `Found(wave)`: the wave read off the variables.
- `getRemainingTime`, the `StopWatch` and `MAX_RUNTIME` are wall-clock time. They only set the engine's time limit.
- Console logging and `printStackTrace` are output only.
- The handler in `greedyFallback` (ChallengeSolver.java:229-233) is modelled as returning `None`. The handler in `solve` (ChallengeSolver.java:145-148) calls the fallback, and is modelled by the `NoWave` outcome.
- `minAislesNeeded` is declared and never used.
- `ChallengeSolution.java` is not part of this model. A solution is a value with two sets.
- Java `int` overflow in the unit sums and in `totalItems` is not modelled: all sums are unbounded.
- Feasibility.IsSolutionFeasible: the model requires item keys in [0, nItems) and order and aisle ids in range. The source would throw `ArrayIndexOutOfBoundsException` or `IndexOutOfBoundsException` there instead. It also requires nItems ≥ 0, where `new int[nItems]` would throw.
- Feasibility.IsSolutionFeasible: `null` order or aisle sets (rejected by the source) cannot be represented, because a `Solution` always holds two sets.
- Feasibility.ComputeObjectiveFunction: returns the exact quotient as a `real`. The source's `double` division rounds.
- Ranking.SortByEfficiency: compares efficiencies exactly, by cross-multiplication. The source compares two rounded `double` quotients, so two scores that differ by less than a rounding step may tie there and not here, or the other way round.
- Ranking.SortByEfficiency: is an insertion sort. `List.sort` is a merge sort, but any stable sort by the same comparator yields the same list.
- Solver.ChallengeSolver.PreprocessData: requires the three containers to exist. As shipped they are `null`, and the first `put` would throw. The method is never called.
- Solver.ChallengeSolver.GreedyFallback: when `validOrders` exists, the precondition rules out the other exceptions the source's handler would turn into `null`. These are a `null` `orderToRequiredAisles`, a valid order without an entry in it, and an out-of-range order index.
- `realUpperBound` is never computed anywhere in the source. It is a field (and a parameter of the greedy methods) with Java's default of 0.
