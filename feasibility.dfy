/**
  The solver-independent checks on a wave: the feasibility test and the
  objective (units picked per visited aisle).
*/
module Feasibility {
  import opened Wave

  /** Units of items 0 .. n-1 in one stock. */
  ghost function ItemSum(m: Stock, n: int): int
    decreases n
  {
    if n <= 0 then 0 else ItemSum(m, n - 1) + Qty(m, n - 1)
  }

  /** Picked (or available) units of items 0 .. n-1, summed over the stocks in `ids`. */
  ghost function ColumnsUpTo(stocks: seq<Stock>, ids: set<int>, n: int): int
    requires ValidIds(ids, |stocks|)
    decreases n
  {
    if n <= 0 then 0 else ColumnsUpTo(stocks, ids, n - 1) + ColumnSum(stocks, ids, n - 1)
  }

  /**
    A wave is feasible when it selects at least one order and visits at
    least one aisle, its total units lie in [waveSizeLB, waveSizeUB], and no
    item below nItems is picked beyond what the visited aisles stock.
  */
  ghost predicate Feasible(inst: Instance, sol: Solution)
    requires ValidSolution(inst, sol)
  {
    && sol.orders != {}
    && sol.aisles != {}
    && inst.waveSizeLB <= OrdersUnits(inst.orders, sol.orders) <= inst.waveSizeUB
    && forall item | 0 <= item < inst.nItems ::
         ColumnSum(inst.orders, sol.orders, item) <= ColumnSum(inst.aisles, sol.aisles, item)
  }

  /** Taking one entry out of a stock lowers its item range sum by that entry, if it is in range. */
  lemma {:induction false} ItemSumRemove(m: Stock, k: int, n: int)
    requires k in m
    ensures ItemSum(m, n) == ItemSum(m - {k}, n) + (if 0 <= k < n then m[k] else 0)
    decreases n
  {
    if n > 0 {
      ItemSumRemove(m, k, n - 1);
    }
  }

  /** When every key of a stock lies in [0, n), its total units are its item range sum. */
  lemma {:induction false} UnitsAsItemSum(m: Stock, n: int)
    requires forall k | k in m :: 0 <= k < n
    ensures Units(m) == ItemSum(m, n)
    decreases m.Keys
  {
    if m.Keys != {} {
      var k := Pick(m.Keys);
      UnitsAsItemSum(m - {k}, n);
      ItemSumRemove(m, k, n);
    } else {
      ItemSumEmpty(m, n);
    }
  }

  lemma {:induction false} ItemSumEmpty(m: Stock, n: int)
    requires m.Keys == {}
    ensures ItemSum(m, n) == 0
    decreases n
  {
    if n > 0 {
      ItemSumEmpty(m, n - 1);
    }
  }

  /** Taking one stock out of `ids` lowers the range sum by that stock's range sum. */
  lemma {:induction false} ColumnsUpToRemove(stocks: seq<Stock>, ids: set<int>, id: int, n: int)
    requires ValidIds(ids, |stocks|) && id in ids
    ensures ColumnsUpTo(stocks, ids, n) == ColumnsUpTo(stocks, ids - {id}, n) + ItemSum(stocks[id], n)
    decreases n
  {
    if n > 0 {
      ColumnsUpToRemove(stocks, ids, id, n - 1);
      ColumnSumRemove(stocks, ids, id, n - 1);
    }
  }

  lemma {:induction false} ColumnsUpToEmpty(stocks: seq<Stock>, n: int)
    ensures ColumnsUpTo(stocks, {}, n) == 0
    decreases n
  {
    if n > 0 {
      ColumnsUpToEmpty(stocks, n - 1);
    }
  }

  /**
    Summing the per-item picked array over items 0 .. n-1 gives the total
    units of the selected stocks, provided every key lies in [0, n).
  */
  lemma {:induction false} PickedTotal(stocks: seq<Stock>, ids: set<int>, n: int)
    requires ValidIds(ids, |stocks|) && KeysBelow(stocks, n)
    ensures ColumnsUpTo(stocks, ids, n) == OrdersUnits(stocks, ids)
    decreases ids
  {
    if ids == {} {
      ColumnsUpToEmpty(stocks, n);
    } else {
      var id := Pick(ids);
      PickedTotal(stocks, ids - {id}, n);
      ColumnsUpToRemove(stocks, ids, id, n);
      UnitsAsItemSum(stocks[id], n);
    }
  }

  /**
    Adds every entry of every stock in `ids` to `counts[item]`, as the
    nested loops that fill `totalUnitsPicked` and `totalUnitsAvailable` do.
  */
  method AccumulateUnits(stocks: seq<Stock>, ids: set<int>, counts: array<int>)
    requires ValidIds(ids, |stocks|) && KeysBelow(stocks, counts.Length)
    requires forall item | 0 <= item < counts.Length :: counts[item] == 0
    modifies counts
    ensures forall item | 0 <= item < counts.Length :: counts[item] == ColumnSum(stocks, ids, item)
  {
    var done: set<int> := {};
    var todo := ids;
    while todo != {}
      invariant todo <= ids && done == ids - todo
      invariant forall item | 0 <= item < counts.Length :: counts[item] == ColumnSum(stocks, done, item)
      decreases todo
    {
      NonEmptyHasElement(todo);
      var id :| id in todo;
      var entries := stocks[id].Keys;
      while entries != {}
        invariant entries <= stocks[id].Keys
        invariant forall item | 0 <= item < counts.Length ::
          counts[item] == ColumnSum(stocks, done, item)
                          + (if item in stocks[id] && item !in entries then stocks[id][item] else 0)
        decreases entries
      {
        NonEmptyHasElement(entries);
        var k :| k in entries;
        counts[k] := counts[k] + stocks[id][k];
        entries := entries - {k};
      }
      forall item | 0 <= item < counts.Length
        ensures ColumnSum(stocks, done + {id}, item) == ColumnSum(stocks, done, item) + Qty(stocks[id], item)
      {
        ColumnSumRemove(stocks, done + {id}, id, item);
        assert done + {id} - {id} == done;
      }
      done := done + {id};
      todo := todo - {id};
    }
    assert done == ids;
  }

  /**
    `isSolutionFeasible`: empty order or aisle sets are rejected outright
    (whatever the bounds); otherwise picked and available units are summed
    per item into two arrays, their total is checked against the bounds and
    each item's picked units against its available units.
  */
  method IsSolutionFeasible(inst: Instance, sol: Solution) returns (feasible: bool)
    requires ItemsInRange(inst) && ValidSolution(inst, sol)
    ensures sol.orders == {} || sol.aisles == {} ==> !feasible
    ensures feasible == Feasible(inst, sol)
  {
    if sol.orders == {} || sol.aisles == {} {
      return false;
    }
    var totalUnitsPicked := new int[inst.nItems](_ => 0);
    var totalUnitsAvailable := new int[inst.nItems](_ => 0);
    AccumulateUnits(inst.orders, sol.orders, totalUnitsPicked);
    AccumulateUnits(inst.aisles, sol.aisles, totalUnitsAvailable);

    var totalUnits := 0;
    for item := 0 to inst.nItems
      invariant totalUnits == ColumnsUpTo(inst.orders, sol.orders, item)
    {
      totalUnits := totalUnits + totalUnitsPicked[item];
    }
    PickedTotal(inst.orders, sol.orders, inst.nItems);
    if totalUnits < inst.waveSizeLB || totalUnits > inst.waveSizeUB {
      return false;
    }

    for item := 0 to inst.nItems
      invariant forall i | 0 <= i < item :: totalUnitsPicked[i] <= totalUnitsAvailable[i]
    {
      if totalUnitsPicked[item] > totalUnitsAvailable[item] {
        return false;
      }
    }
    return true;
  }

  /**
    `computeObjectiveFunction`: 0 when either set is empty, otherwise the
    selected orders' total units divided by the number of visited aisles
    (exact division on reals where the source divides doubles).
  */
  method ComputeObjectiveFunction(inst: Instance, sol: Solution) returns (objective: real)
    requires ValidSolution(inst, sol)
    ensures sol.orders == {} || sol.aisles == {} ==> objective == 0.0
    ensures sol.orders != {} && sol.aisles != {} ==>
      objective * (|sol.aisles| as real) == OrdersUnits(inst.orders, sol.orders) as real
  {
    if sol.orders == {} || sol.aisles == {} {
      return 0.0;
    }
    var totalUnitsPicked := 0;
    var todo := sol.orders;
    while todo != {}
      invariant todo <= sol.orders
      invariant totalUnitsPicked + OrdersUnits(inst.orders, todo) == OrdersUnits(inst.orders, sol.orders)
      decreases todo
    {
      NonEmptyHasElement(todo);
      var order :| order in todo;
      OrdersUnitsRemove(inst.orders, todo, order);
      var units := OrderUnits(inst.orders[order]);
      totalUnitsPicked := totalUnitsPicked + units;
      todo := todo - {order};
    }
    var numVisitedAisles := |sol.aisles|;
    objective := totalUnitsPicked as real / numVisitedAisles as real;
  }

  /** Two orders of 5 and 4 units, each stocked in full by its own aisle, bounds [5, 10]. */
  const TwoAisleInstance := Instance(
    [map[0 := 3, 1 := 2], map[2 := 4]], [map[0 := 3, 1 := 2], map[2 := 4]], 3, 5, 10)

  lemma TwoAisleUnits()
    ensures OrdersUnits(TwoAisleInstance.orders, {0, 1}) == 9
  {
    var stocks := TwoAisleInstance.orders;
    OrdersUnitsRemove(stocks, {0, 1}, 0);
    assert {0, 1} - {0} == {1};
    OrdersUnitsRemove(stocks, {1}, 1);
    assert {1} - {1} == {};
    UnitsRemove(stocks[0], 0);
    UnitsRemove(stocks[0] - {0}, 1);
    assert stocks[0] - {0} - {1} == map[];
    UnitsRemove(stocks[1], 2);
    assert stocks[1] - {2} == map[];
  }

  /**
    Selecting both orders and both aisles of `TwoAisleInstance` is a
    feasible wave of 9 units, whose objective is 9 / 2.
  */
  lemma TwoAisleWaveFeasible()
    ensures ValidSolution(TwoAisleInstance, Solution({0, 1}, {0, 1}))
    ensures Feasible(TwoAisleInstance, Solution({0, 1}, {0, 1}))
    ensures OrdersUnits(TwoAisleInstance.orders, {0, 1}) as real / 2.0 == 4.5
  {
    TwoAisleUnits();
    assert TwoAisleInstance.aisles == TwoAisleInstance.orders;
  }
}
