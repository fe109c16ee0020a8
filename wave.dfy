/**
  The data of one wave-picking run: orders and aisles as sparse item maps,
  the instance bounds, a candidate solution, and the unit sums that every
  component of the solver is stated in.

  The solver keeps its orders and aisles as Java `Map<Integer, Integer>`
  values and iterates them in hash order; here a stock is a `map<int, int>`
  and a sum over one of its entries (or over a set of ids) is defined by
  taking an arbitrary element out, with a lemma per sum showing that any
  element may be taken out first. That lemma is what makes the order of a
  `HashMap` or `HashSet` iteration irrelevant.
*/
module Wave {

  datatype Option<+T> = None | Some(value: T)

  /** An order (item id -> demanded units) or an aisle (item id -> stocked units). */
  type Stock = map<int, int>

  /** The immutable part of a solver: orders, aisles, item count and wave size bounds. */
  datatype Instance = Instance(
    orders: seq<Stock>,
    aisles: seq<Stock>,
    nItems: int,
    waveSizeLB: int,
    waveSizeUB: int)

  /** A wave: the selected order ids and the visited aisle ids. */
  datatype Solution = Solution(orders: set<int>, aisles: set<int>)

  /** Units of `item` in a stock; a missing key (a Java `null`) counts as 0. */
  function Qty(m: Stock, item: int): int
  {
    if item in m then m[item] else 0
  }

  /** Every id of `ids` indexes into a list of length `n`. */
  predicate ValidIds(ids: set<int>, n: int)
  {
    forall id | id in ids :: 0 <= id < n
  }

  /** Every item key of every stock lies in [0, n), so it indexes an `int[n]`. */
  predicate KeysBelow(stocks: seq<Stock>, n: int)
  {
    forall j, item | 0 <= j < |stocks| && item in stocks[j] :: 0 <= item < n
  }

  /** The instance invariant the feasibility check relies on to index its arrays. */
  predicate ItemsInRange(inst: Instance)
  {
    && inst.nItems >= 0
    && KeysBelow(inst.orders, inst.nItems)
    && KeysBelow(inst.aisles, inst.nItems)
  }

  /** Both id sets of a solution index into the instance's lists. */
  predicate ValidSolution(inst: Instance, sol: Solution)
  {
    ValidIds(sol.orders, |inst.orders|) && ValidIds(sol.aisles, |inst.aisles|)
  }

  /** No id appears twice in `s`. */
  predicate Distinct(s: seq<int>)
  {
    forall i, j | 0 <= i < j < |s| :: s[i] != s[j]
  }

  /** The ids of `s` appear in strictly ascending order (so without repeats). */
  predicate StrictlyIncreasing(s: seq<int>)
  {
    forall i, j | 0 <= i < j < |s| :: s[i] < s[j]
  }

  /** Some element of a non-empty set: the element a sum takes out first. */
  ghost function Pick(s: set<int>): (x: int)
    requires s != {}
    ensures x in s
  {
    NonEmptyHasElement(s);
    var x :| x in s; x
  }

  lemma NonEmptyHasElement(s: set<int>)
    requires s != {}
    ensures exists x :: x in s
  {
    if forall x :: x !in s {
      assert false;
    }
  }

  /** Total units of a stock: the sum of all its quantities (`values().stream().sum()`). */
  ghost function Units(m: Stock): int
    decreases m.Keys
  {
    if m.Keys == {} then 0
    else
      var k := Pick(m.Keys);
      m[k] + Units(m - {k})
  }

  /** Units of `item` summed over the stocks whose ids are in `ids`. */
  ghost function ColumnSum(stocks: seq<Stock>, ids: set<int>, item: int): int
    requires ValidIds(ids, |stocks|)
    decreases ids
  {
    if ids == {} then 0
    else
      var id := Pick(ids);
      Qty(stocks[id], item) + ColumnSum(stocks, ids - {id}, item)
  }

  /** Total units of the stocks whose ids are in `ids`. */
  ghost function OrdersUnits(stocks: seq<Stock>, ids: set<int>): int
    requires ValidIds(ids, |stocks|)
    decreases ids
  {
    if ids == {} then 0
    else
      var id := Pick(ids);
      Units(stocks[id]) + OrdersUnits(stocks, ids - {id})
  }

  /** Any entry of a stock can be the first one summed. */
  lemma {:induction false} UnitsRemove(m: Stock, k: int)
    requires k in m
    ensures Units(m) == m[k] + Units(m - {k})
    decreases m.Keys
  {
    var j := Pick(m.Keys);
    if j != k {
      UnitsRemove(m - {j}, k);
      UnitsRemove(m - {k}, j);
      assert (m - {j}) - {k} == (m - {k}) - {j};
    }
  }

  /** Any id can be the first one summed by `ColumnSum`. */
  lemma {:induction false} ColumnSumRemove(stocks: seq<Stock>, ids: set<int>, id: int, item: int)
    requires ValidIds(ids, |stocks|) && id in ids
    ensures ColumnSum(stocks, ids, item) == Qty(stocks[id], item) + ColumnSum(stocks, ids - {id}, item)
    decreases ids
  {
    var j := Pick(ids);
    if j != id {
      ColumnSumRemove(stocks, ids - {j}, id, item);
      ColumnSumRemove(stocks, ids - {id}, j, item);
      assert (ids - {j}) - {id} == (ids - {id}) - {j};
    }
  }

  /** Any id can be the first one summed by `OrdersUnits`. */
  lemma {:induction false} OrdersUnitsRemove(stocks: seq<Stock>, ids: set<int>, id: int)
    requires ValidIds(ids, |stocks|) && id in ids
    ensures OrdersUnits(stocks, ids) == Units(stocks[id]) + OrdersUnits(stocks, ids - {id})
    decreases ids
  {
    var j := Pick(ids);
    if j != id {
      OrdersUnitsRemove(stocks, ids - {j}, id);
      OrdersUnitsRemove(stocks, ids - {id}, j);
      assert (ids - {j}) - {id} == (ids - {id}) - {j};
    }
  }

  /**
    The units of one order, summed entry by entry in whatever order the map
    yields them (the `values().stream().mapToInt(...).sum()` idiom that the
    solver repeats at every use of an order's total).
  */
  method OrderUnits(m: Stock) returns (units: int)
    ensures units == Units(m)
  {
    units := 0;
    var rest := m;
    while rest.Keys != {}
      invariant units + Units(rest) == Units(m)
      decreases rest.Keys
    {
      var k :| k in rest;
      UnitsRemove(rest, k);
      units := units + rest[k];
      rest := rest - {k};
    }
  }
}
