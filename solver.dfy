/**
  The solver object: the instance it was built with, the preprocessing
  structures it keeps in fields, and the top-level routing of `solve`
  (the MILP candidate if it is feasible, the greedy wave otherwise).

  A Java reference field that may be `null` is an `Option` field here,
  `None` standing for `null`.
*/
module Solver {
  import opened Wave
  import opened Feasibility
  import opened Preprocess
  import opened Greedy

  /**
    What the MILP part of `solve` produced: the engine could not be created
    (`createSolver` returned `null`), it produced no wave to check (a status
    other than optimal or feasible, or an exception inside the `try`), or
    the wave read off its variables.
  */
  datatype EngineOutcome = Unavailable | NoWave | Found(wave: Solution)

  class ChallengeSolver {
    const orders: seq<Stock>
    const aisles: seq<Stock>
    const nItems: int
    const waveSizeLB: int
    const waveSizeUB: int

    var validOrders: Option<seq<int>>
    var itemToAisles: Option<map<int, set<int>>>
    var orderToRequiredAisles: Option<map<int, set<int>>>
    var realUpperBound: int

    /** Stores the instance; the preprocessing fields keep their Java defaults (`null` and 0). */
    constructor(orders: seq<Stock>, aisles: seq<Stock>, nItems: int, waveSizeLB: int, waveSizeUB: int)
      ensures this.orders == orders && this.aisles == aisles && this.nItems == nItems
      ensures this.waveSizeLB == waveSizeLB && this.waveSizeUB == waveSizeUB
      ensures validOrders == None && itemToAisles == None && orderToRequiredAisles == None
      ensures realUpperBound == 0
    {
      this.orders := orders;
      this.aisles := aisles;
      this.nItems := nItems;
      this.waveSizeLB := waveSizeLB;
      this.waveSizeUB := waveSizeUB;
      validOrders := None;
      itemToAisles := None;
      orderToRequiredAisles := None;
      realUpperBound := 0;
    }

    function Problem(): Instance
    {
      Instance(orders, aisles, nItems, waveSizeLB, waveSizeUB)
    }

    /**
      `preprocessData`: puts each item's aisles into `itemToAisles` and each
      order's eligible aisles into `orderToRequiredAisles` (entries already
      there for other keys stay), then refills `validOrders` with the
      undominated orders in ascending order. The three containers must
      exist, as every `put`, `clear` and `add` dereferences them.
    */
    method PreprocessData()
      requires itemToAisles.Some? && orderToRequiredAisles.Some? && validOrders.Some?
      modifies this
      ensures itemToAisles == Some(old(itemToAisles.value) + ItemToAislesMap(aisles, nItems))
      ensures orderToRequiredAisles
           == Some(old(orderToRequiredAisles.value) + RequiredAislesMap(orders, itemToAisles.value))
      ensures HasRequiredAisles(|orders|, orderToRequiredAisles.value)
      ensures validOrders.Some? && StrictlyIncreasing(validOrders.value)
      ensures forall o :: o in validOrders.value <==>
        0 <= o < |orders| && !IsDominated(orders, orderToRequiredAisles.value, o)
      ensures realUpperBound == old(realUpperBound)
    {
      var items := BuildItemToAisles(aisles, nItems);
      CharacterisationsAreUnique(items, aisles, nItems, map[], orders, map[]);
      itemToAisles := Some(itemToAisles.value + items);

      var required := BuildOrderToRequiredAisles(orders, itemToAisles.value);
      CharacterisationsAreUnique(map[], aisles, nItems, required, orders, itemToAisles.value);
      orderToRequiredAisles := Some(orderToRequiredAisles.value + required);

      var survivors := BuildValidOrders(orders, orderToRequiredAisles.value);
      validOrders := Some(survivors);
    }

    /** What the fallback needs of the fields once `validOrders` exists. */
    ghost predicate FallbackReady()
      reads this
    {
      validOrders.Some? ==>
        orderToRequiredAisles.Some? && ValidCandidates(Problem(), validOrders.value, orderToRequiredAisles.value)
    }

    /** The fallback's outcome: `None` when `validOrders` is `null` (the copy at the start throws). */
    ghost function FallbackResult(): Option<Solution>
      requires FallbackReady()
      reads this
    {
      if validOrders.None? then None
      else GreedyResult(Problem(), validOrders.value, orderToRequiredAisles.value, realUpperBound)
    }

    /** `greedyFallback` on the fields; its exception handler turns a `null` `validOrders` into `None`. */
    method GreedyFallback() returns (result: Option<Solution>)
      requires FallbackReady()
      ensures result == FallbackResult()
    {
      if validOrders.None? {
        return None;
      }
      result := Greedy.GreedyFallback(Problem(), validOrders.value, orderToRequiredAisles.value, realUpperBound);
    }

    /**
      The routing of `solve` around the MILP engine: `null` at once when the
      engine cannot be created; the engine's wave when it passes the
      feasibility check; the greedy fallback's result in every other case
      (no wave, an infeasible wave, or an exception caught by the handler).
    */
    method Solve(outcome: EngineOutcome) returns (result: Option<Solution>)
      requires ItemsInRange(Problem())
      requires outcome.Found? ==> ValidSolution(Problem(), outcome.wave)
      requires FallbackReady()
      ensures outcome.Unavailable? ==> result == None
      ensures outcome.Found? && Feasible(Problem(), outcome.wave) ==> result == Some(outcome.wave)
      ensures outcome.NoWave? || (outcome.Found? && !Feasible(Problem(), outcome.wave)) ==>
        result == FallbackResult()
    {
      match outcome
      case Unavailable =>
        return None;
      case Found(wave) =>
        var feasible := IsSolutionFeasible(Problem(), wave);
        if feasible {
          return Some(wave);
        }
        result := GreedyFallback();
      case NoWave =>
        result := GreedyFallback();
    }
  }

  /**
    The solver as it is built and run: nothing ever fills the preprocessing
    fields, so the fallback always ends in its exception handler and `solve`
    returns the engine's wave when it is feasible and nothing otherwise.
  */
  method SolveAsShipped(inst: Instance, outcome: EngineOutcome) returns (result: Option<Solution>)
    requires ItemsInRange(inst)
    requires outcome.Found? ==> ValidSolution(inst, outcome.wave)
    ensures result.Some? ==> outcome.Found? && result == Some(outcome.wave) && Feasible(inst, outcome.wave)
    ensures outcome.Found? && Feasible(inst, outcome.wave) ==> result == Some(outcome.wave)
  {
    var solver := new ChallengeSolver(inst.orders, inst.aisles, inst.nItems, inst.waveSizeLB, inst.waveSizeUB);
    result := solver.Solve(outcome);
  }
}
