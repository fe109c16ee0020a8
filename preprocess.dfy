/**
  Preprocessing for the greedy fallback: which aisles stock each item,
  which aisles each order could draw from, and which orders survive
  dominance pruning.
*/
module Preprocess {
  import opened Wave

  /** The aisles that hold a positive quantity of `item`. */
  ghost function ItemAisles(aisles: seq<Stock>, item: int): set<int>
  {
    set a | 0 <= a < |aisles| && item in aisles[a] && aisles[a][item] > 0
  }

  /** The union of `itemToAisles[item]` over the `items` that have an entry in it. */
  ghost function AislesOfItems(items: set<int>, itemToAisles: map<int, set<int>>): set<int>
  {
    set item, a | item in items && item in itemToAisles && a in itemToAisles[item] :: a
  }

  /** The aisles an order is eligible for: the union over its items of their aisles. */
  ghost function RequiredAisles(order: Stock, itemToAisles: map<int, set<int>>): set<int>
  {
    AislesOfItems(order.Keys, itemToAisles)
  }

  /** `itemToAisles` maps exactly the items 0 .. nItems-1, each to the aisles stocking it. */
  ghost predicate IsItemToAisles(itemToAisles: map<int, set<int>>, aisles: seq<Stock>, nItems: int)
  {
    && (forall item :: item in itemToAisles <==> 0 <= item < nItems)
    && (forall item | item in itemToAisles :: itemToAisles[item] == ItemAisles(aisles, item))
  }

  /** `orderToRequiredAisles` maps exactly the order ids, each to its eligible aisles. */
  ghost predicate IsOrderToRequiredAisles(
    orderToRequiredAisles: map<int, set<int>>, orders: seq<Stock>, itemToAisles: map<int, set<int>>)
  {
    && (forall o :: o in orderToRequiredAisles <==> 0 <= o < |orders|)
    && (forall o | o in orderToRequiredAisles ::
          orderToRequiredAisles[o] == RequiredAisles(orders[o], itemToAisles))
  }

  /** The map the first loop of `preprocessData` builds. */
  ghost function ItemToAislesMap(aisles: seq<Stock>, nItems: int): (m: map<int, set<int>>)
    ensures IsItemToAisles(m, aisles, nItems)
  {
    map item | 0 <= item < nItems :: ItemAisles(aisles, item)
  }

  /** The map the second loop of `preprocessData` builds. */
  ghost function RequiredAislesMap(orders: seq<Stock>, itemToAisles: map<int, set<int>>): (m: map<int, set<int>>)
    ensures IsOrderToRequiredAisles(m, orders, itemToAisles)
  {
    map o | 0 <= o < |orders| :: RequiredAisles(orders[o], itemToAisles)
  }

  /** Each characterisation holds of exactly one map: the one the loops build. */
  lemma CharacterisationsAreUnique(
    itemToAisles: map<int, set<int>>, aisles: seq<Stock>, nItems: int,
    orderToRequiredAisles: map<int, set<int>>, orders: seq<Stock>, itemsMap: map<int, set<int>>)
    ensures IsItemToAisles(itemToAisles, aisles, nItems) <==> itemToAisles == ItemToAislesMap(aisles, nItems)
    ensures IsOrderToRequiredAisles(orderToRequiredAisles, orders, itemsMap) <==>
      orderToRequiredAisles == RequiredAislesMap(orders, itemsMap)
  {
    if IsItemToAisles(itemToAisles, aisles, nItems) {
      assert itemToAisles.Keys == ItemToAislesMap(aisles, nItems).Keys;
    }
    if IsOrderToRequiredAisles(orderToRequiredAisles, orders, itemsMap) {
      assert orderToRequiredAisles.Keys == RequiredAislesMap(orders, itemsMap).Keys;
    }
  }

  /** Every order id has an entry, as the dominance test and the greedy sort look them all up. */
  predicate HasRequiredAisles(numOrders: int, orderToRequiredAisles: map<int, set<int>>)
  {
    forall o | 0 <= o < numOrders :: o in orderToRequiredAisles
  }

  /** Order `p` demands at least `o`'s quantity of every item `o` demands. */
  ghost predicate Covers(p: Stock, o: Stock)
  {
    forall item | item in o :: item in p && p[item] >= o[item]
  }

  /**
    Another order `p` dominates `o`: at least as many units, at most as many
    eligible aisles, and at least `o`'s quantity of every item of `o`.
  */
  ghost predicate Dominates(orders: seq<Stock>, orderToRequiredAisles: map<int, set<int>>, p: int, o: int)
    requires HasRequiredAisles(|orders|, orderToRequiredAisles)
    requires 0 <= p < |orders| && 0 <= o < |orders|
  {
    && p != o
    && Units(orders[p]) >= Units(orders[o])
    && |orderToRequiredAisles[p]| <= |orderToRequiredAisles[o]|
    && Covers(orders[p], orders[o])
  }

  ghost predicate IsDominated(orders: seq<Stock>, orderToRequiredAisles: map<int, set<int>>, o: int)
    requires HasRequiredAisles(|orders|, orderToRequiredAisles)
    requires 0 <= o < |orders|
  {
    exists p | 0 <= p < |orders| :: Dominates(orders, orderToRequiredAisles, p, o)
  }

  /** First loop of `preprocessData`: for each item, the aisles with positive stock of it. */
  method BuildItemToAisles(aisles: seq<Stock>, nItems: int) returns (itemToAisles: map<int, set<int>>)
    ensures IsItemToAisles(itemToAisles, aisles, nItems)
  {
    itemToAisles := map[];
    var item := 0;
    while item < nItems
      invariant 0 <= item && (item <= nItems || item == 0)
      invariant forall i :: i in itemToAisles <==> 0 <= i < item
      invariant forall i | i in itemToAisles :: itemToAisles[i] == ItemAisles(aisles, i)
    {
      var aislesForItem: set<int> := {};
      for a := 0 to |aisles|
        invariant aislesForItem == set b | 0 <= b < a && item in aisles[b] && aisles[b][item] > 0
      {
        if item in aisles[a] && aisles[a][item] > 0 {
          aislesForItem := aislesForItem + {a};
        }
      }
      itemToAisles := itemToAisles[item := aislesForItem];
      item := item + 1;
    }
  }

  /**
    Second loop of `preprocessData`: for each order, the union of the aisle
    sets of those of its items that `itemToAisles` has an entry for.
  */
  method BuildOrderToRequiredAisles(orders: seq<Stock>, itemToAisles: map<int, set<int>>)
    returns (orderToRequiredAisles: map<int, set<int>>)
    ensures IsOrderToRequiredAisles(orderToRequiredAisles, orders, itemToAisles)
  {
    orderToRequiredAisles := map[];
    for o := 0 to |orders|
      invariant forall p :: p in orderToRequiredAisles <==> 0 <= p < o
      invariant forall p | p in orderToRequiredAisles ::
        orderToRequiredAisles[p] == RequiredAisles(orders[p], itemToAisles)
    {
      var order := orders[o];
      var requiredAisles: set<int> := {};
      var entries := order.Keys;
      while entries != {}
        invariant entries <= order.Keys
        invariant requiredAisles == AislesOfItems(order.Keys - entries, itemToAisles)
        decreases entries
      {
        NonEmptyHasElement(entries);
        var item :| item in entries;
        ghost var before := order.Keys - entries;
        if item in itemToAisles {
          requiredAisles := requiredAisles + itemToAisles[item];
        }
        entries := entries - {item};
        assert order.Keys - entries == before + {item};
        AislesOfItemsAdd(before, item, itemToAisles);
      }
      orderToRequiredAisles := orderToRequiredAisles[o := requiredAisles];
    }
  }

  /** Adding one item to the set adds its aisles, if it has an entry. */
  lemma AislesOfItemsAdd(items: set<int>, item: int, itemToAisles: map<int, set<int>>)
    ensures AislesOfItems(items + {item}, itemToAisles)
         == AislesOfItems(items, itemToAisles) + (if item in itemToAisles then itemToAisles[item] else {})
  {
    var lhs := AislesOfItems(items + {item}, itemToAisles);
    var rhs := AislesOfItems(items, itemToAisles) + (if item in itemToAisles then itemToAisles[item] else {});
    forall a | a in lhs ensures a in rhs {
      var i :| i in items + {item} && i in itemToAisles && a in itemToAisles[i];
    }
    forall a | a in rhs ensures a in lhs {
      if a !in AislesOfItems(items, itemToAisles) {
        assert item in itemToAisles && a in itemToAisles[item];
      }
    }
  }

  /**
    `isOrderDominated`: scans every other order and returns true at the
    first one that has at least as many units, at most as many eligible
    aisles and at least the quantity of every item the order demands.
  */
  method IsOrderDominated(orders: seq<Stock>, orderToRequiredAisles: map<int, set<int>>, orderIdx: int)
    returns (dominated: bool)
    requires HasRequiredAisles(|orders|, orderToRequiredAisles)
    requires 0 <= orderIdx < |orders|
    ensures dominated == IsDominated(orders, orderToRequiredAisles, orderIdx)
  {
    var order := orders[orderIdx];
    var orderValue := OrderUnits(order);
    var orderAisles := orderToRequiredAisles[orderIdx];

    for otherIdx := 0 to |orders|
      invariant forall p | 0 <= p < otherIdx :: !Dominates(orders, orderToRequiredAisles, p, orderIdx)
    {
      if otherIdx != orderIdx {
        var otherOrder := orders[otherIdx];
        var otherValue := OrderUnits(otherOrder);
        var otherAisles := orderToRequiredAisles[otherIdx];

        if otherValue >= orderValue && |otherAisles| <= |orderAisles| {
          var covered := true;
          var entries := order.Keys;
          while entries != {}
            invariant entries <= order.Keys
            invariant covered
            invariant forall item | item in order && item !in entries ::
              item in otherOrder && otherOrder[item] >= order[item]
            decreases entries
          {
            NonEmptyHasElement(entries);
            var item :| item in entries;
            if item !in otherOrder || otherOrder[item] < order[item] {
              covered := false;
              assert !Covers(otherOrder, order);
              break;
            }
            entries := entries - {item};
          }
          if covered {
            assert Dominates(orders, orderToRequiredAisles, otherIdx, orderIdx);
            return true;
          }
        }
      }
    }
    return false;
  }

  /**
    Last loop of `preprocessData`: the order ids, in ascending order, that
    no other order dominates.
  */
  method BuildValidOrders(orders: seq<Stock>, orderToRequiredAisles: map<int, set<int>>)
    returns (validOrders: seq<int>)
    requires HasRequiredAisles(|orders|, orderToRequiredAisles)
    ensures StrictlyIncreasing(validOrders)
    ensures forall o :: o in validOrders <==> 0 <= o < |orders| && !IsDominated(orders, orderToRequiredAisles, o)
  {
    validOrders := [];
    for o := 0 to |orders|
      invariant StrictlyIncreasing(validOrders)
      invariant forall x | x in validOrders :: x < o
      invariant forall x :: x in validOrders <==> 0 <= x < o && !IsDominated(orders, orderToRequiredAisles, x)
    {
      var dominated := IsOrderDominated(orders, orderToRequiredAisles, o);
      if !dominated {
        assert forall i | 0 <= i < |validOrders| :: validOrders[i] in validOrders;
        validOrders := validOrders + [o];
      }
    }
  }

  /** Two orders with identical maps dominate each other, so preprocessing prunes both. */
  lemma IdenticalOrdersBothPruned(
    orders: seq<Stock>, itemToAisles: map<int, set<int>>, orderToRequiredAisles: map<int, set<int>>, p: int, o: int)
    requires IsOrderToRequiredAisles(orderToRequiredAisles, orders, itemToAisles)
    requires 0 <= p < |orders| && 0 <= o < |orders| && p != o && orders[p] == orders[o]
    ensures IsDominated(orders, orderToRequiredAisles, o) && IsDominated(orders, orderToRequiredAisles, p)
  {
    assert Dominates(orders, orderToRequiredAisles, p, o);
    assert Dominates(orders, orderToRequiredAisles, o, p);
  }

  /**
    Whoever dominates an order has exactly its eligible aisles: demanding
    every item of the order gives it a superset of them, and it may have no
    more of them.
  */
  lemma DominatorSharesEligibleAisles(
    orders: seq<Stock>, itemToAisles: map<int, set<int>>, orderToRequiredAisles: map<int, set<int>>, p: int, o: int)
    requires IsOrderToRequiredAisles(orderToRequiredAisles, orders, itemToAisles)
    requires 0 <= p < |orders| && 0 <= o < |orders|
    requires Dominates(orders, orderToRequiredAisles, p, o)
    ensures orderToRequiredAisles[p] == orderToRequiredAisles[o]
  {
    var rp, ro := orderToRequiredAisles[p], orderToRequiredAisles[o];
    forall a | a in ro ensures a in rp {
      var item :| item in orders[o].Keys && item in itemToAisles && a in itemToAisles[item];
      assert item in orders[p].Keys;
    }
    if rp != ro {
      assert ro < rp;
      SubsetCardinality(ro, rp);
    }
  }

  lemma SubsetCardinality(a: set<int>, b: set<int>)
    requires a < b
    ensures |a| < |b|
  {
    assert b == a + (b - a);
    assert a * (b - a) == {};
    assert b - a != {};
  }

  /**
    After preprocessing, an order's eligible aisles are exactly the aisles
    that stock a positive quantity of at least one item in [0, nItems) that
    the order demands.
  */
  lemma EligibleAislesStockADemandedItem(
    orders: seq<Stock>, aisles: seq<Stock>, nItems: int,
    itemToAisles: map<int, set<int>>, orderToRequiredAisles: map<int, set<int>>, o: int, a: int)
    requires IsItemToAisles(itemToAisles, aisles, nItems)
    requires IsOrderToRequiredAisles(orderToRequiredAisles, orders, itemToAisles)
    requires 0 <= o < |orders|
    ensures a in orderToRequiredAisles[o] <==>
      0 <= a < |aisles| &&
      exists item | item in orders[o] && 0 <= item < nItems :: item in aisles[a] && aisles[a][item] > 0
  {
    if a in orderToRequiredAisles[o] {
      var item :| item in orders[o].Keys && item in itemToAisles && a in itemToAisles[item];
      assert a in ItemAisles(aisles, item);
    }
    if 0 <= a < |aisles| && exists item | item in orders[o] && 0 <= item < nItems :: item in aisles[a] && aisles[a][item] > 0 {
      var item :| item in orders[o] && 0 <= item < nItems && item in aisles[a] && aisles[a][item] > 0;
      assert a in itemToAisles[item];
    }
  }
}
