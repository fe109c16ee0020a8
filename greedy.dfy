/**
  The greedy fallback: rank the valid orders by efficiency, accept them in
  that order while the running unit total stays within `realUpperBound`,
  stop as soon as the total reaches `waveSizeLB`, and return the wave only
  if its total lies in [waveSizeLB, waveSizeUB].

  The preprocessing outputs (`validOrders`, `orderToRequiredAisles`) and
  `realUpperBound` are parameters here; `Solver` holds them as fields.
*/
module Greedy {
  import opened Wave
  import opened Ranking
  import opened Feasibility
  import opened Preprocess

  /** Every valid order indexes an order and has an eligible-aisle entry. */
  predicate ValidCandidates(inst: Instance, validOrders: seq<int>, orderToRequiredAisles: map<int, set<int>>)
  {
    forall k | 0 <= k < |validOrders| ::
      0 <= validOrders[k] < |inst.orders| && validOrders[k] in orderToRequiredAisles
  }

  /** An order with its total units and its number of eligible aisles. */
  ghost function Score(inst: Instance, orderToRequiredAisles: map<int, set<int>>, o: int): Candidate
    requires 0 <= o < |inst.orders| && o in orderToRequiredAisles
  {
    Candidate(o, Units(inst.orders[o]), |orderToRequiredAisles[o]|)
  }

  /** The valid orders, each scored, in `validOrders` order. */
  ghost function Candidates(inst: Instance, validOrders: seq<int>, orderToRequiredAisles: map<int, set<int>>)
    : (cs: seq<Candidate>)
    requires ValidCandidates(inst, validOrders, orderToRequiredAisles)
    ensures |cs| == |validOrders|
    ensures forall k | 0 <= k < |validOrders| :: cs[k] == Score(inst, orderToRequiredAisles, validOrders[k])
    decreases |validOrders|
  {
    if validOrders == [] then []
    else
      var last := |validOrders| - 1;
      Candidates(inst, validOrders[..last], orderToRequiredAisles)
        + [Score(inst, orderToRequiredAisles, validOrders[last])]
  }

  /**
    The candidates the scan accepts, in scan order, from running total
    `total`: a candidate is accepted when the total plus its units stays
    within `cap`; the scan ends right after an acceptance that brings the
    total to `lb` or more; a rejected candidate does not end it.
  */
  function Accepted(cs: seq<Candidate>, total: int, cap: int, lb: int): seq<Candidate>
    decreases |cs|
  {
    if cs == [] then []
    else if total + cs[0].units <= cap then
      if total + cs[0].units >= lb then [cs[0]]
      else [cs[0]] + Accepted(cs[1..], total + cs[0].units, cap, lb)
    else Accepted(cs[1..], total, cap, lb)
  }

  /** The units the accepted candidates add to the running total. */
  function SumUnits(cs: seq<Candidate>): int
  {
    if cs == [] then 0 else cs[0].units + SumUnits(cs[1..])
  }

  function OrderIds(cs: seq<Candidate>): set<int>
  {
    set c | c in cs :: c.order
  }

  /** The union of the eligible aisles of `orders`. */
  ghost function EligibleUnion(orders: set<int>, orderToRequiredAisles: map<int, set<int>>): set<int>
  {
    set o, a | o in orders && o in orderToRequiredAisles && a in orderToRequiredAisles[o] :: a
  }

  /** The accepted candidates of the whole greedy scan. */
  ghost function GreedyTrace(
    inst: Instance, validOrders: seq<int>, orderToRequiredAisles: map<int, set<int>>, realUpperBound: int)
    : seq<Candidate>
    requires ValidCandidates(inst, validOrders, orderToRequiredAisles)
  {
    Accepted(SortByEfficiency(Candidates(inst, validOrders, orderToRequiredAisles)), 0, realUpperBound, inst.waveSizeLB)
  }

  /** What `greedyFallback` returns when nothing in it throws (`None` is its `null`). */
  ghost function GreedyResult(
    inst: Instance, validOrders: seq<int>, orderToRequiredAisles: map<int, set<int>>, realUpperBound: int)
    : Option<Solution>
    requires ValidCandidates(inst, validOrders, orderToRequiredAisles)
  {
    var accepted := GreedyTrace(inst, validOrders, orderToRequiredAisles, realUpperBound);
    var total := SumUnits(accepted);
    if inst.waveSizeLB <= total <= inst.waveSizeUB then
      Some(Solution(OrderIds(accepted), EligibleUnion(OrderIds(accepted), orderToRequiredAisles)))
    else None
  }

  lemma {:induction false} SumUnitsAppend(a: seq<Candidate>, b: seq<Candidate>)
    ensures SumUnits(a + b) == SumUnits(a) + SumUnits(b)
    decreases |a|
  {
    if a == [] {
      assert a + b == b;
    } else {
      SumUnitsAppend(a[1..], b);
      assert (a + b)[0] == a[0];
      assert (a + b)[1..] == a[1..] + b;
    }
  }

  lemma EligibleUnionAdd(orders: set<int>, o: int, orderToRequiredAisles: map<int, set<int>>)
    requires o in orderToRequiredAisles
    ensures EligibleUnion(orders + {o}, orderToRequiredAisles)
         == EligibleUnion(orders, orderToRequiredAisles) + orderToRequiredAisles[o]
  {
    var lhs := EligibleUnion(orders + {o}, orderToRequiredAisles);
    var rhs := EligibleUnion(orders, orderToRequiredAisles) + orderToRequiredAisles[o];
    forall a | a in rhs ensures a in lhs {
      if a !in EligibleUnion(orders, orderToRequiredAisles) {
        assert o in orders + {o} && a in orderToRequiredAisles[o];
      }
    }
  }

  /** Scores every valid order, in `validOrders` order (the comparator's per-order sums). */
  method ScoreOrders(inst: Instance, validOrders: seq<int>, orderToRequiredAisles: map<int, set<int>>)
    returns (candidates: seq<Candidate>)
    requires ValidCandidates(inst, validOrders, orderToRequiredAisles)
    ensures candidates == Candidates(inst, validOrders, orderToRequiredAisles)
  {
    candidates := [];
    for k := 0 to |validOrders|
      invariant candidates == Candidates(inst, validOrders[..k], orderToRequiredAisles)
    {
      var o := validOrders[k];
      var units := OrderUnits(inst.orders[o]);
      candidates := candidates + [Candidate(o, units, |orderToRequiredAisles[o]|)];
      assert validOrders[..k + 1][..k] == validOrders[..k];
    }
    assert validOrders[..|validOrders|] == validOrders;
  }

  /**
    The scan over the sorted orders: an order whose units still fit under
    `cap` is added with its eligible aisles, and the scan breaks as soon as
    the running total reaches `lb`.
  */
  method Scan(sortedOrders: seq<Candidate>, orderToRequiredAisles: map<int, set<int>>, cap: int, lb: int)
    returns (selectedOrders: set<int>, selectedAisles: set<int>, totalItems: int)
    requires forall c | c in sortedOrders :: c.order in orderToRequiredAisles
    ensures totalItems == SumUnits(Accepted(sortedOrders, 0, cap, lb))
    ensures selectedOrders == OrderIds(Accepted(sortedOrders, 0, cap, lb))
    ensures selectedAisles == EligibleUnion(selectedOrders, orderToRequiredAisles)
  {
    selectedOrders, selectedAisles, totalItems := {}, {}, 0;
    ghost var accepted: seq<Candidate> := [];
    var k := 0;
    while k < |sortedOrders|
      invariant 0 <= k <= |sortedOrders|
      invariant accepted + Accepted(sortedOrders[k..], totalItems, cap, lb) == Accepted(sortedOrders, 0, cap, lb)
      invariant totalItems == SumUnits(accepted)
      invariant selectedOrders == OrderIds(accepted)
      invariant selectedAisles == EligibleUnion(selectedOrders, orderToRequiredAisles)
    {
      var c := sortedOrders[k];
      assert sortedOrders[k..][0] == c && sortedOrders[k..][1..] == sortedOrders[k + 1..];
      if totalItems + c.units <= cap {
        assert c in sortedOrders;
        EligibleUnionAdd(selectedOrders, c.order, orderToRequiredAisles);
        SumUnitsAppend(accepted, [c]);
        selectedOrders := selectedOrders + {c.order};
        totalItems := totalItems + c.units;
        selectedAisles := selectedAisles + orderToRequiredAisles[c.order];
        accepted := accepted + [c];
        if totalItems >= lb {
          break;
        }
      }
      k := k + 1;
    }
    assert accepted == Accepted(sortedOrders, 0, cap, lb);
  }

  /**
    `greedyFallback`, given the preprocessing outputs: sorts the valid
    orders by efficiency, scans them, and returns the wave only if its
    total lies in [waveSizeLB, waveSizeUB].
  */
  method GreedyFallback(
    inst: Instance, validOrders: seq<int>, orderToRequiredAisles: map<int, set<int>>, realUpperBound: int)
    returns (result: Option<Solution>)
    requires ValidCandidates(inst, validOrders, orderToRequiredAisles)
    ensures result == GreedyResult(inst, validOrders, orderToRequiredAisles, realUpperBound)
  {
    var candidates := ScoreOrders(inst, validOrders, orderToRequiredAisles);
    var sortedOrders := SortByEfficiency(candidates);
    forall c | c in sortedOrders ensures c.order in orderToRequiredAisles {
      assert c in multiset(sortedOrders);
      var k :| 0 <= k < |candidates| && candidates[k] == c;
    }
    var selectedOrders, selectedAisles, totalItems :=
      Scan(sortedOrders, orderToRequiredAisles, realUpperBound, inst.waveSizeLB);
    if totalItems >= inst.waveSizeLB && totalItems <= inst.waveSizeUB {
      result := Some(Solution(selectedOrders, selectedAisles));
    } else {
      result := None;
    }
  }

  lemma SumUnitsCons(c: Candidate, s: seq<Candidate>)
    ensures SumUnits([c] + s) == c.units + SumUnits(s)
  {
    assert ([c] + s)[0] == c;
    assert ([c] + s)[1..] == s;
  }

  lemma {:induction false} SumUnitsNonNegative(s: seq<Candidate>)
    requires forall c | c in s :: c.units >= 0
    ensures SumUnits(s) >= 0
    decreases |s|
  {
    if s != [] {
      assert s[0] in s;
      SumUnitsNonNegative(s[1..]);
    }
  }

  /** The scan accepts only candidates it is given. */
  lemma {:induction false} AcceptedFrom(cs: seq<Candidate>, total: int, cap: int, lb: int)
    ensures forall x | x in Accepted(cs, total, cap, lb) :: x in cs
    decreases |cs|
  {
    if cs != [] {
      AcceptedFrom(cs[1..], total + cs[0].units, cap, lb);
      AcceptedFrom(cs[1..], total, cap, lb);
    }
  }

  /** The scan accepts no order twice when the candidates are of distinct orders. */
  lemma {:induction false} AcceptedDistinct(cs: seq<Candidate>, total: int, cap: int, lb: int)
    requires DistinctIds(cs)
    ensures DistinctIds(Accepted(cs, total, cap, lb))
    decreases |cs|
  {
    IdPredicatesOnCandidates();
    if cs != [] {
      var rest := cs[1..];
      var t := total + cs[0].units;
      if t <= cap && t < lb {
        var a := Accepted(rest, t, cap, lb);
        AcceptedDistinct(rest, t, cap, lb);
        AcceptedFrom(rest, t, cap, lb);
        forall x | x in a ensures x.order != cs[0].order {
          var k :| 0 <= k < |rest| && rest[k] == x;
          assert cs[k + 1] == x;
        }
        var r := [cs[0]] + a;
        forall i, j | 0 <= i < j < |r| ensures r[i].order != r[j].order {
          assert r[j] == a[j - 1] && r[j] in a;
          if i > 0 {
            assert r[i] == a[i - 1];
          }
        }
      } else if t > cap {
        AcceptedDistinct(rest, total, cap, lb);
      }
    }
  }

  /** Starting from `total`, every running total after an element of `a` is at most `cap`. */
  predicate RunningTotalsWithin(a: seq<Candidate>, total: int, cap: int)
  {
    forall i | 0 < i <= |a| :: total + SumUnits(a[..i]) <= cap
  }

  /** Starting from `total`, every running total before the last element of `a` is below `lb`. */
  predicate RunningTotalsBelow(a: seq<Candidate>, total: int, lb: int)
  {
    forall i | 0 < i < |a| :: total + SumUnits(a[..i]) < lb
  }

  /**
    Every running total the scan reaches by an acceptance stays within the
    cap, and every one but the last is below the lower bound (the scan
    breaks right after the first acceptance that reaches it).
  */
  lemma {:induction false} AcceptedRunningTotals(cs: seq<Candidate>, total: int, cap: int, lb: int)
    ensures RunningTotalsWithin(Accepted(cs, total, cap, lb), total, cap)
    ensures RunningTotalsBelow(Accepted(cs, total, cap, lb), total, lb)
    decreases |cs|
  {
    if cs != [] {
      var c, rest := cs[0], cs[1..];
      var t := total + c.units;
      var a := Accepted(cs, total, cap, lb);
      if t <= cap {
        var a': seq<Candidate> := [];
        if t < lb {
          a' := Accepted(rest, t, cap, lb);
          AcceptedRunningTotals(rest, t, cap, lb);
        }
        assert a == [c] + a';
        assert RunningTotalsWithin(a', t, cap) && RunningTotalsBelow(a', t, lb);
        forall i | 0 < i <= |a|
          ensures total + SumUnits(a[..i]) <= cap
          ensures i < |a| ==> total + SumUnits(a[..i]) < lb
        {
          assert a[..i] == [c] + a'[..i - 1];
          SumUnitsCons(c, a'[..i - 1]);
          if i == 1 {
            assert a'[..0] == [];
          }
        }
      } else {
        assert a == Accepted(rest, total, cap, lb);
        AcceptedRunningTotals(rest, total, cap, lb);
      }
    }
  }

  /**
    When the scan ends below the lower bound, it has visited every
    candidate, and (units being non-negative) each candidate it did not
    accept would take the final total over the cap.
  */
  lemma {:induction false} AcceptedRejectsOnlyOverCap(cs: seq<Candidate>, total: int, cap: int, lb: int)
    requires forall c | c in cs :: c.units >= 0
    requires total + SumUnits(Accepted(cs, total, cap, lb)) < lb
    ensures var a := Accepted(cs, total, cap, lb);
      forall c | c in cs && c !in a :: total + SumUnits(a) + c.units > cap
    decreases |cs|
  {
    if cs != [] {
      var h, rest := cs[0], cs[1..];
      var t := total + h.units;
      var a := Accepted(cs, total, cap, lb);
      assert forall c | c in rest :: c in cs;
      if t <= cap {
        if t >= lb {
          SumUnitsCons(h, []);
          assert false;
        }
        var a' := Accepted(rest, t, cap, lb);
        assert a == [h] + a';
        SumUnitsCons(h, a');
        AcceptedRejectsOnlyOverCap(rest, t, cap, lb);
      } else {
        AcceptedRejectsOnlyOverCap(rest, total, cap, lb);
        AcceptedFrom(rest, total, cap, lb);
        SumUnitsNonNegative(a);
      }
    }
  }

  /** Each candidate carries its order's true unit total. */
  ghost predicate ScoredUnits(inst: Instance, s: seq<Candidate>)
  {
    forall c | c in s :: 0 <= c.order < |inst.orders| && c.units == Units(inst.orders[c.order])
  }

  lemma OrderIdsCons(c: Candidate, s: seq<Candidate>)
    ensures OrderIds([c] + s) == {c.order} + OrderIds(s)
  {
    assert forall x | x in [c] + s :: x == c || x in s;
    assert forall x | x in s :: x in [c] + s;
  }

  /** Over distinct orders, the accepted candidates' units are the selected orders' total units. */
  lemma {:induction false} OrderIdsUnits(inst: Instance, s: seq<Candidate>)
    requires ScoredUnits(inst, s) && DistinctIds(s)
    ensures ValidIds(OrderIds(s), |inst.orders|)
    ensures OrdersUnits(inst.orders, OrderIds(s)) == SumUnits(s)
    decreases |s|
  {
    IdPredicatesOnCandidates();
    if s == [] {
      assert OrderIds(s) == {};
    } else {
      var c, rest := s[0], s[1..];
      assert s == [c] + rest;
      assert ScoredUnits(inst, rest) by {
        assert forall x | x in rest :: x in s;
      }
      assert DistinctIds(rest) by {
        assert forall i | 0 <= i < |rest| :: rest[i] == s[i + 1];
      }
      OrderIdsUnits(inst, rest);
      OrderIdsCons(c, rest);
      assert c.order !in OrderIds(rest) by {
        forall x | x in rest ensures x.order != c.order {
          var k :| 0 <= k < |rest| && rest[k] == x;
          assert s[k + 1] == x;
        }
      }
      var ids := OrderIds(s);
      assert ids - {c.order} == OrderIds(rest);
      assert c in s;
      OrdersUnitsRemove(inst.orders, ids, c.order);
    }
  }

  /** Scored candidates of distinct valid orders, and where the sort puts them. */
  lemma CandidatesFacts(inst: Instance, validOrders: seq<int>, orderToRequiredAisles: map<int, set<int>>)
    requires ValidCandidates(inst, validOrders, orderToRequiredAisles)
    ensures var sorted := SortByEfficiency(Candidates(inst, validOrders, orderToRequiredAisles));
      ScoredUnits(inst, sorted) && forall c | c in sorted :: c.order in validOrders
    ensures Distinct(validOrders) ==>
      DistinctIds(SortByEfficiency(Candidates(inst, validOrders, orderToRequiredAisles)))
  {
    var cs := Candidates(inst, validOrders, orderToRequiredAisles);
    var sorted := SortByEfficiency(cs);
    forall c | c in sorted
      ensures 0 <= c.order < |inst.orders| && c.units == Units(inst.orders[c.order]) && c.order in validOrders
    {
      assert c in multiset(sorted);
      var k :| 0 <= k < |cs| && cs[k] == c;
    }
    if Distinct(validOrders) {
      SortDistinctIds(cs);
    }
  }

  /** What the whole greedy scan accepts: scored valid orders, none twice, within the running-total bounds. */
  lemma GreedyTraceFacts(
    inst: Instance, validOrders: seq<int>, orderToRequiredAisles: map<int, set<int>>, realUpperBound: int)
    requires ValidCandidates(inst, validOrders, orderToRequiredAisles) && Distinct(validOrders)
    ensures var trace := GreedyTrace(inst, validOrders, orderToRequiredAisles, realUpperBound);
      && ScoredUnits(inst, trace)
      && DistinctIds(trace)
      && (forall c | c in trace :: c.order in validOrders)
      && (trace != [] ==> SumUnits(trace) <= realUpperBound)
  {
    var sorted := SortByEfficiency(Candidates(inst, validOrders, orderToRequiredAisles));
    var trace := GreedyTrace(inst, validOrders, orderToRequiredAisles, realUpperBound);
    CandidatesFacts(inst, validOrders, orderToRequiredAisles);
    AcceptedFrom(sorted, 0, realUpperBound, inst.waveSizeLB);
    AcceptedDistinct(sorted, 0, realUpperBound, inst.waveSizeLB);
    AcceptedRunningTotals(sorted, 0, realUpperBound, inst.waveSizeLB);
    assert trace != [] ==> trace[..|trace|] == trace;
  }

  /**
    `greedyFallback` returns a wave exactly when the orders the scan
    accepted total between waveSizeLB and waveSizeUB units; that wave's
    orders are valid orders, its total is within `realUpperBound` unless no
    order was accepted, and its aisles are the union of the accepted
    orders' eligible aisles.
  */
  lemma GreedyFallbackSound(
    inst: Instance, validOrders: seq<int>, orderToRequiredAisles: map<int, set<int>>, realUpperBound: int)
    requires ValidCandidates(inst, validOrders, orderToRequiredAisles) && Distinct(validOrders)
    ensures var trace := GreedyTrace(inst, validOrders, orderToRequiredAisles, realUpperBound);
      ValidIds(OrderIds(trace), |inst.orders|)
      && var total := OrdersUnits(inst.orders, OrderIds(trace));
      && var r := GreedyResult(inst, validOrders, orderToRequiredAisles, realUpperBound);
      && (r.Some? <==> inst.waveSizeLB <= total <= inst.waveSizeUB)
      && (r.Some? ==>
            && r.value.orders == OrderIds(trace)
            && (forall o | o in r.value.orders :: o in validOrders)
            && (r.value.orders != {} ==> total <= realUpperBound)
            && r.value.aisles == EligibleUnion(r.value.orders, orderToRequiredAisles))
  {
    var trace := GreedyTrace(inst, validOrders, orderToRequiredAisles, realUpperBound);
    GreedyTraceFacts(inst, validOrders, orderToRequiredAisles, realUpperBound);
    OrderIdsUnits(inst, trace);
    forall o | o in OrderIds(trace) ensures o in validOrders {
      var c :| c in trace && c.order == o;
    }
    if OrderIds(trace) != {} {
      assert trace != [];
    }
  }

  /**
    Visit order: efficiency never increases along the sorted list, the
    candidates of each efficiency keep their `validOrders` order, so with
    ascending `validOrders` each group of ties is visited by ascending id.
  */
  lemma GreedyVisitOrder(
    inst: Instance, validOrders: seq<int>, orderToRequiredAisles: map<int, set<int>>, e: real)
    requires ValidCandidates(inst, validOrders, orderToRequiredAisles)
    ensures var cs := Candidates(inst, validOrders, orderToRequiredAisles);
      && NonIncreasing(SortByEfficiency(cs))
      && Ties(SortByEfficiency(cs), e) == Ties(cs, e)
      && (StrictlyIncreasing(validOrders) ==> IdsIncreasing(Ties(SortByEfficiency(cs), e)))
  {
    var cs := Candidates(inst, validOrders, orderToRequiredAisles);
    SortNonIncreasing(cs);
    SortKeepsTies(cs, e);
    if StrictlyIncreasing(validOrders) {
      TiesKeepIdsIncreasing(cs, e);
    }
  }

  /** No candidate fits under the cap from `total`: the scan accepts nothing. */
  lemma {:induction false} AcceptedNothing(cs: seq<Candidate>, total: int, cap: int, lb: int)
    requires forall c | c in cs :: total + c.units > cap
    ensures Accepted(cs, total, cap, lb) == []
    decreases |cs|
  {
    if cs != [] {
      assert forall c | c in cs[1..] :: c in cs;
      AcceptedNothing(cs[1..], total, cap, lb);
    }
  }

  /**
    With a lower bound of at most 0 and every valid order too large for the
    cap, the fallback returns the empty wave, which the feasibility check
    rejects.
  */
  lemma GreedyEmptyWave(
    inst: Instance, validOrders: seq<int>, orderToRequiredAisles: map<int, set<int>>, realUpperBound: int)
    requires ValidCandidates(inst, validOrders, orderToRequiredAisles)
    requires inst.waveSizeLB <= 0 <= inst.waveSizeUB
    requires forall k | 0 <= k < |validOrders| :: Units(inst.orders[validOrders[k]]) > realUpperBound
    ensures GreedyResult(inst, validOrders, orderToRequiredAisles, realUpperBound) == Some(Solution({}, {}))
    ensures !Feasible(inst, Solution({}, {}))
  {
    var cs := Candidates(inst, validOrders, orderToRequiredAisles);
    var sorted := SortByEfficiency(cs);
    forall c | c in sorted ensures 0 + c.units > realUpperBound {
      assert c in multiset(sorted);
      var k :| 0 <= k < |cs| && cs[k] == c;
    }
    AcceptedNothing(sorted, 0, realUpperBound, inst.waveSizeLB);
    assert OrderIds([]) == {};
    assert EligibleUnion({}, orderToRequiredAisles) == {};
  }

  /** Every quantity an order demands is non-negative. */
  ghost predicate NonNegativeDemands(inst: Instance)
  {
    forall o, item | 0 <= o < |inst.orders| && item in inst.orders[o] :: inst.orders[o][item] >= 0
  }

  lemma {:induction false} UnitsNonNegative(m: Stock)
    requires forall item | item in m :: m[item] >= 0
    ensures Units(m) >= 0
    decreases m.Keys
  {
    if m.Keys != {} {
      UnitsNonNegative(m - {Pick(m.Keys)});
    }
  }

  /**
    When the scan ends short of waveSizeLB (and the fallback so returns
    nothing for a positive lower bound), every valid order it left out
    would have taken the accepted total over `realUpperBound`.
  */
  lemma GreedyShortfallOnlyByCap(
    inst: Instance, validOrders: seq<int>, orderToRequiredAisles: map<int, set<int>>, realUpperBound: int)
    requires ValidCandidates(inst, validOrders, orderToRequiredAisles) && NonNegativeDemands(inst)
    requires SumUnits(GreedyTrace(inst, validOrders, orderToRequiredAisles, realUpperBound)) < inst.waveSizeLB
    ensures var trace := GreedyTrace(inst, validOrders, orderToRequiredAisles, realUpperBound);
      forall k | 0 <= k < |validOrders| && validOrders[k] !in OrderIds(trace) ::
        SumUnits(trace) + Units(inst.orders[validOrders[k]]) > realUpperBound
  {
    var cs := Candidates(inst, validOrders, orderToRequiredAisles);
    var sorted := SortByEfficiency(cs);
    var trace := GreedyTrace(inst, validOrders, orderToRequiredAisles, realUpperBound);
    CandidatesFacts(inst, validOrders, orderToRequiredAisles);
    forall c | c in sorted ensures c.units >= 0 {
      UnitsNonNegative(inst.orders[c.order]);
    }
    AcceptedRejectsOnlyOverCap(sorted, 0, realUpperBound, inst.waveSizeLB);
    forall k | 0 <= k < |validOrders| && validOrders[k] !in OrderIds(trace)
      ensures SumUnits(trace) + Units(inst.orders[validOrders[k]]) > realUpperBound
    {
      var c := cs[k];
      assert c in multiset(cs);
      assert c in sorted;
      assert c !in trace;
    }
  }

  /**
    With the maps built by preprocessing, a wave the fallback returns names
    only existing orders and aisles.
  */
  lemma GreedyWaveIsValidSolution(
    inst: Instance, validOrders: seq<int>, itemToAisles: map<int, set<int>>,
    orderToRequiredAisles: map<int, set<int>>, realUpperBound: int)
    requires IsItemToAisles(itemToAisles, inst.aisles, inst.nItems)
    requires IsOrderToRequiredAisles(orderToRequiredAisles, inst.orders, itemToAisles)
    requires ValidCandidates(inst, validOrders, orderToRequiredAisles)
    ensures var r := GreedyResult(inst, validOrders, orderToRequiredAisles, realUpperBound);
      r.Some? ==> ValidSolution(inst, r.value)
  {
    var trace := GreedyTrace(inst, validOrders, orderToRequiredAisles, realUpperBound);
    var sorted := SortByEfficiency(Candidates(inst, validOrders, orderToRequiredAisles));
    CandidatesFacts(inst, validOrders, orderToRequiredAisles);
    AcceptedFrom(sorted, 0, realUpperBound, inst.waveSizeLB);
    forall o | o in OrderIds(trace) ensures 0 <= o < |inst.orders| {
      var c :| c in trace && c.order == o;
    }
    forall a | a in EligibleUnion(OrderIds(trace), orderToRequiredAisles) ensures 0 <= a < |inst.aisles| {
      var o :| o in OrderIds(trace) && o in orderToRequiredAisles && a in orderToRequiredAisles[o];
      EligibleAislesStockADemandedItem(
        inst.orders, inst.aisles, inst.nItems, itemToAisles, orderToRequiredAisles, o, a);
    }
  }

  /** An instance whose only order the only aisle cannot serve in full. */
  const ShortStockInstance := Instance([map[0 := 2, 1 := 1]], [map[0 := 1, 1 := 5]], 2, 1, 10)
  const ShortStockItemToAisles: map<int, set<int>> := map[0 := {0}, 1 := {0}]
  const ShortStockRequiredAisles: map<int, set<int>> := map[0 := {0}]

  lemma ShortStockPreprocessed()
    ensures IsItemToAisles(ShortStockItemToAisles, ShortStockInstance.aisles, ShortStockInstance.nItems)
    ensures IsOrderToRequiredAisles(ShortStockRequiredAisles, ShortStockInstance.orders, ShortStockItemToAisles)
  {
    var aisles := ShortStockInstance.aisles;
    assert ItemAisles(aisles, 0) == {0};
    assert ItemAisles(aisles, 1) == {0};
    var order := ShortStockInstance.orders[0];
    assert RequiredAisles(order, ShortStockItemToAisles) == {0} by {
      assert 0 in order.Keys;
    }
  }

  lemma ShortStockGreedy()
    ensures GreedyResult(ShortStockInstance, [0], ShortStockRequiredAisles, 10) == Some(Solution({0}, {0}))
  {
    var order := ShortStockInstance.orders[0];
    UnitsRemove(order, 0);
    UnitsRemove(order - {0}, 1);
    assert order - {0} - {1} == map[];
    var c := Candidate(0, 3, 1);
    assert Candidates(ShortStockInstance, [0], ShortStockRequiredAisles) == [c] by {
      assert [0][..0] == [];
    }
    assert SortByEfficiency([c]) == [c];
    assert Accepted([c], 0, 10, 1) == [c];
    assert OrderIds([c]) == {0};
    assert EligibleUnion({0}, ShortStockRequiredAisles) == {0};
  }

  lemma ShortStockInfeasible()
    ensures ValidSolution(ShortStockInstance, Solution({0}, {0}))
    ensures !Feasible(ShortStockInstance, Solution({0}, {0}))
  {
    ColumnSumRemove(ShortStockInstance.orders, {0}, 0, 0);
    ColumnSumRemove(ShortStockInstance.aisles, {0}, 0, 0);
    assert ColumnSum(ShortStockInstance.orders, {0}, 0) > ColumnSum(ShortStockInstance.aisles, {0}, 0);
  }

  /**
    The fallback never checks per-item stock: one order demanding two units
    of item 0 and one of item 1, and one aisle holding one unit of item 0 and
    five of item 1, give (with the preprocessing maps of that instance) a
    returned wave that the feasibility check rejects.
  */
  lemma GreedyMayMissCoverage()
    ensures IsItemToAisles(ShortStockItemToAisles, ShortStockInstance.aisles, ShortStockInstance.nItems)
    ensures IsOrderToRequiredAisles(ShortStockRequiredAisles, ShortStockInstance.orders, ShortStockItemToAisles)
    ensures GreedyResult(ShortStockInstance, [0], ShortStockRequiredAisles, 10) == Some(Solution({0}, {0}))
    ensures ValidSolution(ShortStockInstance, Solution({0}, {0}))
    ensures !Feasible(ShortStockInstance, Solution({0}, {0}))
  {
    ShortStockPreprocessed();
    ShortStockGreedy();
    ShortStockInfeasible();
  }
}
