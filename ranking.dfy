/**
  The order in which the greedy fallback visits the valid orders: a stable
  sort by efficiency (units per eligible aisle, at least one aisle),
  most efficient first.
*/
module Ranking {
  import opened Wave

  /** A valid order with the two numbers its efficiency is computed from. */
  datatype Candidate = Candidate(order: int, units: int, aisles: int)

  /** `Math.max(1, aisles)`: the divisor of the efficiency score. */
  function AisleDivisor(aisles: int): int
  {
    if aisles < 1 then 1 else aisles
  }

  /** The efficiency score units / max(1, aisles), as an exact rational. */
  function Efficiency(c: Candidate): real
  {
    c.units as real / AisleDivisor(c.aisles) as real
  }

  /** The sort's comparison, with the two divisions replaced by cross-multiplication. */
  predicate AtLeastAsEfficient(c: Candidate, d: Candidate)
  {
    c.units * AisleDivisor(d.aisles) >= d.units * AisleDivisor(c.aisles)
  }

  /** Cross-multiplying by the two positive divisors compares the two scores. */
  lemma CrossMultiplicationComparesEfficiency(c: Candidate, d: Candidate)
    ensures AtLeastAsEfficient(c, d) <==> Efficiency(c) >= Efficiency(d)
  {
    var dc, dd := AisleDivisor(c.aisles) as real, AisleDivisor(d.aisles) as real;
    var ec, ed := Efficiency(c), Efficiency(d);
    assert c.units as real == ec * dc;
    assert d.units as real == ed * dd;
    assert (c.units * AisleDivisor(d.aisles)) as real == ec * (dc * dd);
    assert (d.units * AisleDivisor(c.aisles)) as real == ed * (dc * dd);
    assert dc * dd > 0.0;
    if ec >= ed {
      assert ec * (dc * dd) >= ed * (dc * dd);
    } else {
      assert ec * (dc * dd) < ed * (dc * dd);
    }
  }

  /** Inserts `c` just before the first candidate it is at least as efficient as. */
  function Insert(c: Candidate, sorted: seq<Candidate>): (r: seq<Candidate>)
    ensures multiset(r) == multiset(sorted) + multiset{c}
  {
    if sorted == [] || AtLeastAsEfficient(c, sorted[0]) then [c] + sorted
    else
      assert sorted == [sorted[0]] + sorted[1..];
      [sorted[0]] + Insert(c, sorted[1..])
  }

  /**
    `List.sort` with the comparator `Double.compare(eff2, eff1)`: most
    efficient first, and, the list sort being stable, candidates of equal
    efficiency keep their relative order. Each candidate is inserted in
    front of every later one it is at least as efficient as.
  */
  function SortByEfficiency(s: seq<Candidate>): (r: seq<Candidate>)
    ensures multiset(r) == multiset(s)
  {
    if s == [] then []
    else
      assert s == [s[0]] + s[1..];
      Insert(s[0], SortByEfficiency(s[1..]))
  }

  /** Efficiency never increases along `s`. */
  ghost predicate NonIncreasing(s: seq<Candidate>)
  {
    forall i, j | 0 <= i < j < |s| :: Efficiency(s[i]) >= Efficiency(s[j])
  }

  /** The candidates of `s` whose efficiency is `e`, in their order in `s`. */
  function Ties(s: seq<Candidate>, e: real): seq<Candidate>
  {
    if s == [] then []
    else (if Efficiency(s[0]) == e then [s[0]] else []) + Ties(s[1..], e)
  }

  /** The order ids of `s`, in its order. */
  function Ids(s: seq<Candidate>): seq<int>
  {
    seq(|s|, i requires 0 <= i < |s| => s[i].order)
  }

  /** No two candidates of `s` are the same order. */
  predicate DistinctIds(s: seq<Candidate>)
  {
    Distinct(Ids(s))
  }

  /** Order ids ascend along `s`. */
  predicate IdsIncreasing(s: seq<Candidate>)
  {
    StrictlyIncreasing(Ids(s))
  }

  /** The two id predicates, read on the candidates themselves. */
  lemma IdPredicatesOnCandidates()
    ensures forall s: seq<Candidate> {:trigger DistinctIds(s)} ::
      DistinctIds(s) <==> forall i, j | 0 <= i < j < |s| :: s[i].order != s[j].order
    ensures forall s: seq<Candidate> {:trigger IdsIncreasing(s)} ::
      IdsIncreasing(s) <==> forall i, j | 0 <= i < j < |s| :: s[i].order < s[j].order
  {
    forall s: seq<Candidate>
      ensures DistinctIds(s) <==> forall i, j | 0 <= i < j < |s| :: s[i].order != s[j].order
      ensures IdsIncreasing(s) <==> forall i, j | 0 <= i < j < |s| :: s[i].order < s[j].order
    {
      assert |Ids(s)| == |s| && forall i | 0 <= i < |s| :: Ids(s)[i] == s[i].order;
    }
  }

  lemma {:induction false} InsertNonIncreasing(c: Candidate, t: seq<Candidate>)
    requires NonIncreasing(t)
    ensures NonIncreasing(Insert(c, t))
    decreases |t|
  {
    if t != [] {
      CrossMultiplicationComparesEfficiency(c, t[0]);
      if !AtLeastAsEfficient(c, t[0]) {
        var rest := t[1..];
        InsertNonIncreasing(c, rest);
        var r := Insert(c, rest);
        forall j | 0 <= j < |r| ensures Efficiency(t[0]) >= Efficiency(r[j]) {
          assert r[j] in multiset(r);
          if r[j] != c {
            assert r[j] in rest;
            var k :| 0 <= k < |rest| && rest[k] == r[j];
            assert t[k + 1] == r[j];
          }
        }
        assert Insert(c, t) == [t[0]] + r;
      }
    }
  }

  /** The sort puts the candidates in non-increasing order of efficiency. */
  lemma {:induction false} SortNonIncreasing(s: seq<Candidate>)
    ensures NonIncreasing(SortByEfficiency(s))
    decreases |s|
  {
    if s != [] {
      SortNonIncreasing(s[1..]);
      InsertNonIncreasing(s[0], SortByEfficiency(s[1..]));
    }
  }

  lemma TiesCons(x: Candidate, s: seq<Candidate>, e: real)
    ensures Ties([x] + s, e) == (if Efficiency(x) == e then [x] else []) + Ties(s, e)
  {
    assert ([x] + s)[0] == x;
    assert ([x] + s)[1..] == s;
  }

  lemma {:induction false} InsertTies(c: Candidate, t: seq<Candidate>, e: real)
    ensures Ties(Insert(c, t), e) == (if Efficiency(c) == e then [c] else []) + Ties(t, e)
    decreases |t|
  {
    if t == [] || AtLeastAsEfficient(c, t[0]) {
      TiesCons(c, t, e);
    } else {
      var rest := t[1..];
      CrossMultiplicationComparesEfficiency(c, t[0]);
      assert Efficiency(c) < Efficiency(t[0]);
      InsertTies(c, rest, e);
      TiesCons(t[0], Insert(c, rest), e);
      assert t == [t[0]] + rest;
      TiesCons(t[0], rest, e);
      var tc: seq<Candidate> := if Efficiency(c) == e then [c] else [];
      var tt: seq<Candidate> := if Efficiency(t[0]) == e then [t[0]] else [];
      assert tt == [] || tc == [];
      calc {
        Ties(Insert(c, t), e);
        Ties([t[0]] + Insert(c, rest), e);
        tt + Ties(Insert(c, rest), e);
        tt + (tc + Ties(rest, e));
        { assert tt + tc == tc + tt; }
        tc + (tt + Ties(rest, e));
        tc + Ties(t, e);
      }
    }
  }

  /** Stability: the candidates of any one efficiency leave the sort in the order they entered it. */
  lemma {:induction false} SortKeepsTies(s: seq<Candidate>, e: real)
    ensures Ties(SortByEfficiency(s), e) == Ties(s, e)
    decreases |s|
  {
    if s != [] {
      SortKeepsTies(s[1..], e);
      InsertTies(s[0], SortByEfficiency(s[1..]), e);
    }
  }

  lemma {:induction false} TiesAreFrom(s: seq<Candidate>, e: real)
    ensures forall x | x in Ties(s, e) :: x in s
    decreases |s|
  {
    if s != [] {
      TiesAreFrom(s[1..], e);
    }
  }

  /** Filtering keeps ascending ids ascending. */
  lemma {:induction false} TiesKeepIdsIncreasing(s: seq<Candidate>, e: real)
    requires IdsIncreasing(s)
    ensures IdsIncreasing(Ties(s, e))
    decreases |s|
  {
    IdPredicatesOnCandidates();
    if s != [] {
      TiesKeepIdsIncreasing(s[1..], e);
      TiesAreFrom(s[1..], e);
      var rest := Ties(s[1..], e);
      forall x | x in rest ensures s[0].order < x.order {
        var k :| 0 <= k < |s[1..]| && s[1..][k] == x;
        assert s[k + 1] == x;
      }
    }
  }

  lemma {:induction false} InsertDistinctIds(c: Candidate, t: seq<Candidate>)
    requires DistinctIds(t)
    requires forall x | x in t :: x.order != c.order
    ensures DistinctIds(Insert(c, t))
    decreases |t|
  {
    IdPredicatesOnCandidates();
    if t != [] && !AtLeastAsEfficient(c, t[0]) {
      var rest := t[1..];
      InsertDistinctIds(c, rest);
      var r := Insert(c, rest);
      forall j | 0 <= j < |r| ensures r[j].order != t[0].order {
        assert r[j] in multiset(r);
        if r[j] != c {
          var k :| 0 <= k < |rest| && rest[k] == r[j];
          assert t[k + 1] == r[j];
        }
      }
      assert Insert(c, t) == [t[0]] + r;
    }
  }

  /** Sorting never makes two entries of one order out of distinct ones. */
  lemma {:induction false} SortDistinctIds(s: seq<Candidate>)
    requires DistinctIds(s)
    ensures DistinctIds(SortByEfficiency(s))
    decreases |s|
  {
    IdPredicatesOnCandidates();
    if s != [] {
      SortDistinctIds(s[1..]);
      var sorted := SortByEfficiency(s[1..]);
      forall x | x in sorted ensures x.order != s[0].order {
        assert x in multiset(sorted);
        var k :| 0 <= k < |s[1..]| && s[1..][k] == x;
        assert s[k + 1] == x;
      }
      InsertDistinctIds(s[0], sorted);
    }
  }
}
