/**
 * The meaning of the hub-location model: its decision variables, objective and the four
 * constraint families, stated over a candidate assignment. The solver is not modelled; this
 * says what any assignment it returns must satisfy to be feasible, and what it costs.
 */
module Formulation {
  import opened IndexSets
  import opened CostTable

  /** Values of the decision variables: x(od, hp) routes pair od over hub pair hp, y(k) opens hub k. */
  datatype Assignment = Assignment(x: (Pair, Pair) -> int, y: Label -> int)

  /** One model instance: the index sets, the combined-cost table and the hub count p. */
  datatype Instance = Instance(pairs: seq<Pair>, hubPairs: seq<Pair>, hubs: seq<Label>, cost: map<CostKey, int>, p: int)

  /** The instance built from a cost matrix and the chosen number of hubs. */
  function Formulate(mx: CostMatrix, p: int): (inst: Instance)
    requires mx.Rectangular()
    ensures forall od :: od in inst.pairs <==> od.0 in mx.nodes && od.1 in mx.nodes && od.0 != od.1
    ensures forall hp :: hp in inst.hubPairs <==> hp.0 in mx.hubs && hp.1 in mx.hubs && hp.0 != hp.1
    ensures inst.hubs == mx.hubs && inst.p == p
  {
    Instance(OffDiagonal(mx.nodes), OffDiagonal(mx.hubs), mx.hubs, CombinedCost(mx), p)
  }

  /** Sum of y(k) over the hubs ks. */
  function HubSum(y: Label -> int, ks: seq<Label>): int
  {
    if ks == [] then 0 else y(ks[0]) + HubSum(y, ks[1..])
  }

  /** Sum of x(od, hp) over the hub pairs hps. */
  function RouteSum(x: (Pair, Pair) -> int, od: Pair, hps: seq<Pair>): int
  {
    if hps == [] then 0 else x(od, hps[0]) + RouteSum(x, od, hps[1..])
  }

  /** The hubs of ks that y opens, in the order of ks. */
  function OpenHubs(y: Label -> int, ks: seq<Label>): (r: seq<Label>)
    ensures forall k :: k in r <==> k in ks && y(k) == 1
  {
    if ks == [] then []
    else
      assert ks == [ks[0]] + ks[1..];
      (if y(ks[0]) == 1 then [ks[0]] else []) + OpenHubs(y, ks[1..])
  }

  /** Every route of every declared pair has a cost-table entry. */
  predicate Covers(inst: Instance)
  {
    forall od, hp | od in inst.pairs && hp in inst.hubPairs :: KeyOf(od, hp) in inst.cost
  }

  /** Sum of cost(od over hp) * x(od, hp) over the hub pairs hps. */
  function PairCost(cost: map<CostKey, int>, x: (Pair, Pair) -> int, od: Pair, hps: seq<Pair>): int
    requires forall hp | hp in hps :: KeyOf(od, hp) in cost
  {
    if hps == [] then 0 else cost[KeyOf(od, hps[0])] * x(od, hps[0]) + PairCost(cost, x, od, hps[1..])
  }

  /** Sum of PairCost over the origin-destination pairs ods. */
  function TotalCost(cost: map<CostKey, int>, x: (Pair, Pair) -> int, ods: seq<Pair>, hps: seq<Pair>): int
    requires forall od, hp | od in ods && hp in hps :: KeyOf(od, hp) in cost
  {
    if ods == [] then 0 else PairCost(cost, x, ods[0], hps) + TotalCost(cost, x, ods[1..], hps)
  }

  /**
   * objective_rule: the total routing cost, summed over pairs and then hub pairs. It is zero
   * when no route is used, and never negative for non-negative costs and indicators.
   */
  function Objective(inst: Instance, a: Assignment): (v: int)
    requires Covers(inst)
    ensures (forall od, hp | od in inst.pairs && hp in inst.hubPairs :: a.x(od, hp) == 0) ==> v == 0
    ensures (forall od, hp | od in inst.pairs && hp in inst.hubPairs :: a.x(od, hp) >= 0 && inst.cost[KeyOf(od, hp)] >= 0) ==> v >= 0
  {
    TotalCostSign(inst.cost, a.x, inst.pairs, inst.hubPairs);
    TotalCost(inst.cost, a.x, inst.pairs, inst.hubPairs)
  }

  /** A pair's cost is zero when no route is used, and non-negative for non-negative terms. */
  lemma {:induction false} PairCostSign(cost: map<CostKey, int>, x: (Pair, Pair) -> int, od: Pair, hps: seq<Pair>)
    requires forall hp | hp in hps :: KeyOf(od, hp) in cost
    ensures (forall hp | hp in hps :: x(od, hp) == 0) ==> PairCost(cost, x, od, hps) == 0
    ensures (forall hp | hp in hps :: x(od, hp) >= 0 && cost[KeyOf(od, hp)] >= 0) ==> PairCost(cost, x, od, hps) >= 0
  {
    if hps != [] {
      assert hps == [hps[0]] + hps[1..];
      PairCostSign(cost, x, od, hps[1..]);
    }
  }

  /** The total cost is zero when no route is used, and non-negative for non-negative terms. */
  lemma {:induction false} TotalCostSign(cost: map<CostKey, int>, x: (Pair, Pair) -> int, ods: seq<Pair>, hps: seq<Pair>)
    requires forall od, hp | od in ods && hp in hps :: KeyOf(od, hp) in cost
    ensures (forall od, hp | od in ods && hp in hps :: x(od, hp) == 0) ==> TotalCost(cost, x, ods, hps) == 0
    ensures (forall od, hp | od in ods && hp in hps :: x(od, hp) >= 0 && cost[KeyOf(od, hp)] >= 0) ==> TotalCost(cost, x, ods, hps) >= 0
  {
    if ods != [] {
      assert ods == [ods[0]] + ods[1..];
      PairCostSign(cost, x, ods[0], hps);
      TotalCostSign(cost, x, ods[1..], hps);
    }
  }

  /** The variables take values in {0, 1}, as their Binary domain demands. */
  predicate Binary(inst: Instance, a: Assignment)
  {
    (forall od, hp | od in inst.pairs && hp in inst.hubPairs :: a.x(od, hp) == 0 || a.x(od, hp) == 1) &&
    (forall k | k in inst.hubs :: a.y(k) == 0 || a.y(k) == 1)
  }

  /** total_hubs_constraint: exactly p hubs are opened. */
  predicate TotalHubsConstraint(inst: Instance, a: Assignment)
  {
    HubSum(a.y, inst.hubs) == inst.p
  }

  /** allocation_constraint for pair od: its route indicators sum to one. */
  predicate AllocationConstraint(inst: Instance, a: Assignment, od: Pair)
  {
    RouteSum(a.x, od, inst.hubPairs) == 1
  }

  /** flow_constraint_a for pair od and hub k: routes with k as first hub need k open. */
  predicate FlowConstraintA(inst: Instance, a: Assignment, od: Pair, k: Label)
  {
    RouteSum(a.x, od, Row(k, inst.hubs)) <= a.y(k)
  }

  /** flow_constraint_b for pair od and hub m: routes with m as second hub need m open. */
  predicate FlowConstraintB(inst: Instance, a: Assignment, od: Pair, m: Label)
  {
    RouteSum(a.x, od, Column(m, inst.hubs)) <= a.y(m)
  }

  /** Every constraint instance of the model holds, and every variable is binary. */
  predicate Feasible(inst: Instance, a: Assignment)
  {
    Binary(inst, a) &&
    TotalHubsConstraint(inst, a) &&
    (forall od | od in inst.pairs :: AllocationConstraint(inst, a, od)) &&
    (forall od, k | od in inst.pairs && k in inst.hubs :: FlowConstraintA(inst, a, od, k) && FlowConstraintB(inst, a, od, k))
  }

  /** With non-negative indicators, each indicator is at most their sum. */
  lemma {:induction false} RouteBelowSum(x: (Pair, Pair) -> int, od: Pair, hps: seq<Pair>, hp: Pair)
    requires forall q | q in hps :: x(od, q) >= 0
    requires hp in hps
    ensures x(od, hp) <= RouteSum(x, od, hps)
  {
    if hps[0] != hp {
      RouteBelowSum(x, od, hps[1..], hp);
    } else if hps[1..] != [] {
      RouteSumNonNegative(x, od, hps[1..]);
    }
  }

  /** A sum of non-negative indicators is non-negative. */
  lemma {:induction false} RouteSumNonNegative(x: (Pair, Pair) -> int, od: Pair, hps: seq<Pair>)
    requires forall q | q in hps :: x(od, q) >= 0
    ensures RouteSum(x, od, hps) >= 0
  {
    if hps != [] {
      RouteSumNonNegative(x, od, hps[1..]);
    }
  }

  /** Binary indicators summing to one pick exactly one hub pair. */
  lemma {:induction false} SingleRoute(x: (Pair, Pair) -> int, od: Pair, hps: seq<Pair>)
    requires forall q | q in hps :: x(od, q) == 0 || x(od, q) == 1
    requires RouteSum(x, od, hps) == 1
    ensures exists hp :: hp in hps && x(od, hp) == 1
    ensures forall hp, hp' | hp in hps && hp' in hps && x(od, hp) == 1 && x(od, hp') == 1 :: hp == hp'
  {
    var rest := hps[1..];
    if x(od, hps[0]) == 1 {
      forall hp | hp in rest ensures x(od, hp) == 0 {
        RouteBelowSum(x, od, rest, hp);
      }
    } else {
      SingleRoute(x, od, rest);
    }
  }

  /**
   * allocation_constraint under binary values: each origin-destination pair is routed over
   * exactly one hub pair.
   */
  lemma ExactlyOneHubPair(inst: Instance, a: Assignment, od: Pair)
    requires Binary(inst, a)
    requires od in inst.pairs
    requires AllocationConstraint(inst, a, od)
    ensures exists hp :: hp in inst.hubPairs && a.x(od, hp) == 1
    ensures forall hp, hp' | hp in inst.hubPairs && hp' in inst.hubPairs && a.x(od, hp) == 1 && a.x(od, hp') == 1 :: hp == hp'
  {
    SingleRoute(a.x, od, inst.hubPairs);
  }

  /** Indicators that are all zero sum to zero. */
  lemma {:induction false} RouteSumZero(x: (Pair, Pair) -> int, od: Pair, hps: seq<Pair>)
    requires forall q | q in hps :: x(od, q) == 0
    ensures RouteSum(x, od, hps) == 0
  {
    if hps != [] {
      assert hps == [hps[0]] + hps[1..];
      RouteSumZero(x, od, hps[1..]);
    }
  }

  /** Binary indicators over duplicate-free hub pairs with exactly one of them set sum to one. */
  lemma {:induction false} OneRouteSumsToOne(x: (Pair, Pair) -> int, od: Pair, hps: seq<Pair>, hp: Pair)
    requires Distinct(hps)
    requires forall q | q in hps :: x(od, q) == 0 || x(od, q) == 1
    requires hp in hps && x(od, hp) == 1
    requires forall q | q in hps && x(od, q) == 1 :: q == hp
    ensures RouteSum(x, od, hps) == 1
  {
    assert hps == [hps[0]] + hps[1..];
    DistinctTail(hps);
    if hps[0] == hp {
      RouteSumZero(x, od, hps[1..]);
    } else {
      OneRouteSumsToOne(x, od, hps[1..], hp);
    }
  }

  /**
   * allocation_constraint under binary values and duplicate-free hub pairs holds exactly when
   * one hub pair, and no other, has indicator 1 for the pair.
   */
  lemma AllocationMeansOneRoute(inst: Instance, a: Assignment, od: Pair)
    requires Binary(inst, a) && Distinct(inst.hubPairs)
    requires od in inst.pairs
    ensures AllocationConstraint(inst, a, od) <==>
      exists hp | hp in inst.hubPairs && a.x(od, hp) == 1 ::
        forall q | q in inst.hubPairs && a.x(od, q) == 1 :: q == hp
  {
    if AllocationConstraint(inst, a, od) {
      ExactlyOneHubPair(inst, a, od);
      var hp :| hp in inst.hubPairs && a.x(od, hp) == 1;
      assert forall q | q in inst.hubPairs && a.x(od, q) == 1 :: q == hp;
    }
    if exists hp | hp in inst.hubPairs && a.x(od, hp) == 1 :: forall q | q in inst.hubPairs && a.x(od, q) == 1 :: q == hp {
      var hp :| hp in inst.hubPairs && a.x(od, hp) == 1 && forall q | q in inst.hubPairs && a.x(od, q) == 1 :: q == hp;
      OneRouteSumsToOne(a.x, od, inst.hubPairs, hp);
    }
  }

  /**
   * The two flow constraints: a route with indicator 1 has its first hub open (by
   * flow_constraint_a) and its second hub open (by flow_constraint_b).
   */
  lemma RouteUsesOpenHubs(inst: Instance, a: Assignment, od: Pair, hp: Pair)
    requires inst.hubPairs == OffDiagonal(inst.hubs)
    requires Binary(inst, a)
    requires od in inst.pairs && hp in inst.hubPairs && a.x(od, hp) == 1
    requires FlowConstraintA(inst, a, od, hp.0) && FlowConstraintB(inst, a, od, hp.1)
    ensures a.y(hp.0) == 1 && a.y(hp.1) == 1
  {
    var (k, m) := hp;
    assert k in inst.hubs && m in inst.hubs;
    assert a.x(od, hp) <= RouteSum(a.x, od, Row(k, inst.hubs)) by {
      assert forall q | q in Row(k, inst.hubs) :: q in inst.hubPairs;
      RouteBelowSum(a.x, od, Row(k, inst.hubs), hp);
    }
    assert a.x(od, hp) <= RouteSum(a.x, od, Column(m, inst.hubs)) by {
      assert forall q | q in Column(m, inst.hubs) :: q in inst.hubPairs;
      RouteBelowSum(a.x, od, Column(m, inst.hubs), hp);
    }
  }

  /** A hub sum over binary values counts the open hubs. */
  lemma {:induction false} HubSumCountsOpenHubs(y: Label -> int, ks: seq<Label>)
    requires forall k | k in ks :: y(k) == 0 || y(k) == 1
    ensures HubSum(y, ks) == |OpenHubs(y, ks)| <= |ks|
  {
    if ks != [] {
      HubSumCountsOpenHubs(y, ks[1..]);
    }
  }

  /** total_hubs_constraint under binary values: exactly p hubs are open. */
  lemma TotalHubsMeansPOpen(inst: Instance, a: Assignment)
    requires Binary(inst, a)
    ensures TotalHubsConstraint(inst, a) <==> |OpenHubs(a.y, inst.hubs)| == inst.p
  {
    HubSumCountsOpenHubs(a.y, inst.hubs);
  }

  /** Two different open hubs among ks contribute at least two to the hub sum. */
  lemma {:induction false} TwoOpenHubs(y: Label -> int, ks: seq<Label>, k: Label, m: Label)
    requires forall h | h in ks :: y(h) == 0 || y(h) == 1
    requires k in ks && m in ks && k != m && y(k) == 1 && y(m) == 1
    ensures HubSum(y, ks) >= 2
  {
    HubSumCountsOpenHubs(y, ks[1..]);
    if ks[0] == k {
      assert m in OpenHubs(y, ks[1..]);
    } else if ks[0] == m {
      assert k in OpenHubs(y, ks[1..]);
    } else {
      TwoOpenHubs(y, ks[1..], k, m);
    }
  }

  /**
   * A feasible assignment with at least one origin-destination pair opens two different hubs,
   * so p is at least 2 (the slider's minimum) and at most the number of hubs (its maximum).
   */
  lemma FeasibleOpensTwoHubs(mx: CostMatrix, p: int, a: Assignment)
    requires mx.Rectangular()
    requires Feasible(Formulate(mx, p), a)
    requires OffDiagonal(mx.nodes) != []
    ensures exists k, m :: k in mx.hubs && m in mx.hubs && k != m && a.y(k) == 1 && a.y(m) == 1
    ensures 2 <= p <= |mx.hubs|
  {
    var inst := Formulate(mx, p);
    var od := inst.pairs[0];
    ExactlyOneHubPair(inst, a, od);
    var hp :| hp in inst.hubPairs && a.x(od, hp) == 1;
    assert hp.0 in mx.hubs && hp.1 in mx.hubs;
    assert FlowConstraintA(inst, a, od, hp.0) && FlowConstraintB(inst, a, od, hp.1);
    RouteUsesOpenHubs(inst, a, od, hp);
    TwoOpenHubs(a.y, mx.hubs, hp.0, hp.1);
    HubSumCountsOpenHubs(a.y, mx.hubs);
  }

  /** With some origin-destination pair, no assignment is feasible when fewer than two hubs may open. */
  lemma FewerThanTwoHubsInfeasible(mx: CostMatrix, p: int, a: Assignment)
    requires mx.Rectangular()
    requires OffDiagonal(mx.nodes) != []
    requires p < 2
    ensures !Feasible(Formulate(mx, p), a)
  {
    if Feasible(Formulate(mx, p), a) {
      FeasibleOpensTwoHubs(mx, p, a);
    }
  }

  /** The instance built from a matrix covers every route with a cost-table entry. */
  lemma FormulateCovers(mx: CostMatrix, p: int)
    requires mx.Rectangular()
    ensures Covers(Formulate(mx, p))
  {
    CombinedCostOverPairs(mx);
  }
}
