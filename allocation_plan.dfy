/**
 * The allocation plan read back from a solved model: one row per route indicator whose value
 * is positive, in pairs-then-hub-pairs order.
 */
module AllocationPlan {
  import opened IndexSets
  import opened CostTable
  import opened Formulation

  /** A row of the plan: Origin, Destination, First Hub, Second Hub, Allocation. */
  datatype PlanRow = PlanRow(origin: Label, destination: Label, firstHub: Label, secondHub: Label, allocation: int)

  /** The row reporting value v for pair od routed over hub pair hp. */
  function RowFor(od: Pair, hp: Pair, v: int): PlanRow
  {
    PlanRow(od.0, od.1, hp.0, hp.1, v)
  }

  /** The origin-destination pair a row reports. */
  function PairOf(r: PlanRow): Pair
  {
    (r.origin, r.destination)
  }

  /** The hub pair a row reports. */
  function HubPairOf(r: PlanRow): Pair
  {
    (r.firstHub, r.secondHub)
  }

  /** The cost-table key of the route a row reports. */
  function RowKey(r: PlanRow): CostKey
  {
    (r.origin, r.firstHub, r.secondHub, r.destination)
  }

  /** The rows of one origin-destination pair: its hub pairs with a positive value, in order. */
  function PairRows(x: (Pair, Pair) -> int, od: Pair, hps: seq<Pair>): (rows: seq<PlanRow>)
    ensures |rows| <= |hps|
  {
    if hps == [] then []
    else (if x(od, hps[0]) > 0 then [RowFor(od, hps[0], x(od, hps[0]))] else []) + PairRows(x, od, hps[1..])
  }

  /** The allocation plan: the rows of every pair of ods, in the order of ods. */
  function Plan(x: (Pair, Pair) -> int, ods: seq<Pair>, hps: seq<Pair>): (plan: seq<PlanRow>)
    ensures |plan| <= |ods| * |hps|
  {
    if ods == [] then []
    else
      MulSucc(|ods| - 1, |hps|);
      PairRows(x, ods[0], hps) + Plan(x, ods[1..], hps)
  }

  /** Sum of cost * allocation over the rows. */
  function PlanCost(cost: map<CostKey, int>, rows: seq<PlanRow>): int
    requires forall r | r in rows :: RowKey(r) in cost
  {
    if rows == [] then 0 else cost[RowKey(rows[0])] * rows[0].allocation + PlanCost(cost, rows[1..])
  }

  /** Sum of the route cost of each row, each route charged once. */
  function RoutingCost(cost: map<CostKey, int>, rows: seq<PlanRow>): int
    requires forall r | r in rows :: RowKey(r) in cost
  {
    if rows == [] then 0 else cost[RowKey(rows[0])] + RoutingCost(cost, rows[1..])
  }

  /** One pair's rows are exactly its hub pairs with a positive value, each row carrying that value. */
  lemma {:induction false} PairRowsMembership(x: (Pair, Pair) -> int, od: Pair, hps: seq<Pair>)
    ensures forall r | r in PairRows(x, od, hps) ::
      PairOf(r) == od && HubPairOf(r) in hps && r.allocation == x(od, HubPairOf(r)) && r.allocation > 0
    ensures forall hp | hp in hps && x(od, hp) > 0 :: RowFor(od, hp, x(od, hp)) in PairRows(x, od, hps)
  {
    if hps != [] {
      assert hps == [hps[0]] + hps[1..];
      PairRowsMembership(x, od, hps[1..]);
    }
  }

  /**
   * A row is in the plan exactly when its pair and hub pair are declared and its value is
   * positive, and the row's allocation is that value.
   */
  lemma {:induction false} PlanMembership(x: (Pair, Pair) -> int, ods: seq<Pair>, hps: seq<Pair>)
    ensures forall r | r in Plan(x, ods, hps) ::
      PairOf(r) in ods && HubPairOf(r) in hps && r.allocation == x(PairOf(r), HubPairOf(r)) && r.allocation > 0
    ensures forall od, hp | od in ods && hp in hps && x(od, hp) > 0 :: RowFor(od, hp, x(od, hp)) in Plan(x, ods, hps)
  {
    if ods != [] {
      assert ods == [ods[0]] + ods[1..];
      PairRowsMembership(x, ods[0], hps);
      PlanMembership(x, ods[1..], hps);
    }
  }

  /** PlanCost distributes over concatenation. */
  lemma {:induction false} PlanCostConcat(cost: map<CostKey, int>, r1: seq<PlanRow>, r2: seq<PlanRow>)
    requires forall r | r in r1 + r2 :: RowKey(r) in cost
    ensures PlanCost(cost, r1 + r2) == PlanCost(cost, r1) + PlanCost(cost, r2)
  {
    if r1 == [] {
      assert r1 + r2 == r2;
    } else {
      assert (r1 + r2)[0] == r1[0] && (r1 + r2)[1..] == r1[1..] + r2;
      PlanCostConcat(cost, r1[1..], r2);
    }
  }

  /** Re-pricing one pair's rows gives that pair's share of the objective. */
  lemma {:induction false} PairRowsReproducePairCost(cost: map<CostKey, int>, x: (Pair, Pair) -> int, od: Pair, hps: seq<Pair>)
    requires forall hp | hp in hps :: KeyOf(od, hp) in cost && x(od, hp) >= 0
    ensures forall r | r in PairRows(x, od, hps) :: RowKey(r) in cost
    ensures PlanCost(cost, PairRows(x, od, hps)) == PairCost(cost, x, od, hps)
  {
    assert forall r | r in PairRows(x, od, hps) :: RowKey(r) in cost by {
      PairRowsMembership(x, od, hps);
    }
    if hps != [] {
      var head := if x(od, hps[0]) > 0 then [RowFor(od, hps[0], x(od, hps[0]))] else [];
      var rest := PairRows(x, od, hps[1..]);
      assert PairRows(x, od, hps) == head + rest;
      PairRowsReproducePairCost(cost, x, od, hps[1..]);
      PlanCostConcat(cost, head, rest);
    }
  }

  /** Re-pricing the plan rows reproduces the objective over ods and hps. */
  lemma {:induction false} PlanReproducesTotalCost(cost: map<CostKey, int>, x: (Pair, Pair) -> int, ods: seq<Pair>, hps: seq<Pair>)
    requires forall od, hp | od in ods && hp in hps :: KeyOf(od, hp) in cost && x(od, hp) >= 0
    ensures forall r | r in Plan(x, ods, hps) :: RowKey(r) in cost
    ensures PlanCost(cost, Plan(x, ods, hps)) == TotalCost(cost, x, ods, hps)
  {
    PlanMembership(x, ods, hps);
    if ods != [] {
      assert ods == [ods[0]] + ods[1..];
      PairRowsReproducePairCost(cost, x, ods[0], hps);
      PlanReproducesTotalCost(cost, x, ods[1..], hps);
      PlanCostConcat(cost, PairRows(x, ods[0], hps), Plan(x, ods[1..], hps));
    }
  }

  /**
   * Round trip: for non-negative variable values, the allocations in the plan, priced with
   * the same cost table, add up to the objective value.
   */
  lemma PlanReproducesObjective(inst: Instance, a: Assignment)
    requires Covers(inst)
    requires forall od, hp | od in inst.pairs && hp in inst.hubPairs :: a.x(od, hp) >= 0
    ensures forall r | r in Plan(a.x, inst.pairs, inst.hubPairs) :: RowKey(r) in inst.cost
    ensures PlanCost(inst.cost, Plan(a.x, inst.pairs, inst.hubPairs)) == Objective(inst, a)
  {
    PlanReproducesTotalCost(inst.cost, a.x, inst.pairs, inst.hubPairs);
  }

  /** Binary values summing to one leave exactly one row, with allocation 1. */
  lemma {:induction false} OneRowForPair(x: (Pair, Pair) -> int, od: Pair, hps: seq<Pair>)
    requires forall hp | hp in hps :: x(od, hp) == 0 || x(od, hp) == 1
    requires RouteSum(x, od, hps) == 1
    ensures |PairRows(x, od, hps)| == 1 && PairRows(x, od, hps)[0].allocation == 1
  {
    if x(od, hps[0]) == 1 {
      var rest := PairRows(x, od, hps[1..]);
      if rest != [] {
        PairRowsMembership(x, od, hps[1..]);
        assert rest[0] in rest;
        RouteBelowSum(x, od, hps[1..], HubPairOf(rest[0]));
        assert false;
      }
    } else {
      OneRowForPair(x, od, hps[1..]);
    }
  }

  /** Under binary values with one route per pair, row t of the plan reports pair t with allocation 1. */
  lemma {:induction false} OneRowPerPair(x: (Pair, Pair) -> int, ods: seq<Pair>, hps: seq<Pair>)
    requires forall od, hp | od in ods && hp in hps :: x(od, hp) == 0 || x(od, hp) == 1
    requires forall od | od in ods :: RouteSum(x, od, hps) == 1
    ensures |Plan(x, ods, hps)| == |ods|
    ensures forall t | 0 <= t < |ods| :: PairOf(Plan(x, ods, hps)[t]) == ods[t] && Plan(x, ods, hps)[t].allocation == 1
  {
    if ods != [] {
      assert ods == [ods[0]] + ods[1..];
      OneRowForPair(x, ods[0], hps);
      OneRowPerPair(x, ods[1..], hps);
      PairRowsMembership(x, ods[0], hps);
      var rows, head, rest := Plan(x, ods, hps), PairRows(x, ods[0], hps), Plan(x, ods[1..], hps);
      assert rows == head + rest;
      assert head[0] in head;
      forall t | 1 <= t < |ods| ensures rows[t] == rest[t - 1] && ods[t] == ods[1..][t - 1] {
      }
    }
  }

  /**
   * The plan of a feasible assignment has exactly one row per origin-destination pair, in the
   * order of the pairs; row t reports pair t, allocation 1, and a hub pair whose indicator is 1.
   */
  lemma FeasiblePlanOneRowPerPair(inst: Instance, a: Assignment)
    requires Feasible(inst, a)
    ensures |Plan(a.x, inst.pairs, inst.hubPairs)| == |inst.pairs|
    ensures forall t | 0 <= t < |inst.pairs| ::
      var r := Plan(a.x, inst.pairs, inst.hubPairs)[t];
      PairOf(r) == inst.pairs[t] && r.allocation == 1 &&
      HubPairOf(r) in inst.hubPairs && a.x(inst.pairs[t], HubPairOf(r)) == 1
  {
    OneRowPerPair(a.x, inst.pairs, inst.hubPairs);
    PlanMembership(a.x, inst.pairs, inst.hubPairs);
    var rows := Plan(a.x, inst.pairs, inst.hubPairs);
    forall t | 0 <= t < |inst.pairs| ensures HubPairOf(rows[t]) in inst.hubPairs && a.x(inst.pairs[t], HubPairOf(rows[t])) == 1 {
      assert rows[t] in rows;
    }
  }

  /** Under allocation 1 everywhere, PlanCost charges each route once. */
  lemma {:induction false} UnitPlanCost(cost: map<CostKey, int>, rows: seq<PlanRow>)
    requires forall r | r in rows :: RowKey(r) in cost && r.allocation == 1
    ensures PlanCost(cost, rows) == RoutingCost(cost, rows)
  {
    if rows != [] {
      UnitPlanCost(cost, rows[1..]);
    }
  }

  /**
   * The objective value of a feasible assignment is the cost of the one route chosen for each
   * origin-destination pair, i.e. the sum of the route costs of the plan's rows.
   */
  lemma FeasibleObjectiveIsRoutingCost(inst: Instance, a: Assignment)
    requires Covers(inst)
    requires Feasible(inst, a)
    ensures forall r | r in Plan(a.x, inst.pairs, inst.hubPairs) :: RowKey(r) in inst.cost
    ensures Objective(inst, a) == RoutingCost(inst.cost, Plan(a.x, inst.pairs, inst.hubPairs))
  {
    PlanReproducesObjective(inst, a);
    PlanMembership(a.x, inst.pairs, inst.hubPairs);
    UnitPlanCost(inst.cost, Plan(a.x, inst.pairs, inst.hubPairs));
  }

  /** Row r1 comes before row r2 in pairs-then-hub-pairs order. */
  predicate Precedes(ods: seq<Pair>, hps: seq<Pair>, r1: PlanRow, r2: PlanRow)
    requires PairOf(r1) in ods && PairOf(r2) in ods && HubPairOf(r1) in hps && HubPairOf(r2) in hps
  {
    var p1, p2 := IndexOf(ods, PairOf(r1)), IndexOf(ods, PairOf(r2));
    p1 < p2 || (p1 == p2 && IndexOf(hps, HubPairOf(r1)) < IndexOf(hps, HubPairOf(r2)))
  }

  /**
   * Rows for the first hub pair (at most one) followed by rows ordered along the remaining hub
   * pairs are ordered along all the hub pairs.
   */
  lemma PrependInOrder(hps: seq<Pair>, head: seq<PlanRow>, rest: seq<PlanRow>)
    requires hps != [] && hps[0] !in hps[1..]
    requires |head| <= 1 && forall r | r in head :: HubPairOf(r) == hps[0]
    requires forall r | r in rest :: HubPairOf(r) in hps[1..]
    requires forall s, t | 0 <= s < t < |rest| ::
      IndexOf(hps[1..], HubPairOf(rest[s])) < IndexOf(hps[1..], HubPairOf(rest[t]))
    ensures forall r | r in head + rest :: HubPairOf(r) in hps
    ensures forall s, t | 0 <= s < t < |head + rest| ::
      IndexOf(hps, HubPairOf((head + rest)[s])) < IndexOf(hps, HubPairOf((head + rest)[t]))
  {
    var rows, h := head + rest, |head|;
    forall s, t | 0 <= s < t < |rows| ensures IndexOf(hps, HubPairOf(rows[s])) < IndexOf(hps, HubPairOf(rows[t])) {
      assert rows[t] == rest[t - h] && rest[t - h] in rest;
      if s < h {
        assert rows[s] == head[s] && head[s] in head;
      } else {
        assert rows[s] == rest[s - h] && rest[s - h] in rest;
      }
    }
  }

  /** The rows of one pair follow the order of the hub pairs. */
  lemma {:induction false} PairRowsInOrder(x: (Pair, Pair) -> int, od: Pair, hps: seq<Pair>)
    requires Distinct(hps)
    ensures forall r | r in PairRows(x, od, hps) :: HubPairOf(r) in hps
    ensures forall s, t | 0 <= s < t < |PairRows(x, od, hps)| ::
      IndexOf(hps, HubPairOf(PairRows(x, od, hps)[s])) < IndexOf(hps, HubPairOf(PairRows(x, od, hps)[t]))
  {
    if hps == [] {
      assert PairRows(x, od, hps) == [];
    } else {
      var rest := PairRows(x, od, hps[1..]);
      var head := if x(od, hps[0]) > 0 then [RowFor(od, hps[0], x(od, hps[0]))] else [];
      assert PairRows(x, od, hps) == head + rest;
      DistinctTail(hps);
      PairRowsInOrder(x, od, hps[1..]);
      PairRowsMembership(x, od, hps[1..]);
      PrependInOrder(hps, head, rest);
    }
  }

  /**
   * The rows of the first pair, ordered along the hub pairs, followed by rows in order for the
   * remaining pairs are in order for all the pairs.
   */
  lemma PrependPairInOrder(ods: seq<Pair>, hps: seq<Pair>, head: seq<PlanRow>, rest: seq<PlanRow>)
    requires ods != [] && ods[0] !in ods[1..]
    requires forall r | r in head :: PairOf(r) == ods[0] && HubPairOf(r) in hps
    requires forall s, t | 0 <= s < t < |head| :: IndexOf(hps, HubPairOf(head[s])) < IndexOf(hps, HubPairOf(head[t]))
    requires forall r | r in rest :: PairOf(r) in ods[1..] && HubPairOf(r) in hps
    requires forall s, t | 0 <= s < t < |rest| :: Precedes(ods[1..], hps, rest[s], rest[t])
    ensures forall r | r in head + rest :: PairOf(r) in ods && HubPairOf(r) in hps
    ensures forall s, t | 0 <= s < t < |head + rest| :: Precedes(ods, hps, (head + rest)[s], (head + rest)[t])
  {
    var rows, h := head + rest, |head|;
    forall s, t | 0 <= s < t < |rows| ensures Precedes(ods, hps, rows[s], rows[t]) {
      if t < h {
        assert rows[s] == head[s] && head[s] in head;
        assert rows[t] == head[t] && head[t] in head;
      } else if s < h {
        assert rows[s] == head[s] && head[s] in head;
        assert rows[t] == rest[t - h] && rest[t - h] in rest;
      } else {
        assert rows[s] == rest[s - h] && rest[s - h] in rest;
        assert rows[t] == rest[t - h] && rest[t - h] in rest;
        assert Precedes(ods[1..], hps, rest[s - h], rest[t - h]);
      }
    }
  }

  /** The plan lists rows in pairs-then-hub-pairs order, the order in which the variables are enumerated. */
  lemma {:induction false} PlanInVariableOrder(x: (Pair, Pair) -> int, ods: seq<Pair>, hps: seq<Pair>)
    requires Distinct(ods) && Distinct(hps)
    ensures forall r | r in Plan(x, ods, hps) :: PairOf(r) in ods && HubPairOf(r) in hps
    ensures forall s, t | 0 <= s < t < |Plan(x, ods, hps)| ::
      Precedes(ods, hps, Plan(x, ods, hps)[s], Plan(x, ods, hps)[t])
  {
    if ods == [] {
      assert Plan(x, ods, hps) == [];
    } else {
      DistinctTail(ods);
      PairRowsMembership(x, ods[0], hps);
      PairRowsInOrder(x, ods[0], hps);
      PlanInVariableOrder(x, ods[1..], hps);
      PrependPairInOrder(ods, hps, PairRows(x, ods[0], hps), Plan(x, ods[1..], hps));
    }
  }

  /** The plan of an instance built from a matrix with distinct labels is in variable order. */
  lemma FormulatedPlanInOrder(mx: CostMatrix, p: int, a: Assignment)
    requires mx.Rectangular() && Distinct(mx.nodes) && Distinct(mx.hubs)
    ensures var inst := Formulate(mx, p);
      forall r | r in Plan(a.x, inst.pairs, inst.hubPairs) :: PairOf(r) in inst.pairs && HubPairOf(r) in inst.hubPairs
    ensures var inst := Formulate(mx, p);
      forall s, t | 0 <= s < t < |Plan(a.x, inst.pairs, inst.hubPairs)| ::
        Precedes(inst.pairs, inst.hubPairs, Plan(a.x, inst.pairs, inst.hubPairs)[s], Plan(a.x, inst.pairs, inst.hubPairs)[t])
  {
    OffDiagonalDistinct(mx.nodes);
    OffDiagonalDistinct(mx.hubs);
    PlanInVariableOrder(a.x, OffDiagonal(mx.nodes), OffDiagonal(mx.hubs));
  }
}
