/** The node-by-hub cost matrix and the combined route-cost table c(i, k, m, j) derived from it. */
module CostTable {
  import opened IndexSets

  /** A key (i, k, m, j): origin i, first hub k, second hub m, destination j. */
  type CostKey = (Label, Label, Label, Label)

  /** The cost matrix: row labels are the nodes, column labels the hubs, base[(i, k)] the cell. */
  datatype CostMatrix = CostMatrix(nodes: seq<Label>, hubs: seq<Label>, base: map<(Label, Label), int>)
  {
    /** Every (node, hub) cell has a value, as in a rectangular table. */
    predicate Rectangular()
    {
      forall i, k | i in nodes && k in hubs :: (i, k) in base
    }
  }

  /** The cost-table key of routing the origin-destination pair `od` over the hub pair `hp`. */
  function KeyOf(od: Pair, hp: Pair): CostKey
  {
    (od.0, hp.0, hp.1, od.1)
  }

  /** The key lies in the block origins x firsts x seconds x dests, off the node and the hub diagonal. */
  predicate InBlock(key: CostKey, origins: seq<Label>, dests: seq<Label>, firsts: seq<Label>, seconds: seq<Label>)
  {
    key.0 in origins && key.3 in dests && key.0 != key.3 && key.1 in firsts && key.2 in seconds && key.1 != key.2
  }

  /** The price of a route key: the origin's cost at the first hub plus the destination's cost at the second hub. */
  function RoutePrice(mx: CostMatrix, key: CostKey): int
    requires mx.Rectangular() && InBlock(key, mx.nodes, mx.nodes, mx.hubs, mx.hubs)
  {
    mx.base[(key.0, key.1)] + mx.base[(key.3, key.2)]
  }

  /** Every entry of the table is a route over the matrix, priced by RoutePrice. */
  ghost predicate Priced(mx: CostMatrix, cost: map<CostKey, int>)
    requires mx.Rectangular()
  {
    forall key | key in cost ::
      InBlock(key, mx.nodes, mx.nodes, mx.hubs, mx.hubs) && cost[key] == RoutePrice(mx, key)
  }

  /** The keys (i, k, m, j) of the table: i != j nodes, k != m hubs. */
  function RouteKeys(mx: CostMatrix): (keys: set<CostKey>)
    ensures forall key :: key in keys <==> InBlock(key, mx.nodes, mx.nodes, mx.hubs, mx.hubs)
  {
    set i, k, m, j | i in mx.nodes && j in mx.nodes && i != j && k in mx.hubs && m in mx.hubs && k != m :: (i, k, m, j)
  }

  /** The combined-cost table as a whole: every route key, priced by RoutePrice. */
  function CombinedCost(mx: CostMatrix): (cost: map<CostKey, int>)
    requires mx.Rectangular()
    ensures cost.Keys == RouteKeys(mx)
    ensures Priced(mx, cost)
  {
    map key | key in RouteKeys(mx) :: RoutePrice(mx, key)
  }

  /**
   * The table has exactly one entry per origin-destination pair and hub pair, none on either
   * diagonal, and routing a pair over a hub pair charges the origin at the first hub and the
   * destination at the second hub.
   */
  lemma CombinedCostOverPairs(mx: CostMatrix)
    requires mx.Rectangular()
    ensures forall key :: key in CombinedCost(mx) <==>
      (key.0, key.3) in OffDiagonal(mx.nodes) && (key.1, key.2) in OffDiagonal(mx.hubs)
    ensures forall od, hp | od in OffDiagonal(mx.nodes) && hp in OffDiagonal(mx.hubs) ::
      KeyOf(od, hp) in CombinedCost(mx) &&
      CombinedCost(mx)[KeyOf(od, hp)] == mx.base[(od.0, hp.0)] + mx.base[(od.1, hp.1)]
  {
  }

  /** A table with the right keys, every entry priced by RoutePrice, is the combined-cost table. */
  lemma PricedIsCombinedCost(mx: CostMatrix, cost: map<CostKey, int>)
    requires mx.Rectangular() && Priced(mx, cost)
    requires forall key :: key in cost <==> InBlock(key, mx.nodes, mx.nodes, mx.hubs, mx.hubs)
    ensures cost == CombinedCost(mx)
  {
    var table := CombinedCost(mx);
    assert cost.Keys == table.Keys by {
      assert table.Keys == RouteKeys(mx);
    }
    forall key | key in cost ensures cost[key] == table[key] {
      assert key in table.Keys;
    }
  }

  /**
   * The two inner loops for origin i and destination j: adds the entry of every hub pair
   * (k, m) with k != m, leaving the other entries as they were.
   */
  method AddRoutes(mx: CostMatrix, cost: map<CostKey, int>, i: Label, j: Label) returns (cost': map<CostKey, int>)
    requires mx.Rectangular() && i in mx.nodes && j in mx.nodes && i != j
    requires Priced(mx, cost)
    ensures Priced(mx, cost')
    ensures forall key :: key in cost' <==> key in cost || InBlock(key, [i], [j], mx.hubs, mx.hubs)
  {
    var hubs := mx.hubs;
    cost' := cost;
    var c := 0;
    while c < |hubs|
      invariant 0 <= c <= |hubs|
      invariant Priced(mx, cost')
      invariant forall key :: key in cost' <==> key in cost || InBlock(key, [i], [j], hubs[..c], hubs)
    {
      var k := hubs[c];
      var d := 0;
      while d < |hubs|
        invariant 0 <= d <= |hubs|
        invariant Priced(mx, cost')
        invariant forall key :: key in cost' <==>
          key in cost || InBlock(key, [i], [j], hubs[..c], hubs) || InBlock(key, [i], [j], [k], hubs[..d])
      {
        var m := hubs[d];
        if k != m {
          cost' := cost'[(i, k, m, j) := mx.base[(i, k)] + mx.base[(j, m)]];
        }
        assert hubs[..d + 1] == hubs[..d] + [m];
        d := d + 1;
      }
      assert hubs[..d] == hubs;
      assert hubs[..c + 1] == hubs[..c] + [k];
      c := c + 1;
    }
    assert hubs[..c] == hubs;
  }

  /** Fills the table: two loops over the nodes, the hub loops of AddRoutes inside. */
  method BuildCostTable(mx: CostMatrix) returns (cost: map<CostKey, int>)
    requires mx.Rectangular()
    ensures cost == CombinedCost(mx)
  {
    var nodes := mx.nodes;
    cost := map[];
    var a := 0;
    while a < |nodes|
      invariant 0 <= a <= |nodes|
      invariant Priced(mx, cost)
      invariant forall key :: key in cost <==> InBlock(key, nodes[..a], nodes, mx.hubs, mx.hubs)
    {
      var i := nodes[a];
      var b := 0;
      while b < |nodes|
        invariant 0 <= b <= |nodes|
        invariant Priced(mx, cost)
        invariant forall key :: key in cost <==>
          InBlock(key, nodes[..a], nodes, mx.hubs, mx.hubs) || InBlock(key, [i], nodes[..b], mx.hubs, mx.hubs)
      {
        var j := nodes[b];
        if i != j {
          cost := AddRoutes(mx, cost, i, j);
        }
        assert nodes[..b + 1] == nodes[..b] + [j];
        b := b + 1;
      }
      assert nodes[..b] == nodes;
      assert nodes[..a + 1] == nodes[..a] + [i];
      a := a + 1;
    }
    assert nodes[..a] == nodes;
    PricedIsCombinedCost(mx, cost);
  }
}
