# Multiple-allocation hub location: problem formulation

This project models the formulation part of `multi_hub_app.py`, a hub-location app.
A node-by-hub cost matrix goes in. The app derives these things from it:

- the ordered origin-destination pairs `pairs` and the ordered hub pairs `hub_pairs`;
- a combined route-cost table `c(i, k, m, j) = base[i, k] + base[j, m]`;
- a binary program with route indicators `x[(i, j), (k, m)]` and hub indicators `y[k]`, a cost-minimising objective, and four constraint families: exactly `p` hubs open, one hub pair per origin-destination pair, and two flow constraints;
- after the solve, an allocation plan listing the routes whose indicator is positive.

The external solver is not modelled. The model states what a feasible assignment satisfies, what it costs, and what the extracted plan contains.

Modules, one per part of the recipe:

- `IndexSets` (`index_sets.dfy`): the `pairs` / `hub_pairs` comprehensions (`Row`, `Grid`, `OffDiagonal`) and the per-hub domains the flow constraints sum over (`Row`, `Column`).
- `CostTable` (`cost_table.dfy`): the cost matrix, and the combined-cost dictionary. The dictionary is built in place by the four nested loops (`BuildCostTable`), and that method is proved equal to the table as a whole (`CombinedCost`).
- `Formulation` (`formulation.dfy`): the objective and the constraint rules as functions and predicates over an `Assignment`, plus the lemmas that follow from them.
- `AllocationPlan` (`allocation_plan.dfy`): the `value > 0` filter that produces the plan, and its link back to the objective.

Every hub pair in `hub_pairs` has two different hubs (`multi_hub_app.py:33`). The two flow constraints force both hubs of a chosen route open (lines 82-91). So with `p < 2` and at least one origin-destination pair, no assignment is feasible (`Formulation.FewerThanTwoHubsInfeasible`). This agrees with the slider's minimum of 2 (line 47).

## Model

| member | source | states |
|---|---|---|
| `IndexSets.Row` | Multi_Allocation_Hub_Location_Problem/multi_hub_app.py:32-33 | the pairs generated for one first label are exactly `(i, j)` with `j` a label and `j != i` |
| `IndexSets.Column` | Multi_Allocation_Hub_Location_Problem/multi_hub_app.py:88-89 | the hub pairs `flow_constraint_b` sums over for hub `m` are exactly `(k, m)` with `k` a hub and `k != m` |
| `IndexSets.Grid` | Multi_Allocation_Hub_Location_Problem/multi_hub_app.py:32-33 | the nested comprehension yields exactly the pairs whose first label comes from the outer list, second from the inner list, and the two differ |
| `IndexSets.OffDiagonal` | Multi_Allocation_Hub_Location_Problem/multi_hub_app.py:32-33 | `pairs` (resp. `hub_pairs`) contains exactly the ordered pairs of two different nodes (resp. hubs); no diagonal pair |
| `IndexSets.OffDiagonalLength` | Multi_Allocation_Hub_Location_Problem/multi_hub_app.py:32-33 | with `n` distinct labels there are `n * (n - 1)` ordered pairs |
| `IndexSets.OffDiagonalDistinct` | Multi_Allocation_Hub_Location_Problem/multi_hub_app.py:53-54 | with distinct labels no pair repeats, so the lists lose nothing when turned into the model's sets |
| `CostTable.RouteKeys` | Multi_Allocation_Hub_Location_Problem/multi_hub_app.py:35-40 | the keys the loops visit are exactly `(i, k, m, j)` with nodes `i != j` and hubs `k != m` |
| `CostTable.CombinedCost` | Multi_Allocation_Hub_Location_Problem/multi_hub_app.py:35-41 | the table's keys are exactly the keys the loops visit, and each entry is the price of its route, `base[i, k] + base[j, m]` |
| `CostTable.CombinedCostOverPairs` | Multi_Allocation_Hub_Location_Problem/multi_hub_app.py:32-41 | a key is in the table iff `(i, j)` is in `pairs` and `(k, m)` is in `hub_pairs`; routing pair `od` over hub pair `hp` costs the origin at the first hub plus the destination at the second hub |
| `CostTable.AddRoutes` | Multi_Allocation_Hub_Location_Problem/multi_hub_app.py:38-41 | the two hub loops for one origin-destination pair add exactly the keys `(i, k, m, j)` with hubs `k != m`, keep every other key, and every entry stays priced as `base[i, k] + base[j, m]` |
| `CostTable.BuildCostTable` | Multi_Allocation_Hub_Location_Problem/multi_hub_app.py:29-41 | the four nested loops fill the dictionary with exactly the combined-cost table, no key more or less |
| `Formulation.Formulate` | Multi_Allocation_Hub_Location_Problem/multi_hub_app.py:29-33 | the instance's `pairs` are exactly the ordered pairs of two different nodes, its `hub_pairs` exactly the ordered pairs of two different hubs, its hubs are the matrix columns and `p` is the chosen hub count |
| `Formulation.Objective` | Multi_Allocation_Hub_Location_Problem/multi_hub_app.py:62-64 | `objective_rule`'s sum of cost times `x` over pairs and then hub pairs; it is 0 when no route is used and never negative for non-negative costs and indicators |
| `Formulation.TotalCostSign` | Multi_Allocation_Hub_Location_Problem/multi_hub_app.py:62-64 | the double sum is 0 when every `x` is 0, and non-negative when every cost and every `x` is |
| `Formulation.Binary` | Multi_Allocation_Hub_Location_Problem/multi_hub_app.py:58-59 | definition: every `x` and every `y` is 0 or 1, the `Binary` domain of both variables |
| `Formulation.TotalHubsConstraint` | Multi_Allocation_Hub_Location_Problem/multi_hub_app.py:70-71 | definition: the `y` values sum to `p`; its meaning is proved in `TotalHubsMeansPOpen` |
| `Formulation.AllocationConstraint` | Multi_Allocation_Hub_Location_Problem/multi_hub_app.py:76-77 | definition: a pair's `x` values over `hub_pairs` sum to 1; its meaning is proved in `ExactlyOneHubPair` and `AllocationMeansOneRoute` |
| `Formulation.FlowConstraintA` | Multi_Allocation_Hub_Location_Problem/multi_hub_app.py:82-83 | definition: a pair's `x` values over hub pairs `(k, m)` with `m != k` sum to at most `y[k]`; its use is proved in `RouteUsesOpenHubs` |
| `Formulation.FlowConstraintB` | Multi_Allocation_Hub_Location_Problem/multi_hub_app.py:88-89 | definition: a pair's `x` values over hub pairs `(k, m)` with `k != m` sum to at most `y[m]`; its use is proved in `RouteUsesOpenHubs` |
| `Formulation.Feasible` | Multi_Allocation_Hub_Location_Problem/multi_hub_app.py:58-91 | definition: binary values and every constraint instance the model declares (one total, one allocation per pair, one of each flow constraint per pair and hub) |
| `Formulation.FormulateCovers` | Multi_Allocation_Hub_Location_Problem/multi_hub_app.py:62-64 | every `(pair, hub pair)` term of the objective finds its key in the cost table |
| `Formulation.ExactlyOneHubPair` | Multi_Allocation_Hub_Location_Problem/multi_hub_app.py:76-79 | under binary values, `allocation_constraint` for a pair implies that exactly one hub pair has `x = 1` for it |
| `Formulation.AllocationMeansOneRoute` | Multi_Allocation_Hub_Location_Problem/multi_hub_app.py:76-79 | under binary values and duplicate-free hub pairs (which `OffDiagonalDistinct` gives for distinct hubs), `allocation_constraint` holds if and only if exactly one hub pair has `x = 1` |
| `Formulation.RouteUsesOpenHubs` | Multi_Allocation_Hub_Location_Problem/multi_hub_app.py:82-91 | with binary values, if a route has `x = 1` and `flow_constraint_a` holds for its first hub and `flow_constraint_b` for its second hub, both hubs are open (`y = 1`) |
| `Formulation.HubSumCountsOpenHubs` | Multi_Allocation_Hub_Location_Problem/multi_hub_app.py:70-71 | with binary `y` the hub sum equals the number of open hubs, which is at most the number of hubs |
| `Formulation.TotalHubsMeansPOpen` | Multi_Allocation_Hub_Location_Problem/multi_hub_app.py:70-73 | with binary `y`, `total_hubs_constraint` holds exactly when the number of hubs with `y = 1` is `p` |
| `Formulation.FeasibleOpensTwoHubs` | Multi_Allocation_Hub_Location_Problem/multi_hub_app.py:70-91 | a feasible assignment with at least one origin-destination pair opens two different hubs, so `2 <= p <= len(hubs)`, the slider's range |
| `Formulation.FewerThanTwoHubsInfeasible` | Multi_Allocation_Hub_Location_Problem/multi_hub_app.py:70-91 | with at least one origin-destination pair and `p < 2`, no assignment is feasible |
| `AllocationPlan.PairRows` | Multi_Allocation_Hub_Location_Problem/multi_hub_app.py:106 | the inner generator and filter for one pair; it yields at most one row per hub pair |
| `AllocationPlan.Plan` | Multi_Allocation_Hub_Location_Problem/multi_hub_app.py:105-108 | the full generator and filter; it yields at most `len(pairs) * len(hub_pairs)` rows |
| `AllocationPlan.PairRowsMembership` | Multi_Allocation_Hub_Location_Problem/multi_hub_app.py:106 | one pair's plan rows are exactly its hub pairs with value `> 0`, each row carrying that value |
| `AllocationPlan.PlanMembership` | Multi_Allocation_Hub_Location_Problem/multi_hub_app.py:105-108 | a row is in the plan iff its `(pair, hub pair)` is declared and its value is `> 0`, and the row's allocation is that value |
| `AllocationPlan.PairRowsInOrder` | Multi_Allocation_Hub_Location_Problem/multi_hub_app.py:106 | with duplicate-free hub pairs, one pair's rows follow the order of `hub_pairs` |
| `AllocationPlan.PlanInVariableOrder` | Multi_Allocation_Hub_Location_Problem/multi_hub_app.py:106 | with duplicate-free pairs and hub pairs, the rows appear in pairs-then-hub-pairs order |
| `AllocationPlan.FormulatedPlanInOrder` | Multi_Allocation_Hub_Location_Problem/multi_hub_app.py:105-108 | for distinct node and hub labels, the plan of the formulated model is in pairs-then-hub-pairs order |
| `AllocationPlan.PlanReproducesObjective` | Multi_Allocation_Hub_Location_Problem/multi_hub_app.py:62-64 | for non-negative values, pricing the plan's allocations with the cost table gives back the objective value |
| `AllocationPlan.FeasiblePlanOneRowPerPair` | Multi_Allocation_Hub_Location_Problem/multi_hub_app.py:76-108 | a feasible assignment's plan has exactly one row per pair, in the pairs' order; row `t` is pair `t`, allocation 1, over a hub pair with `x = 1` |
| `AllocationPlan.FeasibleObjectiveIsRoutingCost` | Multi_Allocation_Hub_Location_Problem/multi_hub_app.py:62-79 | the objective of a feasible assignment is the sum, over pairs, of the cost of the single route chosen for each |

## Left out

- The web front end (title, file upload, editable grid, slider, button, result display): presentation only. The slider's bounds appear only as the range that `Formulation.FeasibleOpensTwoHubs` proves for `p`.
- Reading the Excel file and indexing the frame by its first column: file I/O. The model takes the cost matrix as node labels, hub labels and a map from `(node, hub)` to cost. It requires only that every cell has a value.
- The modelling library's object construction (sets, variables, objective and constraint objects): only the meaning of the rule functions is modelled. Variable values are total functions `x` and `y`, since every declared variable has a value after a solve.
- The solver call and any claim of optimality: it is an external binary. The model states feasibility of, and facts about, a given assignment.
- Floating-point costs and solver values: costs and values are exact integers.
- Duplicate labels: the code also builds the model's sets from the `pairs`/`hub_pairs` lists, and sets drop repeats. The model sums over the lists. Under distinct labels, which `IndexSets.OffDiagonalDistinct` covers, the two are the same.
- The production and shipping allocation scripts and their sensitivity sweep: they are not part of this model.
