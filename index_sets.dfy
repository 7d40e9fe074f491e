/** The ordered index sets of the hub-location model: node pairs and hub pairs. */
module IndexSets {

  /** A node or hub label (a row or column heading of the cost matrix). */
  type Label = string

  /** An ordered pair of labels: an origin-destination pair, or a (first hub, second hub) pair. */
  type Pair = (Label, Label)

  /** No label occurs twice. */
  predicate Distinct<T(==)>(s: seq<T>)
  {
    forall a, b | 0 <= a < b < |s| :: s[a] != s[b]
  }

  /** The pairs (i, j) for j in ls with i != j, in the order of ls. */
  function Row(i: Label, ls: seq<Label>): (r: seq<Pair>)
    ensures forall q :: q in r <==> q.0 == i && q.1 in ls && q.1 != i
  {
    if ls == [] then []
    else
      assert ls == [ls[0]] + ls[1..];
      (if ls[0] != i then [(i, ls[0])] else []) + Row(i, ls[1..])
  }

  /** The pairs (k, m) for k in ls with k != m, in the order of ls. */
  function Column(m: Label, ls: seq<Label>): (r: seq<Pair>)
    ensures forall q :: q in r <==> q.1 == m && q.0 in ls && q.0 != m
  {
    if ls == [] then []
    else
      assert ls == [ls[0]] + ls[1..];
      (if ls[0] != m then [(ls[0], m)] else []) + Column(m, ls[1..])
  }

  /** The pairs (i, j) for i in origins for j in ls with i != j, rows in the order of origins. */
  function Grid(origins: seq<Label>, ls: seq<Label>): (r: seq<Pair>)
    ensures forall q :: q in r <==> q.0 in origins && q.1 in ls && q.0 != q.1
  {
    if origins == [] then []
    else
      assert origins == [origins[0]] + origins[1..];
      Row(origins[0], ls) + Grid(origins[1..], ls)
  }

  /** All ordered pairs of two different labels of ls: `pairs` for the nodes, `hub_pairs` for the hubs. */
  function OffDiagonal(ls: seq<Label>): (r: seq<Pair>)
    ensures forall q :: q in r <==> q.0 in ls && q.1 in ls && q.0 != q.1
  {
    Grid(ls, ls)
  }

  /** With distinct labels, a row has one entry per other label. */
  lemma {:induction false} RowLength(i: Label, ls: seq<Label>)
    requires Distinct(ls)
    ensures |Row(i, ls)| == if i in ls then |ls| - 1 else |ls|
  {
    if ls != [] {
      assert ls == [ls[0]] + ls[1..];
      DistinctTail(ls);
      RowLength(i, ls[1..]);
    }
  }

  /** With distinct labels, a grid over labels of ls has |ls| - 1 entries per row. */
  lemma {:induction false} GridLength(origins: seq<Label>, ls: seq<Label>)
    requires Distinct(ls)
    requires forall i | i in origins :: i in ls
    ensures |Grid(origins, ls)| == |origins| * (|ls| - 1)
  {
    if origins != [] {
      var n, w := |origins| - 1, |ls| - 1;
      assert |Grid(origins, ls)| == w + n * w by {
        assert origins[0] in ls;
        RowLength(origins[0], ls);
        assert forall t | 0 <= t < |origins[1..]| :: origins[1..][t] == origins[t + 1];
        GridLength(origins[1..], ls);
      }
      MulSucc(n, w);
    }
  }

  /**
   * One more row of width w adds w entries. Kept as its own lemma so that the nonlinear step
   * is proved apart from GridLength's sequence facts, which make it too costly inline.
   */
  lemma MulSucc(n: int, w: int)
    ensures (n + 1) * w == n * w + w
  {
  }

  /** n distinct labels give n * (n - 1) ordered pairs. */
  lemma OffDiagonalLength(ls: seq<Label>)
    requires Distinct(ls)
    ensures |OffDiagonal(ls)| == |ls| * (|ls| - 1)
  {
    GridLength(ls, ls);
  }

  /** The position of the first occurrence of v in s. */
  function IndexOf<T(==)>(s: seq<T>, v: T): (n: nat)
    requires v in s
    ensures n < |s| && s[n] == v
  {
    if s[0] == v then 0
    else
      assert s == [s[0]] + s[1..];
      1 + IndexOf(s[1..], v)
  }

  /** Joining two duplicate-free, disjoint sequences gives a duplicate-free sequence. */
  lemma DistinctConcat<T>(a: seq<T>, b: seq<T>)
    requires Distinct(a) && Distinct(b)
    requires forall v | v in a :: v !in b
    ensures Distinct(a + b)
  {
    forall s, t | 0 <= s < t < |a + b| ensures (a + b)[s] != (a + b)[t] {
      if t < |a| {
      } else if s < |a| {
        assert a[s] in a && (a + b)[t] == b[t - |a|];
      } else {
        assert (a + b)[s] == b[s - |a|] && (a + b)[t] == b[t - |a|];
      }
    }
  }

  /** Dropping the first element keeps a sequence duplicate-free, and the first element does not recur. */
  lemma DistinctTail<T>(s: seq<T>)
    requires Distinct(s) && s != []
    ensures Distinct(s[1..]) && s[0] !in s[1..]
  {
    forall a, b | 0 <= a < b < |s[1..]| ensures s[1..][a] != s[1..][b] {
      assert s[1..][a] == s[a + 1] && s[1..][b] == s[b + 1];
    }
    forall t | 0 <= t < |s[1..]| ensures s[1..][t] != s[0] {
      assert s[1..][t] == s[t + 1];
    }
  }

  /** With distinct labels, a row repeats no pair. */
  lemma {:induction false} RowDistinct(i: Label, ls: seq<Label>)
    requires Distinct(ls)
    ensures Distinct(Row(i, ls))
  {
    if ls != [] {
      DistinctTail(ls);
      RowDistinct(i, ls[1..]);
      var head := if ls[0] != i then [(i, ls[0])] else [];
      DistinctConcat(head, Row(i, ls[1..]));
    }
  }

  /** With distinct row and column labels, a grid repeats no pair. */
  lemma {:induction false} GridDistinct(origins: seq<Label>, ls: seq<Label>)
    requires Distinct(origins) && Distinct(ls)
    ensures Distinct(Grid(origins, ls))
  {
    if origins != [] {
      DistinctTail(origins);
      RowDistinct(origins[0], ls);
      GridDistinct(origins[1..], ls);
      DistinctConcat(Row(origins[0], ls), Grid(origins[1..], ls));
    }
  }

  /** With distinct labels, no ordered pair occurs twice in `pairs` or in `hub_pairs`. */
  lemma OffDiagonalDistinct(ls: seq<Label>)
    requires Distinct(ls)
    ensures Distinct(OffDiagonal(ls))
  {
    GridDistinct(ls, ls);
  }
}
