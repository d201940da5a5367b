/** The closed-tour optimiser: from the knight's tile, visit every reachable
    coin and come back, at least total cost. Pairwise shortest paths fill a
    cost matrix, a subset dynamic program (Held and Karp) over bit masks picks
    the visiting order, and the cached paths are stitched into one walk. */
module ShortestRoute {
  import opened Tiles
  import opened Routes
  import opened PathFinder
  import opened Bits

  /** A cost or positive infinity, with the arithmetic the doubles give them. */
  datatype Ext = Fin(value: real) | Inf

  /** `a + b`: infinite when either side is. */
  function Plus(a: Ext, b: Ext): (r: Ext)
    ensures r.Fin? <==> a.Fin? && b.Fin?
    ensures r.Fin? ==> r.value == a.value + b.value
  {
    if a.Fin? && b.Fin? then Fin(a.value + b.value) else Inf
  }

  /** `a < b`: nothing is below infinity's own value, and infinity is below
      nothing. */
  predicate Below(a: Ext, b: Ext)
  {
    a.Fin? && (b.Inf? || a.value < b.value)
  }

  /** The objectives, in order, that differ from `start` and can be reached
      from it: those whose search result from `start` is non-empty. */
  ghost function Reachable(g: Graph, costs: CostTable, start: Cell, objectives: seq<Cell>): (r: seq<Cell>)
    ensures |r| <= |objectives|
    ensures forall o :: o in r <==> o in objectives && o != start && Connected(g, costs, start, o)
  {
    if objectives == [] then []
    else
      var o := objectives[|objectives| - 1];
      Reachable(g, costs, start, objectives[..|objectives| - 1])
      + (if o != start && Connected(g, costs, start, o) then [o] else [])
  }

  /** The reachability filter: keeps, in order, each objective for which the
      search from `start` returns a non-empty path. */
  method FilterReachable(g: Graph, costs: CostTable, start: Cell, objectives: seq<Cell>)
    returns (reachableObjectives: seq<Cell>)
    ensures reachableObjectives == Reachable(g, costs, start, objectives)
  {
    reachableObjectives := [];
    for k := 0 to |objectives|
      invariant reachableObjectives == Reachable(g, costs, start, objectives[..k])
    {
      var objective := objectives[k];
      var testPath := Algorithm(g, costs, start, objective);
      if testPath != [] {
        reachableObjectives := reachableObjectives + [objective];
      }
      assert objectives[..k + 1][..k] == objectives[..k];
    }
    assert objectives[..|objectives|] == objectives;
  }

  /** What cell (a, b) of the cost matrix and the path cache hold once that
      pair has been searched: 0 on the diagonal; otherwise a cached least-cost
      route and its cost when the search found one, and infinity when the
      tiles are the same or no route joins them. */
  ghost predicate EntryOk(g: Graph, costs: CostTable, tiles: seq<Cell>, a: int, b: int, c: Ext,
                          pathMatrix: map<(int, int), seq<Cell>>)
    requires 0 <= a < |tiles| && 0 <= b < |tiles|
  {
    if a == b then c == Fin(0.0) && (a, b) !in pathMatrix
    else if (a, b) in pathMatrix then
      && tiles[a] != tiles[b]
      && IsRoute(g, costs, pathMatrix[(a, b)], tiles[a], tiles[b])
      && c == Fin(PathCost(costs, pathMatrix[(a, b)]))
      && IsLowerBound(g, costs, tiles[a], tiles[b], c.value)
    else
      c == Inf && (tiles[a] == tiles[b] || !Connected(g, costs, tiles[a], tiles[b]))
  }

  /** Cost matrix and path cache are filled for every pair, and the cache
      has no other keys. */
  ghost predicate MatrixOk(g: Graph, costs: CostTable, tiles: seq<Cell>, cm: seq<seq<Ext>>,
                           pathMatrix: map<(int, int), seq<Cell>>)
  {
    && |cm| == |tiles| && (forall a :: 0 <= a < |tiles| ==> |cm[a]| == |tiles|)
    && (forall a, b :: 0 <= a < |tiles| && 0 <= b < |tiles| ==>
          EntryOk(g, costs, tiles, a, b, cm[a][b], pathMatrix))
    && (forall key :: key in pathMatrix ==> 0 <= key.0 < |tiles| && 0 <= key.1 < |tiles|)
  }

  /** The two-dimensional array `a` holds the rows `v`, cell for cell. */
  ghost predicate Holds<T>(a: array2<T>, v: seq<seq<T>>)
    reads a
  {
    && |v| == a.Length0 && (forall i :: 0 <= i < |v| ==> |v[i]| == a.Length1)
    && forall i, j :: 0 <= i < a.Length0 && 0 <= j < a.Length1 ==> a[i, j] == v[i][j]
  }

  /** `a[i][j] = x`, with the ghost rows following along. */
  method Store<T>(a: array2<T>, ghost v0: seq<seq<T>>, i: nat, j: nat, x: T) returns (ghost v: seq<seq<T>>)
    requires Holds(a, v0) && i < a.Length0 && j < a.Length1
    modifies a
    ensures v == v0[i := v0[i][j := x]]
    ensures Holds(a, v)
  {
    a[i, j] := x;
    v := v0[i := v0[i][j := x]];
  }

  lemma Read<T>(a: array2<T>, v: seq<seq<T>>, i: nat, j: nat)
    requires Holds(a, v) && i < a.Length0 && j < a.Length1
    ensures i < |v| && j < |v[i]| && a[i, j] == v[i][j]
  {
  }

  /** The pairwise searches: cell (i, j), i != j, gets the cost of the path
      found from tile i to tile j, which is cached under (i, j), or infinity
      when the path is empty; the diagonal keeps its initial 0. */
  method FillMatrices(g: Graph, costs: CostTable, allTiles: seq<Cell>)
    returns (costMatrix: array2<Ext>, pathMatrix: map<(int, int), seq<Cell>>, ghost cm: seq<seq<Ext>>)
    ensures fresh(costMatrix) && Holds(costMatrix, cm)
    ensures costMatrix.Length0 == |allTiles| && costMatrix.Length1 == |allTiles|
    ensures MatrixOk(g, costs, allTiles, cm, pathMatrix)
  {
    var n := |allTiles|;
    costMatrix := new Ext[n, n]((i, j) => Fin(0.0));
    pathMatrix := map[];
    cm := seq(n, _ => seq(n, _ => Fin(0.0)));
    assert Holds(costMatrix, cm);
    FilledNone(g, costs, allTiles, cm, pathMatrix);
    hide Holds, FilledUpTo;
    for i := 0 to n
      invariant Holds(costMatrix, cm)
      invariant FilledUpTo(g, costs, allTiles, cm, pathMatrix, i, 0)
    {
      cm, pathMatrix := FillRow(g, costs, allTiles, costMatrix, cm, pathMatrix, i);
    }
    FilledAll(g, costs, allTiles, cm, pathMatrix);
  }

  /** Row i of the pairwise searches. */
  method FillRow(g: Graph, costs: CostTable, allTiles: seq<Cell>, costMatrix: array2<Ext>,
                 ghost cm0: seq<seq<Ext>>, pathMatrix0: map<(int, int), seq<Cell>>, i: int)
    returns (ghost cm: seq<seq<Ext>>, pathMatrix: map<(int, int), seq<Cell>>)
    requires 0 <= i < |allTiles| && costMatrix.Length0 == |allTiles| && costMatrix.Length1 == |allTiles|
    requires Holds(costMatrix, cm0)
    requires FilledUpTo(g, costs, allTiles, cm0, pathMatrix0, i, 0)
    modifies costMatrix
    ensures Holds(costMatrix, cm)
    ensures FilledUpTo(g, costs, allTiles, cm, pathMatrix, i + 1, 0)
  {
    var n := |allTiles|;
    cm, pathMatrix := cm0, pathMatrix0;
    hide Holds, FilledUpTo, IsRoute, IsLowerBound, Connected;
    for j := 0 to n
      invariant Holds(costMatrix, cm)
      invariant FilledUpTo(g, costs, allTiles, cm, pathMatrix, i, j)
    {
      if i == j {
        FillDiagonal(g, costs, allTiles, cm, pathMatrix, i);
        continue;
      }
      var c, path := SearchPair(g, costs, allTiles[i], allTiles[j]);
      FillEntry(g, costs, allTiles, cm, pathMatrix, i, j, path, c);
      cm := Store(costMatrix, cm, i, j, c);
      if path != [] {
        pathMatrix := pathMatrix[(i, j) := path];
      }
    }
    FilledRow(g, costs, allTiles, cm, pathMatrix, i);
  }

  /** One pairwise search: the path found from `a` to `b` and its cost, or
      infinity when the path is empty. */
  method SearchPair(g: Graph, costs: CostTable, a: Cell, b: Cell) returns (c: Ext, path: seq<Cell>)
    ensures path == [] <==> (a == b || !Connected(g, costs, a, b))
    ensures path != [] ==> IsRoute(g, costs, path, a, b) && IsLowerBound(g, costs, a, b, PathCost(costs, path))
    ensures c == if path == [] then Inf else Fin(PathCost(costs, path))
  {
    path := Algorithm(g, costs, a, b);
    if path == [] {
      c := Inf;
    } else {
      var total := FindTotalCost(costs, path);
      c := Fin(total);
    }
  }

  /** The pairs before (i, j) in row-major order are filled; the others still
      hold 0 and have no cached path. */
  ghost predicate FilledUpTo(g: Graph, costs: CostTable, tiles: seq<Cell>, cm: seq<seq<Ext>>,
                             pathMatrix: map<(int, int), seq<Cell>>, i: int, j: int)
  {
    && |cm| == |tiles| && (forall a :: 0 <= a < |tiles| ==> |cm[a]| == |tiles|)
    && (forall a, b :: 0 <= a < |tiles| && 0 <= b < |tiles| && (a < i || (a == i && b < j)) ==>
          EntryOk(g, costs, tiles, a, b, cm[a][b], pathMatrix))
    && (forall a, b :: 0 <= a < |tiles| && 0 <= b < |tiles| && !(a < i || (a == i && b < j)) ==>
          cm[a][b] == Fin(0.0) && (a, b) !in pathMatrix)
    && (forall key :: key in pathMatrix ==> 0 <= key.0 < |tiles| && 0 <= key.1 < |tiles|)
  }

  lemma FilledNone(g: Graph, costs: CostTable, tiles: seq<Cell>, cm: seq<seq<Ext>>,
                   pathMatrix: map<(int, int), seq<Cell>>)
    requires cm == seq(|tiles|, _ => seq(|tiles|, _ => Fin(0.0)))
    requires pathMatrix == map[]
    ensures FilledUpTo(g, costs, tiles, cm, pathMatrix, 0, 0)
  {
  }

  lemma FillDiagonal(g: Graph, costs: CostTable, tiles: seq<Cell>, cm: seq<seq<Ext>>,
                     pathMatrix: map<(int, int), seq<Cell>>, i: int)
    requires 0 <= i < |tiles| && FilledUpTo(g, costs, tiles, cm, pathMatrix, i, i)
    ensures FilledUpTo(g, costs, tiles, cm, pathMatrix, i, i + 1)
  {
  }

  /** Recording the search result for the off-diagonal pair (i, j). */
  lemma FillEntry(g: Graph, costs: CostTable, tiles: seq<Cell>, cm: seq<seq<Ext>>,
                  pathMatrix: map<(int, int), seq<Cell>>, i: int, j: int, path: seq<Cell>, c: Ext)
    requires 0 <= i < |tiles| && 0 <= j < |tiles| && i != j
    requires FilledUpTo(g, costs, tiles, cm, pathMatrix, i, j)
    requires path == [] <==> (tiles[i] == tiles[j] || !Connected(g, costs, tiles[i], tiles[j]))
    requires path != [] ==> IsRoute(g, costs, path, tiles[i], tiles[j])
    requires path != [] ==> IsLowerBound(g, costs, tiles[i], tiles[j], PathCost(costs, path))
    requires c == if path == [] then Inf else Fin(PathCost(costs, path))
    ensures |cm| == |tiles| && |cm[i]| == |tiles|
    ensures path == [] ==> FilledUpTo(g, costs, tiles, cm[i := cm[i][j := c]], pathMatrix, i, j + 1)
    ensures path != [] ==> FilledUpTo(g, costs, tiles, cm[i := cm[i][j := c]], pathMatrix[(i, j) := path], i, j + 1)
  {
  }

  lemma FilledRow(g: Graph, costs: CostTable, tiles: seq<Cell>, cm: seq<seq<Ext>>,
                  pathMatrix: map<(int, int), seq<Cell>>, i: int)
    requires FilledUpTo(g, costs, tiles, cm, pathMatrix, i, |tiles|)
    ensures FilledUpTo(g, costs, tiles, cm, pathMatrix, i + 1, 0)
  {
  }

  lemma FilledAll(g: Graph, costs: CostTable, tiles: seq<Cell>, cm: seq<seq<Ext>>,
                  pathMatrix: map<(int, int), seq<Cell>>)
    requires FilledUpTo(g, costs, tiles, cm, pathMatrix, |tiles|, 0)
    ensures MatrixOk(g, costs, tiles, cm, pathMatrix)
  {
  }

  // The subset table. Masks are sets of tile indices, index 0 being the
  // knight's tile; entry (i, s) is the least cost found of a walk that starts
  // at tile 0, visits exactly the tiles of s, and ends at tile i.

  /** `a <= b` on costs with infinity. */
  predicate AtMost(a: Ext, b: Ext)
  {
    b.Inf? || (a.Fin? && a.value <= b.value)
  }

  ghost predicate Rect<T>(v: seq<seq<T>>, rows: nat, cols: nat)
  {
    |v| == rows && forall i :: 0 <= i < rows ==> |v[i]| == cols
  }

  /** Entry (a, b) of the cost matrix; infinity outside it. */
  function Cost(C: seq<seq<Ext>>, a: int, b: int): Ext
  {
    if 0 <= a < |C| && 0 <= b < |C[a]| then C[a][b] else Inf
  }

  /** Entry (i, s) of the table; infinity outside it. */
  function Best(D: seq<seq<Ext>>, i: int, s: int): Ext
  {
    if 0 <= i < |D| && 0 <= s < |D[i]| then D[i][s] else Inf
  }

  /** Entry (i, s) of the parent table; -1 outside it. */
  function Parent(P: seq<seq<int>>, i: int, s: int): int
  {
    if 0 <= i < |P| && 0 <= s < |P[i]| then P[i][s] else -1
  }

  /** `D[i][s] = v`, described through `Best`. */
  function SetBest(D: seq<seq<Ext>>, i: nat, s: nat, v: Ext): (r: seq<seq<Ext>>)
    requires i < |D| && s < |D[i]|
    ensures |r| == |D| && forall k :: 0 <= k < |D| ==> |r[k]| == |D[k]|
    ensures forall a, b :: Best(r, a, b) == if a == i && b == s then v else Best(D, a, b)
  {
    D[i := D[i][s := v]]
  }

  /** `P[i][s] = p`, described through `Parent`. */
  function SetParent(P: seq<seq<int>>, i: nat, s: nat, p: int): (r: seq<seq<int>>)
    requires i < |P| && s < |P[i]|
    ensures |r| == |P| && forall k :: 0 <= k < |P| ==> |r[k]| == |P[k]|
    ensures forall a, b :: Parent(r, a, b) == if a == i && b == s then p else Parent(P, a, b)
  {
    P[i := P[i][s := p]]
  }

  /** Only masks holding tile 0 and their own end tile have a finite entry,
      and tile 0 ends one only when it is alone. */
  ghost predicate Shape(D: seq<seq<Ext>>)
  {
    forall i: nat, s: nat :: Best(D, i, s).Fin? ==> HasBit(s, 0) && HasBit(s, i) && (i == 0 ==> s == 1)
  }

  /** The back link of a finite entry (i, s), i != 0: its parent p ends a
      finite entry on s without i, whose mask is at most `state`, and the
      cost adds up over the step from p to i. */
  ghost predicate LinkOk(D: seq<seq<Ext>>, P: seq<seq<int>>, C: seq<seq<Ext>>, state: int, i: nat, s: nat)
  {
    var p := Parent(P, i, s);
    && Best(D, i, s).Fin? && 0 <= p && HasBit(s, i) && Pow2(i) <= s
    && var t := s - Pow2(i);
       && t <= state && HasBit(t, p) && Best(D, p, t).Fin? && Cost(C, p, i).Fin?
       && Best(D, i, s).value == Best(D, p, t).value + Cost(C, p, i).value
  }

  ghost predicate Linked(D: seq<seq<Ext>>, P: seq<seq<int>>, C: seq<seq<Ext>>, state: int)
  {
    forall i: nat, s: nat :: i != 0 && Best(D, i, s).Fin? ==> LinkOk(D, P, C, state, i, s)
  }

  /** Relaxing the step from l to x out of mask s has taken effect: the entry
      for x on s with x added is at most the entry for l on s plus the step. */
  ghost predicate RelaxedPair(D: seq<seq<Ext>>, C: seq<seq<Ext>>, n: nat, s: nat, l: nat, x: nat)
  {
    s % 2 == 1 && HasBit(s, l) && !HasBit(s, x) && s + Pow2(x) < Pow2(n) ==>
      AtMost(Best(D, x, s + Pow2(x)), Plus(Best(D, l, s), Cost(C, l, x)))
  }

  /** (s, l, x) comes before (state, last, next) in the order the loops take. */
  predicate Before(s: int, l: int, x: int, state: int, last: int, next: int)
  {
    s < state || (s == state && (l < last || (l == last && x < next)))
  }

  ghost predicate RelaxedUpTo(D: seq<seq<Ext>>, C: seq<seq<Ext>>, n: nat, state: int, last: int, next: int)
  {
    forall s: nat, l: nat, x: nat :: s < Pow2(n) && l < n && x < n && Before(s, l, x, state, last, next) ==>
      RelaxedPair(D, C, n, s, l, x)
  }

  /** The table, the parent table and the cost matrix have their sizes. */
  ghost predicate Dims(D: seq<seq<Ext>>, P: seq<seq<int>>, C: seq<seq<Ext>>, n: nat)
  {
    n >= 1 && Rect(D, n, Pow2(n)) && Rect(P, n, Pow2(n)) && Rect(C, n, n)
  }

  /** What the table loops keep at (state, last, next). */
  ghost predicate TableInv(D: seq<seq<Ext>>, P: seq<seq<int>>, C: seq<seq<Ext>>, n: nat, state: int, last: int, next: int)
  {
    && Dims(D, P, C, n)
    && Best(D, 0, 1) == Fin(0.0)
    && Shape(D)
    && Linked(D, P, C, state)
    && RelaxedUpTo(D, C, n, state, last, next)
  }

  /** Every entry only goes down, and a parent changes only along with a
      strictly lower entry, which it then points to `last` for. */
  ghost predicate Lowered(D0: seq<seq<Ext>>, P0: seq<seq<int>>, D: seq<seq<Ext>>, P: seq<seq<int>>, last: int)
  {
    forall i, s ::
      && AtMost(Best(D, i, s), Best(D0, i, s))
      && (Best(D, i, s) != Best(D0, i, s) ==> Below(Best(D, i, s), Best(D0, i, s)) && Parent(P, i, s) == last)
      && (Parent(P, i, s) != Parent(P0, i, s) ==> Best(D, i, s) != Best(D0, i, s))
  }

  /** Every entry other than (i, s) is the same in both pairs of tables. */
  ghost predicate OnlyAt(D0: seq<seq<Ext>>, P0: seq<seq<int>>, D: seq<seq<Ext>>, P: seq<seq<int>>, i: int, s: int)
  {
    forall j, t :: (j != i || t != s) ==> Best(D, j, t) == Best(D0, j, t) && Parent(P, j, t) == Parent(P0, j, t)
  }

  /** Only the entries (j, state + {j}) that a step out of mask `state`
      writes may differ between the two pairs of tables. */
  ghost predicate OnlyAbove(D0: seq<seq<Ext>>, P0: seq<seq<int>>, D: seq<seq<Ext>>, P: seq<seq<int>>, state: nat)
  {
    forall j: nat, t :: t != state + Pow2(j) ==> Best(D, j, t) == Best(D0, j, t) && Parent(P, j, t) == Parent(P0, j, t)
  }

  /** The table only went down, and a parent changed only where its entry
      went strictly down. */
  ghost predicate Decreased(D0: seq<seq<Ext>>, P0: seq<seq<int>>, D: seq<seq<Ext>>, P: seq<seq<int>>)
  {
    forall i, s ::
      && AtMost(Best(D, i, s), Best(D0, i, s))
      && (Parent(P, i, s) != Parent(P0, i, s) ==> Below(Best(D, i, s), Best(D0, i, s)))
  }

  lemma LoweredTwice(D0: seq<seq<Ext>>, P0: seq<seq<int>>, D1: seq<seq<Ext>>, P1: seq<seq<int>>,
                     D2: seq<seq<Ext>>, P2: seq<seq<int>>, last: int)
    requires Lowered(D0, P0, D1, P1, last) && Lowered(D1, P1, D2, P2, last)
    ensures Lowered(D0, P0, D2, P2, last)
  {
  }

  lemma DecreasedTwice(D0: seq<seq<Ext>>, P0: seq<seq<int>>, D1: seq<seq<Ext>>, P1: seq<seq<int>>,
                       D2: seq<seq<Ext>>, P2: seq<seq<int>>, last: int)
    requires Decreased(D0, P0, D1, P1) && Lowered(D1, P1, D2, P2, last)
    ensures Decreased(D0, P0, D2, P2)
  {
  }

  lemma Pow2AtLeastTwo(n: nat)
    requires n >= 1
    ensures Pow2(n) >= 2 && Pow2(n) % 2 == 0
  {
  }

  /** The table right after `dp[0][1] = 0`: every invariant holds. */
  lemma TableStart(D: seq<seq<Ext>>, P: seq<seq<int>>, C: seq<seq<Ext>>, n: nat)
    requires n >= 1 && Rect(C, n, n)
    requires Pow2(n) >= 2 && D == SetBest(seq(n, _ => seq(Pow2(n), _ => Inf)), 0, 1, Fin(0.0))
    requires P == seq(n, _ => seq(Pow2(n), _ => 0))
    ensures TableInv(D, P, C, n, 1, 0, 0)
  {
    assert HasBit(1, 0);
  }

  /** A step the loops skip, or one whose relaxation would not lower the
      entry, already holds. */
  lemma RelaxKeep(D: seq<seq<Ext>>, P: seq<seq<int>>, C: seq<seq<Ext>>, n: nat, state: nat, last: nat, next: nat)
    requires TableInv(D, P, C, n, state, last, next)
    requires RelaxedPair(D, C, n, state, last, next)
    ensures TableInv(D, P, C, n, state, last, next + 1)
  {
    hide Pow2, HasBit, RelaxedPair;
  }

  /** A relaxation that lowers entry (next, state + {next}) to `v` and points
      its parent at `last` keeps every invariant, and only lowers the table. */
  lemma RelaxUpdate(D: seq<seq<Ext>>, P: seq<seq<int>>, C: seq<seq<Ext>>, n: nat,
                    state: nat, last: nat, next: nat, v: Ext)
    requires state < Pow2(n) && last < n && next < n
    requires state % 2 == 1 && HasBit(state, last) && !HasBit(state, next)
    requires TableInv(D, P, C, n, state, last, next)
    requires state + Pow2(next) < Pow2(n)
    requires v == Plus(Best(D, last, state), Cost(C, last, next))
    requires Below(v, Best(D, next, state + Pow2(next)))
    ensures var ns := state + Pow2(next);
      && TableInv(SetBest(D, next, ns, v), SetParent(P, next, ns, last), C, n, state, last, next + 1)
      && Lowered(D, P, SetBest(D, next, ns, v), SetParent(P, next, ns, last), last)
  {
    hide Pow2, HasBit, Best, Parent, Cost, SetBest, SetParent, Shape, Linked, RelaxedUpTo;
    var ns := state + Pow2(next);
    var D2 := SetBest(D, next, ns, v);
    var P2 := SetParent(P, next, ns, last);
    UpdateShape(D, state, next, v);
    UpdateLinked(D, P, C, state, last, next, v);
    UpdateRelaxed(D, C, n, state, last, next, v);
  }

  lemma UpdateShape(D: seq<seq<Ext>>, state: nat, next: nat, v: Ext)
    requires state % 2 == 1 && !HasBit(state, next)
    requires next < |D| && state + Pow2(next) < |D[next]|
    requires Best(D, 0, 1) == Fin(0.0) && Shape(D)
    ensures var D2 := SetBest(D, next, state + Pow2(next), v);
      Best(D2, 0, 1) == Fin(0.0) && Shape(D2)
  {
    var ns := state + Pow2(next);
    SetBitAt(state, next, 0);
    SetBitAt(state, next, next);
    assert HasBit(state, 0);
    assert next != 0;
  }

  lemma UpdateLinked(D: seq<seq<Ext>>, P: seq<seq<int>>, C: seq<seq<Ext>>,
                     state: nat, last: nat, next: nat, v: Ext)
    requires HasBit(state, last) && !HasBit(state, next)
    requires next < |D| && state + Pow2(next) < |D[next]| && next < |P| && state + Pow2(next) < |P[next]|
    requires Linked(D, P, C, state)
    requires v == Plus(Best(D, last, state), Cost(C, last, next)) && v.Fin?
    ensures var ns := state + Pow2(next);
      Linked(SetBest(D, next, ns, v), SetParent(P, next, ns, last), C, state)
  {
    hide Pow2, HasBit, Best, Parent, Cost, SetBest, SetParent, LinkOk;
    var ns := state + Pow2(next);
    var D2 := SetBest(D, next, ns, v);
    var P2 := SetParent(P, next, ns, last);
    forall i: nat, s: nat | i != 0 && Best(D2, i, s).Fin?
      ensures LinkOk(D2, P2, C, state, i, s)
    {
      if i == next && s == ns {
        NewLink(D, P, C, state, last, next, v);
      } else {
        OldLink(D, P, C, state, next, ns, v, last, i, s);
      }
    }
  }

  /** The entry just lowered links back to `last` on `state`. */
  lemma NewLink(D: seq<seq<Ext>>, P: seq<seq<int>>, C: seq<seq<Ext>>,
                state: nat, last: nat, next: nat, v: Ext)
    requires HasBit(state, last) && !HasBit(state, next)
    requires next < |D| && state + Pow2(next) < |D[next]| && next < |P| && state + Pow2(next) < |P[next]|
    requires v == Plus(Best(D, last, state), Cost(C, last, next)) && v.Fin?
    ensures var ns := state + Pow2(next);
      LinkOk(SetBest(D, next, ns, v), SetParent(P, next, ns, last), C, state, next, ns)
  {
    hide HasBit, Best, Parent, Cost, SetBest, SetParent;
    SetBitAt(state, next, next);
  }

  /** Any other finite entry keeps its link: the entries it points to have
      masks at most `state`, below the one written. */
  lemma OldLink(D: seq<seq<Ext>>, P: seq<seq<int>>, C: seq<seq<Ext>>,
                state: nat, next: nat, ns: nat, v: Ext, last: int, i: nat, s: nat)
    requires next < |D| && ns < |D[next]| && next < |P| && ns < |P[next]| && ns > state
    requires Linked(D, P, C, state)
    requires i != 0 && (i != next || s != ns) && Best(SetBest(D, next, ns, v), i, s).Fin?
    ensures LinkOk(SetBest(D, next, ns, v), SetParent(P, next, ns, last), C, state, i, s)
  {
    hide Pow2, HasBit, Best, Parent, Cost, SetBest, SetParent;
    assert LinkOk(D, P, C, state, i, s);
  }

  lemma UpdateRelaxed(D: seq<seq<Ext>>, C: seq<seq<Ext>>, n: nat, state: nat, last: nat, next: nat, v: Ext)
    requires next < |D| && state + Pow2(next) < |D[next]|
    requires RelaxedUpTo(D, C, n, state, last, next)
    requires v == Plus(Best(D, last, state), Cost(C, last, next))
    requires Below(v, Best(D, next, state + Pow2(next)))
    ensures RelaxedUpTo(SetBest(D, next, state + Pow2(next), v), C, n, state, last, next + 1)
  {
    hide HasBit;
    var ns := state + Pow2(next);
    var D2 := SetBest(D, next, ns, v);
    forall s: nat, l: nat, x: nat | s < Pow2(n) && l < n && x < n && Before(s, l, x, state, last, next + 1)
      ensures RelaxedPair(D2, C, n, s, l, x)
    {
      if !(s == state && l == last && x == next) {
        assert RelaxedPair(D, C, n, s, l, x);
      }
    }
  }

  /** Moving on from the last step out of `last` to the first out of `last + 1`. */
  lemma NextLast(D: seq<seq<Ext>>, P: seq<seq<int>>, C: seq<seq<Ext>>, n: nat, state: nat, last: nat)
    requires TableInv(D, P, C, n, state, last, n)
    ensures TableInv(D, P, C, n, state, last + 1, 0)
  {
    hide Pow2, HasBit, RelaxedPair;
    forall s: nat, l: nat, x: nat | s < Pow2(n) && l < n && x < n && Before(s, l, x, state, last + 1, 0)
      ensures Before(s, l, x, state, last, n)
    {
    }
  }

  /** A tile outside `state` is skipped as a last tile: nothing to relax. */
  lemma SkipLast(D: seq<seq<Ext>>, P: seq<seq<int>>, C: seq<seq<Ext>>, n: nat, state: nat, last: nat)
    requires !HasBit(state, last) && TableInv(D, P, C, n, state, last, 0)
    ensures TableInv(D, P, C, n, state, last + 1, 0)
  {
    hide Pow2, HasBit;
    forall s: nat, l: nat, x: nat | s < Pow2(n) && l < n && x < n && Before(s, l, x, state, last + 1, 0)
      ensures RelaxedPair(D, C, n, s, l, x)
    {
      if s == state && l == last {
        assert !HasBit(s, l);
      } else {
        assert Before(s, l, x, state, last, 0);
      }
    }
  }

  /** Moving on from odd mask `state` to the next odd mask. */
  lemma NextState(D: seq<seq<Ext>>, P: seq<seq<int>>, C: seq<seq<Ext>>, n: nat, state: nat)
    requires state % 2 == 1
    requires TableInv(D, P, C, n, state, n, 0)
    ensures TableInv(D, P, C, n, state + 2, 0, 0)
  {
    hide Pow2, HasBit;
    forall s: nat, l: nat, x: nat | s < Pow2(n) && l < n && x < n && Before(s, l, x, state + 2, 0, 0)
      ensures RelaxedPair(D, C, n, s, l, x)
    {
      if s <= state {
        assert Before(s, l, x, state, n, 0);
      } else {
        assert s == state + 1 && s % 2 == 0;
      }
    }
    assert Linked(D, P, C, state + 2) by {
      forall i: nat, s: nat | i != 0 && Best(D, i, s).Fin?
        ensures LinkOk(D, P, C, state + 2, i, s)
      {
        assert LinkOk(D, P, C, state, i, s);
      }
    }
  }

  /** The subset table: `dp` starts at infinity everywhere except 0 for tile
      0 alone, and every odd mask in increasing order relaxes each step from
      a tile in the mask to a tile outside it. */
  method FillTable(costMatrix: array2<Ext>, n: nat, ghost C: seq<seq<Ext>>)
    returns (dp: array2<Ext>, parent: array2<int>, ghost D: seq<seq<Ext>>, ghost P: seq<seq<int>>)
    requires n >= 1 && costMatrix.Length0 == n && costMatrix.Length1 == n && Holds(costMatrix, C)
    ensures fresh(dp) && fresh(parent)
    ensures dp.Length0 == n && dp.Length1 == Pow2(n) && parent.Length0 == n && parent.Length1 == Pow2(n)
    ensures Holds(dp, D) && Holds(parent, P)
    ensures TableInv(D, P, C, n, Pow2(n) + 1, 0, 0)
  {
    Pow2AtLeastTwo(n);
    dp := new Ext[n, Pow2(n)]((i, s) => Inf);
    parent := new int[n, Pow2(n)]((i, s) => 0);
    D := seq(n, _ => seq(Pow2(n), _ => Inf));
    P := seq(n, _ => seq(Pow2(n), _ => 0));
    assert Holds(dp, D) && Holds(parent, P);
    D := Store(dp, D, 0, 1, Fin(0.0));
    TableStart(D, P, C, n);
    hide Holds, TableInv;
    var state := 1;
    while state < Pow2(n)
      invariant state % 2 == 1 && state <= Pow2(n) + 1
      invariant Holds(dp, D) && Holds(parent, P) && Holds(costMatrix, C)
      invariant TableInv(D, P, C, n, state, 0, 0)
      decreases Pow2(n) - state
    {
      D, P := RelaxState(dp, parent, costMatrix, n, state, D, P, C);
      NextState(D, P, C, n, state);
      state := state + 2;
    }
  }

  /** One odd mask: every tile in it in turn as the last tile. */
  method RelaxState(dp: array2<Ext>, parent: array2<int>, costMatrix: array2<Ext>, n: nat, state: nat,
                    ghost D0: seq<seq<Ext>>, ghost P0: seq<seq<int>>, ghost C: seq<seq<Ext>>)
    returns (ghost D: seq<seq<Ext>>, ghost P: seq<seq<int>>)
    requires dp != costMatrix && costMatrix.Length0 == n && costMatrix.Length1 == n
    requires dp.Length0 == n && dp.Length1 == Pow2(n) && parent.Length0 == n && parent.Length1 == Pow2(n)
    requires Holds(dp, D0) && Holds(parent, P0) && Holds(costMatrix, C)
    requires state % 2 == 1 && state < Pow2(n)
    requires TableInv(D0, P0, C, n, state, 0, 0)
    modifies dp, parent
    ensures Holds(dp, D) && Holds(parent, P)
    ensures TableInv(D, P, C, n, state, n, 0)
    ensures OnlyAbove(D0, P0, D, P, state) && Decreased(D0, P0, D, P)
  {
    D, P := D0, P0;
    hide Holds, TableInv, Pow2, HasBit, Best, Parent, Lowered;
    for last := 0 to n
      invariant Holds(dp, D) && Holds(parent, P) && Holds(costMatrix, C)
      invariant TableInv(D, P, C, n, state, last, 0)
      invariant OnlyAbove(D0, P0, D, P, state) && Decreased(D0, P0, D, P)
    {
      if !HasBit(state, last) {
        SkipLast(D, P, C, n, state, last);
        continue;
      }
      ghost var D1, P1 := D, P;
      D, P := RelaxLast(dp, parent, costMatrix, n, state, last, D, P, C);
      DecreasedTwice(D0, P0, D1, P1, D, P, last);
      NextLast(D, P, C, n, state, last);
    }
  }

  /** Every step out of tile `last` of mask `state`. */
  method RelaxLast(dp: array2<Ext>, parent: array2<int>, costMatrix: array2<Ext>, n: nat, state: nat, last: nat,
                   ghost D0: seq<seq<Ext>>, ghost P0: seq<seq<int>>, ghost C: seq<seq<Ext>>)
    returns (ghost D: seq<seq<Ext>>, ghost P: seq<seq<int>>)
    requires dp != costMatrix && costMatrix.Length0 == n && costMatrix.Length1 == n
    requires dp.Length0 == n && dp.Length1 == Pow2(n) && parent.Length0 == n && parent.Length1 == Pow2(n)
    requires Holds(dp, D0) && Holds(parent, P0) && Holds(costMatrix, C)
    requires state % 2 == 1 && state < Pow2(n) && last < n && HasBit(state, last)
    requires TableInv(D0, P0, C, n, state, last, 0)
    modifies dp, parent
    ensures Holds(dp, D) && Holds(parent, P)
    ensures TableInv(D, P, C, n, state, last, n)
    ensures OnlyAbove(D0, P0, D, P, state) && Lowered(D0, P0, D, P, last)
  {
    D, P := D0, P0;
    hide Holds, TableInv, HasBit, Best, Parent;
    for next := 0 to n
      invariant Holds(dp, D) && Holds(parent, P) && Holds(costMatrix, C)
      invariant TableInv(D, P, C, n, state, last, next)
      invariant OnlyAbove(D0, P0, D, P, state) && Lowered(D0, P0, D, P, last)
    {
      ghost var D1, P1 := D, P;
      D, P := RelaxPair(dp, parent, costMatrix, n, state, last, next, D, P, C);
      LoweredTwice(D0, P0, D1, P1, D, P, last);
    }
  }

  /** The step from `last` to `next` out of mask `state`: skipped when `next`
      is already in the mask or the step is impossible; otherwise the entry
      for `next` on the mask with `next` added is lowered, and its parent set
      to `last`, when going through `last` is strictly cheaper. */
  method RelaxPair(dp: array2<Ext>, parent: array2<int>, costMatrix: array2<Ext>, n: nat, state: nat, last: nat, next: nat,
                   ghost D0: seq<seq<Ext>>, ghost P0: seq<seq<int>>, ghost C: seq<seq<Ext>>)
    returns (ghost D: seq<seq<Ext>>, ghost P: seq<seq<int>>)
    requires dp != costMatrix && costMatrix.Length0 == n && costMatrix.Length1 == n
    requires dp.Length0 == n && dp.Length1 == Pow2(n) && parent.Length0 == n && parent.Length1 == Pow2(n)
    requires Holds(dp, D0) && Holds(parent, P0) && Holds(costMatrix, C)
    requires state % 2 == 1 && state < Pow2(n) && last < n && next < n && HasBit(state, last)
    requires TableInv(D0, P0, C, n, state, last, next)
    modifies dp, parent
    ensures Holds(dp, D) && Holds(parent, P)
    ensures TableInv(D, P, C, n, state, last, next + 1)
    ensures Lowered(D0, P0, D, P, last)
    ensures OnlyAt(D0, P0, D, P, next, state + Pow2(next))
  {
    D, P := D0, P0;
    hide Holds, TableInv;
    if HasBit(state, next) {
      RelaxKeep(D, P, C, n, state, last, next);
      return;
    }
    Read(costMatrix, C, last, next);
    if costMatrix[last, next] == Inf {
      RelaxKeep(D, P, C, n, state, last, next);
      return;
    }
    var nextState := state + Pow2(next);
    SetBitBound(state, next, n);
    Read(dp, D, last, state);
    Read(dp, D, next, nextState);
    var newCost := Plus(dp[last, state], costMatrix[last, next]);
    if Below(newCost, dp[next, nextState]) {
      RelaxUpdate(D, P, C, n, state, last, next, newCost);
      D := Store(dp, D, next, nextState, newCost);
      P := Store(parent, P, next, nextState, last);
    } else {
      RelaxKeep(D, P, C, n, state, last, next);
    }
  }

  // Walks over tile indices, and what the finished table says about them.

  /** Pairwise different entries. */
  predicate Distinct<T(==)>(w: seq<T>)
  {
    forall i, j :: 0 <= i < j < |w| ==> w[i] != w[j]
  }

  /** The cost of visiting the tiles of `w` in order, step by step through
      the cost matrix. */
  function WalkCost(C: seq<seq<Ext>>, w: seq<nat>): Ext
  {
    if |w| < 2 then Fin(0.0) else Plus(WalkCost(C, w[..|w| - 1]), Cost(C, w[|w| - 2], w[|w| - 1]))
  }

  /** The tiles of `w` as a mask. */
  function Mask(w: seq<nat>): nat
  {
    if w == [] then 0
    else
      var m := Mask(w[..|w| - 1]);
      if HasBit(m, w[|w| - 1]) then m else m + Pow2(w[|w| - 1])
  }

  /** A visiting order of the objectives: each of the indices 1 .. n-1 exactly once. */
  ghost predicate IsVisitOrder(perm: seq<nat>, n: nat)
  {
    && (forall k :: 0 <= k < |perm| ==> 1 <= perm[k] < n)
    && Distinct(perm)
    && (forall v: nat :: 1 <= v < n ==> v in perm)
  }

  /** The closed tour of a visiting order: from tile 0 and back to it. */
  function Closed(perm: seq<nat>): seq<nat>
  {
    [0] + perm + [0]
  }

  /** What the tour that ends its objectives at tile k costs: its table
      entry on the full mask plus the way back to tile 0. */
  function TourCost(D: seq<seq<Ext>>, C: seq<seq<Ext>>, n: nat, k: nat): Ext
  {
    Plus(Best(D, k, Pow2(n) - 1), Cost(C, k, 0))
  }

  /** The mask of a walk has exactly the walk's tiles. */
  lemma {:induction false} MaskBits(w: seq<nat>)
    ensures forall j: nat {:trigger HasBit(Mask(w), j)} :: HasBit(Mask(w), j) <==> j in w
  {
    hide HasBit, Pow2;
    if w == [] {
      forall j: nat ensures !HasBit(0, j) {
        ZeroHasNoBits(j);
      }
    } else {
      var u := w[..|w| - 1];
      var x := w[|w| - 1];
      assert w == u + [x];
      MaskBits(u);
      var m := Mask(u);
      assert Mask(w) == if HasBit(m, x) then m else m + Pow2(x);
      forall j: nat ensures HasBit(Mask(w), j) <==> j in w {
        assert j in w <==> j in u || j == x;
        assert HasBit(m, j) <==> j in u;
        if !HasBit(m, x) {
          SetBitAt(m, x, j);
        }
      }
    }
  }

  /** A walk over tiles below n has a mask below `1 << n`. */
  lemma {:induction false} MaskBound(w: seq<nat>, n: nat)
    requires forall k :: 0 <= k < |w| ==> w[k] < n
    ensures Mask(w) < Pow2(n)
  {
    if w != [] {
      var u := w[..|w| - 1];
      MaskBound(u, n);
      if !HasBit(Mask(u), w[|w| - 1]) {
        SetBitBound(Mask(u), w[|w| - 1], n);
      }
    }
  }

  lemma AtMostPlus(a: Ext, b: Ext, c: Ext)
    requires AtMost(a, b)
    ensures AtMost(Plus(a, c), Plus(b, c))
  {
  }

  /** Once the table is complete, every walk from tile 0 through pairwise
      different tiles costs at least the entry for its last tile and its
      mask: the table holds least costs. */
  lemma {:induction false} TableIsLeast(D: seq<seq<Ext>>, P: seq<seq<int>>, C: seq<seq<Ext>>, n: nat, w: seq<nat>)
    requires TableInv(D, P, C, n, Pow2(n) + 1, 0, 0)
    requires |w| >= 1 && w[0] == 0 && Distinct(w)
    requires forall k :: 0 <= k < |w| ==> w[k] < n
    ensures Mask(w) < Pow2(n)
    ensures AtMost(Best(D, w[|w| - 1], Mask(w)), WalkCost(C, w))
  {
    MaskBound(w, n);
    if |w| == 1 {
      assert w[..0] == [];
      assert !HasBit(0, 0);
    } else {
      var u := w[..|w| - 1];
      var x := w[|w| - 1];
      var l := u[|u| - 1];
      TableIsLeast(D, P, C, n, u);
      MaskBits(u);
      assert x !in u by {
        forall k | 0 <= k < |u| ensures u[k] != x {
          assert u[k] == w[k];
        }
      }
      assert u[0] == 0 && l in u;
      var m := Mask(u);
      assert HasBit(m, 0) && HasBit(m, l) && !HasBit(m, x);
      OddHasBitZero(m);
      SetBitBound(m, x, n);
      assert Before(m, l, x, Pow2(n) + 1, 0, 0);
      assert RelaxedPair(D, C, n, m, l, x);
      AtMostPlus(Best(D, l, m), WalkCost(C, u), Cost(C, l, x));
    }
  }

  /** The full mask `(1 << n) - 1` is the mask of every closed-tour prefix
      `[0] + perm`. */
  lemma FullTourMask(perm: seq<nat>, n: nat)
    requires IsVisitOrder(perm, n) && n >= 1
    ensures Mask([0] + perm) == Pow2(n) - 1
    ensures Distinct([0] + perm)
  {
    var w := [0] + perm;
    MaskBits(w);
    forall j: nat ensures HasBit(Mask(w), j) == HasBit(Pow2(n) - 1, j) {
      FullMask(n, j);
      if 1 <= j < n {
        assert j in perm;
      }
      if j in perm {
        var k :| 0 <= k < |perm| && perm[k] == j;
      }
    }
    SameBits(Mask(w), Pow2(n) - 1);
    forall i, j | 0 <= i < j < |w| ensures w[i] != w[j] {
      if i > 0 {
        assert w[i] == perm[i - 1] && w[j] == perm[j - 1];
      } else {
        assert w[j] == perm[j - 1];
      }
    }
  }

  /** Every closed tour through all objectives costs at least the tour cost
      the table gives for its last objective. */
  lemma TourIsLeast(D: seq<seq<Ext>>, P: seq<seq<int>>, C: seq<seq<Ext>>, n: nat, perm: seq<nat>)
    requires TableInv(D, P, C, n, Pow2(n) + 1, 0, 0)
    requires IsVisitOrder(perm, n) && n >= 2
    ensures |perm| >= 1
    ensures AtMost(TourCost(D, C, n, perm[|perm| - 1]), WalkCost(C, Closed(perm)))
  {
    hide TableInv, Mask, Distinct, Pow2, HasBit;
    assert 1 in perm;
    var w := [0] + perm;
    FullTourMask(perm, n);
    TableIsLeast(D, P, C, n, w);
    assert Closed(perm) == w + [0];
    assert (w + [0])[..|w|] == w;
    AtMostPlus(Best(D, perm[|perm| - 1], Pow2(n) - 1), WalkCost(C, w), Cost(C, perm[|perm| - 1], 0));
  }

  /** The best tour end: among tiles 1 .. n-1 that can return to tile 0, the
      one whose tour cost is least, the first of them on a tie; -1 with cost
      infinity when none has a finite tour cost. */
  method ChooseLast(dp: array2<Ext>, costMatrix: array2<Ext>, n: nat, ghost D: seq<seq<Ext>>, ghost C: seq<seq<Ext>>)
    returns (minCost: Ext, lastIndex: int)
    requires n >= 1 && dp.Length0 == n && dp.Length1 == Pow2(n) && costMatrix.Length0 == n && costMatrix.Length1 == n
    requires Holds(dp, D) && Holds(costMatrix, C)
    ensures lastIndex == -1 <==> forall k: nat :: 1 <= k < n ==> TourCost(D, C, n, k).Inf?
    ensures lastIndex == -1 ==> minCost == Inf
    ensures lastIndex != -1 ==> 1 <= lastIndex < n && minCost.Fin? && minCost == TourCost(D, C, n, lastIndex)
    ensures forall k: nat :: 1 <= k < n ==> AtMost(minCost, TourCost(D, C, n, k))
    ensures forall k: nat :: 1 <= k < lastIndex ==> Below(minCost, TourCost(D, C, n, k))
  {
    hide Holds;
    var endState := Pow2(n) - 1;
    minCost := Inf;
    lastIndex := -1;
    for i := 1 to n
      invariant lastIndex == -1 <==> forall k: nat :: 1 <= k < i ==> TourCost(D, C, n, k).Inf?
      invariant lastIndex == -1 ==> minCost == Inf
      invariant lastIndex != -1 ==> 1 <= lastIndex < i && minCost.Fin? && minCost == TourCost(D, C, n, lastIndex)
      invariant forall k: nat :: 1 <= k < i ==> AtMost(minCost, TourCost(D, C, n, k))
      invariant forall k: nat :: 1 <= k < lastIndex ==> Below(minCost, TourCost(D, C, n, k))
    {
      Read(costMatrix, C, i, 0);
      if costMatrix[i, 0] == Inf {
        assert TourCost(D, C, n, i).Inf?;
        continue;
      }
      Read(dp, D, i, endState);
      var tourCost := Plus(dp[i, endState], costMatrix[i, 0]);
      assert tourCost == TourCost(D, C, n, i);
      if Below(tourCost, minCost) {
        minCost := tourCost;
        lastIndex := i;
      }
    }
  }

  /** Reading the parents back from the best tour end on the full mask gives
      the closed tour [0] + perm + [0] whose cost is that tour cost, perm
      being a visiting order that ends at `lastIndex`. */
  method BuildOrder(parent: array2<int>, n: nat, lastIndex: nat,
                    ghost D: seq<seq<Ext>>, ghost P: seq<seq<int>>, ghost C: seq<seq<Ext>>)
    returns (nodeOrder: seq<nat>)
    requires parent.Length0 == n && parent.Length1 == Pow2(n) && Holds(parent, P)
    requires TableInv(D, P, C, n, Pow2(n) + 1, 0, 0)
    requires 1 <= lastIndex < n && Best(D, lastIndex, Pow2(n) - 1).Fin?
    ensures |nodeOrder| >= 3 && nodeOrder == Closed(nodeOrder[1..|nodeOrder| - 1])
    ensures IsVisitOrder(nodeOrder[1..|nodeOrder| - 1], n)
    ensures nodeOrder[|nodeOrder| - 2] == lastIndex
    ensures WalkCost(C, nodeOrder) == TourCost(D, C, n, lastIndex)
  {
    hide Holds, TableInv, BackInv, Closed, IsVisitOrder, WalkCost, TourCost, Reverse;
    var order: seq<nat> := [];
    var current: nat := lastIndex;
    var state: nat := Pow2(n) - 1;
    BackStart(D, C, n, lastIndex);
    while current != 0
      invariant current < n && state < Pow2(n)
      invariant BackInv(D, C, n, lastIndex, order, current, state)
      decreases state
    {
      Read(parent, P, current, state);
      var prev := parent[current, state];
      BackStep(D, P, C, n, lastIndex, order, current, state);
      order := order + [current];
      state := state - Pow2(current);
      current := prev;
    }
    nodeOrder := Reverse(order + [0]) + [0];
    BackDone(D, P, C, n, lastIndex, order, state);
  }

  /** While reading the parents back: `order` holds the tiles passed so far,
      the last tour tile first; `state` is the full mask without them; the
      entry for (current, state) plus the walk from `current` through the
      passed tiles costs the entry the read started from. */
  ghost predicate BackInv(D: seq<seq<Ext>>, C: seq<seq<Ext>>, n: nat, lastIndex: nat, order: seq<nat>, current: nat, state: nat)
  {
    && Best(D, current, state).Fin? && Best(D, lastIndex, Pow2(n) - 1).Fin?
    && (forall j: nat {:trigger HasBit(state, j)} :: HasBit(state, j) <==> j < n && j !in order)
    && (forall k :: 0 <= k < |order| ==> 1 <= order[k] < n)
    && Distinct(order)
    && (order == [] ==> current == lastIndex)
    && (order != [] ==> order[0] == lastIndex)
    && WalkCost(C, [current] + Reverse(order)).Fin?
    && Best(D, current, state).value + WalkCost(C, [current] + Reverse(order)).value
       == Best(D, lastIndex, Pow2(n) - 1).value
  }

  lemma BackStart(D: seq<seq<Ext>>, C: seq<seq<Ext>>, n: nat, lastIndex: nat)
    requires Best(D, lastIndex, Pow2(n) - 1).Fin?
    ensures BackInv(D, C, n, lastIndex, [], lastIndex, Pow2(n) - 1)
  {
    var full := Pow2(n) - 1;
    forall j: nat ensures HasBit(full, j) <==> j < n {
      FullMask(n, j);
    }
    assert [lastIndex] + Reverse([]) == [lastIndex];
  }

  /** A finite entry of the finished table, off tile 0, has its back link. */
  lemma LinkAt(D: seq<seq<Ext>>, P: seq<seq<int>>, C: seq<seq<Ext>>, n: nat, i: nat, s: nat)
    requires TableInv(D, P, C, n, Pow2(n) + 1, 0, 0)
    requires i != 0 && Best(D, i, s).Fin?
    ensures LinkOk(D, P, C, Pow2(n) + 1, i, s)
  {
    assert Linked(D, P, C, Pow2(n) + 1);
  }

  /** Clearing the bit of the tile just passed leaves the tiles not yet passed. */
  lemma BackMask(n: nat, order: seq<nat>, current: nat, state: nat)
    requires forall j: nat {:trigger HasBit(state, j)} :: HasBit(state, j) <==> j < n && j !in order
    requires HasBit(state, current)
    ensures Pow2(current) <= state
    ensures forall j: nat {:trigger HasBit(state - Pow2(current), j)} ::
              HasBit(state - Pow2(current), j) <==> j < n && j !in order + [current]
  {
    ClearBit(state, current);
  }

  /** The walk from the parent through the passed tiles is one step longer. */
  lemma BackWalk(C: seq<seq<Ext>>, p: nat, current: nat, order: seq<nat>)
    ensures WalkCost(C, [p] + Reverse(order + [current]))
         == Plus(Cost(C, p, current), WalkCost(C, [current] + Reverse(order)))
  {
    assert Reverse(order + [current]) == [current] + Reverse(order);
    WalkCostCons(C, p, [current] + Reverse(order));
  }

  /** One step back along a parent link keeps the invariant, on a smaller mask. */
  lemma BackStep(D: seq<seq<Ext>>, P: seq<seq<int>>, C: seq<seq<Ext>>, n: nat, lastIndex: nat,
                 order: seq<nat>, current: nat, state: nat)
    requires TableInv(D, P, C, n, Pow2(n) + 1, 0, 0)
    requires BackInv(D, C, n, lastIndex, order, current, state)
    requires current != 0 && state < Pow2(n)
    ensures Pow2(current) <= state
    ensures var p := Parent(P, current, state);
      && 0 <= p < n
      && BackInv(D, C, n, lastIndex, order + [current], p, state - Pow2(current))
  {
    hide TableInv;
    LinkAt(D, P, C, n, current, state);
    var p := Parent(P, current, state);
    var order2 := order + [current];
    BackMask(n, order, current, state);
    var t := state - Pow2(current);
    BackWalk(C, p, current, order);
    assert HasBit(t, p);
    assert p < n && p !in order2;
    assert Distinct(order2) by {
      assert current !in order;
    }
    assert forall k :: 0 <= k < |order2| ==> 1 <= order2[k] < n;
  }

  /** The parent chain ends at tile 0 alone, whose entry is 0, with every
      objective passed. */
  lemma BackDone(D: seq<seq<Ext>>, P: seq<seq<int>>, C: seq<seq<Ext>>, n: nat, lastIndex: nat, order: seq<nat>, state: nat)
    requires TableInv(D, P, C, n, Pow2(n) + 1, 0, 0)
    requires BackInv(D, C, n, lastIndex, order, 0, state) && lastIndex != 0
    ensures var nodeOrder := Reverse(order + [0]) + [0];
      && |nodeOrder| >= 3 && nodeOrder == Closed(nodeOrder[1..|nodeOrder| - 1])
      && IsVisitOrder(nodeOrder[1..|nodeOrder| - 1], n)
      && nodeOrder[|nodeOrder| - 2] == lastIndex
      && WalkCost(C, nodeOrder) == TourCost(D, C, n, lastIndex)
  {
    assert state == 1 by {
      assert Shape(D);
    }
    hide TableInv;
    forall v: nat | 1 <= v < n ensures v in order {
      ZeroHasNoBits(v - 1);
      assert !HasBit(1, v);
    }
    OrderFacts(D, C, n, order, lastIndex);
  }

  /** Prepending a tile adds the cost of the step out of it. */
  lemma {:induction false} WalkCostCons(C: seq<seq<Ext>>, a: nat, w: seq<nat>)
    requires |w| >= 1
    ensures WalkCost(C, [a] + w) == Plus(Cost(C, a, w[0]), WalkCost(C, w))
  {
    if |w| == 1 {
      assert ([a] + w)[..1] == [a];
    } else {
      var u := w[..|w| - 1];
      WalkCostCons(C, a, u);
      assert ([a] + w)[..|w|] == [a] + u;
    }
  }

  lemma OrderFacts(D: seq<seq<Ext>>, C: seq<seq<Ext>>, n: nat, order: seq<nat>, lastIndex: nat)
    requires order != [] && order[0] == lastIndex
    requires forall k :: 0 <= k < |order| ==> 1 <= order[k] < n
    requires Distinct(order)
    requires forall v: nat :: 1 <= v < n ==> v in order
    requires WalkCost(C, [0] + Reverse(order)).Fin? && Best(D, lastIndex, Pow2(n) - 1).Fin?
    requires WalkCost(C, [0] + Reverse(order)).value == Best(D, lastIndex, Pow2(n) - 1).value
    ensures var nodeOrder := Reverse(order + [0]) + [0];
      && |nodeOrder| >= 3 && nodeOrder == Closed(nodeOrder[1..|nodeOrder| - 1])
      && IsVisitOrder(nodeOrder[1..|nodeOrder| - 1], n)
      && nodeOrder[|nodeOrder| - 2] == lastIndex
      && WalkCost(C, nodeOrder) == TourCost(D, C, n, lastIndex)
  {
    var perm := Reverse(order);
    var nodeOrder := Reverse(order + [0]) + [0];
    assert Reverse(order + [0]) == [0] + perm;
    assert nodeOrder == Closed(perm);
    assert nodeOrder[1..|nodeOrder| - 1] == perm;
    forall i, j | 0 <= i < j < |perm| ensures perm[i] != perm[j] {
      assert perm[i] == order[|order| - 1 - i] && perm[j] == order[|order| - 1 - j];
    }
    forall v: nat | 1 <= v < n ensures v in perm {
      assert v in order;
      var k :| 0 <= k < |order| && order[k] == v;
      assert perm[|order| - 1 - k] == v;
    }
    assert ([0] + perm + [0])[..|perm| + 1] == [0] + perm;
  }

  // Stitching the cached paths into the tour.

  /** The tour after the first k legs of `order`: each leg adds the path
      cached for its pair of indices, without its first tile after the first
      leg, and a leg with no cached path adds nothing. */
  function Stitched(pathMatrix: map<(int, int), seq<Cell>>, order: seq<nat>, k: nat): seq<Cell>
    requires k < |order| || k == 0
  {
    if k == 0 then []
    else
      var prev := Stitched(pathMatrix, order, k - 1);
      var key: (int, int) := (order[k - 1], order[k]);
      if key !in pathMatrix || pathMatrix[key] == [] then prev
      else if k - 1 > 0 then prev + pathMatrix[key][1..]
      else prev + pathMatrix[key]
  }

  /** The stitching loop over consecutive pairs of the visiting order. */
  method Stitch(pathMatrix: map<(int, int), seq<Cell>>, nodeOrder: seq<nat>) returns (fullTour: seq<Cell>)
    requires |nodeOrder| >= 1
    ensures fullTour == Stitched(pathMatrix, nodeOrder, |nodeOrder| - 1)
  {
    fullTour := [];
    for i := 0 to |nodeOrder| - 1
      invariant fullTour == Stitched(pathMatrix, nodeOrder, i)
    {
      var from := nodeOrder[i];
      var to := nodeOrder[i + 1];
      if (from, to) !in pathMatrix || pathMatrix[(from, to)] == [] {
        continue;
      }
      var segment := pathMatrix[(from, to)];
      if i > 0 {
        segment := segment[1..];
      }
      fullTour := fullTour + segment;
    }
  }

  /** Along an order of tile indices whose steps change tile and cost finitely,
      the stitched legs form one route from the first tile to the k-th, whose
      cost is that of the order and which passes every tile on the way. */
  lemma {:induction false} StitchedRoute(g: Graph, costs: CostTable, tiles: seq<Cell>, C: seq<seq<Ext>>,
                                         pathMatrix: map<(int, int), seq<Cell>>, order: seq<nat>, k: nat)
    requires MatrixOk(g, costs, tiles, C, pathMatrix)
    requires forall m :: 0 <= m < |order| ==> order[m] < |tiles|
    requires 1 <= k < |order|
    requires forall m :: 0 <= m < k ==> order[m] != order[m + 1]
    requires WalkCost(C, order[..k + 1]).Fin?
    ensures IsRoute(g, costs, Stitched(pathMatrix, order, k), tiles[order[0]], tiles[order[k]])
    ensures WalkCost(C, order[..k + 1]) == Fin(PathCost(costs, Stitched(pathMatrix, order, k)))
    ensures forall m :: 0 <= m <= k ==> tiles[order[m]] in Stitched(pathMatrix, order, k)
  {
    hide MatrixOk, IsLowerBound, Connected, IsRoute, PathCost;
    var a, b := order[k - 1], order[k];
    EntryAt(g, costs, tiles, C, pathMatrix, a, b);
    var w := order[..k + 1];
    assert w[..k] == order[..k];
    assert w[k - 1] == a && w[k] == b;
    assert WalkCost(C, w) == Plus(WalkCost(C, order[..k]), Cost(C, a, b));
    assert (a, b) in pathMatrix;
    var seg := pathMatrix[(a, b)];
    RouteEnds(g, costs, seg, tiles[a], tiles[b]);
    var tour := Stitched(pathMatrix, order, k);
    if k == 1 {
      assert order[..1] == [order[0]];
      assert tour == Stitched(pathMatrix, order, 0) + seg == [] + seg;
      assert tour == seg;
    } else {
      StitchedRoute(g, costs, tiles, C, pathMatrix, order, k - 1);
      var prev := Stitched(pathMatrix, order, k - 1);
      assert tour == prev + seg[1..];
      RouteJoin(g, costs, prev, seg, tiles[order[0]], tiles[a], tiles[b]);
    }
  }

  lemma EntryAt(g: Graph, costs: CostTable, tiles: seq<Cell>, C: seq<seq<Ext>>,
                pathMatrix: map<(int, int), seq<Cell>>, a: nat, b: nat)
    requires MatrixOk(g, costs, tiles, C, pathMatrix) && a < |tiles| && b < |tiles|
    ensures a < |C| && b < |C[a]| && EntryOk(g, costs, tiles, a, b, C[a][b], pathMatrix)
  {
  }

  /** Consecutive indices of a closed visiting order differ. */
  lemma ClosedSteps(perm: seq<nat>, n: nat)
    requires IsVisitOrder(perm, n) && |perm| >= 1
    ensures forall m :: 0 <= m < |perm| + 1 ==> Closed(perm)[m] != Closed(perm)[m + 1]
  {
    forall m | 0 <= m < |perm| + 1 ensures Closed(perm)[m] != Closed(perm)[m + 1] {
      if 0 < m < |perm| {
        assert Closed(perm)[m] == perm[m - 1] && Closed(perm)[m + 1] == perm[m];
      }
    }
  }

  // Closed tours over the map, and the bound the table gives them.

  /** A closed tour through all the tiles, leg by leg: `perm` visits the
      objectives 1 .. |tiles|-1 in some order, and leg k is a route from the
      k-th to the (k+1)-th tile of the order closed at tile 0. */
  ghost predicate IsTour(g: Graph, costs: CostTable, tiles: seq<Cell>, perm: seq<nat>, routes: seq<seq<Cell>>)
  {
    && |tiles| >= 1 && IsVisitOrder(perm, |tiles|) && |routes| == |perm| + 1
    && forall k :: 0 <= k < |routes| ==>
         IsRoute(g, costs, routes[k], tiles[Closed(perm)[k]], tiles[Closed(perm)[k + 1]])
  }

  /** The cost of a tour given leg by leg. */
  function RoutesCost(costs: CostTable, routes: seq<seq<Cell>>): real
  {
    if routes == [] then 0.0
    else RoutesCost(costs, routes[..|routes| - 1]) + PathCost(costs, routes[|routes| - 1])
  }

  /** Leg k of a tour is a route between the tiles of stops k and k + 1. */
  lemma LegAt(g: Graph, costs: CostTable, tiles: seq<Cell>, perm: seq<nat>, routes: seq<seq<Cell>>, k: nat)
    requires IsTour(g, costs, tiles, perm, routes) && k < |routes|
    ensures |routes| == |perm| + 1
    ensures Closed(perm)[k] < |tiles| && Closed(perm)[k + 1] < |tiles|
    ensures IsRoute(g, costs, routes[k], tiles[Closed(perm)[k]], tiles[Closed(perm)[k + 1]])
  {
    forall m | 0 <= m < |perm| + 2 ensures Closed(perm)[m] < |tiles| {
      if 0 < m <= |perm| {
        assert Closed(perm)[m] == perm[m - 1];
      }
    }
  }

  /** For distinct tiles, the matrix entry of a pair is finite and at most
      the cost of any route between them. */
  lemma LegBound(g: Graph, costs: CostTable, tiles: seq<Cell>, C: seq<seq<Ext>>,
                 pathMatrix: map<(int, int), seq<Cell>>, a: nat, b: nat, leg: seq<Cell>)
    requires MatrixOk(g, costs, tiles, C, pathMatrix) && Distinct(tiles) && a < |tiles| && b < |tiles|
    requires IsRoute(g, costs, leg, tiles[a], tiles[b])
    ensures Cost(C, a, b).Fin? && Cost(C, a, b).value <= PathCost(costs, leg)
  {
    EntryAt(g, costs, tiles, C, pathMatrix, a, b);
    WalkCostNonNegative(g, costs, leg);
    if a != b {
      assert tiles[a] != tiles[b];
      assert Connected(g, costs, tiles[a], tiles[b]);
    }
  }

  /** The cost matrix is a lower bound on every leg, so the order's cost
      through the matrix bounds the first k legs of a tour. */
  lemma {:induction false} LegsBound(g: Graph, costs: CostTable, tiles: seq<Cell>, C: seq<seq<Ext>>,
                                     pathMatrix: map<(int, int), seq<Cell>>, perm: seq<nat>,
                                     routes: seq<seq<Cell>>, k: nat)
    requires MatrixOk(g, costs, tiles, C, pathMatrix) && Distinct(tiles)
    requires IsTour(g, costs, tiles, perm, routes) && k <= |routes|
    ensures WalkCost(C, Closed(perm)[..k + 1]).Fin?
    ensures WalkCost(C, Closed(perm)[..k + 1]).value <= RoutesCost(costs, routes[..k])
  {
    hide MatrixOk, IsTour, Distinct, IsRoute, PathCost;
    var w := Closed(perm);
    if k == 0 {
      assert w[..1] == [0];
      assert routes[..0] == [];
    } else {
      LegsBound(g, costs, tiles, C, pathMatrix, perm, routes, k - 1);
      LegAt(g, costs, tiles, perm, routes, k - 1);
      LegBound(g, costs, tiles, C, pathMatrix, w[k - 1], w[k], routes[k - 1]);
      assert w[..k + 1][..k] == w[..k];
      assert routes[..k][..k - 1] == routes[..k - 1];
    }
  }

  /** Every closed tour through the distinct tiles costs at least the table's
      tour ending at its last objective, which is therefore finite. */
  lemma TourBound(g: Graph, costs: CostTable, tiles: seq<Cell>, C: seq<seq<Ext>>,
                  pathMatrix: map<(int, int), seq<Cell>>, D: seq<seq<Ext>>, P: seq<seq<int>>,
                  perm: seq<nat>, routes: seq<seq<Cell>>)
    requires MatrixOk(g, costs, tiles, C, pathMatrix) && Distinct(tiles) && |tiles| >= 2
    requires TableInv(D, P, C, |tiles|, Pow2(|tiles|) + 1, 0, 0)
    requires IsTour(g, costs, tiles, perm, routes)
    ensures |perm| >= 1 && 1 <= perm[|perm| - 1] < |tiles|
    ensures TourCost(D, C, |tiles|, perm[|perm| - 1]).Fin?
    ensures TourCost(D, C, |tiles|, perm[|perm| - 1]).value <= RoutesCost(costs, routes)
  {
    hide MatrixOk, TableInv, Distinct, WalkCost, RoutesCost, PathCost, IsRoute;
    LegsBound(g, costs, tiles, C, pathMatrix, perm, routes, |routes|);
    TourIsLeast(D, P, C, |tiles|, perm);
    assert Closed(perm)[..|routes| + 1] == Closed(perm);
    assert routes[..|routes|] == routes;
  }

  /** The same, for every tour at once. */
  lemma ToursBound(g: Graph, costs: CostTable, tiles: seq<Cell>, C: seq<seq<Ext>>,
                   pathMatrix: map<(int, int), seq<Cell>>, D: seq<seq<Ext>>, P: seq<seq<int>>)
    requires MatrixOk(g, costs, tiles, C, pathMatrix) && |tiles| >= 2
    requires TableInv(D, P, C, |tiles|, Pow2(|tiles|) + 1, 0, 0)
    ensures Distinct(tiles) ==>
      forall perm, routes :: IsTour(g, costs, tiles, perm, routes) ==>
        && |perm| >= 1 && 1 <= perm[|perm| - 1] < |tiles|
        && TourCost(D, C, |tiles|, perm[|perm| - 1]).Fin?
        && TourCost(D, C, |tiles|, perm[|perm| - 1]).value <= RoutesCost(costs, routes)
  {
    if Distinct(tiles) {
      forall perm, routes | IsTour(g, costs, tiles, perm, routes)
        ensures |perm| >= 1 && 1 <= perm[|perm| - 1] < |tiles|
        ensures TourCost(D, C, |tiles|, perm[|perm| - 1]).Fin?
        ensures TourCost(D, C, |tiles|, perm[|perm| - 1]).value <= RoutesCost(costs, routes)
      {
        TourBound(g, costs, tiles, C, pathMatrix, D, P, perm, routes);
      }
    }
  }

  /** The stitched tour of the order read back from the table: a route from
      the knight's tile back to it, through every tile, at the order's cost. */
  lemma TourFound(g: Graph, costs: CostTable, tiles: seq<Cell>, C: seq<seq<Ext>>,
                  pathMatrix: map<(int, int), seq<Cell>>, nodeOrder: seq<nat>)
    requires MatrixOk(g, costs, tiles, C, pathMatrix)
    requires |nodeOrder| >= 3 && nodeOrder == Closed(nodeOrder[1..|nodeOrder| - 1])
    requires IsVisitOrder(nodeOrder[1..|nodeOrder| - 1], |tiles|)
    requires WalkCost(C, nodeOrder).Fin?
    ensures var fullTour := Stitched(pathMatrix, nodeOrder, |nodeOrder| - 1);
      && IsRoute(g, costs, fullTour, tiles[0], tiles[0])
      && (forall v :: 0 <= v < |tiles| ==> tiles[v] in fullTour)
      && WalkCost(C, nodeOrder) == Fin(PathCost(costs, fullTour))
  {
    hide MatrixOk, EntryOk, IsLowerBound, Connected, IsRoute, Stitched, WalkCost, PathCost;
    var perm := nodeOrder[1..|nodeOrder| - 1];
    var k := |nodeOrder| - 1;
    ClosedSteps(perm, |tiles|);
    assert forall m :: 0 <= m < k ==> nodeOrder[m] != nodeOrder[m + 1];
    forall m | 0 <= m < |nodeOrder| ensures nodeOrder[m] < |tiles| {
      assert 1 <= perm[0] < |tiles|;
      if 0 < m < k {
        assert nodeOrder[m] == perm[m - 1];
      }
    }
    assert nodeOrder[..k + 1] == nodeOrder;
    StitchedRoute(g, costs, tiles, C, pathMatrix, nodeOrder, k);
    forall v | 0 <= v < |tiles| ensures tiles[v] in Stitched(pathMatrix, nodeOrder, k) {
      if v == 0 {
        assert nodeOrder[0] == 0;
      } else {
        assert v in perm;
        var m :| 0 <= m < |perm| && perm[m] == v;
        assert nodeOrder[m + 1] == v;
      }
    }
  }

  /** The whole optimiser. With no reachable objective the tour is empty;
      otherwise, when the table has a finite tour, the result is a route from
      the knight's tile back to it through every reachable objective, and,
      when the objectives are distinct, it costs no more than any other
      closed tour through them, and it is empty only when there is none. */
  method FindShortestTour(g: Graph, costs: CostTable, start: Cell, objectives: seq<Cell>)
    returns (fullTour: seq<Cell>)
    requires |Reachable(g, costs, start, objectives)| < 30
    ensures Reachable(g, costs, start, objectives) == [] ==> fullTour == []
    ensures fullTour != [] ==> IsRoute(g, costs, fullTour, start, start)
    ensures fullTour != [] ==> forall o :: o in Reachable(g, costs, start, objectives) ==> o in fullTour
    ensures Reachable(g, costs, start, objectives) != [] && Distinct([start] + Reachable(g, costs, start, objectives)) ==>
      forall perm, routes :: IsTour(g, costs, [start] + Reachable(g, costs, start, objectives), perm, routes) ==>
        fullTour != [] && PathCost(costs, fullTour) <= RoutesCost(costs, routes)
  {
    hide MatrixOk, TableInv, Holds, Stitched, IsTour, IsRoute, Reachable, WalkCost, PathCost,
      Distinct, Closed, IsVisitOrder;
    var reachableObjectives := FilterReachable(g, costs, start, objectives);
    if reachableObjectives == [] {
      return [];
    }
    var allTiles := [start] + reachableObjectives;
    var n := |allTiles|;
    var costMatrix, pathMatrix;
    ghost var C;
    costMatrix, pathMatrix, C := FillMatrices(g, costs, allTiles);
    var dp, parent;
    ghost var D, P;
    dp, parent, D, P := FillTable(costMatrix, n, C);
    var minCost, lastIndex := ChooseLast(dp, costMatrix, n, D, C);
    ToursBound(g, costs, allTiles, C, pathMatrix, D, P);
    if lastIndex == -1 {
      return [];
    }
    var nodeOrder := BuildOrder(parent, n, lastIndex, D, P, C);
    fullTour := Stitch(pathMatrix, nodeOrder);
    TourFound(g, costs, allTiles, C, pathMatrix, nodeOrder);
    forall o | o in reachableObjectives ensures o in fullTour {
      var v :| 0 <= v < |reachableObjectives| && reachableObjectives[v] == o;
      assert allTiles[v + 1] == o;
    }
  }
}
