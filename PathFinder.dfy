/** Single-pair shortest paths (Dijkstra's algorithm with predecessor links)
    and the total cost of a path. */
module PathFinder {
  import opened Tiles
  import opened Routes

  /** `s` read back to front. */
  function Reverse<T>(s: seq<T>): (r: seq<T>)
    ensures |r| == |s|
    ensures forall i :: 0 <= i < |s| ==> r[i] == s[|s| - 1 - i]
  {
    if s == [] then [] else [s[|s| - 1]] + Reverse(s[..|s| - 1])
  }

  /** findTotalCost: the cost lookups of consecutive tiles, summed front to back. */
  method FindTotalCost(costs: CostTable, path: seq<Cell>) returns (total: real)
    ensures total == PathCost(costs, path)
  {
    total := 0.0;
    var i := 0;
    while i < |path| - 1
      invariant |path| == 0 ==> i == 0 && total == 0.0
      invariant |path| > 0 ==> 0 <= i < |path| && total == PathCost(costs, path[..i + 1])
    {
      var cost := CostCalculator(costs, path[i], path[i + 1]);
      PathCostSnoc(costs, path[..i + 1], path[i + 1]);
      assert path[..i + 1] + [path[i + 1]] == path[..i + 2];
      total := total + cost;
      i := i + 1;
    }
    if |path| > 0 {
      assert path[..i + 1] == path;
    }
  }

  /** Every tile the search can ever label: the start and every listed neighbour. */
  ghost function Universe(g: Graph, start: Cell): set<Cell>
  {
    {start} + set c, k | c in g && 0 <= k < |g[c]| :: g[c][k]
  }

  /*
   * The search state is the label map `dist` (currentCost), the predecessor
   * map `pred` (previousTile) and the `queue` of labelled tiles not yet polled.
   * Ghost state: `settled`, the tiles polled and expanded so far; `order`, the
   * step at which each was settled; `steps`, the number of settled tiles.
   */

  /** Labels exist for exactly the settled and the queued tiles, the start's
      label is 0, and no label is negative. */
  ghost predicate Basics(start: Cell, universe: set<Cell>, dist: map<Cell, real>,
                         queue: set<Cell>, settled: set<Cell>)
  {
    && start in dist && dist[start] == 0.0
    && dist.Keys == settled + queue && settled !! queue
    && dist.Keys <= universe
    && (forall v :: v in dist ==> dist[v] >= 0.0)
  }

  /** No settled label exceeds a queued one. */
  ghost predicate Ordered(dist: map<Cell, real>, queue: set<Cell>, settled: set<Cell>)
  {
    forall s, f :: s in settled && f in queue ==> s in dist && f in dist && dist[s] <= dist[f]
  }

  /** A tile has offered its label plus the move cost to every tile it can
      move to. */
  ghost predicate RelaxedFrom(g: Graph, costs: CostTable, dist: map<Cell, real>, s: Cell)
  {
    s in dist &&
    forall y :: Move(g, costs, s, y) ==> y in dist && dist[y] <= dist[s] + CostCalculator(costs, s, y)
  }

  /** Every settled tile outside `pending` has been relaxed from. */
  ghost predicate AllRelaxed(g: Graph, costs: CostTable, dist: map<Cell, real>,
                             settled: set<Cell>, pending: set<Cell>)
  {
    forall s :: s in settled && s !in pending ==> RelaxedFrom(g, costs, dist, s)
  }

  /** Every settled label is a lower bound on the cost of every route to it. */
  ghost predicate Optimal(g: Graph, costs: CostTable, start: Cell, dist: map<Cell, real>, settled: set<Cell>)
  {
    forall s :: s in settled ==> s in dist && IsLowerBound(g, costs, start, s, dist[s])
  }

  /** Every labelled tile but the start has a settled predecessor one permitted
      move away, whose label plus the move cost is its label; a settled tile's
      predecessor was settled before it. */
  ghost predicate PredInv(g: Graph, costs: CostTable, start: Cell, dist: map<Cell, real>,
                          pred: map<Cell, Cell>, settled: set<Cell>, order: map<Cell, nat>, steps: nat)
  {
    && pred.Keys == dist.Keys - {start}
    && (forall v :: v in pred ==>
          pred[v] in settled && pred[v] in dist && Move(g, costs, pred[v], v)
          && dist[v] == dist[pred[v]] + CostCalculator(costs, pred[v], v))
    && order.Keys == settled
    && (forall v :: v in order ==> order[v] < steps)
    && (forall v, u :: v in pred && u == pred[v] && v in settled ==> order[u] < order[v])
  }

  /** The invariant of the search loop. */
  ghost predicate SearchInv(g: Graph, costs: CostTable, start: Cell, universe: set<Cell>,
                            dist: map<Cell, real>, pred: map<Cell, Cell>, queue: set<Cell>,
                            settled: set<Cell>, order: map<Cell, nat>, steps: nat)
  {
    && Basics(start, universe, dist, queue, settled)
    && Ordered(dist, queue, settled)
    && AllRelaxed(g, costs, dist, settled, {})
    && Optimal(g, costs, start, dist, settled)
    && PredInv(g, costs, start, dist, pred, settled, order, steps)
  }

  /** The polled tile `u` is settled and no settled label exceeds its label. */
  ghost predicate BelowPolled(dist: map<Cell, real>, settled: set<Cell>, u: Cell)
  {
    u in settled && u in dist && forall s :: s in settled ==> s in dist && dist[s] <= dist[u]
  }

  /** The first `k` neighbours of the polled tile `u` have been relaxed. */
  ghost predicate RelaxedUpTo(g: Graph, costs: CostTable, dist: map<Cell, real>, u: Cell, k: int)
  {
    u in dist &&
    forall j :: 0 <= j < k && j < |Neighbours(g, u)| && Move(g, costs, u, Neighbours(g, u)[j]) ==>
      Neighbours(g, u)[j] in dist
      && dist[Neighbours(g, u)[j]] <= dist[u] + CostCalculator(costs, u, Neighbours(g, u)[j])
  }

  /** The invariant of the neighbour loop, after `k` neighbours of `u`. */
  ghost predicate RelaxInv(g: Graph, costs: CostTable, start: Cell, universe: set<Cell>, u: Cell, k: int,
                           dist: map<Cell, real>, pred: map<Cell, Cell>, queue: set<Cell>,
                           settled: set<Cell>, order: map<Cell, nat>, steps: nat)
  {
    && Basics(start, universe, dist, queue, settled)
    && Ordered(dist, queue, settled)
    && AllRelaxed(g, costs, dist, settled, {u})
    && RelaxedUpTo(g, costs, dist, u, k)
    && Optimal(g, costs, start, dist, settled)
    && PredInv(g, costs, start, dist, pred, settled, order, steps)
    && BelowPolled(dist, settled, u)
  }

  lemma {:induction false} MinimumExists(s: set<Cell>, dist: map<Cell, real>)
    requires s != {} && s <= dist.Keys
    ensures exists u :: u in s && forall w :: w in s ==> dist[u] <= dist[w]
  {
    var x :| x in s;
    if s != {x} {
      MinimumExists(s - {x}, dist);
      var m :| m in s - {x} && forall w :: w in s - {x} ==> dist[m] <= dist[w];
      if dist[x] <= dist[m] {
        assert forall w :: w in s ==> dist[x] <= dist[w];
      } else {
        assert forall w :: w in s ==> dist[m] <= dist[w];
      }
    } else {
      assert forall w :: w in s ==> dist[x] <= dist[w];
    }
  }

  /** A route from the start whose last tile is not settled costs at least the
      smallest queued label. */
  lemma {:induction false} RouteBound(g: Graph, costs: CostTable, start: Cell, universe: set<Cell>,
                                      dist: map<Cell, real>, queue: set<Cell>, settled: set<Cell>,
                                      u: Cell, p: seq<Cell>)
    requires Basics(start, universe, dist, queue, settled)
    requires AllRelaxed(g, costs, dist, settled, {})
    requires Optimal(g, costs, start, dist, settled)
    requires u in queue && forall w :: w in queue ==> dist[u] <= dist[w]
    requires |p| > 0 && p[0] == start && IsWalk(g, costs, p)
    ensures p[|p| - 1] !in settled ==> dist[u] <= PathCost(costs, p)
    decreases |p|
  {
    var y := p[|p| - 1];
    if y !in settled {
      if |p| == 1 {
        assert y == start && start in queue;
      } else {
        var q := p[..|p| - 1];
        var x := q[|q| - 1];
        assert IsWalk(g, costs, q) by {
          forall i, j | 0 <= i < |q| - 1 && j == i + 1 ensures Move(g, costs, q[i], q[j]) {
            assert Move(g, costs, p[i], p[j]);
          }
        }
        assert q + [y] == p;
        PathCostSnoc(costs, q, y);
        assert Move(g, costs, x, y) by {
          assert Move(g, costs, p[|p| - 2], p[|p| - 1]);
        }
        if x in settled {
          assert IsRoute(g, costs, q, start, x);
          assert RelaxedFrom(g, costs, dist, x);
        } else {
          RouteBound(g, costs, start, universe, dist, queue, settled, u, q);
        }
      }
    }
  }

  /** The polled tile's label is a lower bound on every route to it. */
  lemma PolledIsOptimal(g: Graph, costs: CostTable, start: Cell, universe: set<Cell>,
                        dist: map<Cell, real>, queue: set<Cell>, settled: set<Cell>, u: Cell)
    requires Basics(start, universe, dist, queue, settled)
    requires AllRelaxed(g, costs, dist, settled, {})
    requires Optimal(g, costs, start, dist, settled)
    requires u in queue && forall w :: w in queue ==> dist[u] <= dist[w]
    ensures IsLowerBound(g, costs, start, u, dist[u])
  {
    forall p | IsRoute(g, costs, p, start, u) ensures dist[u] <= PathCost(costs, p) {
      RouteBound(g, costs, start, universe, dist, queue, settled, u, p);
    }
  }

  /** When the queue is empty, every route from the start ends at a settled tile. */
  lemma {:induction false} RoutesStaySettled(g: Graph, costs: CostTable, start: Cell, universe: set<Cell>,
                                             dist: map<Cell, real>, settled: set<Cell>, p: seq<Cell>)
    requires Basics(start, universe, dist, {}, settled)
    requires AllRelaxed(g, costs, dist, settled, {})
    requires |p| > 0 && p[0] == start && IsWalk(g, costs, p)
    ensures p[|p| - 1] in settled
    decreases |p|
  {
    if |p| > 1 {
      var q := p[..|p| - 1];
      assert IsWalk(g, costs, q) by {
        forall i, j | 0 <= i < |q| - 1 && j == i + 1 ensures Move(g, costs, q[i], q[j]) {
          assert Move(g, costs, p[i], p[j]);
        }
      }
      RoutesStaySettled(g, costs, start, universe, dist, settled, q);
      assert RelaxedFrom(g, costs, dist, q[|q| - 1]);
      assert Move(g, costs, p[|p| - 2], p[|p| - 1]);
    }
  }

  /** A search that empties its queue without labelling the objective shows
      that no route reaches it. */
  lemma Unreachable(g: Graph, costs: CostTable, start: Cell, objective: Cell, universe: set<Cell>,
                    dist: map<Cell, real>, settled: set<Cell>)
    requires Basics(start, universe, dist, {}, settled)
    requires AllRelaxed(g, costs, dist, settled, {})
    requires objective !in dist
    ensures !Connected(g, costs, start, objective)
  {
    forall p | IsRoute(g, costs, p, start, objective) ensures false {
      RoutesStaySettled(g, costs, start, universe, dist, settled, p);
    }
  }

  /** Following predecessor links from any labelled tile leads back to the
      start along a route whose cost is the tile's label. */
  lemma {:induction false} PredRoute(g: Graph, costs: CostTable, start: Cell, dist: map<Cell, real>,
                                     pred: map<Cell, Cell>, settled: set<Cell>, order: map<Cell, nat>,
                                     steps: nat, v: Cell)
    returns (p: seq<Cell>)
    requires start in dist && dist[start] == 0.0 && v in dist
    requires PredInv(g, costs, start, dist, pred, settled, order, steps)
    ensures IsRoute(g, costs, p, start, v) && PathCost(costs, p) == dist[v]
    decreases if v in order then order[v] else steps
  {
    if v == start {
      p := [start];
    } else {
      var u := pred[v];
      var q := PredRoute(g, costs, start, dist, pred, settled, order, steps, u);
      WalkJoin(g, costs, q, [u, v]);
      PathCostJoin(costs, q, [u, v]);
      p := q + [v];
      assert [u, v][1..] == [v];
    }
  }

  /** The search starts with the start tile alone, labelled 0 and queued. */
  lemma SearchStart(g: Graph, costs: CostTable, start: Cell, universe: set<Cell>)
    requires universe == Universe(g, start)
    ensures SearchInv(g, costs, start, universe, map[start := 0.0], map[], {start}, {}, map[], 0)
  {
  }

  lemma QueueLabelled(g: Graph, costs: CostTable, start: Cell, universe: set<Cell>,
                      dist: map<Cell, real>, pred: map<Cell, Cell>, queue: set<Cell>,
                      settled: set<Cell>, order: map<Cell, nat>, steps: nat)
    requires SearchInv(g, costs, start, universe, dist, pred, queue, settled, order, steps)
    ensures queue <= dist.Keys
  {
  }

  /** What the search shows when it stops: either it polled the objective,
      whose label is then optimal, or its queue ran empty. The objective has
      a predecessor exactly when it differs from the start and is reachable. */
  lemma Conclude(g: Graph, costs: CostTable, start: Cell, objective: Cell, universe: set<Cell>,
                 dist: map<Cell, real>, pred: map<Cell, Cell>, queue: set<Cell>,
                 settled: set<Cell>, order: map<Cell, nat>, steps: nat, polled: bool)
    requires SearchInv(g, costs, start, universe, dist, pred, queue, settled, order, steps)
    requires objective !in settled
    requires polled ==> objective in queue && forall w :: w in queue ==> dist[objective] <= dist[w]
    requires !polled ==> queue == {}
    ensures start in dist && dist[start] == 0.0
    ensures PredInv(g, costs, start, dist, pred, settled, order, steps)
    ensures objective in pred <==> start != objective && Connected(g, costs, start, objective)
    ensures objective in pred ==> IsLowerBound(g, costs, start, objective, dist[objective])
  {
    if polled {
      PolledIsOptimal(g, costs, start, universe, dist, queue, settled, objective);
      if start != objective {
        var p := PredRoute(g, costs, start, dist, pred, settled, order, steps, objective);
      }
    } else if start != objective {
      Unreachable(g, costs, start, objective, universe, dist, settled);
    }
  }

  /** Polling the queued tile `u` of least label and settling it (when it is
      not the objective) sets up the neighbour loop. */
  lemma PollStep(g: Graph, costs: CostTable, start: Cell, universe: set<Cell>,
                 dist: map<Cell, real>, pred: map<Cell, Cell>, queue: set<Cell>,
                 settled: set<Cell>, order: map<Cell, nat>, steps: nat, u: Cell)
    requires SearchInv(g, costs, start, universe, dist, pred, queue, settled, order, steps)
    requires u in queue && forall w :: w in queue ==> dist[u] <= dist[w]
    ensures RelaxInv(g, costs, start, universe, u, 0, dist, pred, queue - {u},
                     settled + {u}, order[u := steps], steps + 1)
    ensures |universe - (settled + {u})| < |universe - settled|
  {
    hide Basics, Ordered, AllRelaxed, Optimal, PredInv, BelowPolled, RelaxedUpTo;
    SettleBasics(start, universe, dist, queue, settled, u);
    SettleOrdered(dist, queue, settled, u);
    SettleRelaxed(g, costs, dist, settled, u);
    SettleOptimal(g, costs, start, universe, dist, queue, settled, u);
    SettlePred(g, costs, start, dist, pred, queue, settled, order, steps, u);
  }

  lemma SettleBasics(start: Cell, universe: set<Cell>, dist: map<Cell, real>,
                     queue: set<Cell>, settled: set<Cell>, u: Cell)
    requires Basics(start, universe, dist, queue, settled) && u in queue
    ensures Basics(start, universe, dist, queue - {u}, settled + {u})
    ensures |universe - (settled + {u})| < |universe - settled|
    ensures settled !! queue
  {
    assert universe - (settled + {u}) == (universe - settled) - {u};
  }

  lemma SettleOrdered(dist: map<Cell, real>, queue: set<Cell>, settled: set<Cell>, u: Cell)
    requires Ordered(dist, queue, settled) && queue <= dist.Keys
    requires u in queue && forall w :: w in queue ==> dist[u] <= dist[w]
    ensures Ordered(dist, queue - {u}, settled + {u})
    ensures BelowPolled(dist, settled + {u}, u)
  {
  }

  lemma SettleRelaxed(g: Graph, costs: CostTable, dist: map<Cell, real>, settled: set<Cell>, u: Cell)
    requires AllRelaxed(g, costs, dist, settled, {}) && u in dist
    ensures AllRelaxed(g, costs, dist, settled + {u}, {u})
    ensures RelaxedUpTo(g, costs, dist, u, 0)
  {
  }

  lemma SettleOptimal(g: Graph, costs: CostTable, start: Cell, universe: set<Cell>,
                      dist: map<Cell, real>, queue: set<Cell>, settled: set<Cell>, u: Cell)
    requires Basics(start, universe, dist, queue, settled)
    requires AllRelaxed(g, costs, dist, settled, {})
    requires Optimal(g, costs, start, dist, settled)
    requires u in queue && forall w :: w in queue ==> dist[u] <= dist[w]
    ensures Optimal(g, costs, start, dist, settled + {u})
  {
    PolledIsOptimal(g, costs, start, universe, dist, queue, settled, u);
  }

  lemma SettlePred(g: Graph, costs: CostTable, start: Cell, dist: map<Cell, real>, pred: map<Cell, Cell>,
                   queue: set<Cell>, settled: set<Cell>, order: map<Cell, nat>, steps: nat, u: Cell)
    requires PredInv(g, costs, start, dist, pred, settled, order, steps)
    requires u in queue && settled !! queue
    ensures PredInv(g, costs, start, dist, pred, settled + {u}, order[u := steps], steps + 1)
  {
    var settled', order' := settled + {u}, order[u := steps];
    forall v, w | v in pred && w == pred[v] && v in settled' ensures order'[w] < order'[v] {
      assert w in settled && w != u;
    }
  }

  /** Compared with the labels `dist0` and links `pred0` before the neighbour
      loop of `u`: no label went up, every label that appeared or went down has
      `u` as its predecessor, and a predecessor changed only together with a
      strictly lower label. */
  ghost predicate OnlyLowered(dist0: map<Cell, real>, pred0: map<Cell, Cell>,
                              dist: map<Cell, real>, pred: map<Cell, Cell>, u: Cell)
  {
    && (forall v :: v in dist0 ==> v in dist && dist[v] <= dist0[v])
    && (forall v :: v in dist && (v !in dist0 || dist[v] < dist0[v]) ==> v in pred && pred[v] == u)
    && (forall v :: v in pred && v in dist0 && v in dist && (v !in pred0 || pred[v] != pred0[v]) ==>
          dist[v] < dist0[v])
  }

  lemma UpdateOnlyLowered(dist0: map<Cell, real>, pred0: map<Cell, Cell>,
                          dist: map<Cell, real>, pred: map<Cell, Cell>, u: Cell, y: Cell, newCost: real)
    requires OnlyLowered(dist0, pred0, dist, pred, u)
    requires y !in dist || newCost < dist[y]
    ensures OnlyLowered(dist0, pred0, dist[y := newCost], pred[y := u], u)
  {
  }

  /** A relaxation that changes nothing keeps the neighbour-loop invariant. */
  lemma RelaxSkip(g: Graph, costs: CostTable, start: Cell, universe: set<Cell>, u: Cell, k: nat,
                  dist: map<Cell, real>, pred: map<Cell, Cell>, queue: set<Cell>,
                  settled: set<Cell>, order: map<Cell, nat>, steps: nat)
    requires RelaxInv(g, costs, start, universe, u, k, dist, pred, queue, settled, order, steps)
    requires k < |Neighbours(g, u)|
    requires var y := Neighbours(g, u)[k];
      y.kind == IMPASSABLE || CostCalculator(costs, u, y) < 0.0
      || (y in dist && dist[u] + CostCalculator(costs, u, y) >= dist[y])
    ensures RelaxInv(g, costs, start, universe, u, k + 1, dist, pred, queue, settled, order, steps)
  {
  }

  /** The facts about an improving neighbour `y` that the update lemmas share. */
  ghost predicate Improves(g: Graph, costs: CostTable, start: Cell, dist: map<Cell, real>,
                           settled: set<Cell>, u: Cell, k: nat, y: Cell, newCost: real)
  {
    && k < |Neighbours(g, u)| && y == Neighbours(g, u)[k]
    && u in dist && y.kind != IMPASSABLE && CostCalculator(costs, u, y) >= 0.0
    && newCost == dist[u] + CostCalculator(costs, u, y)
    && (y !in dist || newCost < dist[y])
    && y !in settled && y != start && Move(g, costs, u, y)
  }

  lemma ImprovesFacts(g: Graph, costs: CostTable, start: Cell, universe: set<Cell>, u: Cell, k: nat,
                      dist: map<Cell, real>, queue: set<Cell>, settled: set<Cell>, y: Cell, newCost: real)
    requires Basics(start, universe, dist, queue, settled) && BelowPolled(dist, settled, u)
    requires Universe(g, start) <= universe
    requires k < |Neighbours(g, u)| && y == Neighbours(g, u)[k]
    requires y.kind != IMPASSABLE && CostCalculator(costs, u, y) >= 0.0
    requires newCost == dist[u] + CostCalculator(costs, u, y)
    requires y !in dist || newCost < dist[y]
    ensures Improves(g, costs, start, dist, settled, u, k, y, newCost)
    ensures y in universe
  {
    assert u in g;
    assert y in Universe(g, start);
  }

  lemma UpdateBasics(g: Graph, costs: CostTable, start: Cell, universe: set<Cell>,
                     dist: map<Cell, real>, queue: set<Cell>, settled: set<Cell>,
                     u: Cell, k: nat, y: Cell, newCost: real)
    requires Basics(start, universe, dist, queue, settled) && BelowPolled(dist, settled, u)
    requires Improves(g, costs, start, dist, settled, u, k, y, newCost) && y in universe
    ensures Basics(start, universe, dist[y := newCost], queue + {y}, settled)
    ensures Ordered(dist, queue, settled) ==> Ordered(dist[y := newCost], queue + {y}, settled)
    ensures BelowPolled(dist[y := newCost], settled, u)
  {
  }

  lemma UpdateRelaxed(g: Graph, costs: CostTable, dist: map<Cell, real>, settled: set<Cell>,
                      u: Cell, k: nat, start: Cell, y: Cell, newCost: real)
    requires AllRelaxed(g, costs, dist, settled, {u}) && RelaxedUpTo(g, costs, dist, u, k)
    requires Improves(g, costs, start, dist, settled, u, k, y, newCost)
    ensures AllRelaxed(g, costs, dist[y := newCost], settled, {u})
    ensures RelaxedUpTo(g, costs, dist[y := newCost], u, k + 1)
  {
    var dist' := dist[y := newCost];
    forall s | s in settled && s !in {u} ensures RelaxedFrom(g, costs, dist', s) {
      assert RelaxedFrom(g, costs, dist, s);
      forall z | Move(g, costs, s, z) ensures z in dist' && dist'[z] <= dist'[s] + CostCalculator(costs, s, z) {
      }
    }
  }

  lemma UpdateOptimal(g: Graph, costs: CostTable, start: Cell, dist: map<Cell, real>, settled: set<Cell>,
                      y: Cell, newCost: real)
    requires Optimal(g, costs, start, dist, settled) && y !in settled
    ensures Optimal(g, costs, start, dist[y := newCost], settled)
  {
    forall s | s in settled ensures s in dist[y := newCost] && IsLowerBound(g, costs, start, s, dist[y := newCost][s]) {
      assert dist[y := newCost][s] == dist[s];
    }
  }

  lemma UpdatePred(g: Graph, costs: CostTable, start: Cell, dist: map<Cell, real>, pred: map<Cell, Cell>,
                   settled: set<Cell>, order: map<Cell, nat>, steps: nat, u: Cell, k: nat, y: Cell, newCost: real)
    requires PredInv(g, costs, start, dist, pred, settled, order, steps) && u in settled
    requires Improves(g, costs, start, dist, settled, u, k, y, newCost)
    ensures PredInv(g, costs, start, dist[y := newCost], pred[y := u], settled, order, steps)
  {
    var dist', pred' := dist[y := newCost], pred[y := u];
    forall v | v in pred'
      ensures pred'[v] in settled && pred'[v] in dist' && Move(g, costs, pred'[v], v)
        && dist'[v] == dist'[pred'[v]] + CostCalculator(costs, pred'[v], v)
    {
      if v != y {
        assert pred[v] in settled && pred[v] != y;
      }
    }
  }

  /** After the last neighbour, the polled tile joins the relaxed tiles. */
  lemma RelaxDone(g: Graph, costs: CostTable, dist: map<Cell, real>, settled: set<Cell>, u: Cell)
    requires AllRelaxed(g, costs, dist, settled, {u})
    requires RelaxedUpTo(g, costs, dist, u, |Neighbours(g, u)|)
    ensures AllRelaxed(g, costs, dist, settled, {})
  {
    assert RelaxedFrom(g, costs, dist, u) by {
      forall z | Move(g, costs, u, z) ensures z in dist && dist[z] <= dist[u] + CostCalculator(costs, u, z) {
        var j :| 0 <= j < |Neighbours(g, u)| && Neighbours(g, u)[j] == z;
      }
    }
  }

  /** The loop over the polled tile's neighbours: a neighbour that is not
      impassable and has a non-negative move cost gets the polled tile's label
      plus that cost, the polled tile as predecessor and a place in the queue,
      whenever that is strictly below its current label (or it has none). */
  method RelaxNeighbours(g: Graph, costs: CostTable, start: Cell, currentTile: Cell,
                         currentCost: map<Cell, real>, previousTile: map<Cell, Cell>, queue: set<Cell>,
                         ghost universe: set<Cell>, ghost settled: set<Cell>,
                         ghost order: map<Cell, nat>, ghost steps: nat)
    returns (dist: map<Cell, real>, pred: map<Cell, Cell>, waiting: set<Cell>)
    requires Universe(g, start) <= universe
    requires RelaxInv(g, costs, start, universe, currentTile, 0, currentCost, previousTile, queue,
                      settled, order, steps)
    ensures SearchInv(g, costs, start, universe, dist, pred, waiting, settled, order, steps)
    ensures OnlyLowered(currentCost, previousTile, dist, pred, currentTile)
  {
    dist, pred, waiting := currentCost, previousTile, queue;
    var adjacent := Neighbours(g, currentTile);
    for k := 0 to |adjacent|
      invariant RelaxInv(g, costs, start, universe, currentTile, k, dist, pred, waiting, settled, order, steps)
      invariant OnlyLowered(currentCost, previousTile, dist, pred, currentTile)
    {
      var neighbor := adjacent[k];
      ghost var before := (dist, pred, waiting);
      if neighbor.kind != IMPASSABLE {
        var movingCost := CostCalculator(costs, currentTile, neighbor);
        if movingCost >= 0.0 {
          var newCost := dist[currentTile] + movingCost;
          if neighbor !in dist || newCost < dist[neighbor] {
            ImprovesFacts(g, costs, start, universe, currentTile, k, dist, waiting, settled, neighbor, newCost);
            UpdateBasics(g, costs, start, universe, dist, waiting, settled, currentTile, k, neighbor, newCost);
            UpdateRelaxed(g, costs, dist, settled, currentTile, k, start, neighbor, newCost);
            UpdateOptimal(g, costs, start, dist, settled, neighbor, newCost);
            UpdatePred(g, costs, start, dist, pred, settled, order, steps, currentTile, k, neighbor, newCost);
            UpdateOnlyLowered(currentCost, previousTile, dist, pred, currentTile, neighbor, newCost);
            dist := dist[neighbor := newCost];
            pred := pred[neighbor := currentTile];
            waiting := waiting + {neighbor};
          }
        }
      }
      if (dist, pred, waiting) == before {
        RelaxSkip(g, costs, start, universe, currentTile, k, dist, pred, waiting, settled, order, steps);
      }
    }
    RelaxDone(g, costs, dist, settled, currentTile);
  }

  /** One step of the backward walk: prepending a permitted move to a walk. */
  lemma PrependMove(g: Graph, costs: CostTable, a: Cell, w: seq<Cell>)
    requires |w| > 0 && Move(g, costs, a, w[0]) && IsWalk(g, costs, w)
    ensures IsWalk(g, costs, [a] + w)
    ensures PathCost(costs, [a] + w) == CostCalculator(costs, a, w[0]) + PathCost(costs, w)
  {
    WalkJoin(g, costs, [a, w[0]], w);
    assert [a, w[0]] + w[1..] == [a] + w;
    assert ([a] + w)[1..] == w;
  }

  /** The backward walk over predecessor links from the objective to the
      start, then reversed. */
  method Backtrack(ghost g: Graph, ghost costs: CostTable, start: Cell, objective: Cell,
                   ghost dist: map<Cell, real>, previousTile: map<Cell, Cell>,
                   ghost settled: set<Cell>, ghost order: map<Cell, nat>, ghost steps: nat)
    returns (path: seq<Cell>)
    requires start in dist && dist[start] == 0.0 && objective in previousTile
    requires PredInv(g, costs, start, dist, previousTile, settled, order, steps)
    ensures IsRoute(g, costs, path, start, objective)
    ensures PathCost(costs, path) == dist[objective]
  {
    var shortestPath: seq<Cell> := [];
    var currentTile := objective;
    ghost var walk := [objective];
    while currentTile != start
      invariant currentTile in dist && walk == [currentTile] + Reverse(shortestPath)
      invariant IsRoute(g, costs, walk, currentTile, objective)
      invariant PathCost(costs, walk) + dist[currentTile] == dist[objective]
      decreases if currentTile in order then order[currentTile] else steps
    {
      var previous := previousTile[currentTile];
      PrependMove(g, costs, previous, walk);
      assert Reverse(shortestPath + [currentTile]) == walk;
      shortestPath := shortestPath + [currentTile];
      currentTile := previous;
      walk := [currentTile] + walk;
    }
    assert Reverse(shortestPath + [start]) == walk;
    shortestPath := shortestPath + [start];
    path := Reverse(shortestPath);
  }

  /** The search loop of `algorithm`: Dijkstra's search from `start` over a
      queue ordered by label, stopping when `objective` is polled. The
      objective ends up with a predecessor exactly when it differs from the
      start and some route reaches it, and its label is then optimal. */
  method Search(g: Graph, costs: CostTable, start: Cell, objective: Cell)
    returns (currentCost: map<Cell, real>, previousTile: map<Cell, Cell>,
             ghost settled: set<Cell>, ghost order: map<Cell, nat>, ghost steps: nat)
    ensures start in currentCost && currentCost[start] == 0.0
    ensures PredInv(g, costs, start, currentCost, previousTile, settled, order, steps)
    ensures objective in previousTile <==> start != objective && Connected(g, costs, start, objective)
    ensures objective in previousTile ==> IsLowerBound(g, costs, start, objective, currentCost[objective])
  {
    hide SearchInv, RelaxInv;
    currentCost := map[start := 0.0];
    previousTile := map[];
    var queue: set<Cell> := {start};
    settled, order, steps := {}, map[], 0;
    ghost var universe := Universe(g, start);
    ghost var polled := false;
    SearchStart(g, costs, start, universe);

    while queue != {}
      invariant SearchInv(g, costs, start, universe, currentCost, previousTile, queue, settled, order, steps)
      invariant objective !in settled
      decreases |universe - settled|
    {
      QueueLabelled(g, costs, start, universe, currentCost, previousTile, queue, settled, order, steps);
      MinimumExists(queue, currentCost);
      var currentTile :| currentTile in queue
        && forall w :: w in queue ==> currentCost[currentTile] <= currentCost[w];
      if currentTile == objective {
        polled := true;
        break;
      }
      PollStep(g, costs, start, universe, currentCost, previousTile, queue, settled, order, steps, currentTile);
      queue := queue - {currentTile};
      settled := settled + {currentTile};
      order := order[currentTile := steps];
      steps := steps + 1;
      currentCost, previousTile, queue :=
        RelaxNeighbours(g, costs, start, currentTile, currentCost, previousTile, queue,
                        universe, settled, order, steps);
    }
    Conclude(g, costs, start, objective, universe, currentCost, previousTile, queue, settled, order, steps, polled);
  }

  /** algorithm: the search, then the path rebuilt from predecessor links.
      The result is empty when the objective is the start itself (the search
      stops at the first poll and records no predecessor) or cannot be
      reached; otherwise it is a route from start to objective of least
      total cost. */
  method Algorithm(g: Graph, costs: CostTable, start: Cell, objective: Cell) returns (path: seq<Cell>)
    ensures path == [] <==> (start == objective || !Connected(g, costs, start, objective))
    ensures path != [] ==> IsRoute(g, costs, path, start, objective)
    ensures path != [] ==> IsLowerBound(g, costs, start, objective, PathCost(costs, path))
  {
    var currentCost, previousTile, settled, order, steps := Search(g, costs, start, objective);
    if objective !in previousTile {
      return [];
    }
    path := Backtrack(g, costs, start, objective, currentCost, previousTile, settled, order, steps);
  }
}
