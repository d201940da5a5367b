/** The search graph, the travel-cost table, and paths over them. */
module Routes {
  import opened Tiles

  /** Each tile's adjacency list, as identity values; a tile missing from the
      map has no neighbours. */
  type Graph = map<Cell, seq<Cell>>

  /** Travel costs keyed by the ordered coordinates (x1, y1, x2, y2). */
  type CostTable = map<(int, int, int, int), real>

  /** One line of the travel-cost file: x1 y1 x2 y2 cost. */
  datatype Record = Record(x1: int, y1: int, x2: int, y2: int, cost: real)

  function Neighbours(g: Graph, c: Cell): seq<Cell>
  {
    if c in g then g[c] else []
  }

  function Key(a: Cell, b: Cell): (int, int, int, int)
  {
    (a.column, a.row, b.column, b.row)
  }

  function Swap(k: (int, int, int, int)): (int, int, int, int)
  {
    (k.2, k.3, k.0, k.1)
  }

  /** The cost of moving from `a` to `b`, or -1 when the table has no entry
      for that ordered pair of positions. Only positions matter, not types. */
  function CostCalculator(costs: CostTable, a: Cell, b: Cell): (r: real)
    ensures Key(a, b) in costs ==> r == costs[Key(a, b)]
    ensures Key(a, b) !in costs ==> r == -1.0
  {
    if Key(a, b) in costs then costs[Key(a, b)] else -1.0
  }

  /** The key of a record in the direction it was written, and reversed. */
  function Forward(rec: Record): (int, int, int, int)
  {
    (rec.x1, rec.y1, rec.x2, rec.y2)
  }

  function Backward(rec: Record): (int, int, int, int)
  {
    (rec.x2, rec.y2, rec.x1, rec.y1)
  }

  /** Storing one record: its cost under both directions of the pair. */
  function AddRecord(costs: CostTable, rec: Record): (r: CostTable)
    ensures r.Keys == costs.Keys + {Forward(rec), Backward(rec)}
    ensures r[Forward(rec)] == rec.cost
    ensures r[Backward(rec)] == rec.cost
    ensures forall k :: k in costs && k != Forward(rec) && k != Backward(rec) ==> r[k] == costs[k]
  {
    costs[Forward(rec) := rec.cost][Backward(rec) := rec.cost]
  }

  /** The table after reading the records in file order. Its keys are
      exactly both directions of every record's pair of positions. */
  function LoadTable(records: seq<Record>): (r: CostTable)
    ensures forall i :: 0 <= i < |records| ==> Forward(records[i]) in r && Backward(records[i]) in r
    ensures forall k :: k in r ==>
              exists i :: 0 <= i < |records| && (k == Forward(records[i]) || k == Backward(records[i]))
  {
    if records == [] then map[]
    else
      var prefix, last := records[..|records| - 1], records[|records| - 1];
      AddRecordCovers(LoadTable(prefix), records, prefix, last);
      AddRecordOnly(LoadTable(prefix), records, prefix, last);
      AddRecord(LoadTable(prefix), last)
  }

  /** Storing the last record keeps every key of the records before it and
      adds its own. */
  lemma AddRecordCovers(costs: CostTable, records: seq<Record>, prefix: seq<Record>, last: Record)
    requires records == prefix + [last]
    requires forall i :: 0 <= i < |prefix| ==> Forward(prefix[i]) in costs && Backward(prefix[i]) in costs
    ensures forall i :: 0 <= i < |records| ==>
              Forward(records[i]) in AddRecord(costs, last) && Backward(records[i]) in AddRecord(costs, last)
  {
    forall i | 0 <= i < |records|
      ensures Forward(records[i]) in AddRecord(costs, last) && Backward(records[i]) in AddRecord(costs, last)
    {
      if i < |prefix| {
        assert records[i] == prefix[i];
      }
    }
  }

  /** Storing the last record adds no key other than its own two. */
  lemma AddRecordOnly(costs: CostTable, records: seq<Record>, prefix: seq<Record>, last: Record)
    requires records == prefix + [last]
    requires forall k :: k in costs ==>
               exists i :: 0 <= i < |prefix| && (k == Forward(prefix[i]) || k == Backward(prefix[i]))
    ensures forall k :: k in AddRecord(costs, last) ==>
              exists i :: 0 <= i < |records| && (k == Forward(records[i]) || k == Backward(records[i]))
  {
    forall k | k in AddRecord(costs, last)
      ensures exists i :: 0 <= i < |records| && (k == Forward(records[i]) || k == Backward(records[i]))
    {
      if k == Forward(last) || k == Backward(last) {
        assert records[|records| - 1] == last;
      } else {
        var i :| 0 <= i < |prefix| && (k == Forward(prefix[i]) || k == Backward(prefix[i]));
        assert records[i] == prefix[i];
      }
    }
  }

  /** Reading the records from the last one back: the cost of the last record
      that joins the positions of `a` and `b`, in either order, or -1 when no
      record joins them. */
  function LastRecordCost(records: seq<Record>, a: Cell, b: Cell): real
  {
    if records == [] then -1.0
    else
      var rec := records[|records| - 1];
      if (rec.x1 == a.column && rec.y1 == a.row && rec.x2 == b.column && rec.y2 == b.row)
        || (rec.x1 == b.column && rec.y1 == b.row && rec.x2 == a.column && rec.y2 == a.row)
      then rec.cost
      else LastRecordCost(records[..|records| - 1], a, b)
  }

  /** A cost lookup on the loaded table answers with the last record joining
      the two positions, in either direction, and -1 when none does: later
      lines of the file overwrite earlier ones. */
  lemma {:induction false} LoadTableLookup(records: seq<Record>, a: Cell, b: Cell)
    ensures CostCalculator(LoadTable(records), a, b) == LastRecordCost(records, a, b)
  {
    if records != [] {
      LoadTableLookup(records[..|records| - 1], a, b);
    }
  }

  ghost predicate Symmetric(costs: CostTable)
  {
    forall k :: k in costs ==> Swap(k) in costs && costs[Swap(k)] == costs[k]
  }

  lemma AddRecordKeepsSymmetric(costs: CostTable, rec: Record)
    requires Symmetric(costs)
    ensures Symmetric(AddRecord(costs, rec))
  {
    var r := AddRecord(costs, rec);
    forall k | k in r ensures Swap(k) in r && r[Swap(k)] == r[k] {
      if k != Forward(rec) && k != Backward(rec) {
        assert Swap(k) != Forward(rec) && Swap(k) != Backward(rec);
      }
    }
  }

  /** Every table loaded from records is symmetric, so a cost lookup does not
      depend on the direction of the move. */
  lemma {:induction false} LoadedTableIsSymmetric(records: seq<Record>, a: Cell, b: Cell)
    ensures Symmetric(LoadTable(records))
    ensures CostCalculator(LoadTable(records), a, b) == CostCalculator(LoadTable(records), b, a)
  {
    if records != [] {
      LoadedTableIsSymmetric(records[..|records| - 1], a, b);
      AddRecordKeepsSymmetric(LoadTable(records[..|records| - 1]), records[|records| - 1]);
    }
    var t := LoadTable(records);
    assert Swap(Key(a, b)) == Key(b, a) && Swap(Key(b, a)) == Key(a, b);
  }

  /** A move the search may take: into a neighbour that is not impassable,
      with a non-negative cost. */
  predicate Move(g: Graph, costs: CostTable, a: Cell, b: Cell)
  {
    b in Neighbours(g, a) && b.kind != IMPASSABLE && CostCalculator(costs, a, b) >= 0.0
  }

  /** Every step between consecutive tiles is a permitted move. */
  predicate IsWalk(g: Graph, costs: CostTable, p: seq<Cell>)
  {
    forall i, j :: 0 <= i < |p| - 1 && j == i + 1 ==> Move(g, costs, p[i], p[j])
  }

  /** A non-empty walk from `a` to `b`. */
  predicate IsRoute(g: Graph, costs: CostTable, p: seq<Cell>, a: Cell, b: Cell)
  {
    |p| > 0 && p[0] == a && p[|p| - 1] == b && IsWalk(g, costs, p)
  }

  ghost predicate Connected(g: Graph, costs: CostTable, a: Cell, b: Cell)
  {
    exists p :: IsRoute(g, costs, p, a, b)
  }

  /** Sum of the cost lookups over consecutive pairs; 0 for fewer than two tiles. */
  function PathCost(costs: CostTable, p: seq<Cell>): real
  {
    if |p| < 2 then 0.0 else CostCalculator(costs, p[0], p[1]) + PathCost(costs, p[1..])
  }

  /** `d` is no more than the cost of any route from `a` to `b`. */
  ghost predicate IsLowerBound(g: Graph, costs: CostTable, a: Cell, b: Cell, d: real)
  {
    forall p :: IsRoute(g, costs, p, a, b) ==> d <= PathCost(costs, p)
  }

  /** Extending a path by one tile adds the cost of that last step. */
  lemma {:induction false} PathCostSnoc(costs: CostTable, p: seq<Cell>, x: Cell)
    requires |p| > 0
    ensures PathCost(costs, p + [x]) == PathCost(costs, p) + CostCalculator(costs, p[|p| - 1], x)
  {
    if |p| > 1 {
      assert (p + [x])[1..] == p[1..] + [x];
      PathCostSnoc(costs, p[1..], x);
    }
  }

  /** Path cost is additive over two paths joined at a shared junction tile
      that is kept once. */
  lemma {:induction false} PathCostJoin(costs: CostTable, a: seq<Cell>, b: seq<Cell>)
    requires |a| > 0 && |b| > 0 && a[|a| - 1] == b[0]
    ensures PathCost(costs, a + b[1..]) == PathCost(costs, a) + PathCost(costs, b)
  {
    if |a| == 1 {
      assert a + b[1..] == b;
    } else {
      assert (a + b[1..])[1..] == a[1..] + b[1..];
      PathCostJoin(costs, a[1..], b);
    }
  }

  /** Two walks joined at a shared junction tile form a walk. */
  lemma WalkJoin(g: Graph, costs: CostTable, a: seq<Cell>, b: seq<Cell>)
    requires |a| > 0 && |b| > 0 && a[|a| - 1] == b[0]
    requires IsWalk(g, costs, a) && IsWalk(g, costs, b)
    ensures IsWalk(g, costs, a + b[1..])
  {
    var p := a + b[1..];
    forall i, j | 0 <= i < |p| - 1 && j == i + 1 ensures Move(g, costs, p[i], p[j]) {
      if j >= |a| {
        assert p[i] == b[i - |a| + 1] && p[j] == b[j - |a| + 1];
        assert Move(g, costs, b[i - |a| + 1], b[j - |a| + 1]);
      } else {
        assert Move(g, costs, a[i], a[j]);
      }
    }
  }

  /** A route passes both of its ends. */
  lemma RouteEnds(g: Graph, costs: CostTable, p: seq<Cell>, a: Cell, b: Cell)
    requires IsRoute(g, costs, p, a, b)
    ensures a in p && b in p
  {
  }

  /** A route from a to b followed by a route from b on to a different c,
      with b kept once, is a route from a to c that costs the two together
      and passes every tile of the first and the end c. */
  lemma RouteJoin(g: Graph, costs: CostTable, p: seq<Cell>, q: seq<Cell>, a: Cell, b: Cell, c: Cell)
    requires IsRoute(g, costs, p, a, b) && IsRoute(g, costs, q, b, c) && b != c
    ensures IsRoute(g, costs, p + q[1..], a, c)
    ensures PathCost(costs, p + q[1..]) == PathCost(costs, p) + PathCost(costs, q)
    ensures forall x :: x in p ==> x in p + q[1..]
    ensures c in p + q[1..]
  {
    WalkJoin(g, costs, p, q);
    PathCostJoin(costs, p, q);
    assert q[|q| - 1] in q[1..];
  }

  /** Every step of a walk costs at least 0, so a walk costs at least 0. */
  lemma {:induction false} WalkCostNonNegative(g: Graph, costs: CostTable, p: seq<Cell>)
    requires IsWalk(g, costs, p)
    ensures PathCost(costs, p) >= 0.0
  {
    if |p| >= 2 {
      assert Move(g, costs, p[0], p[1]);
      assert IsWalk(g, costs, p[1..]) by {
        forall i, j | 0 <= i < |p[1..]| - 1 && j == i + 1 ensures Move(g, costs, p[1..][i], p[1..][j]) {
          assert Move(g, costs, p[i + 1], p[j + 1]);
        }
      }
      WalkCostNonNegative(g, costs, p[1..]);
    }
  }
}
