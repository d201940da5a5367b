/** The map: a `col` by `row` grid of tiles, the knight and the coins, and
    the four-neighbour adjacency that links the tiles into the search graph. */
module GameMap {
  import opened Tiles
  import opened Routes

  /** Where a knight or a coin stands: a column and a row. */
  datatype Position = Position(colNum: int, rowNum: int)

  datatype Option<T> = None | Some(value: T)

  /** The in-range cells among (i-1, j), (i+1, j), (i, j-1), (i, j+1), in
      that order: the positions `adjacentFinder` links cell (i, j) to. */
  function NeighbourPositions(col: int, row: int, i: int, j: int): seq<(int, int)>
  {
    (if i > 0 then [(i - 1, j)] else [])
    + (if i < col - 1 then [(i + 1, j)] else [])
    + (if j > 0 then [(i, j - 1)] else [])
    + (if j < row - 1 then [(i, j + 1)] else [])
  }

  /** Cells `a` and `b` share a side. */
  predicate SideBySide(a: (int, int), b: (int, int))
  {
    (a.0 == b.0 && (a.1 == b.1 + 1 || b.1 == a.1 + 1))
    || (a.1 == b.1 && (a.0 == b.0 + 1 || b.0 == a.0 + 1))
  }

  predicate InGrid(col: int, row: int, p: (int, int))
  {
    0 <= p.0 < col && 0 <= p.1 < row
  }

  /** A cell's neighbours are exactly the in-grid cells that share a side with
      it; there are at most four of them, all different. */
  lemma NeighbourPositionsSpec(col: int, row: int, i: int, j: int, p: (int, int))
    requires InGrid(col, row, (i, j))
    ensures p in NeighbourPositions(col, row, i, j) <==> InGrid(col, row, p) && SideBySide((i, j), p)
    ensures |NeighbourPositions(col, row, i, j)| <= 4
    ensures forall k, l :: 0 <= k < l < |NeighbourPositions(col, row, i, j)| ==>
              NeighbourPositions(col, row, i, j)[k] != NeighbourPositions(col, row, i, j)[l]
  {
  }

  /** Adjacency is symmetric and never links a cell to itself. */
  lemma NeighbourPositionsSymmetric(col: int, row: int, p: (int, int), q: (int, int))
    requires InGrid(col, row, p) && InGrid(col, row, q)
    ensures q in NeighbourPositions(col, row, p.0, p.1) <==> p in NeighbourPositions(col, row, q.0, q.1)
    ensures p !in NeighbourPositions(col, row, p.0, p.1)
  {
    NeighbourPositionsSpec(col, row, p.0, p.1, q);
    NeighbourPositionsSpec(col, row, q.0, q.1, p);
    NeighbourPositionsSpec(col, row, p.0, p.1, p);
  }

  /** Appending four lists one after the other appends their concatenation. */
  lemma AppendFour<T>(s: seq<T>, a: seq<T>, b: seq<T>, c: seq<T>, d: seq<T>)
    ensures s + a + b + c + d == s + (a + b + c + d)
  {
  }

  class Map {
    const col: nat
    const row: nat
    /** tiles[c, r] is the tile in column c, row r, or null until filled. */
    const tiles: array2<Tile?>
    var coins: seq<Position>
    var knight: Option<Position>

    constructor (col: nat, row: nat)
      ensures this.col == col && this.row == row
      ensures fresh(tiles) && tiles.Length0 == col && tiles.Length1 == row
      ensures forall c, r :: 0 <= c < col && 0 <= r < row ==> tiles[c, r] == null
      ensures coins == [] && knight == None
    {
      this.col := col;
      this.row := row;
      tiles := new Tile?[col, row]((c, r) => null);
      coins := [];
      knight := None;
    }

    /** Every cell holds a tile that carries that cell's column and row. */
    predicate Filled()
      reads tiles
    {
      && tiles.Length0 == col && tiles.Length1 == row
      && forall c, r :: 0 <= c < col && 0 <= r < row ==>
           tiles[c, r] != null && tiles[c, r].column == c && tiles[c, r].row == r
    }

    /** The tile objects of the grid. */
    function Objects(): set<Tile?>
      reads tiles
      requires tiles.Length0 == col && tiles.Length1 == row
    {
      set c, r | 0 <= c < col && 0 <= r < row :: tiles[c, r]
    }

    /** fillTiles: stores `tile` in cell (colNum, rowNum). */
    method FillTiles(colNum: int, rowNum: int, tile: Tile)
      requires tiles.Length0 == col && tiles.Length1 == row
      requires 0 <= colNum < col && 0 <= rowNum < row
      modifies tiles
      ensures tiles[colNum, rowNum] == tile
      ensures forall c, r :: 0 <= c < col && 0 <= r < row && (c, r) != (colNum, rowNum) ==>
                tiles[c, r] == old(tiles[c, r])
    {
      tiles[colNum, rowNum] := tile;
    }

    method SetKnight(k: Position)
      modifies this`knight
      ensures knight == Some(k)
    {
      knight := Some(k);
    }

    method AddCoin(coin: Position)
      modifies this`coins
      ensures coins == old(coins) + [coin]
    {
      coins := coins + [coin];
    }

    /** The tiles `adjacentFinder` appends to cell (i, j)'s list, in order. */
    function NeighbourTiles(i: int, j: int): (ts: seq<Tile>)
      reads tiles
      requires Filled() && 0 <= i < col && 0 <= j < row
      ensures |ts| == |NeighbourPositions(col, row, i, j)|
      ensures forall k :: 0 <= k < |ts| ==>
                ts[k] == tiles[NeighbourPositions(col, row, i, j)[k].0, NeighbourPositions(col, row, i, j)[k].1]
    {
      (if i > 0 then [tiles[i - 1, j]] else [])
      + (if i < col - 1 then [tiles[i + 1, j]] else [])
      + (if j > 0 then [tiles[i, j - 1]] else [])
      + (if j < row - 1 then [tiles[i, j + 1]] else [])
    }

    /** adjacentFinder: visits the cells column by column and appends to each
        tile's list its in-range neighbours (left, right, up, down). */
    method AdjacentFinder()
      requires Filled()
      modifies Objects()`adjacent
      ensures forall c, r :: 0 <= c < col && 0 <= r < row ==>
                tiles[c, r].adjacent == old(tiles[c, r].adjacent) + NeighbourTiles(c, r)
      ensures forall c, r :: 0 <= c < col && 0 <= r < row ==> tiles[c, r].marked == old(tiles[c, r].marked)
      ensures (forall c, r :: 0 <= c < col && 0 <= r < row ==> old(tiles[c, r].adjacent) == []) ==> Linked()
    {
      hide NeighbourTiles;
      for i := 0 to col
        invariant forall c, r :: 0 <= c < i && 0 <= r < row ==>
          tiles[c, r].adjacent == old(tiles[c, r].adjacent) + NeighbourTiles(c, r)
        invariant forall c, r :: i <= c < col && 0 <= r < row ==>
          tiles[c, r].adjacent == old(tiles[c, r].adjacent)
      {
        for j := 0 to row
          invariant forall c, r :: 0 <= c < i && 0 <= r < row ==>
            tiles[c, r].adjacent == old(tiles[c, r].adjacent) + NeighbourTiles(c, r)
          invariant forall r :: 0 <= r < j ==>
            tiles[i, r].adjacent == old(tiles[i, r].adjacent) + NeighbourTiles(i, r)
          invariant forall r :: j <= r < row ==> tiles[i, r].adjacent == old(tiles[i, r].adjacent)
          invariant forall c, r :: i < c < col && 0 <= r < row ==>
            tiles[c, r].adjacent == old(tiles[c, r].adjacent)
        {
          AddNeighbours(i, j);
        }
      }
    }

    /** The body of the inner loop of `adjacentFinder`, for cell (i, j). */
    method AddNeighbours(i: int, j: int)
      requires Filled() && 0 <= i < col && 0 <= j < row
      modifies tiles[i, j]`adjacent
      ensures tiles[i, j].adjacent == old(tiles[i, j].adjacent) + NeighbourTiles(i, j)
      ensures tiles[i, j].marked == old(tiles[i, j].marked)
    {
      hide NeighbourTiles, Filled;
      NeighbourTilesParts(i, j);
      var t := tiles[i, j];
      ghost var left := if i > 0 then [tiles[i - 1, j]] else [];
      ghost var right := if i < col - 1 then [tiles[i + 1, j]] else [];
      ghost var up := if j > 0 then [tiles[i, j - 1]] else [];
      if i > 0 {
        t.AddAdjacentTile(tiles[i - 1, j]);
      }
      assert t.adjacent == old(t.adjacent) + left;
      if i < col - 1 {
        t.AddAdjacentTile(tiles[i + 1, j]);
      }
      assert t.adjacent == old(t.adjacent) + left + right;
      if j > 0 {
        t.AddAdjacentTile(tiles[i, j - 1]);
      }
      assert t.adjacent == old(t.adjacent) + left + right + up;
      ghost var down := if j < row - 1 then [tiles[i, j + 1]] else [];
      if j < row - 1 {
        t.AddAdjacentTile(tiles[i, j + 1]);
      }
      assert t.adjacent == old(t.adjacent) + left + right + up + down;
      AppendFour(old(t.adjacent), left, right, up, down);
    }

    /** The four parts of cell (i, j)'s neighbour tiles, in append order. */
    lemma NeighbourTilesParts(i: int, j: int)
      requires Filled() && 0 <= i < col && 0 <= j < row
      ensures tiles.Length0 == col && tiles.Length1 == row && tiles[i, j] != null
      ensures i > 0 ==> tiles[i - 1, j] != null
      ensures i < col - 1 ==> tiles[i + 1, j] != null
      ensures j > 0 ==> tiles[i, j - 1] != null
      ensures j < row - 1 ==> tiles[i, j + 1] != null
      ensures NeighbourTiles(i, j) == (if i > 0 then [tiles[i - 1, j]] else [])
        + (if i < col - 1 then [tiles[i + 1, j]] else [])
        + (if j > 0 then [tiles[i, j - 1]] else [])
        + (if j < row - 1 then [tiles[i, j + 1]] else [])
    {
    }

    /** Every tile's list is exactly its neighbours: the state `adjacentFinder`
        leaves when every list starts empty. */
    ghost predicate Linked()
      reads tiles, Objects()
      requires Filled()
    {
      forall c, r :: 0 <= c < col && 0 <= r < row ==> tiles[c, r].adjacent == NeighbourTiles(c, r)
    }

    /** isKnightOnCoin: the knight stands on coin `objectiveNum`. */
    predicate IsKnightOnCoin(objectiveNum: int)
      reads this
      requires knight.Some? && 0 <= objectiveNum < |coins|
      ensures IsKnightOnCoin(objectiveNum) <==> knight.value == coins[objectiveNum]
    {
      knight.value.colNum == coins[objectiveNum].colNum && knight.value.rowNum == coins[objectiveNum].rowNum
    }

    /** knightIsOn: the tile under the given knight. */
    function KnightIsOn(k: Position): (t: Tile?)
      reads tiles
      requires tiles.Length0 == col && tiles.Length1 == row
      requires 0 <= k.colNum < col && 0 <= k.rowNum < row
      ensures Filled() ==> t != null && t.column == k.colNum && t.row == k.rowNum
      ensures Filled() ==> t in Objects()
    {
      tiles[k.colNum, k.rowNum]
    }

    /** coinIsOn: the tile under the given coin. */
    function CoinIsOn(coin: Position): (t: Tile?)
      reads tiles
      requires tiles.Length0 == col && tiles.Length1 == row
      requires 0 <= coin.colNum < col && 0 <= coin.rowNum < row
      ensures Filled() ==> t != null && t.column == coin.colNum && t.row == coin.rowNum
      ensures Filled() ==> t in Objects()
    {
      tiles[coin.colNum, coin.rowNum]
    }

    /** The search graph as values: each tile's identity mapped to the
        identities of its listed neighbours. */
    function Snapshot(): (g: Graph)
      reads tiles, Objects()
      requires Filled()
      ensures forall c, r :: 0 <= c < col && 0 <= r < row ==>
                tiles[c, r].Id() in g && g[tiles[c, r].Id()] == Ids(tiles[c, r].adjacent)
      ensures forall v :: v in g ==> 0 <= v.column < col && 0 <= v.row < row && v == tiles[v.column, v.row].Id()
    {
      map c, r | 0 <= c < col && 0 <= r < row :: tiles[c, r].Id() := Ids(tiles[c, r].adjacent)
    }
  }

  /** In the graph of a linked map, a tile lists another exactly when that one
      lists it back, and no tile lists itself. */
  lemma SnapshotSymmetric(m: Map, a: Cell, b: Cell)
    requires m.Filled() && m.Linked()
    requires a in m.Snapshot() && b in m.Snapshot()
    ensures b in m.Snapshot()[a] <==> a in m.Snapshot()[b]
    ensures a !in m.Snapshot()[a]
  {
    var g := m.Snapshot();
    var p, q := (a.column, a.row), (b.column, b.row);
    NeighbourPositionsSymmetric(m.col, m.row, p, q);
    LinkedList(m, a, b);
    LinkedList(m, b, a);
    LinkedList(m, a, a);
  }

  /** In the graph of a linked map, `b` is listed by `a` exactly when `b`'s
      cell neighbours `a`'s. */
  lemma LinkedList(m: Map, a: Cell, b: Cell)
    requires m.Filled() && m.Linked()
    requires a in m.Snapshot() && b in m.Snapshot()
    ensures b in m.Snapshot()[a] <==> (b.column, b.row) in NeighbourPositions(m.col, m.row, a.column, a.row)
  {
    hide m.NeighbourTiles, m.Snapshot;
    ListedIsNeighbour(m, a, b);
    NeighbourIsListed(m, a, b);
  }

  lemma ListedIsNeighbour(m: Map, a: Cell, b: Cell)
    requires m.Filled() && m.Linked()
    requires a in m.Snapshot() && b in m.Snapshot()
    ensures b in m.Snapshot()[a] ==> (b.column, b.row) in NeighbourPositions(m.col, m.row, a.column, a.row)
  {
    hide m.NeighbourTiles;
    var ts := m.NeighbourTiles(a.column, a.row);
    var ps := NeighbourPositions(m.col, m.row, a.column, a.row);
    assert m.Snapshot()[a] == Ids(ts);
    if b in Ids(ts) {
      var k :| 0 <= k < |ts| && Ids(ts)[k] == b;
      var p := ps[k];
      NeighbourPositionsSpec(m.col, m.row, a.column, a.row, p);
      var t := m.tiles[p.0, p.1];
      assert ts[k] == t && t.Id() == b;
      assert t.column == p.0 && t.row == p.1;
    }
  }

  lemma NeighbourIsListed(m: Map, a: Cell, b: Cell)
    requires m.Filled() && m.Linked()
    requires a in m.Snapshot() && b in m.Snapshot()
    ensures (b.column, b.row) in NeighbourPositions(m.col, m.row, a.column, a.row) ==> b in m.Snapshot()[a]
  {
    hide m.NeighbourTiles;
    var ts := m.NeighbourTiles(a.column, a.row);
    var ps := NeighbourPositions(m.col, m.row, a.column, a.row);
    assert m.Snapshot()[a] == Ids(ts);
    if (b.column, b.row) in ps {
      var k :| 0 <= k < |ps| && ps[k] == (b.column, b.row);
      assert Ids(ts)[k] == b;
    }
  }

  /** A tile of a linked map has at most four neighbours in the graph. */
  lemma SnapshotDegree(m: Map, a: Cell)
    requires m.Filled() && m.Linked() && a in m.Snapshot()
    ensures |m.Snapshot()[a]| <= 4
  {
    NeighbourPositionsSpec(m.col, m.row, a.column, a.row, (a.column, a.row));
  }
}
