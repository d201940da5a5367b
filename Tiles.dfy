/** Map tiles: a position on the grid, a terrain type and the list of
    neighbouring tiles the map links it to. */
module Tiles {

  /** Terrain types as the code uses them: 0 grass, 1 sand, 2 impassable. */
  const GRASS := 0
  const SAND := 1
  const IMPASSABLE := 2

  /** What identifies a tile: column, row and type. */
  datatype Cell = Cell(column: int, row: int, kind: int)

  class Tile {
    const column: int
    const row: int
    const kind: int
    /** Neighbouring tiles, in the order they were added. */
    var adjacent: seq<Tile>
    /** Whether the tile lies on the knight's path (display only). */
    var marked: bool

    constructor (column: int, row: int, kind: int)
      ensures this.column == column && this.row == row && this.kind == kind
      ensures adjacent == [] && !marked
    {
      this.column := column;
      this.row := row;
      this.kind := kind;
      adjacent := [];
      marked := false;
    }

    /** The tile's identity as a value. */
    function Id(): (c: Cell)
      ensures c.column == column && c.row == row && c.kind == kind
    {
      Cell(column, row, kind)
    }

    /** Same column, same row and same type. */
    predicate IsEqual(other: Tile)
    {
      column == other.column && row == other.row && kind == other.kind
    }

    function AdjacentTiles(): seq<Tile>
      reads this
    {
      adjacent
    }

    predicate IsMarked()
      reads this
    {
      marked
    }

    method AddAdjacentTile(tile: Tile)
      modifies this`adjacent
      ensures adjacent == old(adjacent) + [tile]
    {
      adjacent := adjacent + [tile];
    }

    method SetMarked(b: bool)
      modifies this`marked
      ensures IsMarked() == b
    {
      marked := b;
    }
  }

  /** `IsEqual` compares tiles by their identity values, so it is an
      equivalence relation. */
  lemma IsEqualIsIdentity(a: Tile, b: Tile, c: Tile)
    ensures a.IsEqual(b) <==> a.Id() == b.Id()
    ensures a.IsEqual(a)
    ensures a.IsEqual(b) ==> b.IsEqual(a)
    ensures a.IsEqual(b) && b.IsEqual(c) ==> a.IsEqual(c)
  {
  }

  /** The identity values of a list of tiles. */
  function Ids(ts: seq<Tile>): (cs: seq<Cell>)
    ensures |cs| == |ts|
    ensures forall k :: 0 <= k < |ts| ==> cs[k] == ts[k].Id()
  {
    seq(|ts|, k requires 0 <= k < |ts| => ts[k].Id())
  }
}
