/** The owner mask (`InitLevelMask`): two integer components per cell, the grid id and
    the tile id of the tile that owns the cell, or -1 where no tile does. */
module LevelMask {
  import opened Boxes

  datatype MaskEntry = MaskEntry(grid: int, tile: int)

  /** Value written for cells no tile owns. */
  const NoOwner := MaskEntry(-1, -1)

  /** A tile of the local grids: its box and its (grid id, tile id). */
  datatype TileBox = TileBox(box: Box, grid: int, tile: int)

  predicate Covers(tiles: seq<TileBox>, i: int, c: Cell)
  {
    0 <= i < |tiles| && Contains(tiles[i].box, c)
  }

  /** Index of the last tile whose box contains `c`, if any. */
  function LastCover(tiles: seq<TileBox>, c: Cell): (r: int)
    ensures -1 <= r < |tiles|
    ensures r >= 0 ==> Covers(tiles, r, c)
    ensures forall j :: r < j < |tiles| ==> !Covers(tiles, j, c)
  {
    if |tiles| == 0 then -1
    else if Contains(tiles[|tiles| - 1].box, c) then |tiles| - 1
    else
      var r := LastCover(tiles[..|tiles| - 1], c);
      assert r >= 0 ==> tiles[..|tiles| - 1][r] == tiles[r];
      assert forall j :: r < j < |tiles| - 1 ==>
        Covers(tiles[..|tiles| - 1], j, c) == Covers(tiles, j, c);
      assert !Covers(tiles, |tiles| - 1, c);
      r
  }

  /** The mask value of cell `c` after every tile has stamped its ids over its box
      (later tiles overwrite earlier ones), before the halo fill. */
  function InitLevelMask(tiles: seq<TileBox>, c: Cell): (r: MaskEntry)
    requires forall i :: 0 <= i < |tiles| ==> tiles[i].grid >= 0 && tiles[i].tile >= 0
    ensures r.grid >= 0 <==> exists i :: Covers(tiles, i, c)
    ensures r.grid < 0 ==> r == NoOwner
    ensures r.grid >= 0 ==>
      exists i :: Covers(tiles, i, c) && r == MaskEntry(tiles[i].grid, tiles[i].tile)
        && forall j :: i < j < |tiles| ==> !Covers(tiles, j, c)
  {
    var k := LastCover(tiles, c);
    if k < 0 then NoOwner else MaskEntry(tiles[k].grid, tiles[k].tile)
  }

  /** With disjoint tile boxes the mask names the one tile that contains the cell. */
  lemma MaskNamesOwner(tiles: seq<TileBox>, c: Cell, i: int)
    requires forall j :: 0 <= j < |tiles| ==> tiles[j].grid >= 0 && tiles[j].tile >= 0
    requires forall j, k :: 0 <= j < k < |tiles| ==> !(Covers(tiles, j, c) && Covers(tiles, k, c))
    requires Covers(tiles, i, c)
    ensures InitLevelMask(tiles, c) == MaskEntry(tiles[i].grid, tiles[i].tile)
  {
    var k := LastCover(tiles, c);
    assert k == i;
  }
}
