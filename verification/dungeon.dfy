/** The static tile grid the pathfinder reads (the source's DungeonData). */
module Dungeon {
  import opened PathTypes

  datatype Tile = Wall | Floor

  /** Row-major tiles; `Valid` is the invariant the content generator keeps. */
  datatype Grid = Grid(width: nat, height: nat, tiles: seq<Tile>)
  {
    predicate Valid() { |tiles| == width * height }

    predicate InGrid(p: Pos) { 0 <= p.x < width && 0 <= p.y < height }

    /** `dd.tiles[y * dd.width + x]` for a position inside the grid. */
    function At(p: Pos): Tile
      requires Valid() && InGrid(p)
    {
      CoordToIdxBound(p.x, p.y, width, height);
      tiles[CoordToIdx(p.x, p.y, width)]
    }

    predicate IsFloor(p: Pos)
      requires Valid()
    {
      InGrid(p) && At(p) == Floor
    }
  }

  /** The side length of a sector, in tiles (SPLIT_TILES). */
  const SplitTiles: nat := 10

  /** Number of whole sectors along each axis (`dd.width / SPLIT_TILES`). */
  function SectorsWide(g: Grid): nat { g.width / SplitTiles }
  function SectorsHigh(g: Grid): nat { g.height / SplitTiles }
  function SectorCount(g: Grid): nat { SectorsWide(g) * SectorsHigh(g) }

  /** Whole sectors lie inside the grid. */
  lemma SectorsInsideGrid(g: Grid)
    ensures SectorsWide(g) * SplitTiles <= g.width
    ensures SectorsHigh(g) * SplitTiles <= g.height
  {
  }
}
