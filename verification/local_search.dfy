/** Local grid A* (`find_dungeon_path_a_star`, `reconstruct_dungeon_path`):
    a 4-connected search with unit edges restricted to a box [limMin, limMax).
    The open list is scanned for the smallest f = g + h; the Euclidean
    heuristic of the source is an abstract parameter `h` here. */
module LocalSearch {
  import opened PathTypes
  import opened Dungeon

  predicate InBox(limMin: Pos, limMax: Pos, p: Pos) {
    limMin.x <= p.x < limMax.x && limMin.y <= p.y < limMax.y
  }

  /** A tile the search may step onto: inside the box, inside the grid and
      not a wall. The source tests only the box and the wall flag (see the
      as-written variant below). */
  predicate Passable(g: Grid, limMin: Pos, limMax: Pos, p: Pos)
    requires g.Valid()
  {
    InBox(limMin, limMax, p) && g.InGrid(p) && g.At(p) != Wall
  }

  /** A path from `from` to `to` of 4-neighbour steps whose every tile after
      the first is passable. */
  predicate ValidPath(g: Grid, limMin: Pos, limMax: Pos, from: Pos, to: Pos, path: seq<Pos>)
    requires g.Valid()
  {
    && |path| > 0
    && path[0] == from
    && path[|path| - 1] == to
    && (forall k :: 0 < k < |path| ==> Passable(g, limMin, limMax, path[k]))
    && (forall k :: 0 <= k < |path| - 1 ==> Adjacent(path[k], path[k + 1]))
  }

  /** What the search keeps true of its g-scores (`gs`, absent = FLT_MAX) and
      predecessor links (`prev`, absent = {-1, -1}). */
  predicate SearchInv(g: Grid, limMin: Pos, limMax: Pos, from: Pos,
                      gs: map<Pos, nat>, prev: map<Pos, Pos>)
    requires g.Valid()
  {
    && from in gs && gs[from] == 0 && from !in prev
    && (forall p :: p in gs ==> g.InGrid(p))
    && (forall p :: p in gs && p != from ==> p in prev)
    && (forall p :: p in prev ==>
          && p in gs && prev[p] in gs && gs[prev[p]] < gs[p]
          && Adjacent(prev[p], p) && Passable(g, limMin, limMax, p))
  }

  /** `reconstruct_dungeon_path`: follow predecessor links back from `cur`. */
  function ReconstructDungeonPath(g: Grid, limMin: Pos, limMax: Pos, from: Pos,
                                  gs: map<Pos, nat>, prev: map<Pos, Pos>, cur: Pos): (path: seq<Pos>)
    requires g.Valid() && SearchInv(g, limMin, limMax, from, gs, prev) && cur in gs
    ensures ValidPath(g, limMin, limMax, from, cur, path)
    ensures |path| <= gs[cur] + 1
    decreases gs[cur]
  {
    if cur in prev then
      ReconstructDungeonPath(g, limMin, limMax, from, gs, prev, prev[cur]) + [cur]
    else
      [cur]
  }

  /** f = g + h(p, goal); `h` stands for the source's Euclidean heuristic. */
  function FScore(gs: map<Pos, nat>, h: (Pos, Pos) -> nat, goal: Pos, p: Pos): nat
    requires p in gs
  {
    gs[p] + h(p, goal)
  }

  /** The open-list scan: the first entry with the smallest f-score. */
  method BestOpen(open: seq<Pos>, gs: map<Pos, nat>, h: (Pos, Pos) -> nat, goal: Pos) returns (b: nat)
    requires |open| > 0 && forall k :: 0 <= k < |open| ==> open[k] in gs
    ensures b < |open|
    ensures forall k :: 0 <= k < |open| ==> FScore(gs, h, goal, open[b]) <= FScore(gs, h, goal, open[k])
    ensures forall k :: 0 <= k < b ==> FScore(gs, h, goal, open[b]) < FScore(gs, h, goal, open[k])
  {
    b := 0;
    var bestScore := FScore(gs, h, goal, open[0]);
    var i := 1;
    while i < |open|
      invariant 1 <= i <= |open| && b < i
      invariant bestScore == FScore(gs, h, goal, open[b])
      invariant forall k :: 0 <= k < i ==> bestScore <= FScore(gs, h, goal, open[k])
      invariant forall k :: 0 <= k < b ==> bestScore < FScore(gs, h, goal, open[k])
    {
      var score := FScore(gs, h, goal, open[i]);
      if score < bestScore {
        b := i;
        bestScore := score;
      }
      i := i + 1;
    }
  }

  /** `checkNeighbour`: relax the edge cur -> p and make sure p is open. */
  method CheckNeighbour(g: Grid, limMin: Pos, limMax: Pos, from: Pos,
                        gs: map<Pos, nat>, prev: map<Pos, Pos>, open: seq<Pos>, cur: Pos, p: Pos)
    returns (gs': map<Pos, nat>, prev': map<Pos, Pos>, open': seq<Pos>)
    requires g.Valid() && SearchInv(g, limMin, limMax, from, gs, prev)
    requires cur in gs && Adjacent(cur, p)
    requires forall k :: 0 <= k < |open| ==> open[k] in gs
    ensures SearchInv(g, limMin, limMax, from, gs', prev')
    ensures forall k :: 0 <= k < |open'| ==> open'[k] in gs'
    ensures gs.Keys <= gs'.Keys
    ensures forall q :: q in open ==> q in open'
    ensures Passable(g, limMin, limMax, p) ==> p in gs' && gs'[p] <= gs[cur] + 1 && p in open'
    ensures !Passable(g, limMin, limMax, p) ==> gs' == gs && prev' == prev && open' == open
  {
    gs', prev', open' := gs, prev, open;
    if !InBox(limMin, limMax, p) || !g.InGrid(p) {
      return;
    }
    if g.At(p) == Wall {
      return;
    }
    var gScore := gs[cur] + 1;
    if p !in gs || gScore < gs[p] {
      RelaxKeepsSearchInv(g, limMin, limMax, from, gs, prev, cur, p);
      prev' := prev[p := cur];
      gs' := gs[p := gScore];
    }
    if p !in open' {
      open' := open' + [p];
    }
  }

  /** Lowering p's g-score to one more than its neighbour cur's, with cur as
      its predecessor, keeps the search invariant. */
  lemma RelaxKeepsSearchInv(g: Grid, limMin: Pos, limMax: Pos, from: Pos,
                            gs: map<Pos, nat>, prev: map<Pos, Pos>, cur: Pos, p: Pos)
    requires g.Valid() && SearchInv(g, limMin, limMax, from, gs, prev)
    requires cur in gs && Adjacent(cur, p) && Passable(g, limMin, limMax, p)
    requires p !in gs || gs[cur] + 1 < gs[p]
    ensures SearchInv(g, limMin, limMax, from, gs[p := gs[cur] + 1], prev[p := cur])
  {
    var gs', prev' := gs[p := gs[cur] + 1], prev[p := cur];
    assert p != from;
    forall q | q in prev'
      ensures q in gs' && prev'[q] in gs' && gs'[prev'[q]] < gs'[q]
    {
      if q != p {
        assert prev'[q] == prev[q];
        if prev[q] == p {
          assert gs'[p] < gs[p];
        }
      }
    }
  }

  /** open with its b-th entry removed. */
  function RemoveAt(open: seq<Pos>, b: nat): (r: seq<Pos>)
    requires b < |open|
    ensures |r| == |open| - 1
    ensures forall k :: 0 <= k < |r| ==> r[k] == if k < b then open[k] else open[k + 1]
    ensures forall q :: q in open ==> q == open[b] || q in r
  {
    assert open == open[..b] + [open[b]] + open[b + 1..];
    open[..b] + open[b + 1..]
  }

  /** Expanding `cur`: its four neighbours in the source's probe order. */
  method Expand(g: Grid, limMin: Pos, limMax: Pos, from: Pos,
                gs: map<Pos, nat>, prev: map<Pos, Pos>, open: seq<Pos>, cur: Pos)
    returns (gs': map<Pos, nat>, prev': map<Pos, Pos>, open': seq<Pos>)
    requires g.Valid() && SearchInv(g, limMin, limMax, from, gs, prev) && cur in gs
    requires forall k :: 0 <= k < |open| ==> open[k] in gs
    ensures SearchInv(g, limMin, limMax, from, gs', prev')
    ensures forall k :: 0 <= k < |open'| ==> open'[k] in gs'
    ensures gs.Keys <= gs'.Keys
    ensures forall q :: q in open ==> q in open'
    ensures Queued(g, limMin, limMax, open', {}, cur)
  {
    gs', prev', open' := CheckNeighbour(g, limMin, limMax, from, gs, prev, open, cur, Right(cur));
    gs', prev', open' := CheckNeighbour(g, limMin, limMax, from, gs', prev', open', cur, Left(cur));
    gs', prev', open' := CheckNeighbour(g, limMin, limMax, from, gs', prev', open', cur, Down(cur));
    gs', prev', open' := CheckNeighbour(g, limMin, limMax, from, gs', prev', open', cur, Up(cur));
  }

  /** Every passable neighbour of c is queued or closed. */
  ghost predicate Queued(g: Grid, limMin: Pos, limMax: Pos, open: seq<Pos>, closed: set<Pos>, c: Pos)
    requires g.Valid()
  {
    forall q :: Adjacent(c, q) && Passable(g, limMin, limMax, q) ==> q in open || q in closed
  }

  /** The frontier property of the main loop: every closed tile has had its
      passable neighbours queued, so none of them is lost. */
  ghost predicate Frontier(g: Grid, limMin: Pos, limMax: Pos, open: seq<Pos>, closed: set<Pos>)
    requires g.Valid()
  {
    forall c :: c in closed ==> Queued(g, limMin, limMax, open, closed, c)
  }

  /** With nothing left to queue, the closed set holds every tile a valid
      path from a closed tile reaches. */
  lemma {:induction false} ClosedUnderPaths(g: Grid, limMin: Pos, limMax: Pos, closed: set<Pos>,
                                            from: Pos, to: Pos, path: seq<Pos>, k: nat)
    requires g.Valid() && Frontier(g, limMin, limMax, [], closed) && from in closed
    requires ValidPath(g, limMin, limMax, from, to, path) && k < |path|
    ensures path[k] in closed
  {
    if k > 0 {
      ClosedUnderPaths(g, limMin, limMax, closed, from, to, path, k - 1);
      assert Queued(g, limMin, limMax, [], closed, path[k - 1]);
      assert Adjacent(path[k - 1], path[k]) && Passable(g, limMin, limMax, path[k]);
    }
  }

  /** An exhausted search that never closed `to` proves `to` unreachable. */
  lemma ExhaustedMeansUnreachable(g: Grid, limMin: Pos, limMax: Pos, closed: set<Pos>, from: Pos, to: Pos)
    requires g.Valid() && Frontier(g, limMin, limMax, [], closed)
    requires from in closed && to !in closed
    ensures forall path :: !ValidPath(g, limMin, limMax, from, to, path)
  {
    forall path | ValidPath(g, limMin, limMax, from, to, path)
      ensures false
    {
      ClosedUnderPaths(g, limMin, limMax, closed, from, to, path, |path| - 1);
    }
  }

  ghost function GridCells(g: Grid): set<Pos> {
    set x, y | 0 <= x < g.width && 0 <= y < g.height :: Pos(x, y)
  }

  /** Closing a grid tile not yet closed shrinks the set of unclosed tiles. */
  lemma CloseCell(g: Grid, cells: set<Pos>, closed: set<Pos>, p: Pos)
    requires cells == GridCells(g) && closed <= cells
    requires g.InGrid(p) && p !in closed
    ensures closed + {p} <= cells
    ensures |cells - (closed + {p})| < |cells - closed|
  {
    assert p == Pos(p.x, p.y);
    assert cells - (closed + {p}) < cells - closed;
  }

  /** One round of the main loop: pick the best open tile; stop when it is
      the goal, otherwise remove it and, unless already closed, close and
      expand it. Each round either closes a new grid tile or shortens the
      open list. */
  method SearchRound(g: Grid, limMin: Pos, limMax: Pos, from: Pos, to: Pos, h: (Pos, Pos) -> nat,
                     gs: map<Pos, nat>, prev: map<Pos, Pos>, open: seq<Pos>, closed: set<Pos>,
                     ghost cells: set<Pos>)
    returns (found: bool, gs': map<Pos, nat>, prev': map<Pos, Pos>, open': seq<Pos>, closed': set<Pos>)
    requires g.Valid() && SearchInv(g, limMin, limMax, from, gs, prev)
    requires |open| > 0 && forall k :: 0 <= k < |open| ==> open[k] in gs
    requires cells == GridCells(g) && closed <= cells
    requires Frontier(g, limMin, limMax, open, closed) && to !in closed
    requires from in open || from in closed
    ensures SearchInv(g, limMin, limMax, from, gs', prev')
    ensures forall k :: 0 <= k < |open'| ==> open'[k] in gs'
    ensures closed' <= cells
    ensures found ==> to in gs'
    ensures !found ==> |cells - closed'| < |cells - closed| || (closed' == closed && |open'| < |open|)
    ensures !found ==> Frontier(g, limMin, limMax, open', closed') && to !in closed'
    ensures !found ==> from in open' || from in closed'
    ensures open == [from] && from == to ==> found
  {
    var b := BestOpen(open, gs, h, to);
    gs', prev', closed' := gs, prev, closed;
    if open[b] == to {
      return true, gs', prev', open, closed';
    }
    found := false;
    var cur := open[b];
    open' := RemoveAt(open, b);
    if cur in closed {
      forall c | c in closed
        ensures Queued(g, limMin, limMax, open', closed, c)
      {
        assert Queued(g, limMin, limMax, open, closed, c);
      }
      return;
    }
    CloseCell(g, cells, closed, cur);
    closed' := closed + {cur};
    var removed := open';
    gs', prev', open' := Expand(g, limMin, limMax, from, gs, prev, open', cur);
    forall c | c in closed'
      ensures Queued(g, limMin, limMax, open', closed', c)
    {
      if c != cur {
        assert Queued(g, limMin, limMax, open, closed, c);
      } else {
        assert Queued(g, limMin, limMax, open', {}, cur);
      }
    }
  }

  /** `find_dungeon_path_a_star`: empty when `from` is outside the grid,
      `[from]` when from == to, and otherwise a valid path from `from` to
      `to` inside the box exactly when one exists, whatever the heuristic. */
  method FindDungeonPathAStar(g: Grid, from: Pos, to: Pos, limMin: Pos, limMax: Pos, h: (Pos, Pos) -> nat)
    returns (path: seq<Pos>)
    requires g.Valid()
    ensures !g.InGrid(from) ==> path == []
    ensures g.InGrid(from) && from == to ==> path == [from]
    ensures path != [] ==> ValidPath(g, limMin, limMax, from, to, path)
    ensures g.InGrid(from) && (exists p :: ValidPath(g, limMin, limMax, from, to, p)) ==> path != []
  {
    if !g.InGrid(from) {
      return [];
    }
    var gs := map[from := 0];
    var prev: map<Pos, Pos> := map[];
    var open := [from];
    var closed: set<Pos> := {};
    ghost var cells := GridCells(g);
    while |open| > 0
      invariant SearchInv(g, limMin, limMax, from, gs, prev)
      invariant forall k :: 0 <= k < |open| ==> open[k] in gs
      invariant closed <= cells
      invariant from == to ==> open == [from]
      invariant Frontier(g, limMin, limMax, open, closed) && to !in closed
      invariant from in open || from in closed
      decreases |cells - closed|, |open|
    {
      var found;
      found, gs, prev, open, closed := SearchRound(g, limMin, limMax, from, to, h, gs, prev, open, closed, cells);
      if found {
        return ReconstructDungeonPath(g, limMin, limMax, from, gs, prev, to);
      }
    }
    ExhaustedMeansUnreachable(g, limMin, limMax, closed, from, to);
    return [];
  }

  /** When a path is found, every tile after `from` lies inside the grid,
      even when the box reaches past the grid's edge. */
  lemma FoundPathStaysInGrid(g: Grid, limMin: Pos, limMax: Pos, from: Pos, to: Pos, path: seq<Pos>)
    requires g.Valid() && ValidPath(g, limMin, limMax, from, to, path)
    ensures forall k :: 0 < k < |path| ==> g.InGrid(path[k]) && InBox(limMin, limMax, path[k])
  {
  }

  // ---------------------------------------------------------------------
  // The neighbour test as the source writes it

  const SizeTMod: nat := 0x1_0000_0000_0000_0000

  /** `coord_to_idx` evaluated in 64-bit `size_t` arithmetic. */
  function WrappedCoordToIdx(x: int, y: int, w: nat): nat {
    ((y % SizeTMod) * w + (x % SizeTMod)) % SizeTMod
  }

  /** The source's neighbour guard: the box alone decides, and the tile is
      then read at `coord_to_idx(p.x, p.y, width)`. */
  predicate AdmitsAsWritten(limMin: Pos, limMax: Pos, p: Pos) {
    InBox(limMin, limMax, p)
  }

  /** For a sector on the grid's left edge the query pads the box to start at
      x = -1. The as-written guard then admits (-1, 0), whose wrapped index
      lies past the end of the tile buffer, and (-1, 1), whose index aliases
      the tile (width - 1, 0) on the opposite edge. */
  lemma PaddedBoxEscapesGrid()
    ensures var g := Grid(20, 10, seq(200, i => Floor));
      var limMin := Pos(0 - 1, 0 - 1);
      var limMax := Pos(SplitTiles + 1, SplitTiles + 1);
      && AdmitsAsWritten(limMin, limMax, Left(Pos(0, 0)))
      && !g.InGrid(Left(Pos(0, 0)))
      && WrappedCoordToIdx(-1, 0, g.width) >= |g.tiles|
      && AdmitsAsWritten(limMin, limMax, Left(Pos(0, 1)))
      && WrappedCoordToIdx(-1, 1, g.width) == CoordToIdx(g.width - 1, 0, g.width)
      && !Passable(g, limMin, limMax, Left(Pos(0, 0)))
  {
  }
}
