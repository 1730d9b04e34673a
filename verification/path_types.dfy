/** Data types shared by the hierarchical pathfinder: grid positions,
    distances with an "infinite" sentinel, the row-major index used for every
    grid-shaped buffer, and the portal graph records. */
module PathTypes {

  /** A tile position (the source's IVec2 / integral Position). */
  datatype Pos = Pos(x: int, y: int)

  /** The four 4-neighbours of a tile, in the order the source probes them. */
  function Right(p: Pos): Pos { Pos(p.x + 1, p.y) }
  function Left(p: Pos): Pos { Pos(p.x - 1, p.y) }
  function Down(p: Pos): Pos { Pos(p.x, p.y + 1) }
  function Up(p: Pos): Pos { Pos(p.x, p.y - 1) }

  /** Two tiles are 4-adjacent when they differ by one unit along one axis. */
  predicate Adjacent(p: Pos, q: Pos) {
    q == Right(p) || q == Left(p) || q == Down(p) || q == Up(p)
  }

  function Abs(n: int): nat { if n < 0 then -n else n }

  function Manhattan(p: Pos, q: Pos): nat { Abs(p.x - q.x) + Abs(p.y - q.y) }

  lemma AdjacentSymmetric(p: Pos, q: Pos)
    ensures Adjacent(p, q) <==> Adjacent(q, p)
  {
  }

  lemma AdjacentIsUnitStep(p: Pos, q: Pos)
    ensures Adjacent(p, q) <==> Manhattan(p, q) == 1
  {
  }

  datatype Option<T> = None | Some(value: T)

  /** A distance or cost; `Inf` stands for the source's FLT_MAX sentinel. */
  datatype Dist = Fin(n: nat) | Inf

  /** Strict order on distances: every finite value is below `Inf`, and
      `Inf` is below nothing (FLT_MAX < FLT_MAX is false). */
  predicate Lt(a: Dist, b: Dist) {
    match (a, b)
    case (Fin(m), Fin(n)) => m < n
    case (Fin(_), Inf) => true
    case (Inf, _) => false
  }

  predicate Le(a: Dist, b: Dist) { a == b || Lt(a, b) }

  function Min(a: Dist, b: Dist): (r: Dist)
    ensures Le(r, a) && Le(r, b)
    ensures r == a || r == b
  {
    if Lt(b, a) then b else a
  }

  /** Addition that absorbs into `Inf` (FLT_MAX + c stays FLT_MAX). */
  function Add(a: Dist, c: Dist): (r: Dist)
    ensures r.Fin? <==> a.Fin? && c.Fin?
    ensures r.Fin? ==> r.n == a.n + c.n
  {
    if a.Fin? && c.Fin? then Fin(a.n + c.n) else Inf
  }

  function Succ(a: Dist): Dist { Add(a, Fin(1)) }

  /** `coord_to_idx`: the row-major index of (x, y) in a buffer of width w. */
  function CoordToIdx(x: nat, y: nat, w: nat): nat { y * w + x }

  lemma CoordToIdxBound(x: nat, y: nat, w: nat, h: nat)
    requires x < w && y < h
    ensures CoordToIdx(x, y, w) < w * h
  {
    calc {
      CoordToIdx(x, y, w);
      < y * w + w;
      == (y + 1) * w;
      <= { MulLeMono(y + 1, h, w); } h * w;
    }
  }

  lemma MulLeMono(a: nat, b: nat, w: nat)
    requires a <= b
    ensures a * w <= b * w
  {
  }

  /** Decoding with `% w` and `/ w` inverts the index, as the sector loops do. */
  lemma CoordToIdxInverse(x: nat, y: nat, w: nat)
    requires x < w
    ensures CoordToIdx(x, y, w) % w == x
    ensures CoordToIdx(x, y, w) / w == y
  {
    var i := CoordToIdx(x, y, w);
    var q, r := i / w, i % w;
    assert w * q + r == w * y + x;
    if q < y {
      MulLeMono(q + 1, y, w);
      assert false;
    } else if q > y {
      MulLeMono(y + 1, q, w);
      assert false;
    }
  }

  lemma CoordToIdxInjective(x1: nat, y1: nat, x2: nat, y2: nat, w: nat)
    requires x1 < w && x2 < w
    requires CoordToIdx(x1, y1, w) == CoordToIdx(x2, y2, w)
    ensures x1 == x2 && y1 == y2
  {
    CoordToIdxInverse(x1, y1, w);
    CoordToIdxInverse(x2, y2, w);
  }

  /** A directed edge of the portal graph: target portal, owning sector and
      cost (`Inf` for an unreachable temporary connection). */
  datatype PortalConnection = PortalConnection(connIdx: nat, sectorIdx: nat, score: Dist)

  /** An inclusive tile rectangle startX..endX x startY..endY. */
  datatype Rect = Rect(startX: int, startY: int, endX: int, endY: int)
  {
    predicate Covers(p: Pos) {
      startX <= p.x <= endX && startY <= p.y <= endY
    }
  }

  /** A portal: the inclusive tile rectangle startX..endX x startY..endY and
      its outgoing connections. */
  datatype PathPortal = PathPortal(startX: nat, startY: nat, endX: nat, endY: nat,
                                   conns: seq<PortalConnection>)
  {
    /** The tiles the portal denotes; connections play no part in it. */
    function Span(): Rect { Rect(startX, startY, endX, endY) }
  }

  /** A value-initialised portal, as `emplace_back()` creates the scratch slots. */
  const EmptyPortal := PathPortal(0, 0, 0, 0, [])

  /** A single-tile portal at `p` with no connections (the query scratch portals). */
  function PointPortal(p: Pos): (r: PathPortal)
    requires p.x >= 0 && p.y >= 0
    ensures r.conns == []
    ensures forall q :: r.Span().Covers(q) <==> q == p
  {
    PathPortal(p.x, p.y, p.x, p.y, [])
  }

  /** `get_portal_pos` truncated to a tile: the midpoint of the portal's span,
      rounded down as `int(float)` does for non-negative values. */
  function PortalTile(p: PathPortal): (r: Pos)
    ensures p.startX <= p.endX ==> p.startX <= r.x <= p.endX
    ensures p.startY <= p.endY ==> p.startY <= r.y <= p.endY
    ensures r.x + r.x <= p.startX + p.endX < r.x + r.x + 2
    ensures r.y + r.y <= p.startY + p.endY < r.y + r.y + 2
  {
    Pos((p.startX + p.endX) / 2, (p.startY + p.endY) / 2)
  }

  /** The cached portal graph: portals (the last two are query scratch
      slots), and per sector the touching portal ids with one flow field each. */
  datatype DungeonPortals = DungeonPortals(
    tileSplit: nat,
    portals: seq<PathPortal>,
    tilePortalsIndices: seq<seq<nat>>,
    tilePortalsDmaps: seq<seq<seq<Dist>>>)

  /** The answer to a path query: tile path and traversed portal ids. */
  datatype PathSearchRes = PathSearchRes(path: seq<Pos>, portalIndices: seq<nat>)
}
