/** The precomputed portal graph (`prebuild_map`): sectors of SplitTiles x
    SplitTiles tiles, one portal per crossable run of every shared edge,
    one flow field per (sector, touching portal), and connections between
    the portals of a sector whose tiles are pairwise linked inside it. */
module PortalBuild {
  import opened PathTypes
  import opened Dungeon
  import opened FlowField
  import opened LocalSearch
  import opened BorderScan

  // ---------------------------------------------------------------------
  // Sector geometry

  /** Sector column and row of sector id `s` (`tidx % width`, `tidx / width`). */
  function SectorX(g: Grid, s: nat): nat {
    if SectorsWide(g) == 0 then 0 else s % SectorsWide(g)
  }

  function SectorY(g: Grid, s: nat): nat {
    if SectorsWide(g) == 0 then 0 else s / SectorsWide(g)
  }

  /** The sector's own tiles are [SectorMin, SectorMax). */
  function SectorMin(g: Grid, s: nat): Pos {
    Pos(SectorX(g, s) * SplitTiles, SectorY(g, s) * SplitTiles)
  }

  function SectorMax(g: Grid, s: nat): Pos {
    Pos((SectorX(g, s) + 1) * SplitTiles, (SectorY(g, s) + 1) * SplitTiles)
  }

  /** The area of a sector's flow fields: the sector grown by one tile on
      every side, clamped to the grid. */
  function PaddedWindow(g: Grid, x: nat, y: nat): Window {
    ClampWindow(g, Pos(x * SplitTiles - 1, y * SplitTiles - 1),
                Pos((x + 1) * SplitTiles + 1, (y + 1) * SplitTiles + 1))
  }

  function SectorWindow(g: Grid, s: nat): Window {
    PaddedWindow(g, SectorX(g, s), SectorY(g, s))
  }

  lemma SectorOfIdx(g: Grid, x: nat, y: nat)
    requires x < SectorsWide(g)
    ensures SectorX(g, CoordToIdx(x, y, SectorsWide(g))) == x
    ensures SectorY(g, CoordToIdx(x, y, SectorsWide(g))) == y
  {
    CoordToIdxInverse(x, y, SectorsWide(g));
  }

  /** A sector's padded window holds at least the sector's corner tile. */
  lemma PaddedWindowNonEmpty(g: Grid, x: nat, y: nat)
    requires x < SectorsWide(g) && y < SectorsHigh(g)
    ensures !PaddedWindow(g, x, y).IsEmpty()
  {
    SectorsInsideGrid(g);
    MulLeMono(x + 1, SectorsWide(g), SplitTiles);
    MulLeMono(y + 1, SectorsHigh(g), SplitTiles);
    var c := Pos(x * SplitTiles, y * SplitTiles);
    assert g.InGrid(c);
    assert PaddedWindow(g, x, y).Contains(c);
  }

  // ---------------------------------------------------------------------
  // Tiles of a portal inside a box

  /** Tiles (x0..x1, y) left to right. */
  function RowTiles(y: int, x0: int, x1: int): (r: seq<Pos>)
    ensures forall p :: p in r <==> p.y == y && x0 <= p.x <= x1
    decreases x1 - x0
  {
    if x1 < x0 then [] else RowTiles(y, x0, x1 - 1) + [Pos(x1, y)]
  }

  /** Tiles of the inclusive rectangle x0..x1 x y0..y1, row by row. */
  function RectTiles(x0: int, x1: int, y0: int, y1: int): (r: seq<Pos>)
    ensures forall p :: p in r <==> x0 <= p.x <= x1 && y0 <= p.y <= y1
    decreases y1 - y0
  {
    if y1 < y0 then [] else RectTiles(x0, x1, y0, y1 - 1) + RowTiles(y1, x0, x1)
  }

  /** The tiles the connection check visits for one portal: its span clipped
      to the box [lo, hi), in the order of the nested `fromY`/`fromX` loops. */
  function ClipTiles(span: Rect, lo: Pos, hi: Pos): (r: seq<Pos>)
    ensures forall p :: p in r <==> span.Covers(p) && InBox(lo, hi, p)
  {
    RectTiles(MaxInt(span.startX, lo.x), MinInt(span.endX, hi.x - 1),
              MaxInt(span.startY, lo.y), MinInt(span.endY, hi.y - 1))
  }

  // ---------------------------------------------------------------------
  // Connection cost between two portals of a sector

  /** The initial `minDist`, kept when either clipped span is empty. */
  const NoPairCost: nat := 0xffff_ffff

  ghost predicate Linked(g: Grid, lo: Pos, hi: Pos, p: Pos, q: Pos)
    requires g.Valid()
  {
    exists path :: ValidPath(g, lo, hi, p, q, path)
  }

  /** `m` is accounted for by the pair (p, q): a path of m tiles, or 0 for a
      tile outside the grid paired with itself (the search returns nothing
      for it and the pair is not reported as unreachable). */
  ghost predicate Witnesses(g: Grid, lo: Pos, hi: Pos, p: Pos, q: Pos, m: nat)
    requires g.Valid()
  {
    || (exists path :: ValidPath(g, lo, hi, p, q, path) && |path| == m)
    || (m == 0 && p == q && !g.InGrid(p))
  }

  /** Every tile of P and every tile of Q inside the box are linked by a path
      inside the box. */
  ghost predicate SpansLinked(g: Grid, lo: Pos, hi: Pos, P: Rect, Q: Rect)
    requires g.Valid()
  {
    forall p, q :: P.Covers(p) && InBox(lo, hi, p) && Q.Covers(q) && InBox(lo, hi, q) ==>
      p == q || Linked(g, lo, hi, p, q)
  }

  /** `m` is the running minimum that starts at `init` and takes in every
      size of `sizes`. */
  ghost predicate MinOver(m: nat, init: nat, sizes: seq<nat>) {
    && m <= init
    && (forall k :: 0 <= k < |sizes| ==> m <= sizes[k])
    && (m == init || m in sizes)
  }

  /** The inner loop of the pairwise check for one tile p of the first span:
      a search to every tile of B in order, stopping at the first one without
      a path. `sizes` holds the size of each path returned before the stop,
      each accounted for by its pair, and `minDist'` is their minimum with
      `minDist`. */
  method PairRow(g: Grid, p: Pos, B: seq<Pos>, limMin: Pos, limMax: Pos, h: (Pos, Pos) -> nat,
                 minDist: nat)
    returns (noPath: bool, minDist': nat, ghost sizes: seq<nat>)
    requires g.Valid()
    ensures minDist' <= minDist
    ensures !noPath ==> forall b' :: 0 <= b' < |B| ==> p == B[b'] || Linked(g, limMin, limMax, p, B[b'])
    ensures noPath ==> exists b' :: 0 <= b' < |B| && p != B[b'] && (!g.InGrid(p) || !Linked(g, limMin, limMax, p, B[b']))
    ensures minDist' < minDist ==> exists b' :: 0 <= b' < |B| && Witnesses(g, limMin, limMax, p, B[b'], minDist')
    ensures |sizes| <= |B| && (!noPath ==> |sizes| == |B|)
    ensures forall k :: 0 <= k < |sizes| ==> Witnesses(g, limMin, limMax, p, B[k], sizes[k])
    ensures MinOver(minDist', minDist, sizes)
  {
    noPath, minDist', sizes := false, minDist, [];
    var b := 0;
    while b < |B|
      invariant 0 <= b <= |B| && minDist' <= minDist
      invariant forall b' :: 0 <= b' < b ==> p == B[b'] || Linked(g, limMin, limMax, p, B[b'])
      invariant minDist' < minDist ==> exists b' :: 0 <= b' < |B| && Witnesses(g, limMin, limMax, p, B[b'], minDist')
      invariant |sizes| == b
      invariant forall k :: 0 <= k < b ==> Witnesses(g, limMin, limMax, p, B[k], sizes[k])
      invariant MinOver(minDist', minDist, sizes)
    {
      var path := FindDungeonPathAStar(g, p, B[b], limMin, limMax, h);
      if path == [] && p != B[b] {
        return true, minDist', sizes;
      }
      if path != [] {
        assert ValidPath(g, limMin, limMax, p, B[b], path);
      }
      assert Witnesses(g, limMin, limMax, p, B[b], |path|);
      ghost var before := sizes;
      sizes := sizes + [|path|];
      assert forall k :: 0 <= k < |before| ==> sizes[k] == before[k];
      if |path| < minDist' {
        minDist' := |path|;
      }
      b := b + 1;
    }
  }

  /** The pairwise check of `prebuild_map`: a local A* for every tile pair of
      the two clipped spans; the first pair without a path ends the check
      with no connection, otherwise the cost is the smallest path size.
      `sizes[a][b]` is the size of the path found from A[a] to B[b]. */
  method PortalPairCost(g: Grid, first: PathPortal, second: PathPortal, limMin: Pos, limMax: Pos,
                        h: (Pos, Pos) -> nat)
    returns (cost: Option<nat>, ghost sizes: seq<seq<nat>>)
    requires g.Valid()
    ensures var A := ClipTiles(first.Span(), limMin, limMax);
      var B := ClipTiles(second.Span(), limMin, limMax);
      && (cost.Some? ==> SpansLinked(g, limMin, limMax, first.Span(), second.Span()))
      && (cost.Some? ==> cost.value <= NoPairCost)
      && ((|A| == 0 || |B| == 0) ==> cost == Some(NoPairCost))
      && (cost.Some? && cost.value < NoPairCost ==>
            exists a, b :: 0 <= a < |A| && 0 <= b < |B| && Witnesses(g, limMin, limMax, A[a], B[b], cost.value))
      && (cost.None? ==> exists a, b :: (0 <= a < |A| && 0 <= b < |B| && A[a] != B[b] &&
                                          (!g.InGrid(A[a]) || !Linked(g, limMin, limMax, A[a], B[b]))))
    ensures BoxInGrid(g, limMin, limMax) ==>
      (cost.Some? <==> SpansLinked(g, limMin, limMax, first.Span(), second.Span()))
    ensures var A := ClipTiles(first.Span(), limMin, limMax);
      var B := ClipTiles(second.Span(), limMin, limMax);
      cost.Some? ==> && |sizes| == |A|
                     && (forall a :: 0 <= a < |A| ==> |sizes[a]| == |B|)
                     && (forall a, b :: 0 <= a < |A| && 0 <= b < |B| ==>
                           Witnesses(g, limMin, limMax, A[a], B[b], sizes[a][b]) && cost.value <= sizes[a][b])
                     && (cost.value == NoPairCost || exists a :: 0 <= a < |A| && cost.value in sizes[a])
    ensures cost.Some? ==> RowsMin(g, limMin, limMax, ClipTiles(first.Span(), limMin, limMax),
                                   ClipTiles(second.Span(), limMin, limMax), sizes, cost.value)
  {
    var A := ClipTiles(first.Span(), limMin, limMax);
    var B := ClipTiles(second.Span(), limMin, limMax);
    var noPath, minDist;
    noPath, minDist, sizes := PairRows(g, A, B, limMin, limMax, h);
    if noPath {
      UnlinkedPairSplitsSpans(g, limMin, limMax, first.Span(), second.Span());
      return None, sizes;
    }
    PairsLinkSpans(g, limMin, limMax, first.Span(), second.Span());
    return Some(minDist), sizes;
  }

  /** The four nested loops of the pairwise check as one loop over the tiles
      of `A`, each running PairRow over `B`, until a pair has no path. */
  method PairRows(g: Grid, A: seq<Pos>, B: seq<Pos>, limMin: Pos, limMax: Pos, h: (Pos, Pos) -> nat)
    returns (noPath: bool, minDist: nat, ghost sizes: seq<seq<nat>>)
    requires g.Valid()
    ensures minDist <= NoPairCost
    ensures (|A| == 0 || |B| == 0) ==> !noPath && minDist == NoPairCost
    ensures !noPath ==> RowsLinked(g, limMin, limMax, A, B, |A|) && RowsMin(g, limMin, limMax, A, B, sizes, minDist)
    ensures noPath ==> exists a', b' :: (0 <= a' < |A| && 0 <= b' < |B| && A[a'] != B[b'] &&
                                         (!g.InGrid(A[a']) || !Linked(g, limMin, limMax, A[a'], B[b'])))
    ensures minDist < NoPairCost ==>
      exists a', b' :: 0 <= a' < |A| && 0 <= b' < |B| && Witnesses(g, limMin, limMax, A[a'], B[b'], minDist)
  {
    noPath, minDist, sizes := false, NoPairCost, [];
    var a := 0;
    while a < |A| && !noPath
      invariant 0 <= a <= |A|
      invariant !noPath ==> RowsLinked(g, limMin, limMax, A, B, a)
      invariant noPath ==> exists a', b' :: (0 <= a' < |A| && 0 <= b' < |B| && A[a'] != B[b'] &&
                                             (!g.InGrid(A[a']) || !Linked(g, limMin, limMax, A[a'], B[b'])))
      invariant minDist <= NoPairCost
      invariant |B| == 0 ==> !noPath && minDist == NoPairCost
      invariant minDist < NoPairCost ==>
        exists a', b' :: 0 <= a' < |A| && 0 <= b' < |B| && Witnesses(g, limMin, limMax, A[a'], B[b'], minDist)
      invariant !noPath ==> RowsMin(g, limMin, limMax, A[..a], B, sizes, minDist)
    {
      ghost var row;
      ghost var before := minDist;
      noPath, minDist, row := PairRow(g, A[a], B, limMin, limMax, h, minDist);
      if !noPath {
        RowsLinkedStep(g, limMin, limMax, A, B, a);
        RowsMinStep(g, limMin, limMax, A[..a], A[a], B, sizes, row, before, minDist);
        assert A[..a + 1] == A[..a] + [A[a]];
        sizes := sizes + [row];
      }
      a := a + 1;
    }
    if !noPath {
      assert A[..a] == A;
    }
  }

  /** Every tile of the first n of `A` is linked to every tile of `B`. */
  ghost predicate RowsLinked(g: Grid, lo: Pos, hi: Pos, A: seq<Pos>, B: seq<Pos>, n: nat)
    requires g.Valid() && n <= |A|
  {
    forall a, b :: 0 <= a < n && 0 <= b < |B| ==> A[a] == B[b] || Linked(g, lo, hi, A[a], B[b])
  }

  lemma RowsLinkedStep(g: Grid, lo: Pos, hi: Pos, A: seq<Pos>, B: seq<Pos>, n: nat)
    requires g.Valid() && n < |A| && RowsLinked(g, lo, hi, A, B, n)
    requires forall b :: 0 <= b < |B| ==> A[n] == B[b] || Linked(g, lo, hi, A[n], B[b])
    ensures RowsLinked(g, lo, hi, A, B, n + 1)
  {
  }

  /** One size row per tile of `A`, each witnessed by its pair, and `m` their
      minimum with the starting NoPairCost. */
  ghost predicate RowsMin(g: Grid, lo: Pos, hi: Pos, A: seq<Pos>, B: seq<Pos>, sizes: seq<seq<nat>>, m: nat)
    requires g.Valid()
  {
    && |sizes| == |A|
    && (forall a :: 0 <= a < |A| ==> |sizes[a]| == |B|)
    && (forall a, b :: 0 <= a < |A| && 0 <= b < |B| ==> Witnesses(g, lo, hi, A[a], B[b], sizes[a][b]) && m <= sizes[a][b])
    && (m == NoPairCost || exists a :: 0 <= a < |A| && m in sizes[a])
  }

  lemma RowsMinStep(g: Grid, lo: Pos, hi: Pos, A: seq<Pos>, p: Pos, B: seq<Pos>, sizes: seq<seq<nat>>,
                    row: seq<nat>, m: nat, m': nat)
    requires g.Valid() && RowsMin(g, lo, hi, A, B, sizes, m)
    requires |row| == |B| && (forall k :: 0 <= k < |row| ==> Witnesses(g, lo, hi, p, B[k], row[k]))
    requires MinOver(m', m, row)
    ensures RowsMin(g, lo, hi, A + [p], B, sizes + [row], m')
  {
    var A', sizes' := A + [p], sizes + [row];
    forall a, b | 0 <= a < |A'| && 0 <= b < |B|
      ensures Witnesses(g, lo, hi, A'[a], B[b], sizes'[a][b]) && m' <= sizes'[a][b]
    {
      if a < |A| {
        assert A'[a] == A[a] && sizes'[a] == sizes[a];
      } else {
        assert A'[a] == p && sizes'[a] == row;
      }
    }
    if m' != NoPairCost {
      if m' == m {
        var a :| 0 <= a < |A| && m in sizes[a];
        assert sizes'[a] == sizes[a];
      } else {
        assert sizes'[|A|] == row;
      }
    }
  }

  /** Linking every pair of the two clipped tile lists links the spans. */
  lemma PairsLinkSpans(g: Grid, lo: Pos, hi: Pos, P: Rect, Q: Rect)
    requires g.Valid()
    requires var A, B := ClipTiles(P, lo, hi), ClipTiles(Q, lo, hi);
      forall a, b :: 0 <= a < |A| && 0 <= b < |B| ==> A[a] == B[b] || Linked(g, lo, hi, A[a], B[b])
    ensures SpansLinked(g, lo, hi, P, Q)
  {
    var A, B := ClipTiles(P, lo, hi), ClipTiles(Q, lo, hi);
    forall p, q | P.Covers(p) && InBox(lo, hi, p) && Q.Covers(q) && InBox(lo, hi, q)
      ensures p == q || Linked(g, lo, hi, p, q)
    {
      assert p in A && q in B;
      var a :| 0 <= a < |A| && A[a] == p;
      var b :| 0 <= b < |B| && B[b] == q;
    }
  }

  /** Every tile of the box lies inside the grid. */
  ghost predicate BoxInGrid(g: Grid, lo: Pos, hi: Pos) {
    forall p :: InBox(lo, hi, p) ==> g.InGrid(p)
  }

  /** A pair of distinct clipped tiles without a path between them, the
      first inside the grid, means the spans are not linked. */
  lemma UnlinkedPairSplitsSpans(g: Grid, lo: Pos, hi: Pos, P: Rect, Q: Rect)
    requires g.Valid()
    requires var A, B := ClipTiles(P, lo, hi), ClipTiles(Q, lo, hi);
      exists a, b :: 0 <= a < |A| && 0 <= b < |B| && A[a] != B[b] &&
        (!g.InGrid(A[a]) || !Linked(g, lo, hi, A[a], B[b]))
    ensures BoxInGrid(g, lo, hi) ==> !SpansLinked(g, lo, hi, P, Q)
  {
    var A, B := ClipTiles(P, lo, hi), ClipTiles(Q, lo, hi);
    var a, b :| 0 <= a < |A| && 0 <= b < |B| && A[a] != B[b] &&
      (!g.InGrid(A[a]) || !Linked(g, lo, hi, A[a], B[b]));
    assert A[a] in A && B[b] in B;
    assert P.Covers(A[a]) && InBox(lo, hi, A[a]) && Q.Covers(B[b]) && InBox(lo, hi, B[b]);
  }

  /** The box of a sector of the grid lies inside the grid. */
  lemma SectorBoxInGrid(g: Grid, t: nat)
    requires t < SectorCount(g)
    ensures BoxInGrid(g, SectorMin(g, t), SectorMax(g, t))
  {
    var W, H := SectorsWide(g), SectorsHigh(g);
    SectorsInsideGrid(g);
    assert SectorX(g, t) < W && SectorY(g, t) < H by {
      if t / W >= H {
        MulLeMono(H, t / W, W);
        assert false;
      }
    }
    MulLeMono(SectorX(g, t) + 1, W, SplitTiles);
    MulLeMono(SectorY(g, t) + 1, H, SplitTiles);
  }

  // ---------------------------------------------------------------------
  // The cached tables

  /** Every (sector, slot) names a portal and holds that portal's exact flow
      field over the sector's padded window. */
  ghost predicate FieldsMatch(g: Grid, portals: seq<PathPortal>, indices: seq<seq<nat>>,
                              dmaps: seq<seq<seq<Dist>>>)
    requires g.Valid()
  {
    && |indices| == |dmaps|
    && (forall s :: 0 <= s < |indices| ==> |indices[s]| == |dmaps[s]|)
    && (forall s, j :: 0 <= s < |indices| && 0 <= j < |indices[s]| ==>
          && indices[s][j] < |portals|
          && DistanceField(g, SectorWindow(g, s), portals[indices[s][j]].Span(), dmaps[s][j]))
  }

  /** A pair check's cost for spans P then Q in the box [lo, hi): the initial
      `0xffffffff`, or the size of a path found between some clipped tile of
      P and some clipped tile of Q. */
  ghost predicate CostWitnessed(g: Grid, lo: Pos, hi: Pos, P: Rect, Q: Rect, n: nat)
    requires g.Valid()
  {
    var A, B := ClipTiles(P, lo, hi), ClipTiles(Q, lo, hi);
    n == NoPairCost || exists a, b :: 0 <= a < |A| && 0 <= b < |B| && Witnesses(g, lo, hi, A[a], B[b], n)
  }

  /** What a connection p -> c.connIdx promises: both ends are real portals
      registered in the connection's sector, the cost is finite, the reverse
      connection exists with the same sector and cost, and, in the direction
      the pair was checked, the two spans are linked inside the sector and
      the cost is witnessed by a path between their clipped tiles. */
  ghost predicate ConnOk(g: Grid, portals: seq<PathPortal>, indices: seq<seq<nat>>, nReal: nat,
                         p: nat, c: PortalConnection)
    requires g.Valid() && p < |portals|
  {
    && c.sectorIdx < |indices| && c.connIdx < nReal && nReal <= |portals|
    && p in indices[c.sectorIdx] && c.connIdx in indices[c.sectorIdx]
    && c.score.Fin?
    && PortalConnection(p, c.sectorIdx, c.score) in portals[c.connIdx].conns
    && (|| (&& SpansLinked(g, SectorMin(g, c.sectorIdx), SectorMax(g, c.sectorIdx),
                           portals[p].Span(), portals[c.connIdx].Span())
            && CostWitnessed(g, SectorMin(g, c.sectorIdx), SectorMax(g, c.sectorIdx),
                             portals[p].Span(), portals[c.connIdx].Span(), c.score.n))
        || (&& SpansLinked(g, SectorMin(g, c.sectorIdx), SectorMax(g, c.sectorIdx),
                           portals[c.connIdx].Span(), portals[p].Span())
            && CostWitnessed(g, SectorMin(g, c.sectorIdx), SectorMax(g, c.sectorIdx),
                             portals[c.connIdx].Span(), portals[p].Span(), c.score.n)))
  }

  /** Every connection of the first nReal portals satisfies ConnOk. */
  ghost predicate ConnsWellFormed(g: Grid, portals: seq<PathPortal>, indices: seq<seq<nat>>, nReal: nat)
    requires g.Valid()
  {
    && nReal <= |portals|
    && forall p, k :: 0 <= p < nReal && 0 <= k < |portals[p].conns| ==>
         ConnOk(g, portals, indices, nReal, p, portals[p].conns[k])
  }

  /** The invariant of the cached graph between queries: tables sized by the
      sector count, every slot a real portal with its exact field, every real
      connection well formed, and the two scratch portals last. */
  ghost predicate WellFormed(g: Grid, dp: DungeonPortals) {
    && g.Valid()
    && dp.tileSplit == SplitTiles
    && |dp.portals| >= 2
    && |dp.tilePortalsIndices| == SectorCount(g)
    && FieldsMatch(g, dp.portals, dp.tilePortalsIndices, dp.tilePortalsDmaps)
    && (forall s, j :: 0 <= s < |dp.tilePortalsIndices| && 0 <= j < |dp.tilePortalsIndices[s]| ==>
          dp.tilePortalsIndices[s][j] < |dp.portals| - 2)
    && ConnsWellFormed(g, dp.portals, dp.tilePortalsIndices, |dp.portals| - 2)
  }

  /** Portal i is listed by two different sectors. */
  ghost predicate Registered(indices: seq<seq<nat>>, i: nat) {
    exists s1, s2 :: 0 <= s1 < s2 < |indices| && i in indices[s1] && i in indices[s2]
  }

  /** The sector across edge `b` of sector (x, y): the one above for the top
      edge, the one to the left for the left edge. */
  function AcrossIdx(g: Grid, x: nat, y: nat, b: Border): nat
    requires Scannable(g, x, y, b)
  {
    if b == Top then CoordToIdx(x, y - 1, SectorsWide(g)) else CoordToIdx(x - 1, y, SectorsWide(g))
  }

  /** Portal i is listed by sector (x, y) and by the sector across its edge b. */
  ghost predicate ListedAt(g: Grid, indices: seq<seq<nat>>, i: nat, x: nat, y: nat, b: Border)
    requires Scannable(g, x, y, b)
  {
    && CoordToIdx(x, y, SectorsWide(g)) < |indices| && AcrossIdx(g, x, y, b) < |indices|
    && i in indices[CoordToIdx(x, y, SectorsWide(g))] && i in indices[AcrossIdx(g, x, y, b)]
  }

  /** Portal i, with span `span`, is the portal of a maximal run of some edge
      and is listed by the two sectors that edge separates. */
  ghost predicate EdgeRegistered(g: Grid, indices: seq<seq<nat>>, i: nat, span: Rect) {
    exists x, y, b, r :: Scannable(g, x, y, b) && MaximalRun(BorderFlags(g, x, y, b), r) &&
      span == RunPortal(x, y, b, r).Span() && ListedAt(g, indices, i, x, y, b)
  }

  lemma EdgeRegisteredGrows(g: Grid, indices: seq<seq<nat>>, indices': seq<seq<nat>>, i: nat, span: Rect)
    requires EdgeRegistered(g, indices, i, span)
    requires |indices| <= |indices'|
    requires forall s :: 0 <= s < |indices| ==> indices[s] <= indices'[s]
    ensures EdgeRegistered(g, indices', i, span)
  {
    var x, y, b, r :| Scannable(g, x, y, b) && MaximalRun(BorderFlags(g, x, y, b), r) &&
      span == RunPortal(x, y, b, r).Span() && ListedAt(g, indices, i, x, y, b);
    var first, second := CoordToIdx(x, y, SectorsWide(g)), AcrossIdx(g, x, y, b);
    assert indices[first] <= indices'[first] && indices[second] <= indices'[second];
    assert ListedAt(g, indices', i, x, y, b);
  }

  ghost predicate FloorSpan(g: Grid, span: Rect)
    requires g.Valid()
  {
    forall q :: span.Covers(q) ==> g.IsFloor(q)
  }

  // ---------------------------------------------------------------------
  // Table updates

  lemma FieldsGrowPortals(g: Grid, portals: seq<PathPortal>, indices: seq<seq<nat>>,
                          dmaps: seq<seq<seq<Dist>>>, p: PathPortal)
    requires g.Valid() && FieldsMatch(g, portals, indices, dmaps)
    ensures FieldsMatch(g, portals + [p], indices, dmaps)
  {
    forall s, j | 0 <= s < |indices| && 0 <= j < |indices[s]|
      ensures (portals + [p])[indices[s][j]] == portals[indices[s][j]]
    {
    }
  }

  lemma FieldsAddSlot(g: Grid, portals: seq<PathPortal>, indices: seq<seq<nat>>,
                      dmaps: seq<seq<seq<Dist>>>, s: nat, idx: nat, d: seq<Dist>)
    requires g.Valid() && FieldsMatch(g, portals, indices, dmaps)
    requires s < |indices| && idx < |portals|
    requires DistanceField(g, SectorWindow(g, s), portals[idx].Span(), d)
    ensures FieldsMatch(g, portals, indices[s := indices[s] + [idx]], dmaps[s := dmaps[s] + [d]])
  {
    var indices' := indices[s := indices[s] + [idx]];
    var dmaps' := dmaps[s := dmaps[s] + [d]];
    forall s', j | 0 <= s' < |indices'| && 0 <= j < |indices'[s']|
      ensures indices'[s'][j] < |portals|
      ensures DistanceField(g, SectorWindow(g, s'), portals[indices'[s'][j]].Span(), dmaps'[s'][j])
    {
      if s' == s && j == |indices[s]| {
        assert indices'[s'][j] == idx && dmaps'[s'][j] == d;
      } else {
        assert indices'[s'][j] == indices[s'][j] && dmaps'[s'][j] == dmaps[s'][j];
      }
    }
  }

  lemma RegisteredGrows(indices: seq<seq<nat>>, indices': seq<seq<nat>>, i: nat)
    requires Registered(indices, i)
    requires |indices| <= |indices'|
    requires forall s :: 0 <= s < |indices| ==> indices[s] <= indices'[s]
    ensures Registered(indices', i)
  {
    var s1, s2 :| 0 <= s1 < s2 < |indices| && i in indices[s1] && i in indices[s2];
    assert indices[s1] <= indices'[s1] && indices[s2] <= indices'[s2];
  }

  /** `push_portals`: append each new portal, list it in the sector (x, y)
      and in the neighbour across edge `b`, and store its flow field over
      each of the two padded sector windows. */
  method PushPortals(g: Grid, x: nat, y: nat, b: Border, newPortals: seq<PathPortal>,
                     portals: seq<PathPortal>, indices: seq<seq<nat>>, dmaps: seq<seq<seq<Dist>>>)
    returns (portals': seq<PathPortal>, indices': seq<seq<nat>>, dmaps': seq<seq<seq<Dist>>>)
    requires Scannable(g, x, y, b)
    requires |indices| == CoordToIdx(x, y, SectorsWide(g)) + 1
    requires FieldsMatch(g, portals, indices, dmaps)
    ensures FieldsMatch(g, portals', indices', dmaps')
    ensures portals' == portals + newPortals
    ensures |indices'| == |indices|
    ensures forall s :: 0 <= s < |indices| ==> indices[s] <= indices'[s]
    ensures forall i :: |portals| <= i < |portals'| ==> Registered(indices', i)
    ensures forall i :: |portals| <= i < |portals'| ==> ListedAt(g, indices', i, x, y, b)
  {
    var W := SectorsWide(g);
    var nx: nat := if b == Top then x else x - 1;
    var ny: nat := if b == Top then y - 1 else y;
    var first := CoordToIdx(x, y, W);
    var second := CoordToIdx(nx, ny, W);
    NeighbourSectorFirst(x, y, W, b == Top);
    portals', indices', dmaps' := PushEach(g, x, y, nx, ny, newPortals, portals, indices, dmaps);
    forall i | |portals| <= i < |portals'|
      ensures Registered(indices', i) && ListedAt(g, indices', i, x, y, b)
    {
      assert i in indices'[second] && i in indices'[first];
    }
  }

  /** The loop of `push_portals`: PushOne for every new portal in order,
      with (x, y) and (nx, ny) the two sectors of the edge. */
  method PushEach(g: Grid, x: nat, y: nat, nx: nat, ny: nat, newPortals: seq<PathPortal>,
                  portals: seq<PathPortal>, indices: seq<seq<nat>>, dmaps: seq<seq<seq<Dist>>>)
    returns (portals': seq<PathPortal>, indices': seq<seq<nat>>, dmaps': seq<seq<seq<Dist>>>)
    requires g.Valid() && FieldsMatch(g, portals, indices, dmaps)
    requires x < SectorsWide(g) && y < SectorsHigh(g) && nx < SectorsWide(g) && ny < SectorsHigh(g)
    requires CoordToIdx(nx, ny, SectorsWide(g)) < CoordToIdx(x, y, SectorsWide(g)) < |indices|
    ensures FieldsMatch(g, portals', indices', dmaps')
    ensures portals' == portals + newPortals
    ensures |indices'| == |indices|
    ensures forall s :: 0 <= s < |indices| ==> indices[s] <= indices'[s]
    ensures forall i :: |portals| <= i < |portals'| ==>
      i in indices'[CoordToIdx(x, y, SectorsWide(g))] && i in indices'[CoordToIdx(nx, ny, SectorsWide(g))]
  {
    var first := CoordToIdx(x, y, SectorsWide(g));
    var second := CoordToIdx(nx, ny, SectorsWide(g));
    portals', indices', dmaps' := portals, indices, dmaps;
    var k := 0;
    while k < |newPortals|
      invariant k <= |newPortals|
      invariant portals' == portals + newPortals[..k]
      invariant |indices'| == |indices|
      invariant forall s :: 0 <= s < |indices| ==> indices[s] <= indices'[s]
      invariant FieldsMatch(g, portals', indices', dmaps')
      invariant forall i :: |portals| <= i < |portals'| ==> i in indices'[first] && i in indices'[second]
    {
      ghost var before := indices';
      portals', indices', dmaps' := PushOne(g, x, y, nx, ny, newPortals[k], portals', indices', dmaps');
      forall s | 0 <= s < |indices|
        ensures indices[s] <= indices'[s]
      {
        assert indices[s] <= before[s] <= indices'[s];
      }
      assert newPortals[..k + 1] == newPortals[..k] + [newPortals[k]];
      k := k + 1;
    }
    assert newPortals[..k] == newPortals;
  }

  /** The sector above or to the left comes earlier in row-major order. */
  lemma NeighbourSectorFirst(x: nat, y: nat, W: nat, above: bool)
    requires above ==> y > 0
    requires !above ==> x > 0
    ensures above ==> CoordToIdx(x, y - 1, W) < CoordToIdx(x, y, W) || W == 0
    ensures !above ==> CoordToIdx(x - 1, y, W) < CoordToIdx(x, y, W)
  {
    if above {
      assert (y - 1) * W + W == y * W;
    }
  }

  /** One iteration of `push_portals`: append the portal and give both
      sectors a slot for it with its flow field. */
  method PushOne(g: Grid, x: nat, y: nat, nx: nat, ny: nat, portal: PathPortal,
                 portals: seq<PathPortal>, indices: seq<seq<nat>>, dmaps: seq<seq<seq<Dist>>>)
    returns (portals': seq<PathPortal>, indices': seq<seq<nat>>, dmaps': seq<seq<seq<Dist>>>)
    requires g.Valid() && FieldsMatch(g, portals, indices, dmaps)
    requires x < SectorsWide(g) && y < SectorsHigh(g) && nx < SectorsWide(g) && ny < SectorsHigh(g)
    requires CoordToIdx(nx, ny, SectorsWide(g)) < CoordToIdx(x, y, SectorsWide(g)) < |indices|
    ensures portals' == portals + [portal]
    ensures |indices'| == |indices|
    ensures forall s :: 0 <= s < |indices| ==> indices[s] <= indices'[s]
    ensures var first := CoordToIdx(x, y, SectorsWide(g));
      var second := CoordToIdx(nx, ny, SectorsWide(g));
      && |portals| in indices'[first] && |portals| in indices'[second]
      && (forall i :: i in indices[first] ==> i in indices'[first])
      && (forall i :: i in indices[second] ==> i in indices'[second])
    ensures FieldsMatch(g, portals', indices', dmaps')
  {
    var W := SectorsWide(g);
    var first := CoordToIdx(x, y, W);
    var second := CoordToIdx(nx, ny, W);
    SectorOfIdx(g, x, y);
    SectorOfIdx(g, nx, ny);
    PaddedWindowNonEmpty(g, x, y);
    PaddedWindowNonEmpty(g, nx, ny);
    var idx := |portals|;
    FieldsGrowPortals(g, portals, indices, dmaps, portal);
    portals' := portals + [portal];
    var d1 := GenSectorToPortalDmap(g, portal, Pos(x * SplitTiles - 1, y * SplitTiles - 1),
                                    Pos((x + 1) * SplitTiles + 1, (y + 1) * SplitTiles + 1));
    var d2 := GenSectorToPortalDmap(g, portal, Pos(nx * SplitTiles - 1, ny * SplitTiles - 1),
                                    Pos((nx + 1) * SplitTiles + 1, (ny + 1) * SplitTiles + 1));
    FieldsAddSlot(g, portals', indices, dmaps, first, idx, d1);
    indices' := indices[first := indices[first] + [idx]];
    dmaps' := dmaps[first := dmaps[first] + [d1]];
    FieldsAddSlot(g, portals', indices', dmaps', second, idx, d2);
    ghost var mid := indices';
    indices' := indices'[second := indices'[second] + [idx]];
    dmaps' := dmaps'[second := dmaps'[second] + [d2]];
    forall s | 0 <= s < |indices|
      ensures indices[s] <= indices'[s]
    {
      assert indices[s] <= mid[s] <= indices'[s];
    }
  }

  // ---------------------------------------------------------------------
  // Connections

  /** Push the connection a -> b and then b -> a, both in sector s. */
  function Link(portals: seq<PathPortal>, a: nat, b: nat, s: nat, score: Dist): (r: seq<PathPortal>)
    requires a < |portals| && b < |portals|
    ensures |r| == |portals|
    ensures forall q :: 0 <= q < |r| ==> r[q].Span() == portals[q].Span() && portals[q].conns <= r[q].conns
    ensures PortalConnection(b, s, score) in r[a].conns && PortalConnection(a, s, score) in r[b].conns
    ensures forall q, k :: 0 <= q < |r| && |portals[q].conns| <= k < |r[q].conns| ==>
      (q == a && r[q].conns[k] == PortalConnection(b, s, score))
      || (q == b && r[q].conns[k] == PortalConnection(a, s, score))
  {
    var p1 := portals[a := portals[a].(conns := portals[a].conns + [PortalConnection(b, s, score)])];
    p1[b := p1[b].(conns := p1[b].conns + [PortalConnection(a, s, score)])]
  }

  lemma LinkKeepsConns(g: Grid, portals: seq<PathPortal>, indices: seq<seq<nat>>, nReal: nat,
                       a: nat, b: nat, s: nat, cost: nat)
    requires g.Valid() && ConnsWellFormed(g, portals, indices, nReal)
    requires a < nReal && b < nReal && s < |indices| && a in indices[s] && b in indices[s]
    requires SpansLinked(g, SectorMin(g, s), SectorMax(g, s), portals[a].Span(), portals[b].Span())
    requires CostWitnessed(g, SectorMin(g, s), SectorMax(g, s), portals[a].Span(), portals[b].Span(), cost)
    ensures ConnsWellFormed(g, Link(portals, a, b, s, Fin(cost)), indices, nReal)
  {
    var r := Link(portals, a, b, s, Fin(cost));
    forall p, k | 0 <= p < nReal && 0 <= k < |r[p].conns|
      ensures ConnOk(g, r, indices, nReal, p, r[p].conns[k])
    {
      var c := r[p].conns[k];
      if k < |portals[p].conns| {
        assert c == portals[p].conns[k];
        assert ConnOk(g, portals, indices, nReal, p, c);
        assert portals[c.connIdx].conns <= r[c.connIdx].conns;
      }
    }
  }

  /** Portal a has a finite connection to portal b in sector s. */
  ghost predicate Connected(portals: seq<PathPortal>, a: nat, b: nat, s: nat) {
    a < |portals| && exists n: nat :: PortalConnection(b, s, Fin(n)) in portals[a].conns
  }

  /** Pair (i', j') of the sector list comes before (i, j) in the order of
      the nested `i`/`j` loops. */
  predicate PairBefore(i': nat, j': nat, i: nat, j: nat) {
    i' < i || (i' == i && j' < j)
  }

  /** Every pair i' < j' of `ids` checked before (i, j) whose spans are
      linked inside sector t is connected both ways in sector t. */
  ghost predicate PairsDone(g: Grid, portals: seq<PathPortal>, ids: seq<nat>, t: nat, i: nat, j: nat)
    requires g.Valid()
  {
    forall i', j' ::
      (&& 0 <= i' < j' < |ids| && PairBefore(i', j', i, j)
       && ids[i'] < |portals| && ids[j'] < |portals|
       && SpansLinked(g, SectorMin(g, t), SectorMax(g, t), portals[ids[i']].Span(), portals[ids[j']].Span()))
      ==> Connected(portals, ids[i'], ids[j'], t) && Connected(portals, ids[j'], ids[i'], t)
  }

  /** Every pair of portals listed by sector t whose spans are linked inside
      the sector is connected both ways in sector t. */
  ghost predicate SectorLinked(g: Grid, portals: seq<PathPortal>, indices: seq<seq<nat>>, t: nat)
    requires g.Valid() && t < |indices|
  {
    PairsDone(g, portals, indices[t], t, |indices[t]|, 0)
  }

  /** Growing connection lists (spans unchanged) keeps every connection. */
  lemma PairsDoneGrows(g: Grid, portals: seq<PathPortal>, portals': seq<PathPortal>, ids: seq<nat>,
                       t: nat, i: nat, j: nat)
    requires g.Valid() && PairsDone(g, portals, ids, t, i, j)
    requires |portals| <= |portals'|
    requires forall q :: 0 <= q < |portals| ==>
      portals'[q].Span() == portals[q].Span() && portals[q].conns <= portals'[q].conns
    requires forall k :: 0 <= k < |ids| ==> ids[k] < |portals|
    ensures PairsDone(g, portals', ids, t, i, j)
  {
    forall i', j' | 0 <= i' < j' < |ids| && PairBefore(i', j', i, j) &&
      SpansLinked(g, SectorMin(g, t), SectorMax(g, t), portals'[ids[i']].Span(), portals'[ids[j']].Span())
      ensures Connected(portals', ids[i'], ids[j'], t) && Connected(portals', ids[j'], ids[i'], t)
    {
      var a, b := ids[i'], ids[j'];
      assert Connected(portals, a, b, t) && Connected(portals, b, a, t);
      var n1: nat :| PortalConnection(b, t, Fin(n1)) in portals[a].conns;
      var n2: nat :| PortalConnection(a, t, Fin(n2)) in portals[b].conns;
      assert portals[a].conns <= portals'[a].conns && portals[b].conns <= portals'[b].conns;
      assert PortalConnection(b, t, Fin(n1)) in portals'[a].conns;
      assert PortalConnection(a, t, Fin(n2)) in portals'[b].conns;
    }
  }

  /** The outcome of checking portals a then b in sector t: a cost exactly
      when their spans are linked inside the sector; with a cost, both
      connections are pushed with it and it is the minimum of the path sizes
      `sizes` found between the clipped tiles; without one, nothing changes. */
  ghost predicate PairOutcome(g: Grid, t: nat, a: nat, b: nat, portals: seq<PathPortal>, portals': seq<PathPortal>,
                              cost: Option<nat>, sizes: seq<seq<nat>>)
    requires g.Valid() && a < |portals| && b < |portals|
  {
    var lo, hi := SectorMin(g, t), SectorMax(g, t);
    && (cost.Some? <==> SpansLinked(g, lo, hi, portals[a].Span(), portals[b].Span()))
    && (cost.None? ==> portals' == portals)
    && (cost.Some? ==>
          && portals' == Link(portals, a, b, t, Fin(cost.value))
          && RowsMin(g, lo, hi, ClipTiles(portals[a].Span(), lo, hi), ClipTiles(portals[b].Span(), lo, hi),
                     sizes, cost.value))
  }

  /** One step of the pair loops of the connection pass: check the spans of
      portals ids[i] and ids[j] inside sector t and link them both ways when
      the check succeeds. */
  method ConnectPair(g: Grid, t: nat, ids: seq<nat>, i: nat, j: nat, portals: seq<PathPortal>,
                     indices: seq<seq<nat>>, h: (Pos, Pos) -> nat)
    returns (portals': seq<PathPortal>, cost: Option<nat>, ghost sizes: seq<seq<nat>>)
    requires g.Valid() && t < |indices| && t < SectorCount(g) && ids == indices[t] && i < j < |ids|
    requires forall k :: 0 <= k < |ids| ==> ids[k] < |portals|
    requires ConnsWellFormed(g, portals, indices, |portals|)
    ensures ConnsWellFormed(g, portals', indices, |portals|)
    ensures |portals'| == |portals|
    ensures forall q :: 0 <= q < |portals| ==>
      portals'[q].Span() == portals[q].Span() && portals[q].conns <= portals'[q].conns
    ensures SpansLinked(g, SectorMin(g, t), SectorMax(g, t), portals[ids[i]].Span(), portals[ids[j]].Span()) ==>
      Connected(portals', ids[i], ids[j], t) && Connected(portals', ids[j], ids[i], t)
    ensures PairOutcome(g, t, ids[i], ids[j], portals, portals', cost, sizes)
  {
    var lo := SectorMin(g, t);
    var hi := SectorMax(g, t);
    SectorBoxInGrid(g, t);
    cost, sizes := PortalPairCost(g, portals[ids[i]], portals[ids[j]], lo, hi, h);
    if cost.Some? {
      assert ids[i] in indices[t] && ids[j] in indices[t];
      LinkKeepsConns(g, portals, indices, |portals|, ids[i], ids[j], t, cost.value);
      portals' := Link(portals, ids[i], ids[j], t, Fin(cost.value));
      assert PortalConnection(ids[j], t, Fin(cost.value)) in portals'[ids[i]].conns;
      assert PortalConnection(ids[i], t, Fin(cost.value)) in portals'[ids[j]].conns;
    } else {
      portals' := portals;
    }
  }

  /** The connection pass for one sector: every pair (i < j) of its portals
      whose pairwise check succeeds is connected both ways with that cost;
      since the check succeeds exactly for linked spans, every linked pair
      ends up connected. */
  method ConnectSector(g: Grid, t: nat, portals: seq<PathPortal>, indices: seq<seq<nat>>,
                       h: (Pos, Pos) -> nat)
    returns (portals': seq<PathPortal>)
    requires g.Valid() && t < |indices| && t < SectorCount(g)
    requires forall j :: 0 <= j < |indices[t]| ==> indices[t][j] < |portals|
    requires ConnsWellFormed(g, portals, indices, |portals|)
    ensures ConnsWellFormed(g, portals', indices, |portals|)
    ensures |portals'| == |portals|
    ensures forall q :: 0 <= q < |portals| ==>
      portals'[q].Span() == portals[q].Span() && portals[q].conns <= portals'[q].conns
    ensures SectorLinked(g, portals', indices, t)
  {
    var ids := indices[t];
    portals' := portals;
    var i := 0;
    while i < |ids|
      invariant i <= |ids|
      invariant ConnsWellFormed(g, portals', indices, |portals|)
      invariant |portals'| == |portals|
      invariant forall q :: 0 <= q < |portals| ==>
        portals'[q].Span() == portals[q].Span() && portals[q].conns <= portals'[q].conns
      invariant PairsDone(g, portals', ids, t, i, 0)
    {
      portals' := ConnectRow(g, t, ids, i, portals', indices, h);
      i := i + 1;
    }
  }

  /** Row i of the pair loops: check ids[i] against every later portal of
      the sector list. */
  method ConnectRow(g: Grid, t: nat, ids: seq<nat>, i: nat, portals: seq<PathPortal>,
                    indices: seq<seq<nat>>, h: (Pos, Pos) -> nat)
    returns (portals': seq<PathPortal>)
    requires g.Valid() && t < |indices| && t < SectorCount(g) && ids == indices[t] && i < |ids|
    requires forall k :: 0 <= k < |ids| ==> ids[k] < |portals|
    requires ConnsWellFormed(g, portals, indices, |portals|)
    requires PairsDone(g, portals, ids, t, i, 0)
    ensures ConnsWellFormed(g, portals', indices, |portals|)
    ensures |portals'| == |portals|
    ensures forall q :: 0 <= q < |portals| ==>
      portals'[q].Span() == portals[q].Span() && portals[q].conns <= portals'[q].conns
    ensures PairsDone(g, portals', ids, t, i + 1, 0)
  {
    portals' := portals;
    var j := i + 1;
    while j < |ids|
      invariant i < j <= |ids|
      invariant ConnsWellFormed(g, portals', indices, |portals|)
      invariant |portals'| == |portals|
      invariant forall q :: 0 <= q < |portals| ==>
        portals'[q].Span() == portals[q].Span() && portals[q].conns <= portals'[q].conns
      invariant PairsDone(g, portals', ids, t, i, j)
    {
      ghost var before := portals';
      portals' := ConnectStep(g, t, ids, i, j, portals', indices, h);
      assert forall q :: 0 <= q < |portals| ==> portals[q].conns <= before[q].conns <= portals'[q].conns;
      j := j + 1;
    }
    PairsDoneNextRow(g, portals', ids, t, i, j);
  }

  /** One pass of the `j` loop: check pair (i, j) and count it as done. */
  method ConnectStep(g: Grid, t: nat, ids: seq<nat>, i: nat, j: nat, portals: seq<PathPortal>,
                     indices: seq<seq<nat>>, h: (Pos, Pos) -> nat)
    returns (portals': seq<PathPortal>)
    requires g.Valid() && t < |indices| && t < SectorCount(g) && ids == indices[t] && i < j < |ids|
    requires forall k :: 0 <= k < |ids| ==> ids[k] < |portals|
    requires ConnsWellFormed(g, portals, indices, |portals|)
    requires PairsDone(g, portals, ids, t, i, j)
    ensures ConnsWellFormed(g, portals', indices, |portals|)
    ensures |portals'| == |portals|
    ensures forall q :: 0 <= q < |portals| ==>
      portals'[q].Span() == portals[q].Span() && portals[q].conns <= portals'[q].conns
    ensures PairsDone(g, portals', ids, t, i, j + 1)
  {
    var next, _, _ := ConnectPair(g, t, ids, i, j, portals, indices, h);
    portals' := next;
    PairsDoneGrows(g, portals, portals', ids, t, i, j);
    PairsDoneStep(g, portals', ids, t, i, j);
  }

  /** Adding pair (i, j) to the pairs done. */
  lemma PairsDoneStep(g: Grid, portals: seq<PathPortal>, ids: seq<nat>, t: nat, i: nat, j: nat)
    requires g.Valid() && PairsDone(g, portals, ids, t, i, j) && i < j < |ids|
    requires ids[i] < |portals| && ids[j] < |portals|
    requires SpansLinked(g, SectorMin(g, t), SectorMax(g, t), portals[ids[i]].Span(), portals[ids[j]].Span()) ==>
      Connected(portals, ids[i], ids[j], t) && Connected(portals, ids[j], ids[i], t)
    ensures PairsDone(g, portals, ids, t, i, j + 1)
  {
  }

  /** Finishing row i of the pair loops. */
  lemma PairsDoneNextRow(g: Grid, portals: seq<PathPortal>, ids: seq<nat>, t: nat, i: nat, j: nat)
    requires g.Valid() && PairsDone(g, portals, ids, t, i, j) && i < |ids| && j >= |ids|
    ensures PairsDone(g, portals, ids, t, i + 1, 0)
  {
  }

  // ---------------------------------------------------------------------
  // The whole build

  /** `prebuild_map`: scan the top and left edge of every sector in row-major
      order, then connect the portals of every sector, then append the two
      scratch portals the query overwrites. The real portals are the portals
      of the maximal runs of the scanned edges, every run has one, and every
      pair of portals of a sector whose spans are linked inside it is
      connected both ways. */
  method PrebuildMap(g: Grid, h: (Pos, Pos) -> nat) returns (dp: DungeonPortals)
    requires g.Valid()
    ensures WellFormed(g, dp)
    ensures dp.portals[|dp.portals| - 2] == EmptyPortal && dp.portals[|dp.portals| - 1] == EmptyPortal
    ensures forall i :: 0 <= i < |dp.portals| - 2 ==>
      Registered(dp.tilePortalsIndices, i) && FloorSpan(g, dp.portals[i].Span()) && RunSpan(g, dp.portals[i].Span())
    ensures forall i :: 0 <= i < |dp.portals| - 2 ==>
      EdgeRegistered(g, dp.tilePortalsIndices, i, dp.portals[i].Span())
    ensures AllEdgesCovered(g, dp.portals[..|dp.portals| - 2])
    ensures forall t :: 0 <= t < |dp.tilePortalsIndices| ==> SectorLinked(g, dp.portals, dp.tilePortalsIndices, t)
  {
    var portals, indices, dmaps := ScanPhase(g);
    var nReal := |portals|;
    var scanned := portals;
    portals := ConnectPhase(g, portals, indices, dmaps, h);
    var all := portals + [EmptyPortal, EmptyPortal];
    FieldsGrowPortals(g, portals, indices, dmaps, EmptyPortal);
    FieldsGrowPortals(g, portals + [EmptyPortal], indices, dmaps, EmptyPortal);
    assert all == portals + [EmptyPortal] + [EmptyPortal];
    ConnsGrowPortals(g, portals, indices, nReal);
    assert all[..nReal] == portals;
    CoverKeepsSpans(g, scanned, portals);
    ScannedSpansKept(g, scanned, indices, dmaps, all);
    forall t | 0 <= t < |indices|
      ensures SectorLinked(g, all, indices, t)
    {
      assert SectorLinked(g, portals, indices, t);
      PairsDoneGrows(g, portals, all, indices[t], t, |indices[t]|, 0);
    }
    dp := DungeonPortals(SplitTiles, all, indices, dmaps);
  }

  // ---------------------------------------------------------------------
  // Coverage of the scan

  /** Every maximal run of edge `b` of sector (x, y) has a portal with that
      run's span among `portals`. */
  ghost predicate EdgeCovered(g: Grid, portals: seq<PathPortal>, x: nat, y: nat, b: Border)
    requires Scannable(g, x, y, b)
  {
    forall r :: MaximalRun(BorderFlags(g, x, y, b), r) ==>
      exists i :: 0 <= i < |portals| && portals[i].Span() == RunPortal(x, y, b, r).Span()
  }

  /** The edges of the first n sectors in row-major order are covered. */
  ghost predicate ScanCovers(g: Grid, portals: seq<PathPortal>, n: nat) {
    forall x, y, b :: Scannable(g, x, y, b) && CoordToIdx(x, y, SectorsWide(g)) < n ==>
      EdgeCovered(g, portals, x, y, b)
  }

  /** Every scannable edge of the grid is covered. */
  ghost predicate AllEdgesCovered(g: Grid, portals: seq<PathPortal>) {
    forall x, y, b :: Scannable(g, x, y, b) ==> EdgeCovered(g, portals, x, y, b)
  }

  /** `span` is the span of the portal of a maximal run of some edge. */
  ghost predicate RunSpan(g: Grid, span: Rect) {
    exists x, y, b, r :: Scannable(g, x, y, b) && MaximalRun(BorderFlags(g, x, y, b), r) &&
      span == RunPortal(x, y, b, r).Span()
  }

  /** The two edge lists a sector adds: its top edge's portals when it has a
      sector above, its left edge's portals when it has one to the left. */
  ghost predicate SectorEdges(g: Grid, x: nat, y: nat, top: seq<PathPortal>, left: seq<PathPortal>)
    requires g.Valid() && x < SectorsWide(g) && y < SectorsHigh(g)
  {
    && (if y > 0 then EdgePortals(g, x, y, Top, top) else top == [])
    && (if x > 0 then EdgePortals(g, x, y, LeftEdge, left) else left == [])
  }

  /** Coverage only needs the spans, so it survives growing the list and
      changing connections. */
  lemma CoverKeepsSpans(g: Grid, portals: seq<PathPortal>, portals': seq<PathPortal>)
    requires |portals| <= |portals'|
    requires forall q :: 0 <= q < |portals| ==> portals'[q].Span() == portals[q].Span()
    ensures forall n: nat :: ScanCovers(g, portals, n) ==> ScanCovers(g, portals', n)
    ensures AllEdgesCovered(g, portals) ==> AllEdgesCovered(g, portals')
  {
    forall x, y, b | Scannable(g, x, y, b) && EdgeCovered(g, portals, x, y, b)
      ensures EdgeCovered(g, portals', x, y, b)
    {
      forall r | MaximalRun(BorderFlags(g, x, y, b), r)
        ensures exists i :: 0 <= i < |portals'| && portals'[i].Span() == RunPortal(x, y, b, r).Span()
      {
        var i :| 0 <= i < |portals| && portals[i].Span() == RunPortal(x, y, b, r).Span();
        assert portals'[i].Span() == portals[i].Span();
      }
    }
  }

  /** A run's portal is in the list of the edge's portals. */
  lemma EdgePortalsCover(g: Grid, x: nat, y: nat, b: Border, ps: seq<PathPortal>, r: Run)
    requires Scannable(g, x, y, b) && EdgePortals(g, x, y, b, ps)
    requires MaximalRun(BorderFlags(g, x, y, b), r)
    ensures exists k :: 0 <= k < |ps| && ps[k] == RunPortal(x, y, b, r)
  {
    var runs: seq<Run> :| AllRuns(BorderFlags(g, x, y, b), runs) && |runs| == |ps| &&
      (forall k :: 0 <= k < |runs| ==> ps[k] == RunPortal(x, y, b, runs[k]));
    assert r in runs;
    var k :| 0 <= k < |runs| && runs[k] == r;
    assert ps[k] == RunPortal(x, y, b, r);
  }

  /** Every portal of an edge list is a run portal, so its span is a run span. */
  lemma EdgePortalsRunSpans(g: Grid, x: nat, y: nat, b: Border, ps: seq<PathPortal>)
    requires Scannable(g, x, y, b) && EdgePortals(g, x, y, b, ps)
    ensures AllRunSpans(g, ps)
  {
    var runs: seq<Run> :| AllRuns(BorderFlags(g, x, y, b), runs) && |runs| == |ps| &&
      (forall k :: 0 <= k < |runs| ==> ps[k] == RunPortal(x, y, b, runs[k]));
    forall k | 0 <= k < |ps|
      ensures RunSpan(g, ps[k].Span())
    {
      assert MaximalRun(BorderFlags(g, x, y, b), runs[k]);
      assert ps[k].Span() == RunPortal(x, y, b, runs[k]).Span();
    }
  }

  /** Adding sector (x, y)'s edge lists extends coverage by that sector. */
  lemma ScanCoversStep(g: Grid, x: nat, y: nat, portals: seq<PathPortal>,
                       top: seq<PathPortal>, left: seq<PathPortal>)
    requires g.Valid() && x < SectorsWide(g) && y < SectorsHigh(g)
    requires ScanCovers(g, portals, CoordToIdx(x, y, SectorsWide(g)))
    requires SectorEdges(g, x, y, top, left)
    ensures ScanCovers(g, portals + top + left, CoordToIdx(x, y, SectorsWide(g)) + 1)
  {
    var W := SectorsWide(g);
    var all := portals + top + left;
    CoverKeepsSpans(g, portals, all);
    if y > 0 {
      SuffixCovers(g, x, y, Top, top, portals, left);
    }
    if x > 0 {
      SuffixCovers(g, x, y, LeftEdge, left, portals + top, []);
      assert portals + top + left + [] == all;
    }
    forall x', y', b | Scannable(g, x', y', b) && CoordToIdx(x', y', W) < CoordToIdx(x, y, W) + 1
      ensures EdgeCovered(g, all, x', y', b)
    {
      if CoordToIdx(x', y', W) == CoordToIdx(x, y, W) {
        CoordToIdxInjective(x, y, x', y', W);
      }
    }
  }

  /** An edge whose portal list sits inside a longer list is covered by it. */
  lemma SuffixCovers(g: Grid, x: nat, y: nat, b: Border, ps: seq<PathPortal>,
                     before: seq<PathPortal>, after: seq<PathPortal>)
    requires Scannable(g, x, y, b) && EdgePortals(g, x, y, b, ps)
    ensures EdgeCovered(g, before + ps + after, x, y, b)
  {
    forall r | MaximalRun(BorderFlags(g, x, y, b), r)
      ensures exists i :: (0 <= i < |before + ps + after| &&
                           (before + ps + after)[i].Span() == RunPortal(x, y, b, r).Span())
    {
      EdgePortalsCover(g, x, y, b, ps, r);
      var k :| 0 <= k < |ps| && ps[k] == RunPortal(x, y, b, r);
      SpanInMiddle(before, ps, after, k, RunPortal(x, y, b, r).Span());
    }
  }

  /** A portal of the middle list with a given span gives the whole list a
      portal with that span. */
  lemma SpanInMiddle(before: seq<PathPortal>, ps: seq<PathPortal>, after: seq<PathPortal>, k: nat, span: Rect)
    requires k < |ps| && ps[k].Span() == span
    ensures exists i :: 0 <= i < |before + ps + after| && (before + ps + after)[i].Span() == span
  {
    MiddleIndex(before, ps, after, k);
  }

  lemma MiddleIndex<T>(a: seq<T>, b: seq<T>, c: seq<T>, k: nat)
    requires k < |b|
    ensures |a| + k < |a + b + c| && (a + b + c)[|a| + k] == b[k]
  {
  }

  /** Once every sector has been scanned, every edge is covered. */
  lemma ScanCoversAll(g: Grid, portals: seq<PathPortal>)
    requires g.Valid() && ScanCovers(g, portals, SectorCount(g))
    ensures AllEdgesCovered(g, portals)
  {
    forall x, y, b | Scannable(g, x, y, b)
      ensures EdgeCovered(g, portals, x, y, b)
    {
      CoordToIdxBound(x, y, SectorsWide(g), SectorsHigh(g));
    }
  }

  /** The tables a scan has built: one sector list and field list per sector
      visited, every portal unconnected, listed by two sectors, covering
      floor only and the portal of some edge's maximal run. */
  ghost predicate Scanned(g: Grid, portals: seq<PathPortal>, indices: seq<seq<nat>>,
                          dmaps: seq<seq<seq<Dist>>>)
    requires g.Valid()
  {
    && FieldsMatch(g, portals, indices, dmaps)
    && (forall i :: 0 <= i < |portals| ==> portals[i].conns == [])
    && (forall i :: 0 <= i < |portals| ==> Registered(indices, i) && FloorSpan(g, portals[i].Span()))
    && AllRunSpans(g, portals)
    && (forall i :: 0 <= i < |portals| ==> EdgeRegistered(g, indices, i, portals[i].Span()))
  }

  /** The portal scan of `prebuild_map`, sectors in row-major order; it
      misses no run of any edge. */
  method ScanPhase(g: Grid) returns (portals: seq<PathPortal>, indices: seq<seq<nat>>, dmaps: seq<seq<seq<Dist>>>)
    requires g.Valid()
    ensures |indices| == SectorCount(g)
    ensures Scanned(g, portals, indices, dmaps)
    ensures AllEdgesCovered(g, portals)
  {
    var W := SectorsWide(g);
    var H := SectorsHigh(g);
    portals, indices, dmaps := [], [], [];
    var y := 0;
    while y < H
      invariant y <= H
      invariant |indices| == y * W
      invariant Scanned(g, portals, indices, dmaps)
      invariant ScanCovers(g, portals, |indices|)
    {
      var x := 0;
      while x < W
        invariant x <= W
        invariant |indices| == y * W + x
        invariant Scanned(g, portals, indices, dmaps)
        invariant ScanCovers(g, portals, |indices|)
      {
        portals, indices, dmaps := ScanSector(g, x, y, portals, indices, dmaps);
        x := x + 1;
      }
      assert y * W + W == (y + 1) * W;
      y := y + 1;
    }
    assert |indices| == SectorCount(g) by {
      assert y * W == W * H;
    }
    ScanCoversAll(g, portals);
  }

  /** One sector of the scan: open its (empty) list, then add the portals of
      its top edge and of its left edge where it has a neighbour there. */
  method ScanSector(g: Grid, x: nat, y: nat, portals: seq<PathPortal>, indices: seq<seq<nat>>,
                    dmaps: seq<seq<seq<Dist>>>)
    returns (portals': seq<PathPortal>, indices': seq<seq<nat>>, dmaps': seq<seq<seq<Dist>>>)
    requires g.Valid() && x < SectorsWide(g) && y < SectorsHigh(g)
    requires |indices| == y * SectorsWide(g) + x
    requires Scanned(g, portals, indices, dmaps)
    requires ScanCovers(g, portals, |indices|)
    ensures |indices'| == |indices| + 1
    ensures Scanned(g, portals', indices', dmaps')
    ensures ScanCovers(g, portals', |indices'|)
    ensures exists top, left :: SectorEdges(g, x, y, top, left) && portals' == portals + top + left
  {
    var top: seq<PathPortal>, left: seq<PathPortal> := [], [];
    portals' := portals;
    indices' := indices + [[]];
    dmaps' := dmaps + [[]];
    ScannedOpenSector(g, portals, indices, dmaps);
    if y > 0 {
      top, portals', indices', dmaps' := ScanEdge(g, x, y, Top, portals', indices', dmaps');
    } else {
      AppendEmpty(portals);
    }
    ghost var mid := portals';
    if x > 0 {
      left, portals', indices', dmaps' := ScanEdge(g, x, y, LeftEdge, portals', indices', dmaps');
    } else {
      AppendEmpty(mid);
    }
    assert SectorEdges(g, x, y, top, left);
    assert |indices| == CoordToIdx(x, y, SectorsWide(g));
    ScanCoversStep(g, x, y, portals, top, left);
  }

  lemma AppendEmpty<T>(s: seq<T>)
    ensures s + [] == s
  {
  }

  /** Opening the (empty) lists of the next sector keeps the scan's facts. */
  lemma ScannedOpenSector(g: Grid, portals: seq<PathPortal>, indices: seq<seq<nat>>, dmaps: seq<seq<seq<Dist>>>)
    requires g.Valid() && Scanned(g, portals, indices, dmaps)
    ensures Scanned(g, portals, indices + [[]], dmaps + [[]])
  {
    forall i | 0 <= i < |portals|
      ensures Registered(indices + [[]], i) && EdgeRegistered(g, indices + [[]], i, portals[i].Span())
    {
      RegisteredGrows(indices, indices + [[]], i);
      EdgeRegisteredGrows(g, indices, indices + [[]], i, portals[i].Span());
    }
  }

  /** One edge of a sector: find the portals of its maximal runs and append
      them with their flow fields. */
  method ScanEdge(g: Grid, x: nat, y: nat, b: Border, portals: seq<PathPortal>, indices: seq<seq<nat>>,
                  dmaps: seq<seq<seq<Dist>>>)
    returns (ps: seq<PathPortal>, portals': seq<PathPortal>, indices': seq<seq<nat>>, dmaps': seq<seq<seq<Dist>>>)
    requires Scannable(g, x, y, b)
    requires |indices| == CoordToIdx(x, y, SectorsWide(g)) + 1
    requires Scanned(g, portals, indices, dmaps)
    ensures EdgePortals(g, x, y, b, ps) && portals' == portals + ps
    ensures |indices'| == |indices|
    ensures Scanned(g, portals', indices', dmaps')
  {
    ps := CheckBorder(g, x, y, b);
    FloorSpans(g, x, y, b, ps);
    portals', indices', dmaps' := AddBorder(g, x, y, b, ps, portals, indices, dmaps);
    EdgePortalsRunSpans(g, x, y, b, ps);
    RunSpansConcat(g, portals, ps);
  }

  /** Every portal of the list has a run span. */
  ghost predicate AllRunSpans(g: Grid, ps: seq<PathPortal>) {
    forall k :: 0 <= k < |ps| ==> RunSpan(g, ps[k].Span())
  }

  lemma RunSpansConcat(g: Grid, a: seq<PathPortal>, b: seq<PathPortal>)
    requires AllRunSpans(g, a) && AllRunSpans(g, b)
    ensures AllRunSpans(g, a + b)
  {
    forall k | 0 <= k < |a + b|
      ensures RunSpan(g, (a + b)[k].Span())
    {
      if k < |a| {
        assert (a + b)[k] == a[k];
      } else {
        assert (a + b)[k] == b[k - |a|];
      }
    }
  }

  /** The connection phase of `prebuild_map`: every sector in turn links its
      listed portals pairwise. Spans and tables stay as they are, and every
      pair of a sector whose spans are linked inside it ends up connected. */
  method ConnectPhase(g: Grid, portals: seq<PathPortal>, indices: seq<seq<nat>>,
                      dmaps: seq<seq<seq<Dist>>>, h: (Pos, Pos) -> nat)
    returns (portals': seq<PathPortal>)
    requires g.Valid() && Scanned(g, portals, indices, dmaps) && |indices| == SectorCount(g)
    ensures |portals'| == |portals|
    ensures forall q :: 0 <= q < |portals| ==> portals'[q].Span() == portals[q].Span()
    ensures FieldsMatch(g, portals', indices, dmaps)
    ensures ConnsWellFormed(g, portals', indices, |portals|)
    ensures forall t :: 0 <= t < |indices| ==> SectorLinked(g, portals', indices, t)
  {
    var nReal := |portals|;
    portals' := portals;
    var t := 0;
    while t < |indices|
      invariant t <= |indices|
      invariant |portals'| == nReal
      invariant forall q :: 0 <= q < nReal ==> portals'[q].Span() == portals[q].Span()
      invariant FieldsMatch(g, portals', indices, dmaps)
      invariant ConnsWellFormed(g, portals', indices, nReal)
      invariant forall t' :: 0 <= t' < t ==> SectorLinked(g, portals', indices, t')
    {
      ghost var before := portals';
      portals' := ConnectSector(g, t, portals', indices, h);
      FieldsKeepSpans(g, before, portals', indices, dmaps);
      SectorsLinkedStep(g, before, portals', indices, t);
      t := t + 1;
    }
  }

  /** The sectors before t stay linked when sector t's pass only adds
      connections, and sector t is linked now. */
  lemma SectorsLinkedStep(g: Grid, before: seq<PathPortal>, after: seq<PathPortal>,
                          indices: seq<seq<nat>>, t: nat)
    requires g.Valid() && t < |indices|
    requires forall s, j :: 0 <= s < |indices| && 0 <= j < |indices[s]| ==> indices[s][j] < |before|
    requires |after| == |before|
    requires forall q :: 0 <= q < |before| ==>
      after[q].Span() == before[q].Span() && before[q].conns <= after[q].conns
    requires forall t' :: 0 <= t' < t ==> SectorLinked(g, before, indices, t')
    requires SectorLinked(g, after, indices, t)
    ensures forall t' :: 0 <= t' < t + 1 ==> SectorLinked(g, after, indices, t')
  {
    forall t' | 0 <= t' < t
      ensures SectorLinked(g, after, indices, t')
    {
      assert SectorLinked(g, before, indices, t');
      PairsDoneGrows(g, before, after, indices[t'], t', |indices[t']|, 0);
    }
  }

  /** Every portal CheckBorder returns covers floor only. */
  lemma FloorSpans(g: Grid, x: nat, y: nat, b: Border, ps: seq<PathPortal>)
    requires Scannable(g, x, y, b)
    requires forall k :: 0 <= k < |ps| ==> IsRunPortal(g, x, y, b, ps[k])
    ensures forall k :: 0 <= k < |ps| ==> FloorSpan(g, ps[k].Span())
  {
    forall k | 0 <= k < |ps|
      ensures FloorSpan(g, ps[k].Span())
    {
      assert IsRunPortal(g, x, y, b, ps[k]);
      var r :| MaximalRun(BorderFlags(g, x, y, b), r) && ps[k] == RunPortal(x, y, b, r);
      RunPortalIsFloor(g, x, y, b, r);
    }
  }

  /** PushPortals, with the invariants of the scan phase carried across it. */
  method AddBorder(g: Grid, x: nat, y: nat, b: Border, newPortals: seq<PathPortal>,
                   portals: seq<PathPortal>, indices: seq<seq<nat>>, dmaps: seq<seq<seq<Dist>>>)
    returns (portals': seq<PathPortal>, indices': seq<seq<nat>>, dmaps': seq<seq<seq<Dist>>>)
    requires Scannable(g, x, y, b)
    requires |indices| == CoordToIdx(x, y, SectorsWide(g)) + 1
    requires FieldsMatch(g, portals, indices, dmaps)
    requires forall k :: 0 <= k < |newPortals| ==> newPortals[k].conns == [] && FloorSpan(g, newPortals[k].Span())
    requires forall i :: 0 <= i < |portals| ==> portals[i].conns == []
    requires forall i :: 0 <= i < |portals| ==> Registered(indices, i) && FloorSpan(g, portals[i].Span())
    requires forall k :: 0 <= k < |newPortals| ==> IsRunPortal(g, x, y, b, newPortals[k])
    requires forall i :: 0 <= i < |portals| ==> EdgeRegistered(g, indices, i, portals[i].Span())
    ensures |indices'| == |indices|
    ensures portals' == portals + newPortals
    ensures FieldsMatch(g, portals', indices', dmaps')
    ensures forall i :: 0 <= i < |portals'| ==> portals'[i].conns == []
    ensures forall i :: 0 <= i < |portals'| ==> Registered(indices', i) && FloorSpan(g, portals'[i].Span())
    ensures forall i :: 0 <= i < |portals'| ==> EdgeRegistered(g, indices', i, portals'[i].Span())
  {
    portals', indices', dmaps' := PushPortals(g, x, y, b, newPortals, portals, indices, dmaps);
    forall i | 0 <= i < |portals'|
      ensures Registered(indices', i)
      ensures EdgeRegistered(g, indices', i, portals'[i].Span())
    {
      if i < |portals| {
        RegisteredGrows(indices, indices', i);
        EdgeRegisteredGrows(g, indices, indices', i, portals[i].Span());
      } else {
        RunPortalRegistered(g, x, y, b, indices', i, newPortals[i - |portals|]);
      }
    }
  }

  /** A run portal of edge b listed by the edge's two sectors is registered
      at its edge. */
  lemma RunPortalRegistered(g: Grid, x: nat, y: nat, b: Border, indices: seq<seq<nat>>, i: nat, p: PathPortal)
    requires Scannable(g, x, y, b) && IsRunPortal(g, x, y, b, p) && ListedAt(g, indices, i, x, y, b)
    ensures EdgeRegistered(g, indices, i, p.Span())
  {
    var r :| MaximalRun(BorderFlags(g, x, y, b), r) && p == RunPortal(x, y, b, r);
  }

  /** The scan's per-portal facts hold of any list that keeps the scanned
      portals' spans. */
  lemma ScannedSpansKept(g: Grid, scanned: seq<PathPortal>, indices: seq<seq<nat>>,
                         dmaps: seq<seq<seq<Dist>>>, all: seq<PathPortal>)
    requires g.Valid() && Scanned(g, scanned, indices, dmaps)
    requires |scanned| <= |all|
    requires forall q :: 0 <= q < |scanned| ==> all[q].Span() == scanned[q].Span()
    ensures forall i :: 0 <= i < |scanned| ==>
      Registered(indices, i) && FloorSpan(g, all[i].Span()) && RunSpan(g, all[i].Span())
    ensures forall i :: 0 <= i < |scanned| ==> EdgeRegistered(g, indices, i, all[i].Span())
  {
    forall i | 0 <= i < |scanned|
      ensures RunSpan(g, all[i].Span())
    {
      assert RunSpan(g, scanned[i].Span());
    }
  }

  lemma FieldsKeepSpans(g: Grid, before: seq<PathPortal>, after: seq<PathPortal>,
                        indices: seq<seq<nat>>, dmaps: seq<seq<seq<Dist>>>)
    requires g.Valid() && FieldsMatch(g, before, indices, dmaps)
    requires |after| == |before|
    requires forall q :: 0 <= q < |before| ==> after[q].Span() == before[q].Span()
    ensures FieldsMatch(g, after, indices, dmaps)
  {
    forall s, j | 0 <= s < |indices| && 0 <= j < |indices[s]|
      ensures after[indices[s][j]].Span() == before[indices[s][j]].Span()
    {
    }
  }

  lemma ConnsGrowPortals(g: Grid, portals: seq<PathPortal>, indices: seq<seq<nat>>, nReal: nat)
    requires g.Valid() && ConnsWellFormed(g, portals, indices, nReal)
    ensures ConnsWellFormed(g, portals + [EmptyPortal, EmptyPortal], indices, nReal)
  {
    var all := portals + [EmptyPortal, EmptyPortal];
    forall p, k | 0 <= p < nReal && 0 <= k < |all[p].conns|
      ensures ConnOk(g, all, indices, nReal, p, all[p].conns[k])
    {
      assert all[p] == portals[p];
      var c := portals[p].conns[k];
      assert ConnOk(g, portals, indices, nReal, p, c);
      assert all[c.connIdx] == portals[c.connIdx];
    }
  }
}
