/** The path query (`construct_path_hierarchical`). Two tiles in one sector
    are joined by a local A* bounded to that sector. Otherwise the two
    scratch portals are set to the endpoints, the start is connected to the
    portals of its sector, the portals of the goal's sector get a temporary
    connection to the goal and the goal a temporary flow field, the portal
    graph is searched, each hop is walked down its flow field, and the
    temporary entries are removed again. Positions are whole tiles. */
module Query {
  import opened PathTypes
  import opened Dungeon
  import opened FlowField
  import opened LocalSearch
  import opened PortalBuild
  import opened PortalSearch
  import opened Descent

  // ---------------------------------------------------------------------
  // Sectors of a query endpoint

  /** The first tile of p's sector (`fromSecTileCoord`). Dafny's `/` by a
      positive divisor rounds down, as `floorf` of the quotient does, so
      negative coordinates land in the sector to their left or above. */
  function SectorBase(p: Pos): Pos
  {
    Pos(p.x / SplitTiles * SplitTiles, p.y / SplitTiles * SplitTiles)
  }

  /** One past the last tile of p's sector (`fromSecTileCoordCap`). */
  function SectorCap(p: Pos): Pos
  {
    Pos(SectorBase(p).x + SplitTiles, SectorBase(p).y + SplitTiles)
  }

  /** p lies in a sector of the grid, so its sector id indexes the tables. */
  predicate InSectors(g: Grid, p: Pos) {
    p.x >= 0 && p.y >= 0 && p.x / SplitTiles < SectorsWide(g) && p.y / SplitTiles < SectorsHigh(g)
  }

  /** `coord_to_idx` of p's sector coordinates. */
  function SectorIdOf(g: Grid, p: Pos): nat
    requires p.x >= 0 && p.y >= 0
  {
    CoordToIdx(p.x / SplitTiles, p.y / SplitTiles, SectorsWide(g))
  }

  /** A tile of a sector in the grid has a sector id below the sector count,
      and that sector's coordinates and padded window are the tile's own. */
  lemma SectorIdFacts(g: Grid, p: Pos)
    requires InSectors(g, p)
    ensures SectorIdOf(g, p) < SectorCount(g)
    ensures SectorX(g, SectorIdOf(g, p)) == p.x / SplitTiles
    ensures SectorY(g, SectorIdOf(g, p)) == p.y / SplitTiles
    ensures SectorMin(g, SectorIdOf(g, p)) == SectorBase(p)
    ensures SectorMax(g, SectorIdOf(g, p)) == SectorCap(p)
    ensures SectorWindow(g, SectorIdOf(g, p))
         == ClampWindow(g, Pos(SectorBase(p).x - 1, SectorBase(p).y - 1),
                        Pos(SectorCap(p).x + 1, SectorCap(p).y + 1))
    ensures g.InGrid(p)
  {
    CoordToIdxBound(p.x / SplitTiles, p.y / SplitTiles, SectorsWide(g), SectorsHigh(g));
    SectorOfIdx(g, p.x / SplitTiles, p.y / SplitTiles);
    SectorsInsideGrid(g);
    MulLeMono(p.x / SplitTiles + 1, SectorsWide(g), SplitTiles);
    MulLeMono(p.y / SplitTiles + 1, SectorsHigh(g), SplitTiles);
  }

  lemma SectorIdInRange(g: Grid, p: Pos)
    requires InSectors(g, p)
    ensures SectorIdOf(g, p) < SectorCount(g)
  {
    CoordToIdxBound(p.x / SplitTiles, p.y / SplitTiles, SectorsWide(g), SectorsHigh(g));
  }

  /** Tiles share a sector exactly when their sector ids agree. */
  lemma SameSectorIffSameId(g: Grid, p: Pos, q: Pos)
    requires InSectors(g, p) && InSectors(g, q)
    ensures SectorBase(p) == SectorBase(q) <==> SectorIdOf(g, p) == SectorIdOf(g, q)
  {
    if SectorIdOf(g, p) == SectorIdOf(g, q) {
      CoordToIdxInjective(p.x / SplitTiles, p.y / SplitTiles, q.x / SplitTiles, q.y / SplitTiles, SectorsWide(g));
    }
  }

  /** The window the descent reads a field through, computed as the source
      does: the sector grown by one tile, with one tile given back on a side
      that leaves the grid. */
  function DescentWindow(g: Grid, sx: nat, sy: nat): Window {
    var baseX := sx * SplitTiles - 1;
    var baseY := sy * SplitTiles - 1;
    var sizeX := SplitTiles + 2;
    var sizeY := SplitTiles + 2;
    var baseX', sizeX' := if baseX < 0 then baseX + 1 else baseX, if baseX < 0 then sizeX - 1 else sizeX;
    var baseY', sizeY' := if baseY < 0 then baseY + 1 else baseY, if baseY < 0 then sizeY - 1 else sizeY;
    var sizeX'' := if baseX' + sizeX' > g.width then sizeX' - 1 else sizeX';
    var sizeY'' := if baseY' + sizeY' > g.height then sizeY' - 1 else sizeY';
    Window(Pos(baseX', baseY'), Pos(baseX' + sizeX'', baseY' + sizeY''))
  }

  /** For a sector of the grid the descent's window is the window its flow
      fields were generated over, so local indices agree. */
  lemma DescentWindowIsSectorWindow(g: Grid, s: nat)
    requires s < SectorCount(g)
    ensures DescentWindow(g, SectorX(g, s), SectorY(g, s)) == SectorWindow(g, s)
  {
    var w := SectorsWide(g);
    assert w > 0;
    var x, y := s % w, s / w;
    assert y < SectorsHigh(g) by {
      if y >= SectorsHigh(g) {
        MulLeMono(SectorsHigh(g), y, w);
      }
    }
    SectorsInsideGrid(g);
    MulLeMono(x + 1, SectorsWide(g), SplitTiles);
    MulLeMono(y + 1, SectorsHigh(g), SplitTiles);
  }

  // ---------------------------------------------------------------------
  // Temporary connections

  /** What a temporary connection's cost says about the tiles a and b: 0
      exactly when they coincide, and a finite cost m otherwise means a valid
      local path of m tiles inside the box. */
  ghost predicate TempCost(g: Grid, lo: Pos, hi: Pos, a: Pos, b: Pos, score: Dist)
    requires g.Valid()
  {
    && (score == Fin(0) <==> a == b)
    && (score.Fin? && a != b ==> exists path :: ValidPath(g, lo, hi, a, b, path) && |path| == score.n)
  }

  /** `addPortalAsConn`: a connection from `src` to portal `dstId` owned by
      sector `sectorId`, costed by a local A* between the two portals' tiles
      in the sector box grown by one tile (FLT_MAX when none is found). */
  method AddPortalAsConn(g: Grid, src: PathPortal, dstId: nat, dst: PathPortal,
                         limMin: Pos, limMax: Pos, sectorId: nat, h: (Pos, Pos) -> nat)
    returns (c: PortalConnection)
    requires g.Valid()
    ensures c.connIdx == dstId && c.sectorIdx == sectorId
    ensures TempCost(g, Pos(limMin.x - 1, limMin.y - 1), Pos(limMax.x + 1, limMax.y + 1),
                     PortalTile(src), PortalTile(dst), c.score)
  {
    var from := PortalTile(src);
    var to := PortalTile(dst);
    if from == to {
      return PortalConnection(dstId, sectorId, Fin(0));
    }
    var lo, hi := Pos(limMin.x - 1, limMin.y - 1), Pos(limMax.x + 1, limMax.y + 1);
    var path := FindDungeonPathAStar(g, from, to, lo, hi, h);
    if path == [] {
      c := PortalConnection(dstId, sectorId, Inf);
    } else {
      assert |path| != 1;
      c := PortalConnection(dstId, sectorId, Fin(|path|));
    }
  }

  /** The start portal's connections: one per portal of its sector, in list
      order. */
  method FromConns(g: Grid, portals: seq<PathPortal>, src: PathPortal, ids: seq<nat>,
                   base: Pos, cap: Pos, s: nat, h: (Pos, Pos) -> nat)
    returns (conns: seq<PortalConnection>)
    requires g.Valid()
    requires forall j :: 0 <= j < |ids| ==> ids[j] < |portals|
    ensures StartConns(g, portals, ids, s, Pos(base.x - 1, base.y - 1), Pos(cap.x + 1, cap.y + 1),
                       PortalTile(src), conns)
  {
    conns := [];
    var j := 0;
    while j < |ids|
      invariant 0 <= j <= |ids| && |conns| == j
      invariant forall k :: 0 <= k < j ==> conns[k].connIdx == ids[k] && conns[k].sectorIdx == s
      invariant forall k :: 0 <= k < j ==>
        TempCost(g, Pos(base.x - 1, base.y - 1), Pos(cap.x + 1, cap.y + 1),
                 PortalTile(src), PortalTile(portals[ids[k]]), conns[k].score)
    {
      var c := AddPortalAsConn(g, src, ids[j], portals[ids[j]], base, cap, s, h);
      conns := conns + [c];
      j := j + 1;
    }
  }

  /** The portal table grew by temporary connections: each portal p kept its
      tiles and its connections as a prefix, and gained one connection to
      `toId` owned by sector s per occurrence of p in `ids`. */
  ghost predicate GrewTemps(g: Grid, before: seq<PathPortal>, after: seq<PathPortal>, ids: seq<nat>,
                            toId: nat, lo: Pos, hi: Pos, s: nat)
    requires g.Valid() && toId < |before|
  {
    && |after| == |before|
    && (forall p :: 0 <= p < |before| ==>
          && after[p].Span() == before[p].Span()
          && before[p].conns <= after[p].conns
          && |after[p].conns| == |before[p].conns| + multiset(ids)[p])
    && (forall p, k :: 0 <= p < |before| && |before[p].conns| <= k < |after[p].conns| ==>
          && after[p].conns[k].connIdx == toId && after[p].conns[k].sectorIdx == s
          && TempCost(g, lo, hi, PortalTile(before[p]), PortalTile(before[toId]), after[p].conns[k].score))
  }

  /** The second loop of the injection: every portal listed in the goal's
      sector gets a connection to the goal portal `toId`, costed in the
      padded box [lo, hi) (the sector box grown by one tile). */
  method AddTempConns(g: Grid, portals: seq<PathPortal>, ids: seq<nat>, toId: nat,
                      lo: Pos, hi: Pos, s: nat, h: (Pos, Pos) -> nat)
    returns (portals': seq<PathPortal>)
    requires g.Valid() && toId < |portals|
    requires forall j :: 0 <= j < |ids| ==> ids[j] < |portals|
    ensures GrewTemps(g, portals, portals', ids, toId, lo, hi, s)
  {
    var base, cap := Pos(lo.x + 1, lo.y + 1), Pos(hi.x - 1, hi.y - 1);
    assert lo == Pos(base.x - 1, base.y - 1) && hi == Pos(cap.x + 1, cap.y + 1);
    portals' := portals;
    var j := 0;
    while j < |ids|
      invariant 0 <= j <= |ids|
      invariant GrewTemps(g, portals, portals', ids[..j], toId, lo, hi, s)
    {
      var id := ids[j];
      assert portals'[id].Span() == portals[id].Span() && portals'[toId].Span() == portals[toId].Span();
      var c := AddPortalAsConn(g, portals'[id], toId, portals'[toId], base, cap, s, h);
      assert PortalTile(portals'[id]) == PortalTile(portals[id]);
      assert PortalTile(portals'[toId]) == PortalTile(portals[toId]);
      GrewOne(g, portals, portals', ids, j, toId, lo, hi, s, c);
      portals' := portals'[id := portals'[id].(conns := portals'[id].conns + [c])];
      j := j + 1;
    }
    assert ids[..j] == ids;
  }

  /** Appending one temporary connection for the next listing keeps GrewTemps. */
  lemma GrewOne(g: Grid, portals: seq<PathPortal>, cur: seq<PathPortal>, ids: seq<nat>, j: nat,
                toId: nat, lo: Pos, hi: Pos, s: nat, c: PortalConnection)
    requires g.Valid() && toId < |portals| && j < |ids| && ids[j] < |portals|
    requires GrewTemps(g, portals, cur, ids[..j], toId, lo, hi, s)
    requires c.connIdx == toId && c.sectorIdx == s
    requires TempCost(g, lo, hi, PortalTile(portals[ids[j]]), PortalTile(portals[toId]), c.score)
    ensures GrewTemps(g, portals, cur[ids[j] := cur[ids[j]].(conns := cur[ids[j]].conns + [c])], ids[..j + 1], toId, lo, hi, s)
  {
    var id := ids[j];
    var next := cur[id := cur[id].(conns := cur[id].conns + [c])];
    assert ids[..j + 1] == ids[..j] + [id];
    forall p, k | 0 <= p < |portals| && |portals[p].conns| <= k < |next[p].conns|
      ensures next[p].conns[k].connIdx == toId && next[p].conns[k].sectorIdx == s
      ensures TempCost(g, lo, hi, PortalTile(portals[p]), PortalTile(portals[toId]), next[p].conns[k].score)
    {
      if p != id || k < |cur[p].conns| {
        assert next[p].conns[k] == cur[p].conns[k];
      }
    }
  }

  /** p with its last m connections removed. */
  function Pop(p: PathPortal, m: nat): PathPortal
    requires m <= |p.conns|
  {
    p.(conns := p.conns[..|p.conns| - m])
  }

  /** The cleanup loop: pop the last connection of every portal listed in
      `ids`, once per listing. */
  method RemoveTempConns(portals: seq<PathPortal>, ids: seq<nat>) returns (portals': seq<PathPortal>)
    requires forall j :: 0 <= j < |ids| ==> ids[j] < |portals|
    requires forall p :: 0 <= p < |portals| ==> multiset(ids)[p] <= |portals[p].conns|
    ensures |portals'| == |portals|
    ensures forall p :: 0 <= p < |portals| ==> portals'[p] == Pop(portals[p], multiset(ids)[p])
  {
    portals' := portals;
    var j := 0;
    while j < |ids|
      invariant 0 <= j <= |ids| && |portals'| == |portals|
      invariant multiset(ids[..j]) <= multiset(ids)
      invariant forall p :: 0 <= p < |portals| ==> portals'[p] == Pop(portals[p], multiset(ids[..j])[p])
    {
      PrefixMultiset(ids, j);
      PopOne(portals, portals', ids, j);
      portals' := portals'[ids[j] := Pop(portals'[ids[j]], 1)];
      j := j + 1;
    }
    assert ids[..j] == ids;
  }

  /** Popping one more connection of the next listed portal. */
  lemma PopOne(portals: seq<PathPortal>, cur: seq<PathPortal>, ids: seq<nat>, j: nat)
    requires j < |ids| && ids[j] < |portals| && |cur| == |portals|
    requires forall p :: 0 <= p < |portals| ==> multiset(ids)[p] <= |portals[p].conns|
    requires multiset(ids[..j + 1]) == multiset(ids[..j]) + multiset{ids[j]}
    requires multiset(ids[..j + 1]) <= multiset(ids)
    requires forall p :: 0 <= p < |portals| ==> cur[p] == Pop(portals[p], multiset(ids[..j])[p])
    ensures |cur[ids[j]].conns| >= 1
    ensures var next := cur[ids[j] := Pop(cur[ids[j]], 1)];
      forall p :: 0 <= p < |portals| ==> next[p] == Pop(portals[p], multiset(ids[..j + 1])[p])
  {
    var id := ids[j];
    assert multiset(ids[..j + 1])[id] <= multiset(ids)[id];
    var next := cur[id := Pop(cur[id], 1)];
    forall p | 0 <= p < |portals|
      ensures next[p] == Pop(portals[p], multiset(ids[..j + 1])[p])
    {
      if p == id {
        assert next[p] == Pop(Pop(portals[p], multiset(ids[..j])[p]), 1);
      }
    }
  }

  /** One more listing taken from `ids` stays within `ids`. */
  lemma PrefixMultiset(ids: seq<nat>, j: nat)
    requires j < |ids|
    ensures multiset(ids[..j + 1]) == multiset(ids[..j]) + multiset{ids[j]}
    ensures multiset(ids[..j + 1]) <= multiset(ids)
  {
    assert ids[..j + 1] == ids[..j] + [ids[j]];
    assert ids == ids[..j + 1] + ids[j + 1..];
  }

  /** Popping as many connections as were pushed restores every portal. */
  lemma RemoveUndoesAdd(g: Grid, before: seq<PathPortal>, grown: seq<PathPortal>, shrunk: seq<PathPortal>,
                        ids: seq<nat>, toId: nat, lo: Pos, hi: Pos, s: nat)
    requires g.Valid() && toId < |before|
    requires GrewTemps(g, before, grown, ids, toId, lo, hi, s)
    requires |shrunk| == |grown|
    requires forall p :: 0 <= p < |grown| ==> multiset(ids)[p] <= |grown[p].conns|
    requires forall p :: 0 <= p < |grown| ==> shrunk[p] == Pop(grown[p], multiset(ids)[p])
    ensures shrunk == before
  {
    forall p | 0 <= p < |before|
      ensures shrunk[p] == before[p]
    {
      assert grown[p].Span() == before[p].Span();
      assert grown[p].conns[..|before[p].conns|] == before[p].conns;
    }
  }

  // ---------------------------------------------------------------------
  // The table during a cross-sector query

  /** FieldsMatch, with a slot's field looked up only when the slot's field
      itself is mentioned (so membership facts about the sector lists do not
      unfold every field). */
  ghost predicate SlotFields(g: Grid, portals: seq<PathPortal>, indices: seq<seq<nat>>,
                             dmaps: seq<seq<seq<Dist>>>)
    requires g.Valid()
  {
    && |indices| == |dmaps|
    && (forall s :: 0 <= s < |indices| ==> |indices[s]| == |dmaps[s]|)
    && (forall s, j :: 0 <= s < |indices| && 0 <= j < |indices[s]| ==> indices[s][j] < |portals|)
    && (forall s, j {:trigger dmaps[s][j]} :: 0 <= s < |indices| && 0 <= j < |indices[s]| ==>
          DistanceField(g, SectorWindow(g, s), portals[indices[s][j]].Span(), dmaps[s][j]))
  }

  lemma FieldsMatchSlots(g: Grid, portals: seq<PathPortal>, indices: seq<seq<nat>>,
                         dmaps: seq<seq<seq<Dist>>>)
    requires g.Valid() && FieldsMatch(g, portals, indices, dmaps)
    ensures SlotFields(g, portals, indices, dmaps)
  {
  }

  /** During a query: every slot holds its portal's exact field, every
      connection of every portal (the scratch ones included) is owned by a
      sector listing its target, only the goal sector lists the goal portal,
      and that sector's last slot is the goal portal. */
  ghost predicate QueryState(g: Grid, portals: seq<PathPortal>, indices: seq<seq<nat>>,
                             dmaps: seq<seq<seq<Dist>>>, toS: nat)
    requires g.Valid()
  {
    && |portals| >= 2
    && |indices| == SectorCount(g)
    && SlotFields(g, portals, indices, dmaps)
    && ConnsListed(portals, indices, toS)
    && toS < |indices| && |indices[toS]| > 0
    && indices[toS][|indices[toS]| - 1] == |portals| - 1
  }

  lemma QueryStateTargets(g: Grid, portals: seq<PathPortal>, indices: seq<seq<nat>>,
                          dmaps: seq<seq<seq<Dist>>>, toS: nat)
    requires g.Valid() && QueryState(g, portals, indices, dmaps, toS)
    ensures TargetsInRange(portals)
  {
    forall p, k | 0 <= p < |portals| && 0 <= k < |portals[p].conns|
      ensures portals[p].conns[k].connIdx < |portals|
    {
      var c := portals[p].conns[k];
      var j :| 0 <= j < |indices[c.sectorIdx]| && indices[c.sectorIdx][j] == c.connIdx;
    }
  }

  /** FieldsMatch looks only at listed portals' tiles. */
  lemma FieldsKeepListedSpans(g: Grid, before: seq<PathPortal>, after: seq<PathPortal>,
                              indices: seq<seq<nat>>, dmaps: seq<seq<seq<Dist>>>, nReal: nat)
    requires g.Valid() && FieldsMatch(g, before, indices, dmaps)
    requires nReal <= |before| == |after|
    requires forall s, j :: 0 <= s < |indices| && 0 <= j < |indices[s]| ==> indices[s][j] < nReal
    requires forall q :: 0 <= q < nReal ==> after[q].Span() == before[q].Span()
    ensures FieldsMatch(g, after, indices, dmaps)
  {
    forall s, j | 0 <= s < |indices| && 0 <= j < |indices[s]|
      ensures after[indices[s][j]].Span() == before[indices[s][j]].Span()
    {
    }
  }

  /** ConnsWellFormed looks only at the real portals. */
  lemma ConnsKeepReal(g: Grid, before: seq<PathPortal>, after: seq<PathPortal>,
                      indices: seq<seq<nat>>, nReal: nat)
    requires g.Valid() && ConnsWellFormed(g, before, indices, nReal)
    requires |after| == |before|
    requires forall q :: 0 <= q < nReal ==> after[q] == before[q]
    ensures ConnsWellFormed(g, after, indices, nReal)
  {
    forall p, k | 0 <= p < nReal && 0 <= k < |after[p].conns|
      ensures ConnOk(g, after, indices, nReal, p, after[p].conns[k])
    {
      var c := before[p].conns[k];
      assert ConnOk(g, before, indices, nReal, p, c);
    }
  }

  /** Every connection is owned by a sector listing its target, and only
      the goal's sector owns connections to the goal portal (the last one). */
  ghost predicate ConnsListed(portals: seq<PathPortal>, indices: seq<seq<nat>>, toS: nat) {
    forall p, k :: 0 <= p < |portals| && 0 <= k < |portals[p].conns| ==>
      && portals[p].conns[k].sectorIdx < |indices|
      && portals[p].conns[k].connIdx in indices[portals[p].conns[k].sectorIdx]
      && (portals[p].conns[k].connIdx == |portals| - 1 ==> portals[p].conns[k].sectorIdx == toS)
  }

  /** The connections after injection are listed. */
  lemma InjectedConns(g: Grid, dp: DungeonPortals, scratch: seq<PathPortal>, grown: seq<PathPortal>,
                      fromConns: seq<PortalConnection>, fromS: nat, toS: nat,
                      fromLo: Pos, fromHi: Pos, from: Pos, lo: Pos, hi: Pos)
    requires WellFormed(g, dp)
    requires fromS < |dp.tilePortalsIndices| && toS < |dp.tilePortalsIndices|
    requires |scratch| == |dp.portals|
    requires forall q :: 0 <= q < |dp.portals| - 2 ==> scratch[q] == dp.portals[q]
    requires scratch[|scratch| - 1].conns == []
    requires scratch[|scratch| - 2].conns == fromConns
    requires StartConns(g, dp.portals, dp.tilePortalsIndices[fromS], fromS, fromLo, fromHi, from, fromConns)
    requires GrewTemps(g, scratch, grown, dp.tilePortalsIndices[toS], |scratch| - 1, lo, hi, toS)
    ensures ConnsListed(grown, dp.tilePortalsIndices[toS := dp.tilePortalsIndices[toS] + [|grown| - 1]], toS)
  {
    var n := |dp.portals|;
    var ids := dp.tilePortalsIndices[toS];
    var indices := dp.tilePortalsIndices;
    var indices' := indices[toS := ids + [n - 1]];
    assert multiset(ids)[n - 2] == 0 && multiset(ids)[n - 1] == 0 by {
      assert n - 2 !in ids && n - 1 !in ids;
    }
    forall p, k | 0 <= p < n && 0 <= k < |grown[p].conns|
      ensures grown[p].conns[k].sectorIdx < |indices'|
      ensures grown[p].conns[k].connIdx in indices'[grown[p].conns[k].sectorIdx]
      ensures grown[p].conns[k].connIdx == n - 1 ==> grown[p].conns[k].sectorIdx == toS
    {
      var c := grown[p].conns[k];
      if k >= |scratch[p].conns| {
        assert c.connIdx == n - 1 && c.sectorIdx == toS;
      } else {
        assert c == scratch[p].conns[k];
        if p < n - 2 {
          assert ConnOk(g, dp.portals, indices, n - 2, p, dp.portals[p].conns[k]);
        } else {
          assert p == n - 2 && c == fromConns[k];
          assert c.connIdx == indices[fromS][k];
        }
        assert c.connIdx in indices[c.sectorIdx];
        assert indices[c.sectorIdx] <= indices'[c.sectorIdx];
        var j :| 0 <= j < |indices[c.sectorIdx]| && indices[c.sectorIdx][j] == c.connIdx;
        assert c.connIdx < n - 2;
      }
    }
  }

  /** The fields after injection match, the goal's temporary field included. */
  lemma InjectedFields(g: Grid, dp: DungeonPortals, grown: seq<PathPortal>, toS: nat, d: seq<Dist>)
    requires WellFormed(g, dp) && toS < |dp.tilePortalsIndices|
    requires |grown| == |dp.portals|
    requires forall q :: 0 <= q < |dp.portals| - 2 ==> grown[q].Span() == dp.portals[q].Span()
    requires DistanceField(g, SectorWindow(g, toS), grown[|grown| - 1].Span(), d)
    ensures SlotFields(g, grown,
                       dp.tilePortalsIndices[toS := dp.tilePortalsIndices[toS] + [|grown| - 1]],
                       dp.tilePortalsDmaps[toS := dp.tilePortalsDmaps[toS] + [d]])
  {
    var n := |dp.portals|;
    FieldsKeepListedSpans(g, dp.portals, grown, dp.tilePortalsIndices, dp.tilePortalsDmaps, n - 2);
    FieldsAddSlot(g, grown, dp.tilePortalsIndices, dp.tilePortalsDmaps, toS, n - 1, d);
    FieldsMatchSlots(g, grown, dp.tilePortalsIndices[toS := dp.tilePortalsIndices[toS] + [n - 1]],
                     dp.tilePortalsDmaps[toS := dp.tilePortalsDmaps[toS] + [d]]);
  }

  /** The box a temporary connection of p's sector is costed in: the sector
      grown by one tile on every side, not clamped to the grid. */
  function PadLo(p: Pos): Pos requires p.x >= 0 && p.y >= 0 { Pos(SectorBase(p).x - 1, SectorBase(p).y - 1) }
  function PadHi(p: Pos): Pos requires p.x >= 0 && p.y >= 0 { Pos(SectorCap(p).x + 1, SectorCap(p).y + 1) }

  /** The start scratch portal's connections `cs`: one per portal listed in
      `ids`, in list order, owned by sector s and costed from `from`. */
  ghost predicate StartConns(g: Grid, portals: seq<PathPortal>, ids: seq<nat>, s: nat,
                             lo: Pos, hi: Pos, from: Pos, cs: seq<PortalConnection>)
    requires g.Valid()
    requires forall k :: 0 <= k < |ids| ==> ids[k] < |portals|
  {
    && |cs| == |ids|
    && forall k :: 0 <= k < |ids| ==>
         && cs[k].connIdx == ids[k] && cs[k].sectorIdx == s
         && TempCost(g, lo, hi, from, PortalTile(portals[ids[k]]), cs[k].score)
  }

  /** The table after the first half of the injection. */
  ghost predicate Started(g: Grid, dp: DungeonPortals, from: Pos, to: Pos, scratch: seq<PathPortal>)
    requires WellFormed(g, dp)
  {
    && InSectors(g, from) && InSectors(g, to)
    && |scratch| == |dp.portals|
    && (forall q :: 0 <= q < |dp.portals| - 2 ==> scratch[q] == dp.portals[q])
    && scratch[|scratch| - 1] == PointPortal(to)
    && scratch[|scratch| - 2].Span() == PointPortal(from).Span()
    && SectorIdOf(g, from) < |dp.tilePortalsIndices|
    && StartConns(g, dp.portals, dp.tilePortalsIndices[SectorIdOf(g, from)], SectorIdOf(g, from),
                  PadLo(from), PadHi(from), from, scratch[|scratch| - 2].conns)
  }

  /** The first half of the injection: scratch portals at the two endpoints,
      the start connected to every portal of its sector (cost 0 from a
      portal whose tile is the start, else a local path length or FLT_MAX). */
  method InjectStart(g: Grid, dp: DungeonPortals, from: Pos, to: Pos, h: (Pos, Pos) -> nat)
    returns (scratch: seq<PathPortal>)
    requires WellFormed(g, dp)
    requires InSectors(g, from) && InSectors(g, to)
    ensures Started(g, dp, from, to, scratch)
  {
    SectorIdInRange(g, from);
    var n := |dp.portals|;
    var fromS := SectorIdOf(g, from);
    var fromPortal, toPortal := PointPortal(from), PointPortal(to);
    var fromIds := dp.tilePortalsIndices[fromS];
    assert forall k :: 0 <= k < |fromIds| ==> fromIds[k] < n - 2;
    var fromConns := FromConns(g, dp.portals, fromPortal, fromIds, SectorBase(from), SectorCap(from), fromS, h);
    assert PortalTile(fromPortal) == from;
    scratch := dp.portals[n - 2 := fromPortal.(conns := fromConns)][n - 1 := toPortal];
  }

  /** The injected table is in query state. */
  lemma GoalState(g: Grid, dp: DungeonPortals, from: Pos, to: Pos, scratch: seq<PathPortal>,
                  grown: seq<PathPortal>, d: seq<Dist>)
    requires WellFormed(g, dp) && Started(g, dp, from, to, scratch)
    requires SectorIdOf(g, to) < |dp.tilePortalsIndices|
    requires GrewTemps(g, scratch, grown, dp.tilePortalsIndices[SectorIdOf(g, to)], |scratch| - 1,
                       PadLo(to), PadHi(to), SectorIdOf(g, to))
    requires DistanceField(g, SectorWindow(g, SectorIdOf(g, to)), grown[|grown| - 1].Span(), d)
    ensures QueryState(g, grown, GoalIndices(dp, SectorIdOf(g, to), |grown| - 1),
                       GoalDmaps(dp, SectorIdOf(g, to), d), SectorIdOf(g, to))
  {
    var n := |dp.portals|;
    var fromS, toS := SectorIdOf(g, from), SectorIdOf(g, to);
    InjectedConns(g, dp, scratch, grown, scratch[n - 2].conns, fromS, toS,
                  PadLo(from), PadHi(from), from, PadLo(to), PadHi(to));
    InjectedFields(g, dp, grown, toS, d);
  }

  /** The sector lists with the goal portal `id` appended to sector s. */
  function GoalIndices(dp: DungeonPortals, s: nat, id: nat): seq<seq<nat>>
    requires s < |dp.tilePortalsIndices|
  {
    dp.tilePortalsIndices[s := dp.tilePortalsIndices[s] + [id]]
  }

  /** The field lists with the goal's field `d` appended to sector s. */
  function GoalDmaps(dp: DungeonPortals, s: nat, d: seq<Dist>): seq<seq<seq<Dist>>>
    requires s < |dp.tilePortalsDmaps|
  {
    dp.tilePortalsDmaps[s := dp.tilePortalsDmaps[s] + [d]]
  }

  /** The second half of the injection: every portal of the goal's sector
      gets a connection to the goal, and the goal a temporary slot and flow
      field in its sector. `scratch` is the table InjectStart produced. */
  method InjectGoal(g: Grid, dp: DungeonPortals, scratch: seq<PathPortal>, from: Pos, to: Pos, h: (Pos, Pos) -> nat)
    returns (portals: seq<PathPortal>, d: seq<Dist>)
    requires WellFormed(g, dp) && Started(g, dp, from, to, scratch)
    ensures SectorIdOf(g, to) < |dp.tilePortalsIndices|
    ensures GrewTemps(g, scratch, portals, dp.tilePortalsIndices[SectorIdOf(g, to)], |scratch| - 1,
                      PadLo(to), PadHi(to), SectorIdOf(g, to))
    ensures QueryState(g, portals, GoalIndices(dp, SectorIdOf(g, to), |portals| - 1),
                       GoalDmaps(dp, SectorIdOf(g, to), d), SectorIdOf(g, to))
  {
    SectorIdInRange(g, to);
    var n := |dp.portals|;
    var toS := SectorIdOf(g, to);
    var toIds := dp.tilePortalsIndices[toS];
    assert forall j :: 0 <= j < |toIds| ==> toIds[j] < n - 2;
    portals := AddTempConns(g, scratch, dp.tilePortalsIndices[SectorIdOf(g, to)], |scratch| - 1,
                            PadLo(to), PadHi(to), SectorIdOf(g, to), h);
    assert |portals| == n;
    d := GoalField(g, to, portals[n - 1]);
    assert WellFormed(g, dp) && Started(g, dp, from, to, scratch);
    assert SectorIdOf(g, to) < |dp.tilePortalsIndices|;
    assert DistanceField(g, SectorWindow(g, SectorIdOf(g, to)), portals[|portals| - 1].Span(), d);
    GoalState(g, dp, from, to, scratch, portals, d);
  }

  /** The goal's temporary flow field, generated over its sector grown by
      one tile: the sector's own padded window. */
  method GoalField(g: Grid, to: Pos, goal: PathPortal) returns (d: seq<Dist>)
    requires g.Valid() && InSectors(g, to)
    ensures DistanceField(g, SectorWindow(g, SectorIdOf(g, to)), goal.Span(), d)
  {
    SectorIdFacts(g, to);
    d := GenSectorToPortalDmap(g, goal, PadLo(to), PadHi(to));
    PaddedWindowNonEmpty(g, to.x / SplitTiles, to.y / SplitTiles);
  }

  // ---------------------------------------------------------------------
  // Walking the portal path

  /** The first slot of `xs` holding x (the source's linear scan). */
  function FirstIndexOf(xs: seq<nat>, x: nat): (j: nat)
    requires x in xs
    ensures j < |xs| && xs[j] == x
    ensures forall i :: 0 <= i < j ==> xs[i] != x
  {
    if xs[0] == x then 0 else 1 + FirstIndexOf(xs[1..], x)
  }

  /** A 4-connected walk of floor tiles that starts next to `from`. */
  predicate FloorWalkFrom(g: Grid, from: Pos, path: seq<Pos>)
    requires g.Valid()
  {
    && (path != [] ==> Adjacent(from, path[0]))
    && (forall k :: 0 <= k < |path| - 1 ==> Adjacent(path[k], path[k + 1]))
    && (forall k :: 0 <= k < |path| ==> g.IsFloor(path[k]))
  }

  lemma FloorWalkAppend(g: Grid, from: Pos, path: seq<Pos>, cur: Pos, steps: seq<Pos>)
    requires g.Valid() && FloorWalkFrom(g, from, path)
    requires path == [] ==> cur == from
    requires path != [] ==> path[|path| - 1] == cur
    requires FloorWalkFrom(g, cur, steps)
    ensures FloorWalkFrom(g, from, path + steps)
  {
    var r := path + steps;
    forall k | 0 <= k < |r| - 1
      ensures Adjacent(r[k], r[k + 1])
    {
      if k == |path| - 1 {
        assert r[k] == cur && r[k + 1] == steps[0];
      } else if k < |path| - 1 {
        assert r[k] == path[k] && r[k + 1] == path[k + 1];
      } else {
        assert r[k] == steps[k - |path|] && r[k + 1] == steps[k - |path| + 1];
      }
    }
  }

  /** One hop: take the first connection slot of `rest` from portal `cur`,
      find the target's slot in the connection's sector (the last slot on
      the final hop, where the goal's temporary field sits, else the first
      slot listing the target) and descend that field from the end of the
      walk so far, appending the steps. */
  method Hop(g: Grid, portals: seq<PathPortal>, indices: seq<seq<nat>>, dmaps: seq<seq<seq<Dist>>>,
             toS: nat, from: Pos, cur: nat, rest: seq<nat>, path: seq<Pos>)
    returns (next: nat, path': seq<Pos>, stuck: bool)
    requires g.Valid() && QueryState(g, portals, indices, dmaps, toS)
    requires cur < |portals| && rest != [] && ConnPath(portals, cur, |portals| - 1, rest)
    requires FloorWalkFrom(g, from, path)
    ensures next == portals[cur].conns[rest[0]].connIdx && next < |portals|
    ensures ConnPath(portals, next, |portals| - 1, rest[1..])
    ensures stuck ==> path' == path
    ensures !stuck ==>
      && |path'| > |path| && FloorWalkFrom(g, from, path')
      && portals[next].Span().Covers(path'[|path'| - 1])
  {
    var curPos := if path == [] then from else path[|path| - 1];
    var c := portals[cur].conns[rest[0]];
    next := c.connIdx;
    var s := c.sectorIdx;
    var slot: nat;
    if rest[1..] == [] {
      slot := |indices[s]| - 1;
    } else {
      slot := FirstIndexOf(indices[s], next);
    }
    var dmap := dmaps[s][slot];
    var span := portals[next].Span();
    assert DistanceField(g, SectorWindow(g, s), span, dmap);
    DescentWindowIsSectorWindow(g, s);
    var win := DescentWindow(g, SectorX(g, s), SectorY(g, s));
    var steps, st := Descend(g, win, span, dmap, curPos);
    stuck := st;
    if stuck {
      return next, path, true;
    }
    assert FloorWalkFrom(g, curPos, steps) by {
      forall i | 0 <= i < |steps| ensures g.IsFloor(steps[i]) {
        assert Open(g, win, steps[i]);
      }
    }
    FloorWalkAppend(g, from, path, curPos, steps);
    path' := path + steps;
  }

  /** Walks the hops `hops` from the start portal: each hop descends the
      flow field of its target portal in the hop's sector, starting where
      the previous hop ended. `stuck` reports a descent that would not end.
      The walk is a 4-connected run of floor tiles from `from`; when it is
      complete and there was at least one hop it ends on the goal portal. */
  method WalkPortals(g: Grid, portals: seq<PathPortal>, indices: seq<seq<nat>>,
                     dmaps: seq<seq<seq<Dist>>>, toS: nat, from: Pos, hops: seq<nat>)
    returns (path: seq<Pos>, trace: seq<nat>, stuck: bool)
    requires g.Valid() && QueryState(g, portals, indices, dmaps, toS)
    requires hops != [] ==> ConnPath(portals, |portals| - 2, |portals| - 1, hops)
    ensures FloorWalkFrom(g, from, path)
    ensures 1 <= |trace| <= |hops| + 1 && trace[0] == |portals| - 2
    ensures !stuck ==> |trace| == |hops| + 1
    ensures stuck ==> |trace| >= 2
    ensures !stuck && hops != [] ==>
      path != [] && trace[|trace| - 1] == |portals| - 1
      && portals[|portals| - 1].Span().Covers(path[|path| - 1])
    ensures hops == [] ==> path == [] && !stuck
  {
    var n := |portals|;
    path, trace, stuck := [], [n - 2], false;
    var cur: nat := n - 2;
    var rest := hops;
    while rest != []
      invariant cur < n && |rest| <= |hops|
      invariant rest != [] ==> ConnPath(portals, cur, n - 1, rest)
      invariant hops != [] && rest == [] ==> cur == n - 1
      invariant FloorWalkFrom(g, from, path)
      invariant |trace| == |hops| - |rest| + 1 && trace[0] == n - 2 && trace[|trace| - 1] == cur
      invariant rest == hops ==> path == []
      invariant rest != hops ==> path != [] && portals[cur].Span().Covers(path[|path| - 1])
      decreases |rest|
    {
      var next, path', st := Hop(g, portals, indices, dmaps, toS, from, cur, rest, path);
      trace := trace + [next];
      if st {
        return path, trace, true;
      }
      path, cur, rest := path', next, rest[1..];
    }
  }

  /** Removing the goal's temporary slot, field and connections leaves a
      table whose sector lists, fields and real portals are the original
      ones, so it is well formed again. */
  lemma CleanupRestores(g: Grid, dp: DungeonPortals, scratch: seq<PathPortal>, grown: seq<PathPortal>,
                        restored: seq<PathPortal>, toS: nat, lo: Pos, hi: Pos)
    requires WellFormed(g, dp) && toS < |dp.tilePortalsIndices|
    requires |scratch| == |dp.portals|
    requires forall q :: 0 <= q < |dp.portals| - 2 ==> scratch[q] == dp.portals[q]
    requires GrewTemps(g, scratch, grown, dp.tilePortalsIndices[toS], |scratch| - 1, lo, hi, toS)
    requires |restored| == |grown|
    requires forall p :: 0 <= p < |grown| ==> multiset(dp.tilePortalsIndices[toS])[p] <= |grown[p].conns|
    requires forall p :: 0 <= p < |grown| ==> restored[p] == Pop(grown[p], multiset(dp.tilePortalsIndices[toS])[p])
    ensures restored == scratch
    ensures WellFormed(g, DungeonPortals(dp.tileSplit, restored, dp.tilePortalsIndices, dp.tilePortalsDmaps))
  {
    RemoveUndoesAdd(g, scratch, grown, restored, dp.tilePortalsIndices[toS], |scratch| - 1, lo, hi, toS);
    var n := |dp.portals|;
    FieldsKeepListedSpans(g, dp.portals, restored, dp.tilePortalsIndices, dp.tilePortalsDmaps, n - 2);
    ConnsKeepReal(g, dp.portals, restored, dp.tilePortalsIndices, n - 2);
  }

  // ---------------------------------------------------------------------
  // The query

  /** Some chain of finite connections leads from portal a to portal b. */
  ghost predicate ChainBetween(portals: seq<PathPortal>, a: nat, b: nat) {
    exists hs :: ConnPath(portals, a, b, hs)
  }

  /** Search the portal graph from the start scratch portal to the goal
      scratch portal and walk the hops found; the walk has no hop exactly
      when no chain of finite connections joins the two. */
  method SearchAndWalk(g: Grid, portals: seq<PathPortal>, indices: seq<seq<nat>>,
                       dmaps: seq<seq<seq<Dist>>>, toS: nat, from: Pos, h: (Pos, Pos) -> nat)
    returns (path: seq<Pos>, trace: seq<nat>, stuck: bool)
    requires g.Valid() && QueryState(g, portals, indices, dmaps, toS)
    ensures FloorWalkFrom(g, from, path)
    ensures |trace| >= 1 && trace[0] == |portals| - 2
    ensures |trace| == 1 ==> path == [] && !stuck
    ensures |trace| == 1 <==> !ChainBetween(portals, |portals| - 2, |portals| - 1)
    ensures !stuck && |trace| > 1 ==>
      path != [] && trace[|trace| - 1] == |portals| - 1
      && portals[|portals| - 1].Span().Covers(path[|path| - 1])
  {
    var n := |portals|;
    QueryStateTargets(g, portals, indices, dmaps, toS);
    var hops := FindPortalPathAStar(portals, n - 2, n - 1, h);
    path, trace, stuck := WalkPortals(g, portals, indices, dmaps, toS, from, hops);
  }

  /** A cross-sector query: inject, search and walk, then pop the goal's
      slot and field and one connection per listing of the goal's sector. */
  method CrossSector(g: Grid, dp: DungeonPortals, from: Pos, to: Pos, h: (Pos, Pos) -> nat)
    returns (res: PathSearchRes, dp': DungeonPortals, stuck: bool)
    requires WellFormed(g, dp)
    requires InSectors(g, from) && InSectors(g, to)
    ensures |res.portalIndices| >= 1 && res.portalIndices[0] == |dp.portals| - 2
    ensures FloorWalkFrom(g, from, res.path)
    ensures |res.portalIndices| == 1 ==> res.path == [] && !stuck
    ensures !stuck && |res.portalIndices| > 1 ==>
      && res.path != [] && res.path[|res.path| - 1] == to
      && res.portalIndices[|res.portalIndices| - 1] == |dp.portals| - 1
    ensures !stuck ==>
      && dp'.tilePortalsIndices == dp.tilePortalsIndices
      && dp'.tilePortalsDmaps == dp.tilePortalsDmaps
      && |dp'.portals| == |dp.portals|
      && (forall q :: 0 <= q < |dp.portals| - 2 ==> dp'.portals[q] == dp.portals[q])
      && dp'.portals[|dp.portals| - 1] == PointPortal(to)
      && WellFormed(g, dp')
  {
    var scratch := InjectStart(g, dp, from, to, h);
    res, dp', stuck := QueryFromStart(g, dp, scratch, from, to, h);
  }

  /** The part of a cross-sector query after the start portal is injected:
      on completion the table is back to the scratch portals. */
  method QueryFromStart(g: Grid, dp: DungeonPortals, scratch: seq<PathPortal>, from: Pos, to: Pos,
                        h: (Pos, Pos) -> nat)
    returns (res: PathSearchRes, dp': DungeonPortals, stuck: bool)
    requires WellFormed(g, dp) && Started(g, dp, from, to, scratch)
    ensures |res.portalIndices| >= 1 && res.portalIndices[0] == |dp.portals| - 2
    ensures FloorWalkFrom(g, from, res.path)
    ensures |res.portalIndices| == 1 ==> res.path == [] && !stuck
    ensures !stuck && |res.portalIndices| > 1 ==>
      && res.path != [] && res.path[|res.path| - 1] == to
      && res.portalIndices[|res.portalIndices| - 1] == |dp.portals| - 1
    ensures !stuck ==>
      && dp'.tilePortalsIndices == dp.tilePortalsIndices
      && dp'.tilePortalsDmaps == dp.tilePortalsDmaps
      && dp'.portals == scratch
      && WellFormed(g, dp')
  {
    var n := |dp.portals|;
    var portals, d := InjectGoal(g, dp, scratch, from, to, h);
    assert |portals| == n;
    var qIndices := GoalIndices(dp, SectorIdOf(g, to), |portals| - 1);
    var qDmaps := GoalDmaps(dp, SectorIdOf(g, to), d);
    var path, trace, st := SearchAndWalk(g, portals, qIndices, qDmaps, SectorIdOf(g, to), from, h);
    res, stuck := PathSearchRes(path, trace), st;
    if stuck {
      return res, DungeonPortals(dp.tileSplit, portals, qIndices, qDmaps), true;
    }
    if |trace| > 1 {
      assert portals[n - 1].Span() == scratch[n - 1].Span() == PointPortal(to).Span();
      assert PointPortal(to).Span().Covers(path[|path| - 1]);
    }
    dp' := Cleanup(g, dp, scratch, portals, qIndices, qDmaps, d, to);
  }

  /** The cleanup: pop the goal's slot and field from its sector, then one
      connection per listing of that sector. Everything but the scratch
      portals is as before the query. */
  method Cleanup(g: Grid, dp: DungeonPortals, scratch: seq<PathPortal>, portals: seq<PathPortal>,
                 indices: seq<seq<nat>>, dmaps: seq<seq<seq<Dist>>>, d: seq<Dist>, to: Pos)
    returns (dp': DungeonPortals)
    requires WellFormed(g, dp) && InSectors(g, to)
    requires SectorIdOf(g, to) < |dp.tilePortalsIndices|
    requires |scratch| == |dp.portals|
    requires forall q :: 0 <= q < |dp.portals| - 2 ==> scratch[q] == dp.portals[q]
    requires GrewTemps(g, scratch, portals, dp.tilePortalsIndices[SectorIdOf(g, to)], |scratch| - 1,
                       PadLo(to), PadHi(to), SectorIdOf(g, to))
    requires indices == GoalIndices(dp, SectorIdOf(g, to), |portals| - 1)
    requires dmaps == GoalDmaps(dp, SectorIdOf(g, to), d)
    ensures dp'.tilePortalsIndices == dp.tilePortalsIndices
    ensures dp'.tilePortalsDmaps == dp.tilePortalsDmaps
    ensures dp'.portals == scratch
    ensures WellFormed(g, dp')
  {
    var toS := SectorIdOf(g, to);
    var toIds := indices[toS][..|indices[toS]| - 1];
    assert toIds == dp.tilePortalsIndices[toS];
    var indices' := indices[toS := toIds];
    assert |dmaps| == |dp.tilePortalsDmaps| by {
      assert WellFormed(g, dp);
    }
    var dmaps' := dmaps[toS := dmaps[toS][..|dmaps[toS]| - 1]];
    assert dmaps[toS][..|dmaps[toS]| - 1] == dp.tilePortalsDmaps[toS];
    assert indices' == dp.tilePortalsIndices;
    assert dmaps' == dp.tilePortalsDmaps;
    var restored := RemoveTempConns(portals, toIds);
    CleanupRestores(g, dp, scratch, portals, restored, toS, PadLo(to), PadHi(to));
    dp' := DungeonPortals(dp.tileSplit, restored, indices', dmaps');
  }

  /** `construct_path_hierarchical` on whole tiles.

      Same sector: a local A* bounded to the sector, the portal table
      untouched and no portals traced. This branch reads no table, so any
      tiles are accepted; a start outside the grid gives an empty path.
      Different sectors need both endpoints in whole sectors of the grid,
      since their sector ids index the tables unchecked.

      Different sectors: the trace starts at the start scratch portal; when
      the walk completes, the table's sector lists, flow fields and real
      portals are exactly as before and the table is still well formed.
      The path is a 4-connected floor walk from `from`; it is empty when no
      portal route was found and otherwise (when complete) ends on `to`.
      `stuck` reports a descent the source would repeat forever. */
  method ConstructPathHierarchical(g: Grid, dp: DungeonPortals, from: Pos, to: Pos, h: (Pos, Pos) -> nat)
    returns (res: PathSearchRes, dp': DungeonPortals, stuck: bool)
    requires WellFormed(g, dp)
    requires SectorBase(from) != SectorBase(to) ==> InSectors(g, from) && InSectors(g, to)
    ensures SectorBase(from) == SectorBase(to) ==>
      && dp' == dp && !stuck && res.portalIndices == []
      && (!g.InGrid(from) ==> res.path == [])
      && (g.InGrid(from) && from == to ==> res.path == [from])
      && (res.path != [] ==> ValidPath(g, SectorBase(from), SectorCap(from), from, to, res.path))
      && (g.InGrid(from) && (exists p :: ValidPath(g, SectorBase(from), SectorCap(from), from, to, p)) ==> res.path != [])
    ensures SectorBase(from) != SectorBase(to) ==>
      && |res.portalIndices| >= 1 && res.portalIndices[0] == |dp.portals| - 2
      && FloorWalkFrom(g, from, res.path)
      && (|res.portalIndices| == 1 ==> res.path == [] && !stuck)
      && (!stuck && |res.portalIndices| > 1 ==>
            res.path != [] && res.path[|res.path| - 1] == to
            && res.portalIndices[|res.portalIndices| - 1] == |dp.portals| - 1)
    ensures !stuck ==>
      && dp'.tilePortalsIndices == dp.tilePortalsIndices
      && dp'.tilePortalsDmaps == dp.tilePortalsDmaps
      && |dp'.portals| == |dp.portals|
      && (forall q :: 0 <= q < |dp.portals| - 2 ==> dp'.portals[q] == dp.portals[q])
      && WellFormed(g, dp')
  {
    if SectorBase(from) == SectorBase(to) {
      var path := FindDungeonPathAStar(g, from, to, SectorBase(from), SectorCap(from), h);
      return PathSearchRes(path, []), dp, false;
    }
    res, dp', stuck := CrossSector(g, dp, from, to, h);
  }
}
