/** Portal discovery (`check_border` inside `prebuild_map`): along the top and
    left edge of every sector, each maximal run of positions where the tile
    inside the sector and its partner across the edge are both non-wall
    becomes one portal spanning both sides. */
module BorderScan {
  import opened PathTypes
  import opened Dungeon

  /** The two edges a sector scans: against the sector above it and against
      the sector to its left. */
  datatype Border = Top | LeftEdge

  /** Sector (xx, yy) exists and has a neighbour across edge `b`. */
  predicate Scannable(g: Grid, xx: nat, yy: nat, b: Border) {
    && g.Valid() && xx < SectorsWide(g) && yy < SectorsHigh(g)
    && (b == Top ==> yy > 0)
    && (b == LeftEdge ==> xx > 0)
  }

  /** The i-th tile of edge `b`, on the sector's side. */
  function BorderTile(xx: nat, yy: nat, b: Border, i: nat): Pos {
    match b
    case Top => Pos(xx * SplitTiles + i, yy * SplitTiles)
    case LeftEdge => Pos(xx * SplitTiles, yy * SplitTiles + i)
  }

  /** Its partner across the edge, in the neighbouring sector. */
  function AcrossTile(xx: nat, yy: nat, b: Border, i: nat): Pos {
    match b
    case Top => Up(BorderTile(xx, yy, b, i))
    case LeftEdge => Left(BorderTile(xx, yy, b, i))
  }

  lemma BorderPairInGrid(g: Grid, xx: nat, yy: nat, b: Border, i: nat)
    requires Scannable(g, xx, yy, b) && i < SplitTiles
    ensures g.InGrid(BorderTile(xx, yy, b, i)) && g.InGrid(AcrossTile(xx, yy, b, i))
  {
    SectorsInsideGrid(g);
    MulLeMono(xx + 1, SectorsWide(g), SplitTiles);
    MulLeMono(yy + 1, SectorsHigh(g), SplitTiles);
  }

  /** Position i of the edge can be crossed: neither tile of the pair is a wall. */
  function PairOpen(g: Grid, xx: nat, yy: nat, b: Border, i: nat): bool
    requires Scannable(g, xx, yy, b) && i < SplitTiles
  {
    BorderPairInGrid(g, xx, yy, b, i);
    g.At(BorderTile(xx, yy, b, i)) != Wall && g.At(AcrossTile(xx, yy, b, i)) != Wall
  }

  function BorderFlags(g: Grid, xx: nat, yy: nat, b: Border): seq<bool>
    requires Scannable(g, xx, yy, b)
  {
    seq(SplitTiles, i requires 0 <= i < SplitTiles => PairOpen(g, xx, yy, b, i))
  }

  /** A block of positions first..last (inclusive). */
  datatype Run = Run(first: nat, last: nat)

  /** A maximal block of consecutive set flags. */
  predicate MaximalRun(flags: seq<bool>, r: Run) {
    && r.first <= r.last < |flags|
    && (forall i :: r.first <= i <= r.last ==> flags[i])
    && (r.first == 0 || !flags[r.first - 1])
    && (r.last + 1 == |flags| || !flags[r.last + 1])
  }

  /** A block of set flags bounded by unset ones (or the ends) is the only
      maximal run ending where it ends. */
  lemma RunEndsAt(flags: seq<bool>, from: nat, end: nat)
    requires from < end <= |flags|
    requires forall j :: from <= j < end ==> flags[j]
    requires from == 0 || !flags[from - 1]
    requires end == |flags| || !flags[end]
    ensures MaximalRun(flags, Run(from, end - 1))
    ensures forall r :: MaximalRun(flags, r) && r.last + 1 == end ==> r == Run(from, end - 1)
  {
  }

  /** What the scan knows after reading positions 0..i-1: `spanFrom` (-1 when
      none) starts the open run of set flags reaching i - 1, `spanTo` is its
      latest position, and `runs` holds, in order, exactly the maximal runs
      already closed before i. */
  ghost predicate ScanInv(flags: seq<bool>, i: int, spanFrom: int, spanTo: int, runs: seq<Run>) {
    && 0 <= i <= |flags|
    && -1 <= spanFrom < i
    && (spanFrom >= 0 ==> spanTo == i - 1)
    && (spanFrom >= 0 ==> forall j :: spanFrom <= j < i ==> flags[j])
    && (spanFrom > 0 ==> !flags[spanFrom - 1])
    && (spanFrom < 0 ==> i == 0 || !flags[i - 1])
    && (forall k :: 0 <= k < |runs| ==> MaximalRun(flags, runs[k]) && runs[k].last + 1 < i)
    && (forall r :: MaximalRun(flags, r) && r.last + 1 < i ==> r in runs)
    && (forall k :: 0 <= k < |runs| - 1 ==> runs[k].last + 1 < runs[k + 1].first)
    && (spanFrom >= 0 && |runs| > 0 ==> runs[|runs| - 1].last + 1 < spanFrom)
  }

  /** One position of the scan: a set flag opens or extends the run, an
      unset flag closes the open run, if any. */
  method ScanStep(flags: seq<bool>, i: int, spanFrom: int, spanTo: int, runs: seq<Run>)
    returns (spanFrom': int, spanTo': int, runs': seq<Run>)
    requires i < |flags| && ScanInv(flags, i, spanFrom, spanTo, runs)
    ensures ScanInv(flags, i + 1, spanFrom', spanTo', runs')
  {
    spanFrom', spanTo', runs' := spanFrom, spanTo, runs;
    if flags[i] {
      if spanFrom < 0 {
        spanFrom' := i;
      }
      spanTo' := i;
    } else if spanFrom >= 0 {
      ScanClose(flags, i, spanFrom, spanTo, runs);
      runs' := runs + [Run(spanFrom, spanTo)];
      spanFrom' := -1;
    }
  }

  /** An unset flag at i closes the open run spanFrom..i-1, which is then
      the only maximal run ending at i - 1. */
  lemma ScanClose(flags: seq<bool>, i: int, spanFrom: int, spanTo: int, runs: seq<Run>)
    requires i < |flags| && ScanInv(flags, i, spanFrom, spanTo, runs)
    requires !flags[i] && spanFrom >= 0
    ensures ScanInv(flags, i + 1, -1, spanTo, runs + [Run(spanFrom, spanTo)])
  {
    RunEndsAt(flags, spanFrom, i);
    var runs' := runs + [Run(spanFrom, spanTo)];
    forall r | MaximalRun(flags, r) && r.last + 1 < i + 1
      ensures r in runs'
    {
      if r.last + 1 < i {
        assert r in runs;
      } else {
        assert r == Run(spanFrom, spanTo);
      }
    }
  }

  /** The scan of `check_border`: `spanFrom` marks an open run (-1 when none)
      and `spanTo` its latest position; a run is written when a closed
      position ends it or when the edge ends. */
  method ScanRuns(flags: seq<bool>) returns (runs: seq<Run>)
    ensures forall k :: 0 <= k < |runs| ==> MaximalRun(flags, runs[k])
    ensures forall r :: MaximalRun(flags, r) ==> r in runs
    ensures forall k :: 0 <= k < |runs| - 1 ==> runs[k].last + 1 < runs[k + 1].first
  {
    var spanFrom: int := -1;
    var spanTo: int := -1;
    runs := [];
    var i := 0;
    while i < |flags|
      invariant ScanInv(flags, i, spanFrom, spanTo, runs)
      decreases |flags| - i
    {
      spanFrom, spanTo, runs := ScanStep(flags, i, spanFrom, spanTo, runs);
      i := i + 1;
    }
    if spanFrom >= 0 {
      RunEndsAt(flags, spanFrom, |flags|);
      runs := runs + [Run(spanFrom, spanTo)];
    }
  }

  /** The portal written for a run: from the partner of its first position to
      the sector-side tile of its last position. */
  function RunPortal(xx: nat, yy: nat, b: Border, r: Run): PathPortal
    requires b == Top ==> yy > 0
    requires b == LeftEdge ==> xx > 0
  {
    var s := AcrossTile(xx, yy, b, r.first);
    var e := BorderTile(xx, yy, b, r.last);
    PathPortal(s.x, s.y, e.x, e.y, [])
  }

  /** `p` is the portal of some maximal run of edge `b`. */
  ghost predicate IsRunPortal(g: Grid, xx: nat, yy: nat, b: Border, p: PathPortal)
    requires Scannable(g, xx, yy, b)
  {
    exists r :: MaximalRun(BorderFlags(g, xx, yy, b), r) && p == RunPortal(xx, yy, b, r)
  }

  /** `runs` lists every maximal run of `flags` and nothing else, in edge
      order with a closed position between neighbours. */
  ghost predicate AllRuns(flags: seq<bool>, runs: seq<Run>) {
    && (forall k :: 0 <= k < |runs| ==> MaximalRun(flags, runs[k]))
    && (forall r :: MaximalRun(flags, r) ==> r in runs)
    && (forall k :: 0 <= k < |runs| - 1 ==> runs[k].last + 1 < runs[k + 1].first)
  }

  /** `portals` are the portals of the maximal runs of edge `b`, one per
      run, in edge order. */
  ghost predicate EdgePortals(g: Grid, xx: nat, yy: nat, b: Border, portals: seq<PathPortal>)
    requires Scannable(g, xx, yy, b)
  {
    exists runs :: && AllRuns(BorderFlags(g, xx, yy, b), runs)
                   && |runs| == |portals|
                   && (forall k :: 0 <= k < |runs| ==> portals[k] == RunPortal(xx, yy, b, runs[k]))
  }

  /** Runs in edge order are pairwise distinct, so no run gets two portals. */
  lemma AllRunsDistinct(flags: seq<bool>, runs: seq<Run>, i: nat, j: nat)
    requires AllRuns(flags, runs) && i < j < |runs|
    ensures runs[i].last < runs[j].first
    decreases j - i
  {
    if j > i + 1 {
      AllRunsDistinct(flags, runs, i + 1, j);
      assert MaximalRun(flags, runs[i + 1]);
    }
  }

  /** No portal of an edge appears twice: distinct runs start at distinct
      positions, so their portals start at distinct tiles. */
  lemma EdgePortalsDistinct(g: Grid, xx: nat, yy: nat, b: Border, portals: seq<PathPortal>, i: nat, j: nat)
    requires Scannable(g, xx, yy, b) && EdgePortals(g, xx, yy, b, portals)
    requires i < j < |portals|
    ensures portals[i] != portals[j]
  {
    var runs: seq<Run> :| && AllRuns(BorderFlags(g, xx, yy, b), runs) && |runs| == |portals|
                && (forall k :: 0 <= k < |runs| ==> portals[k] == RunPortal(xx, yy, b, runs[k]));
    AllRunsDistinct(BorderFlags(g, xx, yy, b), runs, i, j);
    assert runs[i].first <= runs[i].last < runs[j].first;
  }

  /** `check_border`: one portal per maximal run of crossable positions,
      in edge order. */
  method CheckBorder(g: Grid, xx: nat, yy: nat, b: Border) returns (portals: seq<PathPortal>)
    requires Scannable(g, xx, yy, b)
    ensures EdgePortals(g, xx, yy, b, portals)
    ensures forall k :: 0 <= k < |portals| ==> IsRunPortal(g, xx, yy, b, portals[k])
    ensures forall r :: MaximalRun(BorderFlags(g, xx, yy, b), r) ==> RunPortal(xx, yy, b, r) in portals
    ensures forall k :: 0 <= k < |portals| ==> portals[k].conns == []
  {
    var flags := BorderFlags(g, xx, yy, b);
    var runs := ScanRuns(flags);
    portals := seq(|runs|, k requires 0 <= k < |runs| => RunPortal(xx, yy, b, runs[k]));
    assert AllRuns(flags, runs);
    forall r | MaximalRun(BorderFlags(g, xx, yy, b), r)
      ensures RunPortal(xx, yy, b, r) in portals
    {
      var k :| 0 <= k < |runs| && runs[k] == r;
      assert portals[k] == RunPortal(xx, yy, b, r);
    }
    forall k | 0 <= k < |portals|
      ensures IsRunPortal(g, xx, yy, b, portals[k])
    {
      assert MaximalRun(flags, runs[k]) && portals[k] == RunPortal(xx, yy, b, runs[k]);
    }
  }

  /** A portal of a maximal run covers only floor tiles, two tiles deep
      across the edge, and has ordered corners. */
  lemma RunPortalIsFloor(g: Grid, xx: nat, yy: nat, b: Border, r: Run)
    requires Scannable(g, xx, yy, b) && MaximalRun(BorderFlags(g, xx, yy, b), r)
    ensures var p := RunPortal(xx, yy, b, r);
      && p.startX <= p.endX && p.startY <= p.endY
      && forall q :: p.Span().Covers(q) ==> g.IsFloor(q)
  {
    var p := RunPortal(xx, yy, b, r);
    var flags := BorderFlags(g, xx, yy, b);
    forall q | p.Span().Covers(q)
      ensures g.IsFloor(q)
    {
      var i: nat := if b == Top then q.x - xx * SplitTiles else q.y - yy * SplitTiles;
      assert r.first <= i <= r.last;
      assert flags[i] && PairOpen(g, xx, yy, b, i);
      BorderPairInGrid(g, xx, yy, b, i);
      assert q == BorderTile(xx, yy, b, i) || q == AcrossTile(xx, yy, b, i);
    }
  }
}
