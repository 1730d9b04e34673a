/** The sector-to-portal flow field (`gen_sector_to_portal_dmap`): a dense
    distance array over a rectangle clamped to the grid, seeded with 0 on the
    portal's span and relaxed until no value changes. At the fixpoint every
    floor tile holds its 4-connected in-window distance to the nearest seed,
    or `Inf` when no seed is reachable. */
module FlowField {
  import opened PathTypes
  import opened Dungeon

  /** A half-open rectangle of tiles, lo <= p < hi. */
  datatype Window = Window(lo: Pos, hi: Pos)
  {
    predicate Contains(p: Pos) { lo.x <= p.x < hi.x && lo.y <= p.y < hi.y }

    predicate IsEmpty() { hi.x <= lo.x || hi.y <= lo.y }

    function W(): nat requires !IsEmpty() { hi.x - lo.x }
    function H(): nat requires !IsEmpty() { hi.y - lo.y }
    function Size(): nat requires !IsEmpty() { W() * H() }

    /** The tile stored at local index i (row-major inside the window). */
    function CellAt(i: nat): Pos
      requires !IsEmpty()
    {
      Pos(lo.x + i % W(), lo.y + i / W())
    }

    /** The local index of a tile inside the window. */
    function LocalIdx(p: Pos): nat
      requires !IsEmpty() && Contains(p)
    {
      CoordToIdx(p.x - lo.x, p.y - lo.y, W())
    }
  }

  lemma CellAtInside(win: Window, i: nat)
    requires !win.IsEmpty() && i < win.Size()
    ensures win.Contains(win.CellAt(i))
    ensures win.LocalIdx(win.CellAt(i)) == i
  {
    var w := win.W();
    if i / w >= win.H() {
      MulLeMono(win.H(), i / w, w);
      assert false;
    }
  }

  lemma LocalIdxInside(win: Window, p: Pos)
    requires !win.IsEmpty() && win.Contains(p)
    ensures win.LocalIdx(p) < win.Size()
    ensures win.CellAt(win.LocalIdx(p)) == p
  {
    CoordToIdxBound(p.x - win.lo.x, p.y - win.lo.y, win.W(), win.H());
    CoordToIdxInverse(p.x - win.lo.x, p.y - win.lo.y, win.W());
  }

  lemma LocalIdxInjective(win: Window, p: Pos, q: Pos)
    requires !win.IsEmpty() && win.Contains(p) && win.Contains(q)
    requires win.LocalIdx(p) == win.LocalIdx(q)
    ensures p == q
  {
    LocalIdxInside(win, p);
    LocalIdxInside(win, q);
  }

  function MaxInt(a: int, b: int): int { if a < b then b else a }
  function MinInt(a: int, b: int): int { if a < b then a else b }

  /** The requested rectangle [base, cap) clamped to the grid. */
  function ClampWindow(g: Grid, base: Pos, cap: Pos): (r: Window)
    ensures forall q :: r.Contains(q) <==>
      base.x <= q.x < cap.x && base.y <= q.y < cap.y && g.InGrid(q)
    ensures r.IsEmpty() <==> (forall q :: !r.Contains(q))
  {
    var r := Window(Pos(MaxInt(base.x, 0), MaxInt(base.y, 0)),
                    Pos(MinInt(cap.x, g.width), MinInt(cap.y, g.height)));
    assert !r.IsEmpty() ==> r.Contains(r.lo);
    r
  }

  /** A tile the field is defined on: inside the window and floor. */
  predicate Open(g: Grid, win: Window, p: Pos)
    requires g.Valid()
  {
    win.Contains(p) && g.IsFloor(p)
  }

  /** A seed tile: an open tile of the portal's span. */
  predicate Seed(g: Grid, win: Window, span: Rect, p: Pos)
    requires g.Valid()
  {
    Open(g, win, p) && span.Covers(p)
  }

  /** A 4-connected walk of open tiles that starts on a seed. */
  ghost predicate IsWalk(g: Grid, win: Window, span: Rect, w: seq<Pos>)
    requires g.Valid()
  {
    && |w| > 0
    && Seed(g, win, span, w[0])
    && (forall k :: 0 <= k < |w| ==> Open(g, win, w[k]))
    && (forall k :: 0 <= k < |w| - 1 ==> Adjacent(w[k], w[k + 1]))
  }

  ghost predicate WalkTo(g: Grid, win: Window, span: Rect, w: seq<Pos>, c: Pos)
    requires g.Valid()
  {
    IsWalk(g, win, span, w) && w[|w| - 1] == c
  }

  /** k is the length (in steps) of a shortest walk from a seed to c. */
  ghost predicate IsDistance(g: Grid, win: Window, span: Rect, c: Pos, k: nat)
    requires g.Valid()
  {
    && (exists w :: WalkTo(g, win, span, w, c) && |w| == k + 1)
    && (forall w :: WalkTo(g, win, span, w, c) ==> |w| >= k + 1)
  }

  ghost predicate Unreachable(g: Grid, win: Window, span: Rect, c: Pos)
    requires g.Valid()
  {
    forall w :: !WalkTo(g, win, span, w, c)
  }

  ghost predicate CorrectAt(g: Grid, win: Window, span: Rect, d: seq<Dist>, i: nat)
    requires g.Valid() && !win.IsEmpty() && i < |d|
  {
    var c := win.CellAt(i);
    && (!Open(g, win, c) ==> d[i] == Inf)
    && (Open(g, win, c) ==> (d[i] == Inf <==> Unreachable(g, win, span, c)))
    && (d[i].Fin? ==> IsDistance(g, win, span, c, d[i].n))
  }

  /** `d` is the exact flow field of `span` over the non-empty window `win`. */
  ghost predicate DistanceField(g: Grid, win: Window, span: Rect, d: seq<Dist>)
    requires g.Valid()
  {
    && !win.IsEmpty()
    && |d| == win.Size()
    && forall i :: 0 <= i < |d| ==> CorrectAt(g, win, span, d, i)
  }

  // ---------------------------------------------------------------------
  // Relaxation

  /** `getMapAt`: the stored value of an open tile, else the default. */
  function GetMapAt(g: Grid, win: Window, d: seq<Dist>, q: Pos, def: Dist): (r: Dist)
    requires g.Valid() && !win.IsEmpty() && |d| == win.Size()
    ensures Open(g, win, q) ==> win.LocalIdx(q) < |d| && r == d[win.LocalIdx(q)]
    ensures !Open(g, win, q) ==> r == def
  {
    if Open(g, win, q) then
      LocalIdxInside(win, q);
      d[win.LocalIdx(q)]
    else def
  }

  /** `getMinNei`: the tile's own value lowered by its open 4-neighbours. */
  function MinNei(g: Grid, win: Window, d: seq<Dist>, c: Pos): Dist
    requires g.Valid() && !win.IsEmpty() && |d| == win.Size()
  {
    var v0 := GetMapAt(g, win, d, c, Inf);
    var v1 := Min(v0, GetMapAt(g, win, d, Left(c), v0));
    var v2 := Min(v1, GetMapAt(g, win, d, Right(c), v1));
    var v3 := Min(v2, GetMapAt(g, win, d, Up(c), v2));
    Min(v3, GetMapAt(g, win, d, Down(c), v3))
  }

  /** Each open neighbour bounds MinNei from above, and MinNei is either the
      tile's own value or an open neighbour's value. */
  lemma MinNeiFacts(g: Grid, win: Window, d: seq<Dist>, c: Pos)
    requires g.Valid() && !win.IsEmpty() && |d| == win.Size() && Open(g, win, c)
    ensures var m := MinNei(g, win, d, c);
      && Le(m, GetMapAt(g, win, d, c, Inf))
      && (Open(g, win, Left(c)) ==> Le(m, GetMapAt(g, win, d, Left(c), Inf)))
      && (Open(g, win, Right(c)) ==> Le(m, GetMapAt(g, win, d, Right(c), Inf)))
      && (Open(g, win, Up(c)) ==> Le(m, GetMapAt(g, win, d, Up(c), Inf)))
      && (Open(g, win, Down(c)) ==> Le(m, GetMapAt(g, win, d, Down(c), Inf)))
      && (m == GetMapAt(g, win, d, c, Inf)
          || (Open(g, win, Left(c)) && m == GetMapAt(g, win, d, Left(c), Inf))
          || (Open(g, win, Right(c)) && m == GetMapAt(g, win, d, Right(c), Inf))
          || (Open(g, win, Up(c)) && m == GetMapAt(g, win, d, Up(c), Inf))
          || (Open(g, win, Down(c)) && m == GetMapAt(g, win, d, Down(c), Inf)))
  {
  }

  /** The value of an open tile, as `getMapAt(x, y, INVALID)` reads it. */
  function ValAt(g: Grid, win: Window, d: seq<Dist>, q: Pos): Dist
    requires g.Valid() && !win.IsEmpty() && |d| == win.Size()
  {
    GetMapAt(g, win, d, q, Inf)
  }

  /** A positive value k is justified by an open neighbour holding less. */
  predicate SupportedBy(g: Grid, win: Window, d: seq<Dist>, nb: Pos, k: nat)
    requires g.Valid() && !win.IsEmpty() && |d| == win.Size()
  {
    Open(g, win, nb) && Lt(ValAt(g, win, d, nb), Fin(k))
  }

  predicate Supported(g: Grid, win: Window, d: seq<Dist>, c: Pos, k: nat)
    requires g.Valid() && !win.IsEmpty() && |d| == win.Size()
  {
    || SupportedBy(g, win, d, Left(c), k)
    || SupportedBy(g, win, d, Right(c), k)
    || SupportedBy(g, win, d, Up(c), k)
    || SupportedBy(g, win, d, Down(c), k)
  }

  /** What relaxation keeps true of every cell. */
  predicate InvAt(g: Grid, win: Window, span: Rect, d: seq<Dist>, i: nat)
    requires g.Valid() && !win.IsEmpty() && |d| == win.Size() && i < |d|
  {
    var c := win.CellAt(i);
    && (!Open(g, win, c) ==> d[i] == Inf)
    && (Seed(g, win, span, c) ==> d[i] == Fin(0))
    && (d[i] == Fin(0) ==> Seed(g, win, span, c))
    && (d[i].Fin? && d[i].n > 0 ==> Supported(g, win, d, c, d[i].n))
  }

  predicate RelaxInv(g: Grid, win: Window, span: Rect, d: seq<Dist>)
    requires g.Valid() && !win.IsEmpty()
  {
    |d| == win.Size() && forall i :: 0 <= i < |d| ==> InvAt(g, win, span, d, i)
  }

  /** The relaxation test of the source, `minVal < myVal - 1`. */
  predicate Improves(g: Grid, win: Window, d: seq<Dist>, c: Pos)
    requires g.Valid() && !win.IsEmpty() && |d| == win.Size()
  {
    Lt(Succ(MinNei(g, win, d, c)), ValAt(g, win, d, c))
  }

  predicate StableAt(g: Grid, win: Window, d: seq<Dist>, i: nat)
    requires g.Valid() && !win.IsEmpty() && |d| == win.Size() && i < |d|
  {
    Open(g, win, win.CellAt(i)) ==> !Improves(g, win, d, win.CellAt(i))
  }

  predicate Stable(g: Grid, win: Window, d: seq<Dist>)
    requires g.Valid() && !win.IsEmpty() && |d| == win.Size()
  {
    forall i :: 0 <= i < |d| ==> StableAt(g, win, d, i)
  }

  predicate PointwiseLe(d: seq<Dist>, d0: seq<Dist>) {
    |d| == |d0| && forall i :: 0 <= i < |d| ==> Le(d[i], d0[i])
  }

  /** Lowering one open, non-seed cell to `Succ(MinNei)` keeps the invariant. */
  lemma RelaxStepKeepsInv(g: Grid, win: Window, span: Rect, d: seq<Dist>, i: nat)
    requires g.Valid() && !win.IsEmpty() && RelaxInv(g, win, span, d) && i < |d|
    requires Open(g, win, win.CellAt(i)) && Improves(g, win, d, win.CellAt(i))
    ensures var d' := d[i := Succ(MinNei(g, win, d, win.CellAt(i)))];
      RelaxInv(g, win, span, d') && PointwiseLe(d', d) && d' != d
  {
    var c := win.CellAt(i);
    var v := Succ(MinNei(g, win, d, c));
    var d' := d[i := v];
    NewValueSupported(g, win, span, d, i);
    forall j | 0 <= j < |d'|
      ensures InvAt(g, win, span, d', j)
    {
      if j != i {
        OtherCellKeepsInv(g, win, span, d, i, v, j);
      }
    }
  }

  /** The lowered value is positive, below the old one and supported by the
      neighbour the minimum came from. */
  lemma NewValueSupported(g: Grid, win: Window, span: Rect, d: seq<Dist>, i: nat)
    requires g.Valid() && !win.IsEmpty() && RelaxInv(g, win, span, d) && i < |d|
    requires Open(g, win, win.CellAt(i)) && Improves(g, win, d, win.CellAt(i))
    ensures var c := win.CellAt(i);
      var v := Succ(MinNei(g, win, d, c));
      && v.Fin? && v.n > 0 && Lt(v, d[i]) && !Seed(g, win, span, c)
      && Supported(g, win, d[i := v], c, v.n)
      && InvAt(g, win, span, d[i := v], i)
  {
    var c := win.CellAt(i);
    CellAtInside(win, i);
    var m := MinNei(g, win, d, c);
    var v := Succ(m);
    var d' := d[i := v];
    MinNeiFacts(g, win, d, c);
    assert InvAt(g, win, span, d, i);
    NeighbourUnchanged(win, d, i, v, c, Left(c));
    NeighbourUnchanged(win, d, i, v, c, Right(c));
    NeighbourUnchanged(win, d, i, v, c, Up(c));
    NeighbourUnchanged(win, d, i, v, c, Down(c));
    assert Supported(g, win, d', c, v.n);
  }

  /** Lowering cell i leaves every other cell's invariant intact. */
  lemma OtherCellKeepsInv(g: Grid, win: Window, span: Rect, d: seq<Dist>, i: nat, v: Dist, j: nat)
    requires g.Valid() && !win.IsEmpty() && RelaxInv(g, win, span, d) && i < |d| && j < |d| && i != j
    requires Le(v, d[i])
    ensures InvAt(g, win, span, d[i := v], j)
  {
    var d' := d[i := v];
    var e := win.CellAt(j);
    assert d'[j] == d[j];
    assert InvAt(g, win, span, d, j);
    if d[j].Fin? && d[j].n > 0 {
      var k := d[j].n;
      assert Supported(g, win, d, e, k);
      if SupportedBy(g, win, d, Left(e), k) {
        SupportSurvives(g, win, d, i, v, e, Left(e), k);
      } else if SupportedBy(g, win, d, Right(e), k) {
        SupportSurvives(g, win, d, i, v, e, Right(e), k);
      } else if SupportedBy(g, win, d, Up(e), k) {
        SupportSurvives(g, win, d, i, v, e, Up(e), k);
      } else {
        SupportSurvives(g, win, d, i, v, e, Down(e), k);
      }
      assert Supported(g, win, d', e, k);
    }
  }

  lemma NeighbourUnchanged(win: Window, d: seq<Dist>, i: nat, v: Dist, c: Pos, nb: Pos)
    requires !win.IsEmpty() && |d| == win.Size() && i < |d| && c == win.CellAt(i)
    requires Adjacent(c, nb)
    ensures win.Contains(nb) ==>
      win.LocalIdx(nb) < |d| && d[i := v][win.LocalIdx(nb)] == d[win.LocalIdx(nb)]
  {
    if win.Contains(nb) {
      CellAtInside(win, i);
      LocalIdxInside(win, nb);
      if win.LocalIdx(nb) == i {
        LocalIdxInjective(win, nb, c);
      }
    }
  }

  lemma SupportSurvives(g: Grid, win: Window, d: seq<Dist>, i: nat, v: Dist, e: Pos, nb: Pos, k: nat)
    requires g.Valid() && !win.IsEmpty() && |d| == win.Size() && i < |d| && Le(v, d[i])
    requires SupportedBy(g, win, d, nb, k)
    ensures SupportedBy(g, win, d[i := v], nb, k)
  {
  }

  /** One full raster-order pass over the window. */
  method RelaxPass(g: Grid, win: Window, span: Rect, d0: seq<Dist>)
    returns (d: seq<Dist>, changed: bool)
    requires g.Valid() && !win.IsEmpty() && RelaxInv(g, win, span, d0)
    requires forall q :: win.Contains(q) ==> g.InGrid(q)
    ensures RelaxInv(g, win, span, d) && PointwiseLe(d, d0)
    ensures changed ==> d != d0
    ensures !changed ==> d == d0 && Stable(g, win, d)
  {
    d := d0;
    changed := false;
    var i := 0;
    while i < |d|
      invariant 0 <= i <= |d| == |d0|
      invariant RelaxInv(g, win, span, d) && PointwiseLe(d, d0)
      invariant changed ==> d != d0
      invariant !changed ==> d == d0 && forall j :: 0 <= j < i ==> StableAt(g, win, d, j)
    {
      var c := win.CellAt(i);
      CellAtInside(win, i);
      if g.At(c) == Floor {
        var myVal := GetMapAt(g, win, d, c, Inf);
        var minVal := MinNei(g, win, d, c);
        if Lt(Succ(minVal), myVal) {
          RelaxStepKeepsInv(g, win, span, d, i);
          ghost var dPrev := d;
          d := d[i := Succ(minVal)];
          assert PointwiseLe(d, d0) by {
            forall j | 0 <= j < |d| ensures Le(d[j], d0[j]) {
              assert Le(d[j], dPrev[j]) && Le(dPrev[j], d0[j]);
            }
          }
          if !changed {
            assert d[i] != d0[i];
          } else {
            LeSeqAntisym(d, dPrev, d0);
          }
          changed := true;
        }
      }
      i := i + 1;
    }
  }

  /** If d <= d' <= d0 pointwise and d' != d0 then d != d0. */
  lemma LeSeqAntisym(d: seq<Dist>, d': seq<Dist>, d0: seq<Dist>)
    requires PointwiseLe(d, d') && PointwiseLe(d', d0) && d' != d0
    ensures d != d0
  {
    var k :| 0 <= k < |d'| && d'[k] != d0[k];
    assert Lt(d[k], d0[k]);
  }

  // ---------------------------------------------------------------------
  // Termination measure: (number of Inf cells, sum of finite cells)

  function InfCount(d: seq<Dist>): nat {
    if |d| == 0 then 0 else InfCount(d[..|d| - 1]) + (if d[|d| - 1] == Inf then 1 else 0)
  }

  function FinSum(d: seq<Dist>): nat {
    if |d| == 0 then 0
    else FinSum(d[..|d| - 1]) + (if d[|d| - 1].Fin? then d[|d| - 1].n else 0)
  }

  lemma {:induction false} MeasureDecreases(d: seq<Dist>, d0: seq<Dist>)
    requires PointwiseLe(d, d0)
    ensures InfCount(d) <= InfCount(d0)
    ensures InfCount(d) == InfCount(d0) ==> FinSum(d) <= FinSum(d0)
    ensures InfCount(d) == InfCount(d0) && d != d0 ==> FinSum(d) < FinSum(d0)
    decreases |d|
  {
    if |d| > 0 {
      var n := |d| - 1;
      assert PointwiseLe(d[..n], d0[..n]);
      MeasureDecreases(d[..n], d0[..n]);
      if d != d0 && d[n] == d0[n] {
        var k :| 0 <= k < |d| && d[k] != d0[k];
        assert d[..n][k] != d0[..n][k];
      }
    }
  }

  // ---------------------------------------------------------------------
  // Correctness of the fixpoint

  /** At a stable state a value never exceeds an open neighbour's value + 1. */
  lemma StableBoundsNeighbour(g: Grid, win: Window, span: Rect, d: seq<Dist>, c: Pos, nb: Pos)
    requires g.Valid() && !win.IsEmpty() && |d| == win.Size() && Stable(g, win, d)
    requires Open(g, win, c) && Open(g, win, nb) && Adjacent(nb, c)
    ensures Le(ValAt(g, win, d, c), Succ(ValAt(g, win, d, nb)))
  {
    LocalIdxInside(win, c);
    var i := win.LocalIdx(c);
    assert StableAt(g, win, d, i);
    MinNeiFacts(g, win, d, c);
  }

  /** Every walk of length k to c bounds the stable value of c by k. */
  lemma {:induction false} WalkBoundsValue(g: Grid, win: Window, span: Rect, d: seq<Dist>, w: seq<Pos>)
    requires g.Valid() && !win.IsEmpty() && RelaxInv(g, win, span, d) && Stable(g, win, d)
    requires IsWalk(g, win, span, w)
    ensures Le(ValAt(g, win, d, w[|w| - 1]), Fin(|w| - 1))
    decreases |w|
  {
    var last := w[|w| - 1];
    LocalIdxInside(win, last);
    assert InvAt(g, win, span, d, win.LocalIdx(last));
    if |w| > 1 {
      var w' := w[..|w| - 1];
      assert IsWalk(g, win, span, w');
      WalkBoundsValue(g, win, span, d, w');
      StableBoundsNeighbour(g, win, span, d, last, w'[|w'| - 1]);
    }
  }

  /** A finite value k is witnessed by a walk of at most k steps. */
  lemma {:induction false} SupportGivesWalk(g: Grid, win: Window, span: Rect, d: seq<Dist>, c: Pos)
    returns (w: seq<Pos>)
    requires g.Valid() && !win.IsEmpty() && RelaxInv(g, win, span, d)
    requires Open(g, win, c) && ValAt(g, win, d, c).Fin?
    ensures WalkTo(g, win, span, w, c) && |w| <= ValAt(g, win, d, c).n + 1
    decreases ValAt(g, win, d, c).n
  {
    LocalIdxInside(win, c);
    var k := ValAt(g, win, d, c).n;
    assert InvAt(g, win, span, d, win.LocalIdx(c));
    if k == 0 {
      w := [c];
    } else {
      var nb: Pos;
      if SupportedBy(g, win, d, Left(c), k) { nb := Left(c); }
      else if SupportedBy(g, win, d, Right(c), k) { nb := Right(c); }
      else if SupportedBy(g, win, d, Up(c), k) { nb := Up(c); }
      else { nb := Down(c); }
      var w' := SupportGivesWalk(g, win, span, d, nb);
      w := w' + [c];
      assert Adjacent(w[|w| - 2], w[|w| - 1]);
    }
  }

  /** A stable relaxation state is the exact distance field. */
  lemma StableIsDistanceField(g: Grid, win: Window, span: Rect, d: seq<Dist>)
    requires g.Valid() && !win.IsEmpty() && RelaxInv(g, win, span, d) && Stable(g, win, d)
    ensures DistanceField(g, win, span, d)
  {
    forall i | 0 <= i < |d|
      ensures CorrectAt(g, win, span, d, i)
    {
      var c := win.CellAt(i);
      CellAtInside(win, i);
      assert InvAt(g, win, span, d, i);
      if Open(g, win, c) {
        assert ValAt(g, win, d, c) == d[i];
        forall w | WalkTo(g, win, span, w, c)
          ensures d[i].Fin? && |w| >= d[i].n + 1
        {
          WalkBoundsValue(g, win, span, d, w);
        }
        if d[i].Fin? {
          var w := SupportGivesWalk(g, win, span, d, c);
          assert IsDistance(g, win, span, c, d[i].n);
        }
      }
    }
  }

  /** `gen_sector_to_portal_dmap`: the window is the requested rectangle
      clamped to the grid; an empty window yields no field, otherwise the
      result is the exact distance field of the portal's span. */
  method GenSectorToPortalDmap(g: Grid, portal: PathPortal, coordBase: Pos, coordCap: Pos)
    returns (dmap: seq<Dist>)
    requires g.Valid()
    ensures var win := ClampWindow(g, coordBase, coordCap);
      && (win.IsEmpty() ==> dmap == [])
      && (!win.IsEmpty() ==> DistanceField(g, win, portal.Span(), dmap))
  {
    var p := portal.Span();
    var win := ClampWindow(g, coordBase, coordCap);
    if win.IsEmpty() {
      return [];
    }
    var n := win.Size();
    dmap := seq(n, i requires 0 <= i < n =>
      if Seed(g, win, p, win.CellAt(i)) then Fin(0) else Inf);
    assert RelaxInv(g, win, p, dmap) by {
      forall i | 0 <= i < n ensures InvAt(g, win, p, dmap, i) { }
    }
    var done := false;
    while !done
      invariant RelaxInv(g, win, p, dmap)
      invariant done ==> Stable(g, win, dmap)
      decreases !done, InfCount(dmap), FinSum(dmap)
    {
      var next, changed := RelaxPass(g, win, p, dmap);
      MeasureDecreases(next, dmap);
      dmap := next;
      done := !changed;
    }
    StableIsDistanceField(g, win, p, dmap);
  }

  /** Seeds read 0 and nothing else does. */
  lemma FieldZeroIffSeed(g: Grid, win: Window, span: Rect, d: seq<Dist>, i: nat)
    requires g.Valid() && DistanceField(g, win, span, d) && i < |d|
    ensures d[i] == Fin(0) <==> Seed(g, win, span, win.CellAt(i))
  {
    var c := win.CellAt(i);
    assert CorrectAt(g, win, span, d, i);
    if Seed(g, win, span, c) {
      assert WalkTo(g, win, span, [c], c);
    }
    if d[i] == Fin(0) {
      var w :| WalkTo(g, win, span, w, c) && |w| == 1;
    }
  }

  /** A tile with a finite value has an open neighbour exactly one closer. */
  lemma FieldHasDescent(g: Grid, win: Window, span: Rect, d: seq<Dist>, c: Pos)
    returns (nb: Pos)
    requires g.Valid() && DistanceField(g, win, span, d) && win.Contains(c)
    requires ValAt(g, win, d, c).Fin? && ValAt(g, win, d, c).n > 0
    ensures Adjacent(c, nb) && Open(g, win, nb)
    ensures ValAt(g, win, d, nb) == Fin(ValAt(g, win, d, c).n - 1)
  {
    LocalIdxInside(win, c);
    var i := win.LocalIdx(c);
    var k := d[i].n;
    assert CorrectAt(g, win, span, d, i);
    var w :| WalkTo(g, win, span, w, c) && |w| == k + 1;
    nb := w[k - 1];
    var w' := w[..k];
    assert WalkTo(g, win, span, w', nb);
    assert Adjacent(nb, c);
    AdjacentSymmetric(nb, c);
    LocalIdxInside(win, nb);
    var j := win.LocalIdx(nb);
    assert CorrectAt(g, win, span, d, j);
    assert d[j].Fin? && d[j].n <= k - 1;
    // a shorter walk to nb would give a walk to c shorter than k
    if d[j].n < k - 1 {
      var v :| WalkTo(g, win, span, v, nb) && |v| == d[j].n + 1;
      var v' := v + [c];
      assert WalkTo(g, win, span, v', c);
      assert false;
    }
  }
}
