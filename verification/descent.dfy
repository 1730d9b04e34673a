/** Walking down a flow field (the inner loop of
    `construct_path_hierarchical`): from the current tile, repeatedly step to
    the 4-neighbour with the smallest value below FLT_MAX, probing +x, -x,
    +y, -y and keeping the first strict minimum, until the value stepped
    onto is 0. */
module Descent {
  import opened PathTypes
  import opened Dungeon
  import opened FlowField

  /** The value the descent reads for tile q: the field at q's local index
      when q lies in the window, FLT_MAX otherwise. */
  function WinVal(win: Window, d: seq<Dist>, q: Pos): Dist
    requires !win.IsEmpty() && |d| == win.Size()
  {
    if win.Contains(q) then
      LocalIdxInside(win, q);
      d[win.LocalIdx(q)]
    else
      Inf
  }

  /** `checkNeighbour(offx, offy)`: take nb when it is strictly below the
      best so far (FLT_MAX when nothing is taken yet). */
  function Probe(win: Window, d: seq<Dist>, best: Option<Pos>, nb: Pos): Option<Pos>
    requires !win.IsEmpty() && |d| == win.Size()
  {
    var bestScore := if best.Some? then WinVal(win, d, best.value) else Inf;
    if Lt(WinVal(win, d, nb), bestScore) then Some(nb) else best
  }

  /** One probe round around c. */
  function BestStep(win: Window, d: seq<Dist>, c: Pos): (r: Option<Pos>)
    requires !win.IsEmpty() && |d| == win.Size()
  {
    Probe(win, d, Probe(win, d, Probe(win, d, Probe(win, d, None, Right(c)), Left(c)), Down(c)), Up(c))
  }

  /** The probe round takes a neighbour with a finite value that no other
      neighbour beats, and takes nothing only when all four read FLT_MAX. */
  lemma BestStepIsMin(win: Window, d: seq<Dist>, c: Pos)
    requires !win.IsEmpty() && |d| == win.Size()
    ensures var r := BestStep(win, d, c);
      && (r.Some? ==> Adjacent(c, r.value) && WinVal(win, d, r.value).Fin?)
      && (r.Some? ==> forall nb :: Adjacent(c, nb) ==> Le(WinVal(win, d, r.value), WinVal(win, d, nb)))
      && (r.None? <==> forall nb :: Adjacent(c, nb) ==> WinVal(win, d, nb) == Inf)
  {
  }

  /** A finite value marks an open tile: the field stores FLT_MAX on walls. */
  lemma FiniteIsOpen(g: Grid, win: Window, span: Rect, d: seq<Dist>, q: Pos)
    requires g.Valid() && DistanceField(g, win, span, d)
    ensures WinVal(win, d, q).Fin? ==> Open(g, win, q) && ValAt(g, win, d, q) == WinVal(win, d, q)
    ensures Open(g, win, q) ==> ValAt(g, win, d, q) == WinVal(win, d, q)
  {
    if win.Contains(q) {
      LocalIdxInside(win, q);
      assert CorrectAt(g, win, span, d, win.LocalIdx(q));
    }
  }

  /** Neighbouring open tiles differ by at most one step of distance. */
  lemma NeighbourBound(g: Grid, win: Window, span: Rect, d: seq<Dist>, c: Pos, nb: Pos)
    requires g.Valid() && DistanceField(g, win, span, d)
    requires Open(g, win, c) && Open(g, win, nb) && Adjacent(nb, c)
    requires ValAt(g, win, d, nb).Fin?
    ensures ValAt(g, win, d, c).Fin? && ValAt(g, win, d, c).n <= ValAt(g, win, d, nb).n + 1
  {
    LocalIdxInside(win, nb);
    LocalIdxInside(win, c);
    var j := win.LocalIdx(nb);
    var i := win.LocalIdx(c);
    assert CorrectAt(g, win, span, d, j);
    assert CorrectAt(g, win, span, d, i);
    var m := d[j].n;
    var w :| WalkTo(g, win, span, w, nb) && |w| == m + 1;
    var w' := w + [c];
    assert WalkTo(g, win, span, w', c);
  }

  /** On an exact field, a tile at distance v > 0 steps to a neighbour at
      exactly v - 1. */
  lemma DescentStep(g: Grid, win: Window, span: Rect, d: seq<Dist>, c: Pos)
    requires g.Valid() && DistanceField(g, win, span, d) && Open(g, win, c)
    requires WinVal(win, d, c).Fin? && WinVal(win, d, c).n > 0
    ensures BestStep(win, d, c).Some?
    ensures WinVal(win, d, BestStep(win, d, c).value) == Fin(WinVal(win, d, c).n - 1)
  {
    FiniteIsOpen(g, win, span, d, c);
    var nb := FieldHasDescent(g, win, span, d, c);
    FiniteIsOpen(g, win, span, d, nb);
    BestStepIsMin(win, d, c);
    var r := BestStep(win, d, c);
    assert WinVal(win, d, nb) != Inf;
    var q := r.value;
    FiniteIsOpen(g, win, span, d, q);
    AdjacentSymmetric(c, q);
    NeighbourBound(g, win, span, d, c, q);
  }

  /** The descent toward the portal of field `d`. `stuck` reports that the
      first probe round found no neighbour below FLT_MAX: the source then
      keeps its zero offset and repeats the same round forever. Otherwise
      the steps form a 4-connected walk over open tiles whose length is one
      more than the value of the first step and which ends on the portal. */
  method Descend(g: Grid, win: Window, span: Rect, d: seq<Dist>, start: Pos)
    returns (steps: seq<Pos>, stuck: bool)
    requires g.Valid() && DistanceField(g, win, span, d)
    ensures stuck <==> forall nb :: Adjacent(start, nb) ==> WinVal(win, d, nb) == Inf
    ensures stuck ==> steps == []
    ensures !stuck ==>
      && |steps| > 0
      && Adjacent(start, steps[0])
      && (forall k :: 0 <= k < |steps| - 1 ==> Adjacent(steps[k], steps[k + 1]))
      && (forall k :: 0 <= k < |steps| ==> Open(g, win, steps[k]))
      && WinVal(win, d, steps[0]) == Fin(|steps| - 1)
      && Seed(g, win, span, steps[|steps| - 1])
  {
    BestStepIsMin(win, d, start);
    var first := BestStep(win, d, start);
    if first.None? {
      return [], true;
    }
    stuck := false;
    var cur := first.value;
    FiniteIsOpen(g, win, span, d, cur);
    steps := [cur];
    var v := WinVal(win, d, cur);
    while v != Fin(0)
      invariant v == WinVal(win, d, cur) && v.Fin? && Open(g, win, cur)
      invariant |steps| > 0 && steps[0] == first.value && steps[|steps| - 1] == cur
      invariant forall k :: 0 <= k < |steps| - 1 ==> Adjacent(steps[k], steps[k + 1])
      invariant forall k :: 0 <= k < |steps| ==> Open(g, win, steps[k])
      invariant WinVal(win, d, steps[0]).Fin? && WinVal(win, d, steps[0]).n == |steps| - 1 + v.n
      decreases v.n
    {
      DescentStep(g, win, span, d, cur);
      BestStepIsMin(win, d, cur);
      cur := BestStep(win, d, cur).value;
      FiniteIsOpen(g, win, span, d, cur);
      steps := steps + [cur];
      v := WinVal(win, d, cur);
    }
    FiniteIsOpen(g, win, span, d, cur);
    LocalIdxInside(win, cur);
    FieldZeroIffSeed(g, win, span, d, win.LocalIdx(cur));
  }
}
