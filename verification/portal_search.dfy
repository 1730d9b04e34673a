/** A* over the portal graph (`find_portal_path_a_star`,
    `reconstruct_portal_path`). Nodes are portal ids, edges their
    connections; a connection of cost `Inf` never improves a g-score but its
    target is still queued. The answer is the list of connection slots taken,
    one per hop. */
module PortalSearch {
  import opened PathTypes

  /** Taking connection slots `r` from portal `from`, hop by hop over finite
      connections, ends at portal `to`. */
  predicate ConnPath(portals: seq<PathPortal>, from: nat, to: nat, r: seq<nat>)
    decreases |r|
  {
    if r == [] then from == to
    else
      && from < |portals| && r[0] < |portals[from].conns|
      && portals[from].conns[r[0]].score.Fin?
      && ConnPath(portals, portals[from].conns[r[0]].connIdx, to, r[1..])
  }

  /** The sum of the connection costs along a ConnPath. */
  function ConnPathCost(portals: seq<PathPortal>, from: nat, to: nat, r: seq<nat>): nat
    requires ConnPath(portals, from, to, r)
    decreases |r|
  {
    if r == [] then 0
    else
      var c := portals[from].conns[r[0]];
      c.score.n + ConnPathCost(portals, c.connIdx, to, r[1..])
  }

  /** Extending a ConnPath by one finite connection at its end. */
  lemma {:induction false} ConnPathSnoc(portals: seq<PathPortal>, from: nat, mid: nat, to: nat, r: seq<nat>, k: nat)
    requires ConnPath(portals, from, mid, r)
    requires mid < |portals| && k < |portals[mid].conns|
    requires portals[mid].conns[k].connIdx == to && portals[mid].conns[k].score.Fin?
    ensures ConnPath(portals, from, to, r + [k])
    ensures ConnPathCost(portals, from, to, r + [k])
         == ConnPathCost(portals, from, mid, r) + portals[mid].conns[k].score.n
    decreases |r|
  {
    if r == [] {
      assert (r + [k])[1..] == [];
    } else {
      var next := portals[from].conns[r[0]].connIdx;
      ConnPathSnoc(portals, next, mid, to, r[1..], k);
      assert (r + [k])[1..] == r[1..] + [k];
    }
  }

  /** Every connection targets an existing portal (else `g[portId]` would
      read past the end). */
  predicate TargetsInRange(portals: seq<PathPortal>) {
    forall p, k :: 0 <= p < |portals| && 0 <= k < |portals[p].conns| ==>
      portals[p].conns[k].connIdx < |portals|
  }

  /** The g-score of a portal; absent means FLT_MAX. */
  function G(gs: map<nat, nat>, p: nat): Dist {
    if p in gs then Fin(gs[p]) else Inf
  }

  /** (g, stamp) orders a predecessor strictly before its successor; the
      stamp (when the g-score was last lowered) separates zero-cost hops. */
  ghost predicate Before(gs: map<nat, nat>, stamp: map<nat, nat>, a: nat, b: nat)
    requires a in gs && b in gs && a in stamp && b in stamp
  {
    gs[a] < gs[b] || (gs[a] == gs[b] && stamp[a] < stamp[b])
  }

  /** What the search keeps true of g-scores, predecessors (`prev`, absent
      means size_t(-1)) and the connection slot used (`prevConn`). */
  ghost predicate SearchInv(portals: seq<PathPortal>, from: nat, gs: map<nat, nat>,
                            prev: map<nat, nat>, prevConn: map<nat, nat>,
                            stamp: map<nat, nat>, clock: nat)
  {
    && from in gs && gs[from] == 0 && from !in prev
    && stamp.Keys == gs.Keys
    && (forall p :: p in stamp ==> stamp[p] < clock)
    && (forall p :: p in gs ==> p < |portals|)
    && (forall p :: p in gs && p != from ==> p in prev)
    && (forall p :: p in prev ==> PrevOk(portals, gs, prev, prevConn, stamp, p))
  }

  /** p's predecessor link: connection prevConn[p] of portal prev[p] is a
      finite connection to p whose cost, added to the predecessor's g-score,
      stays within p's, and the predecessor comes first. */
  ghost predicate PrevOk(portals: seq<PathPortal>, gs: map<nat, nat>, prev: map<nat, nat>,
                         prevConn: map<nat, nat>, stamp: map<nat, nat>, p: nat)
    requires p in prev
  {
    && p in gs && p in prevConn && prev[p] in gs
    && p in stamp && prev[p] in stamp
    && prev[p] < |portals| && prevConn[p] < |portals[prev[p]].conns|
    && portals[prev[p]].conns[prevConn[p]].connIdx == p
    && portals[prev[p]].conns[prevConn[p]].score.Fin?
    && gs[prev[p]] + portals[prev[p]].conns[prevConn[p]].score.n <= gs[p]
    && Before(gs, stamp, prev[p], p)
  }

  /** `reconstruct_portal_path`: the connection slots on the predecessor
      chain from `from` to `cur`; their costs add up to at most cur's
      g-score. */
  function ReconstructPortalPath(portals: seq<PathPortal>, from: nat, gs: map<nat, nat>,
                                 prev: map<nat, nat>, prevConn: map<nat, nat>,
                                 ghost stamp: map<nat, nat>, ghost clock: nat, cur: nat): (r: seq<nat>)
    requires SearchInv(portals, from, gs, prev, prevConn, stamp, clock) && cur in gs
    ensures ConnPath(portals, from, cur, r)
    ensures ConnPathCost(portals, from, cur, r) <= gs[cur]
    decreases gs[cur], stamp[cur]
  {
    if cur in prev then
      var r := ReconstructPortalPath(portals, from, gs, prev, prevConn, stamp, clock, prev[cur]);
      ConnPathSnoc(portals, from, prev[cur], cur, r, prevConn[cur]);
      r + [prevConn[cur]]
    else
      []
  }

  /** f = g + h for a portal with a g-score, FLT_MAX otherwise. */
  function F(portals: seq<PathPortal>, gs: map<nat, nat>, h: (Pos, Pos) -> nat, toId: nat, p: nat): Dist
    requires p < |portals| && toId < |portals|
  {
    if p in gs then Fin(gs[p] + h(PortalTile(portals[p]), PortalTile(portals[toId]))) else Inf
  }

  /** The open-list scan: the first entry with the smallest f. */
  method BestOpen(portals: seq<PathPortal>, gs: map<nat, nat>, h: (Pos, Pos) -> nat, toId: nat, open: seq<nat>)
    returns (b: nat)
    requires toId < |portals| && |open| > 0
    requires forall i :: 0 <= i < |open| ==> open[i] < |portals|
    ensures b < |open|
    ensures forall i :: 0 <= i < |open| ==> Le(F(portals, gs, h, toId, open[b]), F(portals, gs, h, toId, open[i]))
    ensures forall i :: 0 <= i < b ==> Lt(F(portals, gs, h, toId, open[b]), F(portals, gs, h, toId, open[i]))
  {
    b := 0;
    var bestScore := F(portals, gs, h, toId, open[0]);
    var i := 1;
    while i < |open|
      invariant 1 <= i <= |open| && b < i
      invariant bestScore == F(portals, gs, h, toId, open[b])
      invariant forall j :: 0 <= j < i ==> Le(bestScore, F(portals, gs, h, toId, open[j]))
      invariant forall j :: 0 <= j < b ==> Lt(bestScore, F(portals, gs, h, toId, open[j]))
    {
      var score := F(portals, gs, h, toId, open[i]);
      if Lt(score, bestScore) {
        b := i;
        bestScore := score;
      }
      i := i + 1;
    }
  }

  /** `checkConnection` over every connection of `cur`, in slot order: lower
      the target's g-score when g(cur) + cost is strictly smaller, and queue
      the target if it is not already queued. */
  method RelaxConnections(portals: seq<PathPortal>, from: nat, cur: nat,
                          gs: map<nat, nat>, prev: map<nat, nat>, prevConn: map<nat, nat>, open: seq<nat>,
                          ghost stamp: map<nat, nat>, ghost clock: nat)
    returns (gs': map<nat, nat>, prev': map<nat, nat>, prevConn': map<nat, nat>, open': seq<nat>,
             ghost stamp': map<nat, nat>, ghost clock': nat)
    requires TargetsInRange(portals) && cur < |portals|
    requires SearchInv(portals, from, gs, prev, prevConn, stamp, clock)
    requires forall i :: 0 <= i < |open| ==> open[i] < |portals|
    ensures SearchInv(portals, from, gs', prev', prevConn', stamp', clock')
    ensures forall i :: 0 <= i < |open'| ==> open'[i] < |portals|
    ensures forall k :: 0 <= k < |portals[cur].conns| ==> portals[cur].conns[k].connIdx in open'
    ensures forall q :: q in open ==> q in open'
    ensures gs.Keys <= gs'.Keys
    ensures forall p :: p in gs' ==> p in gs || p in open'
    ensures cur !in gs ==> gs' == gs
    ensures FinTargetsScored(portals, cur, gs')
  {
    gs', prev', prevConn', open', stamp', clock' := gs, prev, prevConn, open, stamp, clock;
    var conns := portals[cur].conns;
    var k := 0;
    while k < |conns|
      invariant k <= |conns|
      invariant SearchInv(portals, from, gs', prev', prevConn', stamp', clock')
      invariant forall i :: 0 <= i < |open'| ==> open'[i] < |portals|
      invariant forall j :: 0 <= j < k ==> conns[j].connIdx in open'
      invariant forall q :: q in open ==> q in open'
      invariant gs.Keys <= gs'.Keys
      invariant forall p :: p in gs' ==> p in gs || p in open'
      invariant cur !in gs ==> gs' == gs
      invariant forall j :: 0 <= j < k && cur in gs' && conns[j].score.Fin? ==> conns[j].connIdx in gs'
    {
      gs', prev', prevConn', open', stamp', clock' :=
        CheckConnection(portals, from, cur, k, gs', prev', prevConn', open', stamp', clock');
      k := k + 1;
    }
  }

  /** `checkConnection` for connection slot k of `cur`. */
  method CheckConnection(portals: seq<PathPortal>, from: nat, cur: nat, k: nat,
                         gs: map<nat, nat>, prev: map<nat, nat>, prevConn: map<nat, nat>, open: seq<nat>,
                         ghost stamp: map<nat, nat>, ghost clock: nat)
    returns (gs': map<nat, nat>, prev': map<nat, nat>, prevConn': map<nat, nat>, open': seq<nat>,
             ghost stamp': map<nat, nat>, ghost clock': nat)
    requires TargetsInRange(portals) && cur < |portals| && k < |portals[cur].conns|
    requires SearchInv(portals, from, gs, prev, prevConn, stamp, clock)
    requires forall i :: 0 <= i < |open| ==> open[i] < |portals|
    ensures SearchInv(portals, from, gs', prev', prevConn', stamp', clock')
    ensures forall i :: 0 <= i < |open'| ==> open'[i] < |portals|
    ensures open <= open' && portals[cur].conns[k].connIdx in open'
    ensures forall q :: q in open ==> q in open'
    ensures gs.Keys <= gs'.Keys
    ensures forall p :: p in gs' ==> p in gs || p == portals[cur].conns[k].connIdx
    ensures cur !in gs ==> gs' == gs
    ensures cur in gs && portals[cur].conns[k].score.Fin? ==> portals[cur].conns[k].connIdx in gs'
  {
    gs', prev', prevConn', open', stamp', clock' := gs, prev, prevConn, open, stamp, clock;
    var conn := portals[cur].conns[k];
    var t := conn.connIdx;
    var gScore := Add(G(gs, cur), conn.score);
    if Lt(gScore, G(gs, t)) {
      RelaxKeepsInv(portals, from, gs, prev, prevConn, stamp, clock, cur, k);
      prev' := prev[t := cur];
      prevConn' := prevConn[t := k];
      gs' := gs[t := gScore.n];
      stamp' := stamp[t := clock];
      clock' := clock + 1;
    }
    if t !in open {
      open' := open + [t];
    }
  }

  /** Lowering g(t) through connection k of `cur` keeps SearchInv. */
  lemma RelaxKeepsInv(portals: seq<PathPortal>, from: nat, gs: map<nat, nat>, prev: map<nat, nat>,
                      prevConn: map<nat, nat>, stamp: map<nat, nat>, clock: nat, cur: nat, k: nat)
    requires TargetsInRange(portals) && cur < |portals| && k < |portals[cur].conns|
    requires SearchInv(portals, from, gs, prev, prevConn, stamp, clock)
    requires cur in gs && portals[cur].conns[k].score.Fin?
    requires var t := portals[cur].conns[k].connIdx;
      t in gs ==> gs[cur] + portals[cur].conns[k].score.n < gs[t]
    ensures var t := portals[cur].conns[k].connIdx;
      SearchInv(portals, from, gs[t := gs[cur] + portals[cur].conns[k].score.n], prev[t := cur],
                prevConn[t := k], stamp[t := clock], clock + 1)
  {
    var c := portals[cur].conns[k];
    var t := c.connIdx;
    var gs' := gs[t := gs[cur] + c.score.n];
    var stamp' := stamp[t := clock];
    var prev' := prev[t := cur];
    var prevConn' := prevConn[t := k];
    assert t != from;
    assert t != cur;
    forall p | p in prev'
      ensures PrevOk(portals, gs', prev', prevConn', stamp', p)
    {
      if p == t {
        assert prev'[p] == cur && prevConn'[p] == k && gs'[cur] == gs[cur];
        assert stamp'[cur] == stamp[cur] < clock == stamp'[t];
      } else {
        var q := prev[p];
        assert prev'[p] == q && prevConn'[p] == prevConn[p] && gs'[p] == gs[p];
        assert PrevOk(portals, gs, prev, prevConn, stamp, p);
        if q == t {
          assert gs'[t] < gs[t];
        } else {
          assert gs'[q] == gs[q] && stamp'[q] == stamp[q] && stamp'[p] == stamp[p];
        }
      }
    }
  }

  /** `openList.erase(openList.begin() + b)`. */
  function RemoveAt(open: seq<nat>, b: nat): (r: seq<nat>)
    requires b < |open|
    ensures |r| == |open| - 1
    ensures forall i :: 0 <= i < |r| ==> r[i] in open
    ensures forall q :: q in open ==> q == open[b] || q in r
  {
    assert open == open[..b] + [open[b]] + open[b + 1..];
    open[..b] + open[b + 1..]
  }

  /** Once `cur` has a g-score, every target of a finite connection of cur
      has one too. */
  ghost predicate FinTargetsScored(portals: seq<PathPortal>, cur: nat, gs: map<nat, nat>)
    requires cur < |portals|
  {
    forall k :: 0 <= k < |portals[cur].conns| && cur in gs && portals[cur].conns[k].score.Fin? ==>
      portals[cur].conns[k].connIdx in gs
  }

  /** The frontier facts of the main loop. `closedFin` holds the portals
      that had a g-score when they were closed. Every closed portal queued
      all its targets; a portal closed with a g-score gave every finite
      target one; and once a portal has been closed without a g-score (so
      every queued portal read FLT_MAX), no g-score lies outside closedFin. */
  ghost predicate Frontier(portals: seq<PathPortal>, gs: map<nat, nat>, open: seq<nat>,
                           closed: set<nat>, closedFin: set<nat>)
  {
    && closedFin <= closed
    && (forall c :: c in closed ==> c < |portals|)
    && (forall c, k :: c in closed && 0 <= k < |portals[c].conns| ==>
          portals[c].conns[k].connIdx in open || portals[c].conns[k].connIdx in closed)
    && (forall c :: c in closedFin ==> c in gs && FinTargetsScored(portals, c, gs))
    && (closed != closedFin ==> gs.Keys <= closedFin)
    && (forall p :: p in gs ==> p in open || p in closed)
  }

  /** While the goal is unclosed, a chain of finite connections to it from a
      portal with a g-score passes through a queued portal with a g-score. */
  lemma {:induction false} ChainMeetsOpen(portals: seq<PathPortal>, gs: map<nat, nat>, open: seq<nat>,
                                          closed: set<nat>, closedFin: set<nat>,
                                          a: nat, toId: nat, hs: seq<nat>)
    requires Frontier(portals, gs, open, closed, closedFin) && toId !in closed
    requires a in gs && ConnPath(portals, a, toId, hs)
    ensures exists i :: 0 <= i < |open| && open[i] in gs
    decreases |hs|
  {
    if a in open {
      var i :| 0 <= i < |open| && open[i] == a;
    } else {
      assert a in closed && a in closedFin;
      var c := portals[a].conns[hs[0]];
      assert FinTargetsScored(portals, a, gs);
      ChainMeetsOpen(portals, gs, open, closed, closedFin, c.connIdx, toId, hs[1..]);
    }
  }

  /** The same, stated for the whole search: a reachable goal keeps a
      queued portal with a g-score in the open list. */
  lemma ReachableKeepsOpen(portals: seq<PathPortal>, gs: map<nat, nat>, open: seq<nat>,
                           closed: set<nat>, closedFin: set<nat>, fromId: nat, toId: nat)
    requires Frontier(portals, gs, open, closed, closedFin) && toId !in closed && fromId in gs
    ensures (exists hs :: ConnPath(portals, fromId, toId, hs)) ==>
      exists i :: 0 <= i < |open| && open[i] in gs
  {
    if hs :| ConnPath(portals, fromId, toId, hs) {
      ChainMeetsOpen(portals, gs, open, closed, closedFin, fromId, toId, hs);
    }
  }

  /** The ids 0 .. n-1. */
  ghost function IdsBelow(n: nat): (r: set<nat>)
    ensures forall i: nat :: i in r <==> i < n
  {
    if n == 0 then {} else IdsBelow(n - 1) + {n - 1}
  }

  /** `find_portal_path_a_star`: empty for an unknown id or when from == to
      (no hop is needed); otherwise the connection slots of a chain of
      finite connections from `fromId` to `toId` exactly when such a chain
      exists, whatever the heuristic. */
  method FindPortalPathAStar(portals: seq<PathPortal>, fromId: nat, toId: nat, h: (Pos, Pos) -> nat)
    returns (r: seq<nat>)
    requires TargetsInRange(portals)
    ensures fromId >= |portals| || toId >= |portals| ==> r == []
    ensures fromId == toId ==> r == []
    ensures r != [] ==> ConnPath(portals, fromId, toId, r)
    ensures fromId != toId && toId < |portals| && (exists hs :: ConnPath(portals, fromId, toId, hs)) ==> r != []
  {
    if fromId >= |portals| || toId >= |portals| {
      NoChainFromOutside(portals, fromId, toId);
      return [];
    }
    var gs: map<nat, nat> := map[fromId := 0];
    var prev: map<nat, nat> := map[];
    var prevConn: map<nat, nat> := map[];
    ghost var stamp: map<nat, nat> := map[fromId := 0];
    ghost var clock := 1;
    var open: seq<nat> := [fromId];
    var closed: set<nat> := {};
    ghost var closedFin: set<nat> := {};
    ghost var cells := IdsBelow(|portals|);
    while |open| > 0
      invariant SearchInv(portals, fromId, gs, prev, prevConn, stamp, clock)
      invariant forall i :: 0 <= i < |open| ==> open[i] < |portals|
      invariant closed <= cells
      invariant fromId == toId ==> open == [fromId]
      invariant Frontier(portals, gs, open, closed, closedFin) && toId !in closed
      decreases |cells - closed|, |open|
    {
      var b := BestOpen(portals, gs, h, toId, open);
      if open[b] == toId {
        r := AtGoal(portals, fromId, toId, h, b, gs, prev, prevConn, open, closed, closedFin, stamp, clock);
        return;
      }
      ghost var closed0, n0 := closed, |open|;
      var cur := open[b];
      gs, prev, prevConn, open, closed, closedFin, stamp, clock :=
        CloseBest(portals, fromId, toId, h, b, gs, prev, prevConn, open, closed, closedFin, stamp, clock);
      if cur !in closed0 {
        CloseOneShrinks(cells, closed0, cur);
      }
    }
    ReachableKeepsOpen(portals, gs, open, closed, closedFin, fromId, toId);
    return [];
  }

  /** The goal is the best queued portal: walk the predecessor links back,
      or give up when the goal was queued only through cost-Inf connections
      (prev[toId] was never set). */
  method AtGoal(portals: seq<PathPortal>, fromId: nat, toId: nat, h: (Pos, Pos) -> nat, b: nat,
                gs: map<nat, nat>, prev: map<nat, nat>, prevConn: map<nat, nat>, open: seq<nat>,
                closed: set<nat>, ghost closedFin: set<nat>, ghost stamp: map<nat, nat>, ghost clock: nat)
    returns (r: seq<nat>)
    requires toId < |portals| && b < |open| && open[b] == toId
    requires forall i :: 0 <= i < |open| ==> open[i] < |portals|
    requires forall i :: 0 <= i < |open| ==> Le(F(portals, gs, h, toId, open[b]), F(portals, gs, h, toId, open[i]))
    requires SearchInv(portals, fromId, gs, prev, prevConn, stamp, clock)
    requires Frontier(portals, gs, open, closed, closedFin) && toId !in closed
    ensures fromId == toId ==> r == []
    ensures r != [] ==> ConnPath(portals, fromId, toId, r)
    ensures fromId != toId && (exists hs :: ConnPath(portals, fromId, toId, hs)) ==> r != []
  {
    if fromId == toId {
      return [];
    }
    if toId !in gs {
      NoScoreQueued(portals, gs, h, toId, open, b);
      ReachableKeepsOpen(portals, gs, open, closed, closedFin, fromId, toId);
      return [];
    }
    r := ReconstructPortalPath(portals, fromId, gs, prev, prevConn, stamp, clock, toId);
  }

  /** One round of the search past the goal test: pop the best queued
      portal; unless it was already closed, close it and relax its
      connections. */
  method CloseBest(portals: seq<PathPortal>, fromId: nat, toId: nat, h: (Pos, Pos) -> nat, b: nat,
                   gs: map<nat, nat>, prev: map<nat, nat>, prevConn: map<nat, nat>, open: seq<nat>,
                   closed: set<nat>, ghost closedFin: set<nat>, ghost stamp: map<nat, nat>, ghost clock: nat)
    returns (gs': map<nat, nat>, prev': map<nat, nat>, prevConn': map<nat, nat>, open': seq<nat>,
             closed': set<nat>, ghost closedFin': set<nat>, ghost stamp': map<nat, nat>, ghost clock': nat)
    requires TargetsInRange(portals) && toId < |portals| && b < |open|
    requires forall i :: 0 <= i < |open| ==> open[i] < |portals|
    requires forall i :: 0 <= i < |open| ==> Le(F(portals, gs, h, toId, open[b]), F(portals, gs, h, toId, open[i]))
    requires SearchInv(portals, fromId, gs, prev, prevConn, stamp, clock)
    requires Frontier(portals, gs, open, closed, closedFin) && toId !in closed && open[b] != toId
    ensures SearchInv(portals, fromId, gs', prev', prevConn', stamp', clock')
    ensures forall i :: 0 <= i < |open'| ==> open'[i] < |portals|
    ensures Frontier(portals, gs', open', closed', closedFin') && toId !in closed'
    ensures open[b] in closed ==> closed' == closed && |open'| < |open|
    ensures open[b] !in closed ==> closed' == closed + {open[b]}
  {
    var cur := open[b];
    open' := RemoveAt(open, b);
    if cur in closed {
      FrontierDrop(portals, gs, open, open', closed, closedFin, b);
      return gs, prev, prevConn, open', closed, closedFin, stamp, clock;
    }
    closed' := closed + {cur};
    if cur in gs {
      closedFin' := closedFin + {cur};
    } else {
      closedFin' := closedFin;
      NoScoreQueued(portals, gs, h, toId, open, b);
    }
    ghost var open1 := open';
    gs', prev', prevConn', open', stamp', clock' :=
      RelaxConnections(portals, fromId, cur, gs, prev, prevConn, open', stamp, clock);
    assert forall q :: q in open ==> q == cur || q in open1;
    FrontierStep(portals, gs, gs', open, open', closed, closedFin, cur, b);
  }

  /** Closing one more portal leaves fewer portals unclosed. */
  lemma CloseOneShrinks(cells: set<nat>, closed: set<nat>, cur: nat)
    requires cur in cells && cur !in closed
    ensures |cells - (closed + {cur})| < |cells - closed|
  {
    assert cells - (closed + {cur}) == (cells - closed) - {cur};
  }

  /** A portal that is not a valid id starts no chain to another portal. */
  lemma NoChainFromOutside(portals: seq<PathPortal>, fromId: nat, toId: nat)
    requires fromId >= |portals| || toId >= |portals|
    ensures fromId != toId && toId < |portals| ==> forall hs :: !ConnPath(portals, fromId, toId, hs)
  {
  }

  /** When the best queued portal has no g-score, no queued portal has one. */
  lemma NoScoreQueued(portals: seq<PathPortal>, gs: map<nat, nat>, h: (Pos, Pos) -> nat, toId: nat,
                      open: seq<nat>, b: nat)
    requires toId < |portals| && b < |open| && forall i :: 0 <= i < |open| ==> open[i] < |portals|
    requires forall i :: 0 <= i < |open| ==> Le(F(portals, gs, h, toId, open[b]), F(portals, gs, h, toId, open[i]))
    requires open[b] !in gs
    ensures forall i :: 0 <= i < |open| ==> open[i] !in gs
  {
    forall i | 0 <= i < |open|
      ensures open[i] !in gs
    {
      assert Le(F(portals, gs, h, toId, open[b]), F(portals, gs, h, toId, open[i]));
    }
  }

  /** Dropping a popped portal that is already closed keeps the frontier
      facts. */
  lemma FrontierDrop(portals: seq<PathPortal>, gs: map<nat, nat>, open0: seq<nat>, open: seq<nat>,
                     closed: set<nat>, closedFin: set<nat>, b: nat)
    requires b < |open0| && open0[b] in closed
    requires Frontier(portals, gs, open0, closed, closedFin)
    requires forall q :: q in open0 ==> q == open0[b] || q in open
    ensures Frontier(portals, gs, open, closed, closedFin)
  {
  }

  /** Closing the popped portal `cur` and relaxing its connections keeps
      the frontier facts. */
  lemma FrontierStep(portals: seq<PathPortal>, gs0: map<nat, nat>, gs: map<nat, nat>,
                     open0: seq<nat>, open: seq<nat>, closed0: set<nat>, closedFin0: set<nat>,
                     cur: nat, b: nat)
    requires b < |open0| && cur == open0[b] && cur < |portals| && cur !in closed0
    requires Frontier(portals, gs0, open0, closed0, closedFin0)
    requires cur !in gs0 ==> forall i :: 0 <= i < |open0| ==> open0[i] !in gs0
    requires forall q :: q in open0 ==> q == cur || q in open
    requires forall k :: 0 <= k < |portals[cur].conns| ==> portals[cur].conns[k].connIdx in open
    requires gs0.Keys <= gs.Keys
    requires forall p :: p in gs ==> p in gs0 || p in open
    requires cur !in gs0 ==> gs == gs0
    requires FinTargetsScored(portals, cur, gs)
    ensures Frontier(portals, gs, open, closed0 + {cur},
                     if cur in gs0 then closedFin0 + {cur} else closedFin0)
  {
    var closed := closed0 + {cur};
    var closedFin := if cur in gs0 then closedFin0 + {cur} else closedFin0;
    forall c, k | c in closed && 0 <= k < |portals[c].conns|
      ensures portals[c].conns[k].connIdx in open || portals[c].conns[k].connIdx in closed
    {
      if c != cur {
        assert portals[c].conns[k].connIdx in open0 || portals[c].conns[k].connIdx in closed0;
      }
    }
    forall c | c in closedFin
      ensures c in gs && FinTargetsScored(portals, c, gs)
    {
      if c != cur {
        assert FinTargetsScored(portals, c, gs0);
      }
    }
    if cur !in gs0 {
      forall p | p in gs
        ensures p in closedFin
      {
        assert p in open0 || p in closed0;
      }
    }
    forall p | p in gs
      ensures p in open || p in closed
    {
      if p in gs0 {
        assert p in open0 || p in closed0;
      }
    }
  }
}
