/** One turn of the first roguelike: `move_pos`, the player's action counter
    that decides when the other actors plan, and `process_actions`, which
    resolves every actor's move against the cells the others have claimed
    (attacking enemies and healing allies it bumps into), then commits the
    moves and cools the healers' pouches down. The ECS world is an explicit
    sequence of actors, visited in query order. */
module RoguelikeTurns {
  import opened PathTypes
  import opened AiLibrary

  /** `move_pos`: the cell an action leads to; codes that are not moves stay
      in place. */
  function MovePos(p: Pos, a: int): (r: Pos)
    ensures Manhattan(p, r) == (if IsMove(a) then 1 else 0)
    ensures a == MoveLeft ==> r == Left(p)
    ensures a == MoveRight ==> r == Right(p)
    ensures a == MoveUp ==> r == Up(p)
    ensures a == MoveDown ==> r == Down(p)
  {
    if a == MoveLeft then Pos(p.x - 1, p.y)
    else if a == MoveRight then Pos(p.x + 1, p.y)
    else if a == MoveUp then Pos(p.x, p.y - 1)
    else if a == MoveDown then Pos(p.x, p.y + 1)
    else p
  }

  /** The inverse action undoes a move, for every code. */
  lemma MovePosInverse(p: Pos, a: int)
    ensures MovePos(MovePos(p, a), InverseMove(a)) == p
  {
  }

  /** Stepping toward a different cell brings it exactly one step closer. */
  lemma MoveTowardsCloser(p: Pos, q: Pos)
    requires p != q
    ensures Manhattan(MovePos(p, MoveTowards(p, q)), q) + 1 == Manhattan(p, q)
  {
    MoveTowardsDirection(p, q);
  }

  /** The `NumActions` component. */
  datatype NumActions = NumActions(numActions: int, curActions: int)

  /** C's `%` on `int`: the remainder takes the sign of the dividend. */
  function CRem(a: int, b: int): int
    requires b > 0
  {
    if a >= 0 then a % b else -((-a) % b)
  }

  /** One player's counter step: advance modulo `numActions` (a zero count
      would be a division by zero). Returns the new counter and whether it
      wrapped to 0. */
  function UpdCount(na: NumActions): (r: (NumActions, bool))
    requires na.numActions > 0
    ensures r.0.numActions == na.numActions
    ensures na.curActions >= -1 ==> 0 <= r.0.curActions < na.numActions
    ensures r.1 <==> r.0.curActions == 0
  {
    var c := CRem(na.curActions + 1, na.numActions);
    (na.(curActions := c), c == 0)
  }

  predicate CountsValid(players: seq<NumActions>) {
    forall k :: 0 <= k < |players| ==> players[k].numActions > 0
  }

  /** `upd_player_actions_count`: advance every player's counter; report
      whether any of them wrapped. */
  function UpdPlayerActions(players: seq<NumActions>): (r: (seq<NumActions>, bool))
    requires CountsValid(players)
    ensures |r.0| == |players|
    ensures forall k :: 0 <= k < |players| ==> r.0[k] == UpdCount(players[k]).0
    ensures r.1 <==> exists k :: 0 <= k < |players| && r.0[k].curActions == 0
  {
    if players == [] then ([], false)
    else
      var head := UpdCount(players[0]);
      var rest := UpdPlayerActions(players[1..]);
      assert forall k :: 1 <= k < |players| ==> ([head.0] + rest.0)[k] == rest.0[k - 1];
      ([head.0] + rest.0, head.1 || rest.1)
  }

  /** The counter after k calls. */
  function CountAfter(na: NumActions, k: nat): (r: NumActions)
    requires na.numActions > 0
    ensures r.numActions == na.numActions
    decreases k
  {
    if k == 0 then na else CountAfter(UpdCount(na).0, k - 1)
  }

  lemma CountAfterStep(na: NumActions, k: nat)
    requires na.numActions > 0
    ensures CountAfter(na, k).numActions == na.numActions
    ensures CountAfter(na, k + 1) == UpdCount(CountAfter(na, k)).0
    decreases k
  {
    if k > 0 {
      CountAfterStep(UpdCount(na).0, k - 1);
    }
  }

  /** From the initial counter of 0, after k calls the counter is k mod n,
      and call k (from 0) reports a wrap exactly when k + 1 is a multiple of
      n. */
  lemma {:induction false} CounterPeriod(n: int, k: nat)
    requires n > 0
    ensures CountAfter(NumActions(n, 0), k) == NumActions(n, k % n)
    ensures UpdCount(CountAfter(NumActions(n, 0), k)).1 <==> (k + 1) % n == 0
  {
    if k > 0 {
      CounterPeriod(n, k - 1);
      CountAfterStep(NumActions(n, 0), k - 1);
      WrapStep(k - 1, n);
    }
    WrapStep(k, n);
  }

  /** One counter step from k mod n lands on (k + 1) mod n. */
  lemma WrapStep(k: nat, n: int)
    requires n > 0
    ensures UpdCount(NumActions(n, k % n)).0 == NumActions(n, (k + 1) % n)
  {
    var c := k % n + 1;
    ModSucc(k, n);
    if c == n {
      CoordToIdxInverse(0, 1, n);
    } else {
      CoordToIdxInverse(c, 0, n);
    }
  }

  /** The player acts twice per turn of the others: with two actions the
      wrap is reported on every second call. */
  lemma PlayerPlansEverySecondCall(k: nat)
    ensures UpdCount(CountAfter(NumActions(2, 0), k)).1 <==> k % 2 == 1
  {
    CounterPeriod(2, k);
  }

  /** The `HealerPouch` component (hitpoints are modelled as integers). */
  datatype Pouch = Pouch(amount: int, cooldown: int, maxCooldown: int)

  /** An actor: what `process_actions` reads and writes of one entity. */
  datatype Actor = Actor(
    action: int, pos: Pos, mpos: Pos, damage: int, team: int, hp: int, pouch: Option<Pouch>)

  predicate Ready(a: Actor) {
    a.pouch.Some? && a.pouch.value.cooldown == 0
  }

  /** Actor k is bumped by actor i's move to `next`. */
  predicate Bumped(es: seq<Actor>, i: nat, next: Pos, k: nat)
    requires i < |es| && k < |es|
  {
    k != i && es[k].mpos == next
  }

  predicate AllyOf(es: seq<Actor>, i: nat, k: nat)
    requires i < |es| && k < |es|
  {
    es[k].team == es[i].team
  }

  /** Only hitpoints and actor i's pouch change in a collision pass. */
  predicate SameBodies(es: seq<Actor>, es': seq<Actor>, i: nat) {
    && |es'| == |es|
    && forall k :: 0 <= k < |es| ==>
      && es'[k].action == es[k].action && es'[k].pos == es[k].pos && es'[k].mpos == es[k].mpos
      && es'[k].damage == es[k].damage && es'[k].team == es[k].team
      && (k != i ==> es'[k].pouch == es[k].pouch)
  }

  /** Actor i bumps actor k: an enemy takes i's damage; an ally is healed by
      i's pouch when it is ready, which then starts its cooldown. */
  function Bump(es: seq<Actor>, i: nat, k: nat): (r: seq<Actor>)
    requires i < |es| && k < |es| && k != i
    ensures SameBodies(es, r, i)
    ensures forall m :: 0 <= m < |es| && m != k ==> r[m].hp == es[m].hp
    ensures !AllyOf(es, i, k) ==> r[k].hp == es[k].hp - es[i].damage && r[i] == es[i]
    ensures !Ready(es[i]) ==> r[i] == es[i]
  {
    if !AllyOf(es, i, k) then
      es[k := es[k].(hp := es[k].hp - es[i].damage)]
    else if Ready(es[i]) then
      var p := es[i].pouch.value;
      es[k := es[k].(hp := es[k].hp + p.amount)][i := es[i].(pouch := Some(p.(cooldown := p.maxCooldown + 1)))]
    else
      es
  }

  /** A bump changes neither who is bumped nor who is an ally. */
  lemma BumpKeepsRoles(es: seq<Actor>, i: nat, next: Pos, j: nat)
    requires i < |es| && j < |es| && j != i
    ensures var b := Bump(es, i, j);
      forall k :: 0 <= k < |es| ==>
        (Bumped(b, i, next, k) <==> Bumped(es, i, next, k)) && (AllyOf(b, i, k) <==> AllyOf(es, i, k))
  {
  }

  /** The `checkCollisions` loop for actor i from position j on: every
      other actor whose claimed cell is `next` blocks the move and is
      bumped. */
  function Collide(es: seq<Actor>, i: nat, next: Pos, j: nat): (r: (seq<Actor>, bool))
    requires i < |es| && j <= |es|
    ensures SameBodies(es, r.0, i)
    ensures r.1 <==> exists k :: j <= k < |es| && Bumped(es, i, next, k)
    decreases |es| - j
  {
    if j == |es| then (es, false)
    else if Bumped(es, i, next, j) then
      var r := Collide(Bump(es, i, j), i, next, j + 1);
      (r.0, true)
    else
      Collide(es, i, next, j + 1)
  }

  /** Hitpoints after the collision pass: untouched actors keep theirs, and
      each bumped enemy loses exactly i's damage. */
  lemma CollideHurtsEnemies(es: seq<Actor>, i: nat, next: Pos, j: nat)
    requires i < |es| && j <= |es|
    ensures var es' := Collide(es, i, next, j).0;
      && (forall k :: 0 <= k < |es| && (k < j || !Bumped(es, i, next, k)) ==> es'[k].hp == es[k].hp)
      && (forall k :: j <= k < |es| && Bumped(es, i, next, k) && !AllyOf(es, i, k) ==>
            es'[k].hp == es[k].hp - es[i].damage)
  {
    CollideKeepsUntouched(es, i, next, j);
    CollideHurtsBumped(es, i, next, j);
  }

  lemma {:induction false} CollideKeepsUntouched(es: seq<Actor>, i: nat, next: Pos, j: nat)
    requires i < |es| && j <= |es|
    ensures var es' := Collide(es, i, next, j).0;
      forall k :: 0 <= k < |es| && (k < j || !Bumped(es, i, next, k)) ==> es'[k].hp == es[k].hp
    decreases |es| - j
  {
    if j < |es| {
      if Bumped(es, i, next, j) {
        BumpKeepsRoles(es, i, next, j);
        CollideKeepsUntouched(Bump(es, i, j), i, next, j + 1);
      } else {
        CollideKeepsUntouched(es, i, next, j + 1);
      }
    }
  }

  /** Every enemy bumped from position j on has lost i's damage in es'. */
  predicate HurtFrom(es: seq<Actor>, es': seq<Actor>, i: nat, next: Pos, j: nat)
    requires i < |es| && |es'| == |es|
  {
    forall k :: j <= k < |es| && Bumped(es, i, next, k) && !AllyOf(es, i, k) ==>
      es'[k].hp == es[k].hp - es[i].damage
  }

  lemma {:induction false} CollideHurtsBumped(es: seq<Actor>, i: nat, next: Pos, j: nat)
    requires i < |es| && j <= |es|
    ensures HurtFrom(es, Collide(es, i, next, j).0, i, next, j)
    decreases |es| - j
  {
    if j < |es| {
      if Bumped(es, i, next, j) {
        var b := Bump(es, i, j);
        var es' := Collide(b, i, next, j + 1).0;
        assert Collide(es, i, next, j).0 == es';
        CollideHurtsBumped(b, i, next, j + 1);
        CollideKeepsUntouched(b, i, next, j + 1);
        HurtStep(es, es', i, next, j);
      } else {
        assert Collide(es, i, next, j).0 == Collide(es, i, next, j + 1).0;
        CollideHurtsBumped(es, i, next, j + 1);
      }
    }
  }

  /** The bumped actor j of the pass, and everything after it. */
  lemma HurtStep(es: seq<Actor>, es': seq<Actor>, i: nat, next: Pos, j: nat)
    requires i < |es| && j < |es| && Bumped(es, i, next, j) && |es'| == |es|
    requires HurtFrom(Bump(es, i, j), es', i, next, j + 1)
    requires es'[j].hp == Bump(es, i, j)[j].hp
    ensures HurtFrom(es, es', i, next, j)
  {
    var b := Bump(es, i, j);
    BumpKeepsRoles(es, i, next, j);
    assert b[i].damage == es[i].damage;
    forall k | j < k < |es| && Bumped(es, i, next, k) && !AllyOf(es, i, k)
      ensures es'[k].hp == es[k].hp - es[i].damage
    {
      assert b[k].hp == es[k].hp;
    }
  }

  /** No bumped ally before position k. */
  predicate FirstAlly(es: seq<Actor>, i: nat, next: Pos, j: nat, k: nat)
    requires i < |es| && k < |es|
  {
    forall m :: j <= m < k ==> !(Bumped(es, i, next, m) && AllyOf(es, i, m))
  }

  /** A pouch that is not ready heals nobody and stays as it is. */
  lemma {:induction false} CollideNotReady(es: seq<Actor>, i: nat, next: Pos, j: nat)
    requires i < |es| && j <= |es| && !Ready(es[i])
    ensures var es' := Collide(es, i, next, j).0;
      && es'[i].pouch == es[i].pouch
      && forall k :: j <= k < |es| && Bumped(es, i, next, k) && AllyOf(es, i, k) ==> es'[k].hp == es[k].hp
    decreases |es| - j
  {
    if j < |es| {
      if Bumped(es, i, next, j) {
        var b := Bump(es, i, j);
        assert b[i] == es[i];
        BumpKeepsRoles(es, i, next, j);
        CollideNotReady(b, i, next, j + 1);
        CollideHurtsEnemies(b, i, next, j + 1);
      } else {
        CollideNotReady(es, i, next, j + 1);
      }
    }
  }

  /** What a ready pouch does over positions j.. of the collision pass:
      only the first bumped ally gains the pouch's amount, and the pouch
      starts its cooldown exactly when there is such an ally. */
  ghost predicate HealsFirstAlly(es: seq<Actor>, es': seq<Actor>, i: nat, next: Pos, j: nat)
    requires i < |es| && j <= |es| && |es'| == |es| && Ready(es[i])
  {
    var p := es[i].pouch.value;
    && (forall k :: j <= k < |es| && Bumped(es, i, next, k) && AllyOf(es, i, k) ==>
          es'[k].hp == es[k].hp + (if FirstAlly(es, i, next, j, k) then p.amount else 0))
    && (es'[i].pouch == es[i].pouch <==>
          forall k :: j <= k < |es| ==> !(Bumped(es, i, next, k) && AllyOf(es, i, k)))
    && (es'[i].pouch != es[i].pouch ==> es'[i].pouch == Some(p.(cooldown := p.maxCooldown + 1)))
  }

  /** Healing in the collision pass by a ready pouch whose cooldown is not
      negative (a heal then leaves it not ready). */
  lemma {:induction false} CollideReady(es: seq<Actor>, i: nat, next: Pos, j: nat)
    requires i < |es| && j <= |es| && Ready(es[i]) && es[i].pouch.value.maxCooldown >= 0
    ensures HealsFirstAlly(es, Collide(es, i, next, j).0, i, next, j)
    decreases |es| - j
  {
    if j < |es| {
      if !Bumped(es, i, next, j) {
        CollideReady(es, i, next, j + 1);
        ReadySkips(es, Collide(es, i, next, j).0, i, next, j);
      } else if AllyOf(es, i, j) {
        ReadyMeetsAlly(es, i, next, j);
      } else {
        var b := Bump(es, i, j);
        CollideReady(b, i, next, j + 1);
        ReadyPassesEnemy(es, b, Collide(es, i, next, j).0, i, next, j);
      }
    }
  }

  lemma ReadySkips(es: seq<Actor>, es': seq<Actor>, i: nat, next: Pos, j: nat)
    requires i < |es| && j < |es| && |es'| == |es| && Ready(es[i]) && !Bumped(es, i, next, j)
    requires HealsFirstAlly(es, es', i, next, j + 1)
    ensures HealsFirstAlly(es, es', i, next, j)
  {
  }

  lemma ReadyPassesEnemy(es: seq<Actor>, b: seq<Actor>, es': seq<Actor>, i: nat, next: Pos, j: nat)
    requires i < |es| && j < |es| && Ready(es[i]) && Bumped(es, i, next, j) && !AllyOf(es, i, j)
    requires b == Bump(es, i, j) && |es'| == |es|
    requires HealsFirstAlly(b, es', i, next, j + 1)
    ensures HealsFirstAlly(es, es', i, next, j)
  {
    assert b[i] == es[i];
    var p := es[i].pouch.value;
    forall k | j <= k < |es| && Bumped(es, i, next, k) && AllyOf(es, i, k)
      ensures es'[k].hp == es[k].hp + (if FirstAlly(es, i, next, j, k) then p.amount else 0)
    {
      assert k != j && Bumped(b, i, next, k) && AllyOf(b, i, k);
      assert FirstAlly(es, i, next, j, k) == FirstAlly(b, i, next, j + 1, k) by {
        forall m | j <= m < k
          ensures Bumped(b, i, next, m) == Bumped(es, i, next, m) && AllyOf(b, i, m) == AllyOf(es, i, m)
        {
        }
      }
    }
    assert (forall k :: j <= k < |es| ==> !(Bumped(es, i, next, k) && AllyOf(es, i, k))) <==>
           (forall k :: j + 1 <= k < |b| ==> !(Bumped(b, i, next, k) && AllyOf(b, i, k))) by {
      forall m | j <= m < |es|
        ensures Bumped(b, i, next, m) == Bumped(es, i, next, m) && AllyOf(b, i, m) == AllyOf(es, i, m)
      {
      }
    }
  }

  /** The first bumped ally is healed; the pouch is then no longer ready. */
  lemma ReadyMeetsAlly(es: seq<Actor>, i: nat, next: Pos, j: nat)
    requires i < |es| && j < |es| && Ready(es[i]) && es[i].pouch.value.maxCooldown >= 0
    requires Bumped(es, i, next, j) && AllyOf(es, i, j)
    ensures HealsFirstAlly(es, Collide(es, i, next, j).0, i, next, j)
  {
    var b := Bump(es, i, j);
    var es' := Collide(b, i, next, j + 1).0;
    assert Collide(es, i, next, j).0 == es';
    assert !Ready(b[i]);
    CollideNotReady(b, i, next, j + 1);
    CollideKeepsUntouched(b, i, next, j + 1);
    ReadyHealsHere(es, b, es', i, next, j);
  }

  lemma ReadyHealsHere(es: seq<Actor>, b: seq<Actor>, es': seq<Actor>, i: nat, next: Pos, j: nat)
    requires i < |es| && j < |es| && Ready(es[i]) && es[i].pouch.value.maxCooldown >= 0
    requires Bumped(es, i, next, j) && AllyOf(es, i, j)
    requires b == Bump(es, i, j) && |es'| == |es|
    requires es'[i].pouch == b[i].pouch && es'[j].hp == b[j].hp
    requires forall k :: j < k < |es| && Bumped(b, i, next, k) && AllyOf(b, i, k) ==> es'[k].hp == b[k].hp
    ensures HealsFirstAlly(es, es', i, next, j)
  {
    BumpKeepsRoles(es, i, next, j);
  }

  /** Resolution of actor i: it targets `move_pos` of its position; if any
      other actor has claimed that cell the move is blocked and the action
      cleared, otherwise the actor claims the cell. */
  function ResolveMove(es: seq<Actor>, i: nat): (r: seq<Actor>)
    requires i < |es|
    ensures |r| == |es|
    ensures var next := MovePos(es[i].pos, es[i].action);
      var blocked := exists k :: 0 <= k < |es| && Bumped(es, i, next, k);
      && (blocked ==> r[i].action == Nop && r[i].mpos == es[i].mpos)
      && (!blocked ==> r[i].action == es[i].action && r[i].mpos == next)
    ensures r[i].pos == es[i].pos
    ensures forall k :: 0 <= k < |es| && k != i ==>
      r[k].action == es[k].action && r[k].pos == es[k].pos && r[k].mpos == es[k].mpos && r[k].pouch == es[k].pouch
  {
    var next := MovePos(es[i].pos, es[i].action);
    var c := Collide(es, i, next, 0);
    if c.1 then c.0[i := c.0[i].(action := Nop)]
    else c.0[i := c.0[i].(mpos := next)]
  }

  /** No two actors claim the same cell. */
  predicate DistinctClaims(es: seq<Actor>) {
    forall j, k :: 0 <= j < k < |es| ==> es[j].mpos != es[k].mpos
  }

  /** A move is only taken onto a cell nobody else claims, so resolution
      never puts two actors on one cell. */
  lemma ResolveKeepsDistinct(es: seq<Actor>, i: nat)
    requires i < |es| && DistinctClaims(es)
    ensures DistinctClaims(ResolveMove(es, i))
  {
    var r := ResolveMove(es, i);
    forall j, k | 0 <= j < k < |es|
      ensures r[j].mpos != r[k].mpos
    {
      if j != i && k != i {
      } else {
        var o := if j == i then k else j;
        assert !Bumped(es, i, r[i].mpos, o) || r[i].mpos == es[i].mpos;
      }
    }
  }

  /** The first `processActions` loop, from actor i on. */
  function ResolveFrom(es: seq<Actor>, i: nat): (r: seq<Actor>)
    requires i <= |es|
    ensures |r| == |es|
    ensures forall k :: 0 <= k < |es| ==> r[k].pos == es[k].pos
    decreases |es| - i
  {
    if i == |es| then es else ResolveFrom(ResolveMove(es, i), i + 1)
  }

  lemma {:induction false} ResolveFromKeepsDistinct(es: seq<Actor>, i: nat)
    requires i <= |es| && DistinctClaims(es)
    ensures DistinctClaims(ResolveFrom(es, i))
    decreases |es| - i
  {
    if i < |es| {
      ResolveKeepsDistinct(es, i);
      ResolveFromKeepsDistinct(ResolveMove(es, i), i + 1);
    }
  }

  /** The second loop: every actor moves to its claimed cell and its action
      is cleared. */
  function Commit(es: seq<Actor>): (r: seq<Actor>)
    ensures |r| == |es|
    ensures forall k :: 0 <= k < |es| ==>
      r[k] == es[k].(pos := es[k].mpos, action := Nop)
  {
    seq(|es|, k requires 0 <= k < |es| => es[k].(pos := es[k].mpos, action := Nop))
  }

  /** `--pouch.cooldown` when it is positive. */
  function TickPouch(p: Pouch): (r: Pouch)
    ensures r.cooldown == (if p.cooldown > 0 then p.cooldown - 1 else p.cooldown)
    ensures r.amount == p.amount && r.maxCooldown == p.maxCooldown
  {
    if p.cooldown > 0 then p.(cooldown := p.cooldown - 1) else p
  }

  /** The healers loop. */
  function Cool(es: seq<Actor>): (r: seq<Actor>)
    ensures |r| == |es|
    ensures forall k :: 0 <= k < |es| ==>
      r[k] == es[k].(pouch := if es[k].pouch.Some? then Some(TickPouch(es[k].pouch.value)) else None)
  {
    seq(|es|, k requires 0 <= k < |es| =>
      es[k].(pouch := if es[k].pouch.Some? then Some(TickPouch(es[k].pouch.value)) else None))
  }

  /** `process_actions` without the removal of the dead and the pickups. */
  function ProcessActions(es: seq<Actor>): (r: seq<Actor>)
    ensures |r| == |es|
    ensures forall k :: 0 <= k < |es| ==> r[k].action == Nop && r[k].pos == r[k].mpos
  {
    Cool(Commit(ResolveFrom(es, 0)))
  }

  /** A turn that starts with every actor on its own cell ends with every
      actor on its own cell. */
  lemma TurnKeepsActorsApart(es: seq<Actor>)
    requires DistinctClaims(es)
    ensures forall j, k :: 0 <= j < k < |es| ==> ProcessActions(es)[j].pos != ProcessActions(es)[k].pos
  {
    ResolveFromKeepsDistinct(es, 0);
  }

  /** A pouch's cooldown after k turns of cooling. */
  function CooledFor(c: int, k: nat): int
    decreases k
  {
    if k == 0 then c else CooledFor(if c > 0 then c - 1 else c, k - 1)
  }

  /** Cooling never takes a cooldown below 0: after k turns it is
      max(c - k, 0). A heal sets `maxCooldown + 1` and the same turn's cooling
      takes one off, so the pouch is ready again after `maxCooldown` more
      turns. */
  lemma {:induction false} CooldownCountdown(c: int, k: nat)
    requires c >= 0
    ensures CooledFor(c, k) == if c >= k then c - k else 0
    decreases k
  {
    if k > 0 {
      CooldownCountdown(if c > 0 then c - 1 else c, k - 1);
    }
  }
}
