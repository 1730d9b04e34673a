/** The small decision helpers of the first roguelike's AI library: the
    action codes, `move_towards` and `inverse_move`, the transition
    combinators of the state machines (negate, and, one-shot, always) and
    the countdown of the activity state. */
module AiLibrary {
  import opened PathTypes

  /** The `Actions` enumeration: plain integer codes, as the source passes
      them around (`move_towards` and `inverse_move` return `int`). */
  const Nop := 0
  const MoveLeft := 1
  const MoveRight := 2
  const MoveDown := 3
  const MoveUp := 4
  const Attack := 5
  const Shoot := 6

  /** The four movement codes. */
  predicate IsMove(a: int) { MoveLeft <= a <= MoveUp }

  /** `move_towards`: the action taking one step from `from` toward `to`.
      The larger coordinate gap wins; a tie goes to the vertical axis. */
  function MoveTowards(from: Pos, to: Pos): (a: int)
    ensures a == Nop <==> from == to
    ensures a == Nop || IsMove(a)
  {
    var dx := to.x - from.x;
    var dy := to.y - from.y;
    if dx == dy && dy == 0 then Nop
    else if Abs(dx) > Abs(dy) then (if dx > 0 then MoveRight else MoveLeft)
    else if dy < 0 then MoveUp
    else MoveDown
  }

  /** Which move comes out: a horizontal one exactly when the horizontal gap
      is strictly larger, pointing along its sign; otherwise a vertical one
      pointing along the sign of the vertical gap. */
  lemma MoveTowardsDirection(from: Pos, to: Pos)
    requires from != to
    ensures var a := MoveTowards(from, to);
      && (a == MoveLeft || a == MoveRight <==> Abs(to.x - from.x) > Abs(to.y - from.y))
      && (a == MoveRight ==> to.x > from.x)
      && (a == MoveLeft ==> to.x < from.x)
      && (a == MoveUp ==> to.y < from.y)
      && (a == MoveDown ==> to.y > from.y)
  {
  }

  /** `inverse_move`: the opposite movement; every other code (no-op, attack,
      shoot, anything out of range) is returned as it is. */
  function InverseMove(a: int): (r: int)
    ensures IsMove(r) <==> IsMove(a)
    ensures !IsMove(a) ==> r == a
    ensures IsMove(a) ==> r != a
  {
    if a == MoveLeft then MoveRight
    else if a == MoveRight then MoveLeft
    else if a == MoveUp then MoveDown
    else if a == MoveDown then MoveUp
    else a
  }

  lemma InverseMoveInvolution(a: int)
    ensures InverseMove(InverseMove(a)) == a
  {
  }

  /** Heading back from the target is the inverse of heading to it. */
  lemma MoveTowardsReversed(from: Pos, to: Pos)
    ensures MoveTowards(to, from) == InverseMove(MoveTowards(from, to))
  {
  }

  /** A state-machine transition. A `Leaf` stands for one of the world
      queries (enemy close enough, hitpoints below a threshold, ...), whose
      answers this model takes as given. */
  datatype Transition =
    | Leaf(id: nat)
    | Negate(inner: Transition)
    | And(lhs: Transition, rhs: Transition)
    | OneShot(inner: Transition, alreadyHappened: bool)
    | Always

  /** The answers of the world queries on one turn. */
  type Answers = nat -> bool

  /** One `isAvailable` call: its value, the transition afterwards (only a
      one-shot's flag can change), and the world queries asked, in order. */
  datatype Outcome = Outcome(value: bool, next: Transition, asked: seq<nat>)

  function Eval(t: Transition, env: Answers): (o: Outcome)
  {
    match t
    case Leaf(id) => Outcome(env(id), t, [id])
    case Negate(inner) =>
      var o := Eval(inner, env);
      Outcome(!o.value, Negate(o.next), o.asked)
    case And(lhs, rhs) =>
      var l := Eval(lhs, env);
      if !l.value then Outcome(false, And(l.next, rhs), l.asked)
      else
        var r := Eval(rhs, env);
        Outcome(r.value, And(l.next, r.next), l.asked + r.asked)
    case OneShot(inner, happened) =>
      if happened then Outcome(false, t, [])
      else
        var o := Eval(inner, env);
        Outcome(o.value, OneShot(o.next, o.value), o.asked)
    case Always => Outcome(true, t, [])
  }

  /** A transition with no one-shot inside: it has no state. */
  predicate Stateless(t: Transition) {
    match t
    case Leaf(_) => true
    case Negate(inner) => Stateless(inner)
    case And(lhs, rhs) => Stateless(lhs) && Stateless(rhs)
    case OneShot(_, _) => false
    case Always => true
  }

  /** The plain boolean reading of a stateless transition. */
  predicate Holds(t: Transition, env: Answers)
    requires Stateless(t)
  {
    match t
    case Leaf(id) => env(id)
    case Negate(inner) => !Holds(inner, env)
    case And(lhs, rhs) => Holds(lhs, env) && Holds(rhs, env)
    case Always => true
  }

  /** The world queries a transition may ask. */
  function Queries(t: Transition): set<nat> {
    match t
    case Leaf(id) => {id}
    case Negate(inner) => Queries(inner)
    case And(lhs, rhs) => Queries(lhs) + Queries(rhs)
    case OneShot(inner, _) => Queries(inner)
    case Always => {}
  }

  /** A stateless transition evaluates to its boolean reading, stays as it
      is, and asks only its own queries. */
  lemma {:induction false} EvalStateless(t: Transition, env: Answers)
    requires Stateless(t)
    ensures Eval(t, env).value == Holds(t, env)
    ensures Eval(t, env).next == t
    ensures forall q :: q in Eval(t, env).asked ==> q in Queries(t)
  {
    match t
    case Leaf(_) =>
    case Negate(inner) => EvalStateless(inner, env);
    case And(lhs, rhs) => EvalStateless(lhs, env); EvalStateless(rhs, env);
    case Always =>
  }

  /** Negation is logical not, and a double negation answers like the inner
      transition, asking the same queries. */
  lemma NegateNegate(t: Transition, env: Answers)
    ensures Eval(Negate(t), env).value == !Eval(t, env).value
    ensures Eval(Negate(Negate(t)), env).value == Eval(t, env).value
    ensures Eval(Negate(Negate(t)), env).asked == Eval(t, env).asked
  {
  }

  /** `And` is `lhs && rhs` with short-circuit: when the left side is false
      the right side is not evaluated at all, so its queries are not asked
      and its one-shots keep their flags. */
  lemma AndShortCircuits(lhs: Transition, rhs: Transition, env: Answers)
    ensures Eval(And(lhs, rhs), env).value == (Eval(lhs, env).value && Eval(rhs, env).value)
    ensures !Eval(lhs, env).value ==>
      && Eval(And(lhs, rhs), env).asked == Eval(lhs, env).asked
      && Eval(And(lhs, rhs), env).next.rhs == rhs
  {
  }

  /** The answers of a one-shot over successive turns. */
  function RunValues(t: Transition, envs: seq<Answers>): (r: seq<bool>)
    ensures |r| == |envs|
    decreases |envs|
  {
    if envs == [] then []
    else
      var o := Eval(t, envs[0]);
      [o.value] + RunValues(o.next, envs[1..])
  }

  /** Once a one-shot has fired it answers false forever. */
  lemma {:induction false} FiredStaysSilent(inner: Transition, envs: seq<Answers>)
    ensures forall k :: 0 <= k < |envs| ==> !RunValues(OneShot(inner, true), envs)[k]
    decreases |envs|
  {
    if envs != [] {
      FiredStaysSilent(inner, envs[1..]);
    }
  }

  /** A one-shot answers true on at most one turn of its life; one built
      as already signalled never does. */
  lemma {:induction false} OneShotAtMostOnce(inner: Transition, signaled: bool, envs: seq<Answers>)
    ensures var r := RunValues(OneShot(inner, signaled), envs);
      forall j, k :: 0 <= j < k < |r| && r[j] ==> !r[k]
    ensures signaled ==> forall k :: 0 <= k < |envs| ==> !RunValues(OneShot(inner, signaled), envs)[k]
    decreases |envs|
  {
    if signaled {
      FiredStaysSilent(inner, envs);
    } else if envs != [] {
      var o := Eval(inner, envs[0]);
      var r := RunValues(OneShot(inner, signaled), envs);
      OneShotAtMostOnce(o.next, o.value, envs[1..]);
      if o.value {
        FiredStaysSilent(o.next, envs[1..]);
      }
      forall j, k | 0 <= j < k < |r| && r[j]
        ensures !r[k]
      {
        assert r[k] == RunValues(OneShot(o.next, o.value), envs[1..])[k - 1];
        if j > 0 {
          assert r[j] == RunValues(OneShot(o.next, o.value), envs[1..])[j - 1];
        }
      }
    }
  }

  /** The `Activity` component together with the state's `justEntered`
      flag. */
  datatype Activity = Activity(turnsLeft: int, justEntered: bool)

  /** A freshly entered activity: the component's default counter of 0. */
  const Fresh := Activity(0, true)

  /** `AcitvityState::act`: when the counter is at 0 it is reloaded with
      `turns`, and `onDone` runs unless this is the first reload since the
      state was entered; the counter then drops by one. Returns the new state
      and whether `onDone` ran. */
  function Act(turns: int, s: Activity): (r: (Activity, bool))
    ensures r.1 <==> s.turnsLeft == 0 && !s.justEntered
    ensures r.0.justEntered <==> s.justEntered && s.turnsLeft != 0
    ensures r.0.turnsLeft == (if s.turnsLeft == 0 then turns else s.turnsLeft) - 1
  {
    if s.turnsLeft == 0 then
      (Activity(turns - 1, false), !s.justEntered)
    else
      (Activity(s.turnsLeft - 1, s.justEntered), false)
  }

  /** `AcitvityState::exit`: re-arms the skip of the next reload; the counter
      itself is left where it is. */
  function Exit(s: Activity): (r: Activity)
    ensures r.justEntered && r.turnsLeft == s.turnsLeft
  {
    Activity(s.turnsLeft, true)
  }

  /** The state after k acts. */
  function After(turns: int, s: Activity, k: nat): Activity
    decreases k
  {
    if k == 0 then s else After(turns, Act(turns, s).0, k - 1)
  }

  /** Whether `onDone` runs on act number k (counting from 0). */
  function FiresAt(turns: int, s: Activity, k: nat): bool {
    Act(turns, After(turns, s, k)).1
  }

  lemma AfterStep(turns: int, s: Activity, k: nat)
    ensures After(turns, s, k + 1) == Act(turns, After(turns, s, k)).0
    decreases k
  {
    if k > 0 {
      AfterStep(turns, Act(turns, s).0, k - 1);
    }
  }

  /** Reduction of k + 1 modulo t from that of k. */
  lemma ModSucc(k: nat, t: nat)
    requires t > 0
    ensures (k + 1) % t == (if k % t == t - 1 then 0 else k % t + 1)
  {
    var q := k / t;
    var r := k % t;
    assert k == CoordToIdx(r, q, t);
    if r == t - 1 {
      assert k + 1 == CoordToIdx(0, q + 1, t);
      CoordToIdxInverse(0, q + 1, t);
    } else {
      assert k + 1 == CoordToIdx(r + 1, q, t);
      CoordToIdxInverse(r + 1, q, t);
    }
  }

  /** After k >= 1 acts from a fresh entry the counter is at
      turns - 1 - (k - 1) mod turns and the skip is used up. */
  lemma AfterFresh(turns: int, k: nat)
    requires turns >= 1 && k >= 1
    ensures After(turns, Fresh, k) == Activity(turns - 1 - (k - 1) % turns, false)
  {
    AfterFreshDiv(turns, k, (k - 1) / turns, (k - 1) % turns);
  }

  /** AfterFresh with k - 1 written as q turns + r. */
  lemma {:induction false} AfterFreshDiv(turns: int, k: nat, q: nat, r: nat)
    requires turns >= 1 && k >= 1 && r < turns && k - 1 == q * turns + r
    ensures After(turns, Fresh, k) == Activity(turns - 1 - r, false)
  {
    if k == 1 {
      assert q * turns == 0 by {
        if q > 0 {
          MulLeMono(1, q, turns);
        }
      }
      AfterStep(turns, Fresh, 0);
    } else {
      AfterStep(turns, Fresh, k - 1);
      if r > 0 {
        AfterFreshDiv(turns, k - 1, q, r - 1);
      } else {
        assert q > 0;
        assert (q - 1) * turns + turns == q * turns;
        AfterFreshDiv(turns, k - 1, q - 1, turns - 1);
      }
    }
  }

  /** With a period of `turns` >= 1, `onDone` runs on act k (from 0) of a
      fresh entry exactly when k is a positive multiple of `turns`: on acts
      turns + 1, 2 turns + 1, ... counting from one. */
  lemma ActivityPeriod(turns: int, k: nat)
    requires turns >= 1
    ensures FiresAt(turns, Fresh, k) <==> k > 0 && k % turns == 0
  {
    if k > 0 {
      AfterFresh(turns, k);
      ModSucc(k - 1, turns);
    }
  }

  /** A period below 1 (the float given to `create_activity_state` truncates
      to 0 or below) leaves the counter negative after the first act, so
      `onDone` never runs. */
  lemma {:induction false} ActivityNeverFires(turns: int, k: nat)
    requires turns <= 0
    ensures k >= 1 ==> After(turns, Fresh, k).turnsLeft == turns - k && !After(turns, Fresh, k).justEntered
    ensures !FiresAt(turns, Fresh, k)
  {
    if k >= 1 {
      if k == 1 {
        AfterStep(turns, Fresh, 0);
      } else {
        ActivityNeverFires(turns, k - 1);
        AfterStep(turns, Fresh, k - 1);
      }
    }
  }

  /** Acts compose: a acts followed by b acts are a + b acts. */
  lemma {:induction false} AfterAdd(turns: int, s: Activity, a: nat, b: nat)
    ensures After(turns, s, a + b) == After(turns, After(turns, s, a), b)
    decreases a
  {
    if a > 0 {
      AfterAdd(turns, Act(turns, s).0, a - 1, b);
    }
  }

  /** An exit with the counter at c counts the c remaining turns down
      silently with the skip armed, so the reload at act c is skipped. */
  lemma {:induction false} ExitCountsDown(turns: int, s: Activity, k: nat)
    requires k <= s.turnsLeft || s.turnsLeft < 0
    ensures After(turns, Exit(s), k) == Activity(s.turnsLeft - k, true)
    ensures !FiresAt(turns, Exit(s), k)
    decreases k
  {
    if k > 0 {
      ExitCountsDown(turns, s, k - 1);
      AfterStep(turns, Exit(s), k - 1);
    }
  }

  /** After an exit the next reload is skipped again, wherever the counter
      stood: with the counter at c >= 0 nothing fires on acts 0..c, and from
      act c on the activity runs exactly like a fresh entry; with a negative
      counter it never fires again. */
  lemma ExitRearms(turns: int, s: Activity, k: nat)
    ensures s.turnsLeft >= 0 && k <= s.turnsLeft ==> !FiresAt(turns, Exit(s), k)
    ensures s.turnsLeft >= 0 && k >= s.turnsLeft ==>
      After(turns, Exit(s), k) == After(turns, Fresh, k - s.turnsLeft)
    ensures s.turnsLeft < 0 ==> !FiresAt(turns, Exit(s), k)
  {
    if s.turnsLeft >= 0 {
      if k <= s.turnsLeft {
        ExitCountsDown(turns, s, k);
      }
      if k >= s.turnsLeft {
        ExitCountsDown(turns, s, s.turnsLeft);
        AfterAdd(turns, Exit(s), s.turnsLeft, k - s.turnsLeft);
      }
    } else {
      ExitCountsDown(turns, s, k);
    }
  }

  /** An exit in mid-count keeps the skip armed through the remaining
      countdown: from Activity(2, false) with a period of 5, acts 0..2
      after the exit do not fire, the first firing is on act 7. */
  lemma ExitMidCount()
    ensures !FiresAt(5, Exit(Activity(2, false)), 2)
    ensures After(5, Exit(Activity(2, false)), 2) == Fresh
    ensures FiresAt(5, Exit(Activity(2, false)), 7)
  {
    ExitCountsDown(5, Activity(2, false), 2);
    ExitRearms(5, Activity(2, false), 7);
    ActivityPeriod(5, 5);
  }
}
