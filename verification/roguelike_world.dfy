/** World upkeep of the third roguelike: the bounded action log with its
    "turn: message" entries, the patrol waypoint ring, monsters healing
    themselves, and gatherers counting the pickups they stand on. */
module RoguelikeWorld {
  import opened PathTypes
  import opened AiLibrary
  import opened BehLibrary

  /** Decimal digit characters. */
  function DigitChar(d: nat): char
    requires d < 10
  {
    "0123456789"[d]
  }

  predicate IsDigit(c: char) { '0' <= c <= '9' }

  function DigitVal(c: char): nat
    requires IsDigit(c)
  {
    (c - '0') as nat
  }

  /** The decimal digits of n, most significant first, without leading
      zeros. */
  function NatToDecimal(n: nat): (s: string)
    ensures |s| > 0 && forall k :: 0 <= k < |s| ==> IsDigit(s[k])
    decreases n
  {
    if n < 10 then [DigitChar(n)] else NatToDecimal(n / 10) + [DigitChar(n % 10)]
  }

  /** `std::to_string` of an `int`: a minus sign, then the digits. */
  function IntToDecimal(i: int): (s: string)
    ensures |s| > 0 && forall k :: 0 <= k < |s| ==> s[k] != ':'
  {
    if i < 0 then "-" + NatToDecimal(-i) else NatToDecimal(i)
  }

  /** Reads a string of digits back as a number. */
  function ParseDecimal(s: string): nat
    requires forall k :: 0 <= k < |s| ==> IsDigit(s[k])
  {
    if s == [] then 0 else 10 * ParseDecimal(s[..|s| - 1]) + DigitVal(s[|s| - 1])
  }

  lemma {:induction false} DecimalRoundTrip(n: nat)
    ensures ParseDecimal(NatToDecimal(n)) == n
    decreases n
  {
    if n >= 10 {
      DecimalRoundTrip(n / 10);
      var s := NatToDecimal(n);
      assert s[..|s| - 1] == NatToDecimal(n / 10);
    }
  }

  /** An optional minus sign followed by digits. */
  predicate IsNumeral(s: string) {
    && |s| > 0
    && (s[0] == '-' || IsDigit(s[0]))
    && forall k :: 1 <= k < |s| ==> IsDigit(s[k])
  }

  function ParseInt(s: string): int
    requires IsNumeral(s)
  {
    if s[0] == '-' then 0 - ParseDecimal(s[1..]) as int else ParseDecimal(s)
  }

  lemma IntRoundTrip(i: int)
    ensures IsNumeral(IntToDecimal(i)) && ParseInt(IntToDecimal(i)) == i
  {
    var s := IntToDecimal(i);
    if i < 0 {
      DecimalRoundTrip(-i);
      assert s[1..] == NatToDecimal(-i);
      assert IsNumeral(s);
      assert ParseInt(s) == 0 - ParseDecimal(NatToDecimal(-i)) as int;
    } else {
      DecimalRoundTrip(i);
      assert s == NatToDecimal(i);
      assert IsNumeral(s);
    }
  }

  /** One log line: `std::to_string(count) + ": " + msg`. */
  function FormatEntry(count: int, msg: string): string {
    IntToDecimal(count) + ": " + msg
  }

  /** The position of the first ':' in s, or |s|. */
  function FirstColon(s: string): (k: nat)
    ensures k <= |s| && (k < |s| ==> s[k] == ':')
    ensures forall m :: 0 <= m < k ==> s[m] != ':'
  {
    if s == [] then 0 else if s[0] == ':' then 0 else 1 + FirstColon(s[1..])
  }

  /** Splits a log line into its turn number and message: everything before
      the first colon, and everything after the colon and blank that
      follow it. */
  function ParseEntry(e: string): Option<(int, string)> {
    var k := FirstColon(e);
    if k == 0 || k + 2 > |e| || e[k + 1] != ' ' then None
    else
      var head := e[..k];
      if IsNumeral(head) then
        Some((ParseInt(head), e[k + 2..]))
      else None
  }

  /** Every log line reads back as the turn and message it was written
      from, whatever colons the message itself holds. */
  lemma EntryRoundTrip(count: int, msg: string)
    ensures ParseEntry(FormatEntry(count, msg)) == Some((count, msg))
  {
    var d := IntToDecimal(count);
    var e := FormatEntry(count, msg);
    ColonAfterDigits(d, ": " + msg);
    assert e == d + (": " + msg);
    assert e[..|d|] == d;
    IntRoundTrip(count);
    assert e[|d| + 2..] == msg;
  }

  lemma {:induction false} ColonAfterDigits(d: string, rest: string)
    requires forall k :: 0 <= k < |d| ==> d[k] != ':'
    requires |rest| > 0 && rest[0] == ':'
    ensures FirstColon(d + rest) == |d|
  {
    if d != [] {
      assert (d + rest)[1..] == d[1..] + rest;
      ColonAfterDigits(d[1..], rest);
    }
  }

  /** The `ActionLog` component. */
  datatype ActionLog = ActionLog(log: seq<string>, capacity: nat)

  /** Appends one line; once the log holds more than `capacity` lines
      the oldest one is erased. */
  function PushLine(l: ActionLog, e: string): (r: ActionLog)
    ensures r.capacity == l.capacity
    ensures |l.log| <= l.capacity ==> |r.log| <= l.capacity
    ensures l.capacity > 0 ==> |r.log| > 0 && r.log[|r.log| - 1] == e
    ensures |l.log| < l.capacity ==> r.log == l.log + [e]
  {
    var grown := l.log + [e];
    if |grown| > l.capacity then l.(log := grown[1..]) else l.(log := grown)
  }

  /** `push_to_log`: log a message under the current turn number. The
      newest line reads back as that turn and message. */
  function PushToLog(l: ActionLog, count: int, msg: string): (r: ActionLog)
    ensures r.capacity == l.capacity
    ensures |l.log| <= l.capacity ==> |r.log| <= l.capacity
    ensures l.capacity > 0 ==> |r.log| > 0 && ParseEntry(r.log[|r.log| - 1]) == Some((count, msg))
  {
    EntryRoundTrip(count, msg);
    PushLine(l, FormatEntry(count, msg))
  }

  /** Pushing lines one after another. */
  function PushLines(l: ActionLog, es: seq<string>): ActionLog
    decreases |es|
  {
    if es == [] then l else PushLines(PushLine(l, es[0]), es[1..])
  }

  /** The newest `capacity` lines of a history. */
  function Newest(all: seq<string>, capacity: nat): (w: seq<string>)
    ensures |w| == if |all| > capacity then capacity else |all|
  {
    all[if |all| > capacity then |all| - capacity else 0..]
  }

  lemma NewestDropsFront(all: seq<string>, capacity: nat)
    requires |all| > capacity
    ensures Newest(all[1..], capacity) == Newest(all, capacity)
  {
    var d := |all| - capacity;
    assert Newest(all, capacity) == all[d..];
    assert Newest(all[1..], capacity) == all[1..][d - 1..];
    assert all[1..][d - 1..] == all[d..];
  }

  /** The log is a sliding window: after any number of pushes onto a log
      within capacity it holds exactly the newest `capacity` lines of
      everything written, in order. */
  lemma {:induction false} LogKeepsNewest(l: ActionLog, es: seq<string>)
    requires |l.log| <= l.capacity
    ensures PushLines(l, es).log == Newest(l.log + es, l.capacity)
    decreases |es|
  {
    if es == [] {
      assert l.log + es == l.log;
    } else {
      LogKeepsNewest(PushLine(l, es[0]), es[1..]);
      PushThenWindow(l, es[0], es[1..]);
      assert l.log + es == l.log + [es[0]] + es[1..];
    }
  }

  /** One push, seen through the window of whatever is written later. */
  lemma PushThenWindow(l: ActionLog, e: string, later: seq<string>)
    requires |l.log| <= l.capacity
    ensures Newest(PushLine(l, e).log + later, l.capacity) == Newest(l.log + [e] + later, l.capacity)
  {
    var grown := l.log + [e];
    if |grown| > l.capacity {
      assert PushLine(l, e).log + later == (grown + later)[1..];
      NewestDropsFront(grown + later, l.capacity);
    }
  }

  /** `create_waypoint_loop`: one waypoint entity per point (entity k for
      point k, the first being 0), each linked to the next, and the last
      linked back to the first when there is more than one. `links[k]` is
      the `Waypoint` component of entity k, if any. */
  method CreateWaypointLoop(points: seq<Pos>) returns (first: nat, links: seq<Option<nat>>)
    requires |points| > 0
    ensures first == 0 && |links| == |points|
    ensures forall k :: 0 <= k < |points| - 1 ==> links[k] == Some(k + 1)
    ensures links[|points| - 1] == if |points| > 1 then Some(0) else None
  {
    first := 0;
    var prev := first;
    links := [None];
    var i := 1;
    while i < |points|
      invariant 1 <= i <= |points| && |links| == i && prev == i - 1
      invariant forall k :: 0 <= k < i - 1 ==> links[k] == Some(k + 1)
      invariant links[i - 1] == None
    {
      links := links[prev := Some(i)] + [None];
      prev := i;
      i := i + 1;
    }
    if |points| > 1 {
      links := links[prev := Some(first)];
    }
  }

  /** The ring of n > 1 waypoints. */
  predicate IsRing(links: seq<Option<nat>>) {
    && |links| > 1
    && (forall k :: 0 <= k < |links| - 1 ==> links[k] == Some(k + 1))
    && links[|links| - 1] == Some(0)
  }

  /** Where a patrol following the links for s switches stands. */
  function Follow(links: seq<Option<nat>>, at: nat, s: nat): (r: nat)
    requires IsRing(links) && at < |links|
    ensures r < |links|
    decreases s
  {
    if s == 0 then at else Follow(links, links[at].value, s - 1)
  }

  lemma FollowStep(links: seq<Option<nat>>, at: nat, s: nat)
    requires IsRing(links) && at < |links|
    ensures Follow(links, at, s + 1) == links[Follow(links, at, s)].value
    decreases s
  {
    if s > 0 {
      FollowStep(links, links[at].value, s - 1);
    }
  }

  /** A patrol starting at the first waypoint is at waypoint s mod n after
      s switches: it visits every waypoint and comes back every n steps. */
  lemma {:induction false} PatrolCycles(links: seq<Option<nat>>, s: nat)
    requires IsRing(links)
    ensures Follow(links, 0, s) == s % |links|
  {
    if s > 0 {
      PatrolCycles(links, s - 1);
      FollowStep(links, 0, s - 1);
      RingStep(links, s - 1);
    }
  }

  /** The link out of waypoint s mod n leads to waypoint (s + 1) mod n. */
  lemma RingStep(links: seq<Option<nat>>, s: nat)
    requires IsRing(links)
    ensures links[s % |links|].value == (s + 1) % |links|
  {
    var k := s % |links|;
    assert links[k].value == if k == |links| - 1 then 0 else k + 1;
    ModSucc(s, |links|);
  }

  /** The monster heal of `process_actions`: a pending self-heal clears the
      action, logs the heal and adds 10 hitpoints; any other action leaves
      the monster and the log alone. */
  function HealSelfStep(a: Command, hp: int, l: ActionLog, count: int): (r: (Command, int, ActionLog))
    ensures a == HealSelf ==> r.0 == Idle && r.1 == hp + 10
    ensures a == HealSelf ==> r.2.capacity == l.capacity
    ensures a == HealSelf && l.capacity > 0 ==>
      |r.2.log| > 0 && ParseEntry(r.2.log[|r.2.log| - 1]) == Some((count, "Monster healed itself"))
    ensures a != HealSelf ==> r == (a, hp, l)
  {
    if a != HealSelf then (a, hp, l)
    else (Idle, hp + 10, PushToLog(l, count, "Monster healed itself"))
  }

  /** One round of a monster whose tree runs `PatchUp`: the node decides,
      then the turn processes the chosen action. */
  function PatchRound(hp: int, threshold: int): int {
    var decided := PatchUp(hp, threshold, Idle);
    HealSelfStep(decided.1, hp, ActionLog([], 0), 0).1
  }

  function PatchRounds(hp: int, threshold: int, k: nat): int
    decreases k
  {
    if k == 0 then hp else PatchRounds(PatchRound(hp, threshold), threshold, k - 1)
  }

  /** Rounds of healing needed to reach the threshold. */
  function RoundsNeeded(hp: int, threshold: int): (n: nat)
    ensures hp + 10 * n >= threshold
    ensures n > 0 ==> hp + 10 * (n - 1) < threshold
    decreases threshold - hp
  {
    if hp >= threshold then 0 else 1 + RoundsNeeded(hp + 10, threshold)
  }

  /** A monster below its threshold heals 10 per round until it first
      reaches the threshold, and `PatchUp` then reports SUCCESS and stops
      healing. */
  lemma {:induction false} PatchUpRecovers(hp: int, threshold: int, k: nat)
    ensures var n := RoundsNeeded(hp, threshold);
      PatchRounds(hp, threshold, k) == hp + 10 * (if k < n then k else n)
    ensures PatchUp(PatchRounds(hp, threshold, k), threshold, Idle).0 == Success <==>
      k >= RoundsNeeded(hp, threshold)
    decreases k
  {
    if k > 0 {
      PatchUpRecovers(PatchRound(hp, threshold), threshold, k - 1);
    }
  }

  /** A heal or powerup pickup. */
  datatype Pickup = Pickup(pos: Pos, alive: bool)

  function CountAt(pos: Pos, ps: seq<Pickup>): nat {
    if ps == [] then 0 else (if ps[0].alive && ps[0].pos == pos then 1 else 0) + CountAt(pos, ps[1..])
  }

  /** One gatherer's pass over the pickups: each live pickup on its cell
      raises the counter by one and is destroyed. */
  function Gather(pos: Pos, count: int, ps: seq<Pickup>): (r: (int, seq<Pickup>))
    ensures r.0 == count + CountAt(pos, ps)
    ensures |r.1| == |ps|
    ensures forall k :: 0 <= k < |ps| ==>
      r.1[k].pos == ps[k].pos && (r.1[k].alive <==> ps[k].alive && ps[k].pos != pos)
    decreases |ps|
  {
    if ps == [] then (count, ps)
    else
      var here := ps[0].alive && ps[0].pos == pos;
      var rest := Gather(pos, count + (if here then 1 else 0), ps[1..]);
      var r := (rest.0, [ps[0].(alive := ps[0].alive && !here)] + rest.1);
      assert forall k :: 1 <= k < |ps| ==> r.1[k] == rest.1[k - 1] && ps[k] == ps[1..][k - 1];
      r
  }

  /** Within one gatherer's sequential passes nothing is counted twice: a
      second pass on the same cell finds no pickup left. Several gatherers
      on one cell in the same deferred block are not covered (see the
      README's "Left out" line on `Gather`). */
  lemma {:induction false} GatherOnce(pos: Pos, count: int, ps: seq<Pickup>)
    ensures var first := Gather(pos, count, ps);
      Gather(pos, first.0, first.1).0 == first.0
  {
    var first := Gather(pos, count, ps);
    NoneLeft(pos, first.1);
  }

  lemma {:induction false} NoneLeft(pos: Pos, ps: seq<Pickup>)
    requires forall k :: 0 <= k < |ps| ==> !(ps[k].alive && ps[k].pos == pos)
    ensures CountAt(pos, ps) == 0
    decreases |ps|
  {
    if ps != [] {
      NoneLeft(pos, ps[1..]);
    }
  }
}
