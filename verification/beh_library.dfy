/** The behaviour-tree combinators of the third roguelike: sequence,
    selector, inverter, xor, repeat, the two utility selectors, and the
    `PatchUp` leaf. A child node is abstracted by the results it would give
    when updated: one result per child for the compound nodes, one result
    per call for `Repeat`, one result per scored choice for the utility
    selectors. A combinator returns its result together with which children
    it updated. */
module BehLibrary {
  import opened PathTypes

  datatype BehResult = Success | Fail | Running

  /** The actions the third roguelike's behaviours set; only the ones the
      model inspects are named. */
  datatype Command = Idle | HealSelf | OtherCommand(code: int)

  /** `Sequence::update`: children are updated in order until one does not
      succeed; that result is returned, and SUCCESS when every child (or no
      child at all) succeeds. The count says how many children were updated. */
  function SequenceOf(rs: seq<BehResult>): (r: (BehResult, nat))
    ensures r.1 <= |rs|
    ensures r.0 == Success <==> forall k :: 0 <= k < |rs| ==> rs[k] == Success
    ensures r.0 == Success ==> r.1 == |rs|
    ensures r.0 != Success ==> 0 < r.1 && rs[r.1 - 1] == r.0 && forall k :: 0 <= k < r.1 - 1 ==> rs[k] == Success
  {
    if rs == [] then (Success, 0)
    else if rs[0] != Success then (rs[0], 1)
    else
      var t := SequenceOf(rs[1..]);
      assert forall k :: 1 <= k < |rs| ==> rs[k] == rs[1..][k - 1];
      (t.0, t.1 + 1)
  }

  /** `Selector::update`: children are updated in order until one does not
      fail; FAIL when every child (or no child at all) fails. */
  function SelectorOf(rs: seq<BehResult>): (r: (BehResult, nat))
    ensures r.1 <= |rs|
    ensures r.0 == Fail <==> forall k :: 0 <= k < |rs| ==> rs[k] == Fail
    ensures r.0 == Fail ==> r.1 == |rs|
    ensures r.0 != Fail ==> 0 < r.1 && rs[r.1 - 1] == r.0 && forall k :: 0 <= k < r.1 - 1 ==> rs[k] == Fail
  {
    if rs == [] then (Fail, 0)
    else if rs[0] != Fail then (rs[0], 1)
    else
      var t := SelectorOf(rs[1..]);
      assert forall k :: 1 <= k < |rs| ==> rs[k] == rs[1..][k - 1];
      (t.0, t.1 + 1)
  }

  /** `Not::update`: success and failure swap, running stays running. */
  function Invert(x: BehResult): (r: BehResult)
    ensures r == Running <==> x == Running
    ensures r == Success <==> x == Fail
  {
    match x
    case Success => Fail
    case Fail => Success
    case Running => Running
  }

  lemma InvertInvolution(r: BehResult)
    ensures Invert(Invert(r)) == r
  {
  }

  function InvertAll(rs: seq<BehResult>): (r: seq<BehResult>)
    ensures |r| == |rs| && forall k :: 0 <= k < |rs| ==> r[k] == Invert(rs[k])
  {
    seq(|rs|, k requires 0 <= k < |rs| => Invert(rs[k]))
  }

  /** De Morgan for behaviour trees: inverting a sequence is a selector over
      the inverted children, and both update the same children. */
  lemma {:induction false} InvertSequence(rs: seq<BehResult>)
    ensures Invert(SequenceOf(rs).0) == SelectorOf(InvertAll(rs)).0
    ensures SequenceOf(rs).1 == SelectorOf(InvertAll(rs)).1
  {
    if rs != [] && rs[0] == Success {
      InvertSequence(rs[1..]);
      assert InvertAll(rs)[1..] == InvertAll(rs[1..]);
    }
  }

  /** `Xor::update`: both children are always updated (the count is 2); the
      result is SUCCESS exactly when one succeeds and the other fails, and
      FAIL otherwise, running children included. */
  function XorOf(r1: BehResult, r2: BehResult): (r: (BehResult, nat))
    ensures r.1 == 2
    ensures r.0 != Running
  {
    (if (r1 == Success && r2 == Fail) || (r1 == Fail && r2 == Success) then Success else Fail, 2)
  }

  /** Xor is symmetric, is SUCCESS only for a success/failure pair, and is
      unchanged when both children are inverted. */
  lemma XorProperties(r1: BehResult, r2: BehResult)
    ensures XorOf(r1, r2) == XorOf(r2, r1)
    ensures XorOf(r1, r2).0 == Success <==> r1 != Running && r2 != Running && r1 != r2
    ensures XorOf(Invert(r1), Invert(r2)) == XorOf(r1, r2)
  {
  }

  /** `Repeat::update`: the child is updated up to n times (`call(k)` is the
      result of the k-th update) and the first result that is not SUCCESS is
      returned. This is a sequence over the n successive results. */
  method Repeat(n: nat, call: nat -> BehResult) returns (res: BehResult, calls: nat)
    ensures (res, calls) == SequenceOf(Calls(n, call))
    ensures n == 0 ==> res == Success && calls == 0
    ensures n == 1 ==> res == call(0) && calls == 1
  {
    ghost var rs := Calls(n, call);
    var i := 0;
    while i < n
      invariant i <= n
      invariant forall k :: 0 <= k < i ==> rs[k] == Success
    {
      res := call(i);
      if res != Success {
        SequenceStopsAt(rs, i);
        return res, i + 1;
      }
      i := i + 1;
    }
    SequenceStopsAt(rs, n);
    return Success, n;
  }

  /** The results of the first n updates of a child. */
  function Calls(n: nat, call: nat -> BehResult): (r: seq<BehResult>)
    ensures |r| == n && forall k :: 0 <= k < n ==> r[k] == call(k)
  {
    seq(n, k requires 0 <= k < n => call(k))
  }

  /** The sequence stops at the first result that is not SUCCESS. */
  lemma {:induction false} SequenceStopsAt(rs: seq<BehResult>, i: nat)
    requires i <= |rs| && forall k :: 0 <= k < i ==> rs[k] == Success
    ensures i < |rs| && rs[i] != Success ==> SequenceOf(rs) == (rs[i], i + 1)
    ensures i == |rs| ==> SequenceOf(rs) == (Success, |rs|)
  {
    if i > 0 {
      assert rs[0] == Success;
      SequenceStopsAt(rs[1..], i - 1);
    }
  }

  /** The indices 0..n-1. */
  function Range(n: nat): (r: seq<nat>)
    ensures |r| == n && forall k :: 0 <= k < n ==> r[k] == k
  {
    seq(n, k requires 0 <= k < n => k)
  }

  /** Children listed from the highest score down. */
  predicate ByScore(scores: seq<int>, order: seq<nat>) {
    && (forall t :: 0 <= t < |order| ==> order[t] < |scores|)
    && (forall a, b :: 0 <= a < b < |order| ==> scores[order[a]] >= scores[order[b]])
  }

  /** Insert child x after every listed child scoring at least as much. */
  function InsertByScore(scores: seq<int>, order: seq<nat>, x: nat): (r: seq<nat>)
    requires x < |scores| && ByScore(scores, order)
    ensures multiset(r) == multiset(order) + multiset{x}
    ensures ByScore(scores, r)
  {
    if order == [] then [x]
    else if scores[order[0]] >= scores[x] then
      var rest := InsertByScore(scores, order[1..], x);
      HeadDominates(scores, order, x, rest);
      [order[0]] + rest
    else
      [x] + order
  }

  /** The head of a score-ordered list still tops the rest after x, which
      it also tops, is inserted. */
  lemma HeadDominates(scores: seq<int>, order: seq<nat>, x: nat, rest: seq<nat>)
    requires x < |scores| && ByScore(scores, order) && order != []
    requires scores[order[0]] >= scores[x]
    requires multiset(rest) == multiset(order[1..]) + multiset{x} && ByScore(scores, rest)
    ensures ByScore(scores, [order[0]] + rest)
    ensures multiset([order[0]] + rest) == multiset(order) + multiset{x}
  {
    assert order == [order[0]] + order[1..];
    forall t | 0 <= t < |rest|
      ensures scores[rest[t]] <= scores[order[0]]
    {
      assert rest[t] in multiset(rest);
      if rest[t] != x {
        assert rest[t] in order[1..];
        var u :| 0 <= u < |order[1..]| && order[1..][u] == rest[t];
        assert order[u + 1] == rest[t];
      }
    }
    var r := [order[0]] + rest;
    forall a, b | 0 <= a < b < |r|
      ensures scores[r[a]] >= scores[r[b]]
    {
      if a > 0 {
        assert r[a] == rest[a - 1] && r[b] == rest[b - 1];
      } else {
        assert r[b] == rest[b - 1];
      }
    }
  }

  /** The `std::sort` of the scored children by decreasing score (ties may
      come out in another order than the library's unstable sort). */
  method SortByScore(scores: seq<int>) returns (order: seq<nat>)
    ensures multiset(order) == multiset(Range(|scores|))
    ensures ByScore(scores, order)
  {
    order := [];
    var i := 0;
    while i < |scores|
      invariant i <= |scores|
      invariant multiset(order) == multiset(Range(i))
      invariant ByScore(scores, order)
    {
      assert Range(i + 1) == Range(i) + [i];
      order := InsertByScore(scores, order, i);
      i := i + 1;
    }
  }

  /** `order` lists every child once, from the highest score down: one
      possible result of the `std::sort` of the selectors. */
  ghost predicate ScoreOrder(scores: seq<int>, order: seq<nat>) {
    multiset(order) == multiset(Range(|scores|)) && ByScore(scores, order)
  }

  /** What the selection loop of the utility selectors delivers: children
      tried in decreasing score order, a prefix of such a sort, until one
      does not fail; `tried` lists the children updated, in order, and
      `chosen`, the one whose `enter()` runs, is the last of them and scores
      highest among the children that do not fail. When every child fails
      all of them are tried and none is entered. */
  ghost predicate Picked(scores: seq<int>, results: seq<BehResult>, res: BehResult, tried: seq<nat>, chosen: Option<nat>)
    requires |scores| == |results|
  {
    && PickOutcome(scores, results, res, tried, chosen)
    && TriedInOrder(scores, tried)
  }

  /** `tried` is where some sort of all children by score starts. */
  ghost predicate TriedInOrder(scores: seq<int>, tried: seq<nat>) {
    exists order :: ScoreOrder(scores, order) && tried <= order
  }

  /** The outcome part of Picked: failures before the last child tried,
      the result and the choice. */
  ghost predicate PickOutcome(scores: seq<int>, results: seq<BehResult>, res: BehResult, tried: seq<nat>, chosen: Option<nat>)
    requires |scores| == |results|
  {
    && ByScore(scores, tried)
    && multiset(tried) <= multiset(Range(|scores|))
    && (res == Fail <==> forall k :: 0 <= k < |results| ==> results[k] == Fail)
    && (res == Fail ==> chosen == None && |tried| == |results|)
    && (res != Fail ==>
      && chosen.Some? && |tried| > 0 && chosen.value == tried[|tried| - 1]
      && results[chosen.value] == res
      && (forall t :: 0 <= t < |tried| - 1 ==> results[tried[t]] == Fail)
      && (forall k :: 0 <= k < |results| && results[k] != Fail ==> scores[k] <= scores[chosen.value]))
  }

  /** The selection loop shared by both utility selectors. */
  method SelectByUtility(scores: seq<int>, results: seq<BehResult>)
    returns (res: BehResult, tried: seq<nat>, chosen: Option<nat>)
    requires |scores| == |results|
    ensures Picked(scores, results, res, tried, chosen)
  {
    var order := SortByScore(scores);
    ListsEveryChild(scores, order);
    var t := 0;
    while t < |order| && results[order[t]] == Fail
      invariant t <= |order|
      invariant forall u :: 0 <= u < t ==> results[order[u]] == Fail
    {
      t := t + 1;
    }
    ChosenIsBest(scores, results, order, t);
    if t < |order| {
      tried := order[..t + 1];
      TakeChosen(scores, results, order, t);
      return results[order[t]], tried, Some(order[t]);
    }
    assert ScoreOrder(scores, order) && order <= order;
    return Fail, order, None;
  }

  /** Stopping at position t of a score order whose earlier children fail
      gives a pick of its t + 1 first children. */
  lemma TakeChosen(scores: seq<int>, results: seq<BehResult>, order: seq<nat>, t: nat)
    requires |scores| == |results| && t < |order|
    requires ByScore(scores, order) && multiset(order) == multiset(Range(|scores|))
    requires forall u :: 0 <= u < t ==> results[order[u]] == Fail
    requires results[order[t]] != Fail
    requires forall k :: 0 <= k < |results| && results[k] != Fail ==> scores[k] <= scores[order[t]]
    ensures Picked(scores, results, results[order[t]], order[..t + 1], Some(order[t]))
  {
    PrefixOfOrder(scores, order, t + 1);
    PrefixInOrder(scores, order, t + 1);
    var tried := order[..t + 1];
    assert tried[|tried| - 1] == order[t];
    assert forall u :: 0 <= u < |tried| - 1 ==> results[tried[u]] == Fail;
  }

  /** A prefix of a score order is itself ordered and lists children of
      the range at most once. */
  lemma PrefixOfOrder(scores: seq<int>, order: seq<nat>, n: nat)
    requires ByScore(scores, order) && multiset(order) == multiset(Range(|scores|)) && n <= |order|
    ensures ByScore(scores, order[..n])
    ensures multiset(order[..n]) <= multiset(Range(|scores|))
  {
    assert order == order[..n] + order[n..];
    assert multiset(order) == multiset(order[..n]) + multiset(order[n..]);
  }

  /** Every prefix of a score order is tried in order. */
  lemma PrefixInOrder(scores: seq<int>, order: seq<nat>, n: nat)
    requires ScoreOrder(scores, order) && n <= |order|
    ensures TriedInOrder(scores, order[..n])
  {
    assert order[..n] <= order;
  }

  /** A permutation of the children lists every child. */
  lemma ListsEveryChild(scores: seq<int>, order: seq<nat>)
    requires multiset(order) == multiset(Range(|scores|))
    ensures |order| == |scores|
    ensures forall k :: 0 <= k < |scores| ==> k in order
  {
    assert |multiset(order)| == |order|;
    forall k | 0 <= k < |scores|
      ensures k in order
    {
      assert Range(|scores|)[k] == k;
      assert k in multiset(Range(|scores|));
      assert k in multiset(order);
    }
  }

  /** When every child listed before position t fails, no child that does
      not fail scores above the one at t; with t at the end, every child
      fails. */
  lemma ChosenIsBest(scores: seq<int>, results: seq<BehResult>, order: seq<nat>, t: nat)
    requires |scores| == |results| && ByScore(scores, order) && t <= |order|
    requires forall k :: 0 <= k < |scores| ==> k in order
    requires forall u :: 0 <= u < t ==> results[order[u]] == Fail
    ensures t < |order| ==>
      forall k :: 0 <= k < |results| && results[k] != Fail ==> scores[k] <= scores[order[t]]
    ensures t == |order| ==> forall k :: 0 <= k < |results| ==> results[k] == Fail
  {
    forall k | 0 <= k < |results| && results[k] != Fail
      ensures t < |order| && scores[k] <= scores[order[t]]
    {
      assert k in order;
      var p :| 0 <= p < |order| && order[p] == k;
    }
  }

  /** A pick tries every child that outscores the last child tried, so no
      better-scored child is skipped. */
  lemma HigherScoredTried(scores: seq<int>, results: seq<BehResult>, res: BehResult, tried: seq<nat>,
                          chosen: Option<nat>)
    requires |scores| == |results| && Picked(scores, results, res, tried, chosen) && |tried| > 0
    ensures forall k :: 0 <= k < |scores| && scores[k] > scores[tried[|tried| - 1]] ==> k in tried
  {
    var order :| ScoreOrder(scores, order) && tried <= order;
    ListsEveryChild(scores, order);
    forall k | 0 <= k < |scores| && scores[k] > scores[tried[|tried| - 1]]
      ensures k in tried
    {
      assert k in order;
      var p :| 0 <= p < |order| && order[p] == k;
      if p >= |tried| {
        assert false;
      }
      assert tried[p] == order[p];
    }
  }

  /** Skipping the failing children that score higher is no pick: with
      scores 5, 4, 3 and only the last child succeeding, children 0 and 1
      must be updated first. */
  lemma SkipIsNoPick()
    ensures !Picked([5, 4, 3], [Fail, Fail, Success], Success, [2], Some(2))
  {
    assert [5, 4, 3][0] > [5, 4, 3][[2][0]] && 0 !in [2];
    if Picked([5, 4, 3], [Fail, Fail, Success], Success, [2], Some(2)) {
      HigherScoredTried([5, 4, 3], [Fail, Fail, Success], Success, [2], Some(2));
      assert false;
    }
  }

  /** `UtilitySelector::update`: score every child, try them from the best
      score down, `enter()` the first that does not fail. */
  method UtilitySelector(scores: seq<int>, results: seq<BehResult>)
    returns (res: BehResult, entered: Option<nat>, tried: seq<nat>)
    requires |scores| == |results|
    ensures Picked(scores, results, res, tried, entered)
    ensures res == Fail <==> forall k :: 0 <= k < |results| ==> results[k] == Fail
    ensures res == Fail ==> entered == None
    ensures res != Fail ==>
      && entered.Some? && entered.value < |results| && results[entered.value] == res
      && forall k :: 0 <= k < |results| && results[k] != Fail ==> scores[k] <= scores[entered.value]
    ensures res != Fail ==>
      forall k :: 0 <= k < |scores| && scores[k] > scores[entered.value] ==> k in tried
  {
    res, tried, entered := SelectByUtility(scores, results);
    if res != Fail {
      HigherScoredTried(scores, results, res, tried, entered);
    }
  }

  /** A utility table over (action, target) pairs: one row per action, one
      column per target. */
  predicate Table<T>(rows: seq<seq<T>>, width: nat) {
    forall i :: 0 <= i < |rows| ==> |rows[i]| == width
  }

  /** A flat index p < rows * width decodes into row p / width and column
      p % width. */
  lemma FlatIndex(p: nat, rows: nat, width: nat)
    requires p < rows * width
    ensures width > 0 && p / width < rows && p % width < width
    ensures p == CoordToIdx(p % width, p / width, width)
  {
    if width == 0 {
      assert false;
    }
    if p / width >= rows {
      MulLeMono(rows, p / width, width);
    }
  }

  /** Row-major flattening of a table, pair (i, j) at index i * width + j as
      the source's nested scoring loops push them. */
  function Flatten<T>(rows: seq<seq<T>>, width: nat): (r: seq<T>)
    requires Table(rows, width)
    ensures |r| == |rows| * width
  {
    seq(|rows| * width, p requires 0 <= p < |rows| * width && Table(rows, width) =>
      FlatIndex(p, |rows|, width);
      rows[p / width][p % width])
  }

  /** Pair (i, j) sits at its row-major index in the flattened table. */
  lemma FlattenAt<T>(rows: seq<seq<T>>, width: nat, i: nat, j: nat)
    requires Table(rows, width) && i < |rows| && j < width
    ensures CoordToIdx(j, i, width) < |rows| * width
    ensures Flatten(rows, width)[CoordToIdx(j, i, width)] == rows[i][j]
  {
    CoordToIdxBound(j, i, width, |rows|);
    assert width * |rows| == |rows| * width;
    CoordToIdxInverse(j, i, width);
  }

  /** `PureUtilitySelector::update`: every (action, target) pair is scored;
      pairs are tried from the best score down, each attempt first writing
      the pair's target to the blackboard's chosen-target slot; the first
      action that does not fail is entered. `board` is the slot before the
      update, `board'` after it. `tried` lists the pairs updated, in order,
      by their row-major index i * |targets| + j. */
  method PureUtilitySelector<E>(scores: seq<seq<int>>, results: seq<seq<BehResult>>, targets: seq<E>, board: E)
    returns (res: BehResult, entered: Option<nat>, board': E, tried: seq<nat>)
    requires |scores| == |results| && Table(scores, |targets|) && Table(results, |targets|)
    ensures exists chosen :: Picked(Flatten(scores, |targets|), Flatten(results, |targets|), res, tried, chosen)
    ensures |tried| > 0 ==> |targets| > 0 && board' == targets[tried[|tried| - 1] % |targets|]
    ensures res == Fail && |results| > 0 && |targets| > 0 ==>
      |tried| == |results| * |targets| > 0 && board' == targets[tried[|tried| - 1] % |targets|]
    ensures res == Fail <==> forall i, j :: 0 <= i < |results| && 0 <= j < |targets| ==> results[i][j] == Fail
    ensures res != Fail ==>
      exists i, j :: 0 <= i < |results| && 0 <= j < |targets|
        && entered == Some(i) && board' == targets[j] && results[i][j] == res
        && forall i', j' :: 0 <= i' < |results| && 0 <= j' < |targets| && results[i'][j'] != Fail ==>
             scores[i'][j'] <= scores[i][j]
    ensures res == Fail ==> entered == None
    ensures |results| == 0 || |targets| == 0 ==> board' == board
  {
    var chosen;
    res, tried, chosen := SelectByUtility(Flatten(scores, |targets|), Flatten(results, |targets|));
    entered := EnteredAction(chosen, |targets|);
    board' := BoardAfter(tried, targets, board);
    PureOutcome(scores, results, targets, board, res, tried, chosen);
    PureTried(scores, results, targets, board, res, tried, chosen);
  }

  /** What the flat selection says about the pairs tried and the slot. */
  lemma PureTried<E>(scores: seq<seq<int>>, results: seq<seq<BehResult>>, targets: seq<E>, board: E,
                     res: BehResult, tried: seq<nat>, chosen: Option<nat>)
    requires |scores| == |results| && Table(scores, |targets|) && Table(results, |targets|)
    requires Picked(Flatten(scores, |targets|), Flatten(results, |targets|), res, tried, chosen)
    ensures exists chosen :: Picked(Flatten(scores, |targets|), Flatten(results, |targets|), res, tried, chosen)
    ensures |tried| > 0 ==> |targets| > 0 && BoardAfter(tried, targets, board) == targets[tried[|tried| - 1] % |targets|]
    ensures res == Fail && |results| > 0 && |targets| > 0 ==>
      |tried| == |results| * |targets| > 0 && BoardAfter(tried, targets, board) == targets[tried[|tried| - 1] % |targets|]
  {
    if |results| > 0 && |targets| > 0 {
      MulLeMono(1, |results|, |targets|);
    }
  }

  /** The action of the chosen flat pair. */
  function EnteredAction(chosen: Option<nat>, w: nat): Option<nat> {
    if chosen.Some? && w > 0 then Some(chosen.value / w) else None
  }

  /** The blackboard slot after the attempts: the target of the last pair
      tried, or the old value when no pair was tried. */
  function BoardAfter<E>(tried: seq<nat>, targets: seq<E>, board: E): E {
    if |tried| > 0 && |targets| > 0 then targets[tried[|tried| - 1] % |targets|] else board
  }

  /** The selection over the flattened table, read back as pairs. */
  lemma PureOutcome<E>(scores: seq<seq<int>>, results: seq<seq<BehResult>>, targets: seq<E>, board: E,
                       res: BehResult, tried: seq<nat>, chosen: Option<nat>)
    requires |scores| == |results| && Table(scores, |targets|) && Table(results, |targets|)
    requires PickOutcome(Flatten(scores, |targets|), Flatten(results, |targets|), res, tried, chosen)
    ensures var entered := EnteredAction(chosen, |targets|);
      var board' := BoardAfter(tried, targets, board);
      && (res == Fail <==> forall i, j :: 0 <= i < |results| && 0 <= j < |targets| ==> results[i][j] == Fail)
      && (res != Fail ==>
            exists i, j :: 0 <= i < |results| && 0 <= j < |targets|
              && entered == Some(i) && board' == targets[j] && results[i][j] == res
              && forall i', j' :: 0 <= i' < |results| && 0 <= j' < |targets| && results[i'][j'] != Fail ==>
                   scores[i'][j'] <= scores[i][j])
      && (res == Fail ==> entered == None)
      && (|results| == 0 || |targets| == 0 ==> board' == board)
  {
    var w := |targets|;
    if res != Fail {
      var p := chosen.value;
      assert p < |Flatten(results, w)| && Flatten(results, w)[p] != Fail;
      BestPair(scores, results, w, p);
      assert EnteredAction(chosen, w) == Some(p / w);
      assert BoardAfter(tried, targets, board) == targets[p % w];
    } else {
      NoPair(results, w);
    }
    if |results| == 0 || w == 0 {
      EmptyTable(|results|, w);
    }
  }

  lemma EmptyTable(rows: nat, w: nat)
    requires rows == 0 || w == 0
    ensures rows * w == 0
  {
  }

  /** The best flat index that does not fail decodes into the best pair. */
  lemma BestPair(scores: seq<seq<int>>, results: seq<seq<BehResult>>, w: nat, p: nat)
    requires |scores| == |results| && Table(scores, w) && Table(results, w)
    requires p < |Flatten(results, w)| && Flatten(results, w)[p] != Fail
    requires forall k :: 0 <= k < |Flatten(results, w)| && Flatten(results, w)[k] != Fail ==>
      Flatten(scores, w)[k] <= Flatten(scores, w)[p]
    ensures w > 0 && p / w < |results| && p % w < w
    ensures results[p / w][p % w] == Flatten(results, w)[p]
    ensures forall i', j' :: 0 <= i' < |results| && 0 <= j' < w && results[i'][j'] != Fail ==>
      scores[i'][j'] <= scores[p / w][p % w]
  {
    FlatIndex(p, |results|, w);
    var i, j := p / w, p % w;
    FlattenAt(results, w, i, j);
    FlattenAt(scores, w, i, j);
    forall i', j' | 0 <= i' < |results| && 0 <= j' < w && results[i'][j'] != Fail
      ensures scores[i'][j'] <= scores[i][j]
    {
      FlattenAt(results, w, i', j');
      FlattenAt(scores, w, i', j');
    }
  }

  /** When every flat index fails, every pair fails. */
  lemma NoPair(results: seq<seq<BehResult>>, w: nat)
    requires Table(results, w)
    requires forall k :: 0 <= k < |Flatten(results, w)| ==> Flatten(results, w)[k] == Fail
    ensures forall i, j :: 0 <= i < |results| && 0 <= j < w ==> results[i][j] == Fail
  {
    forall i, j | 0 <= i < |results| && 0 <= j < w
      ensures results[i][j] == Fail
    {
      FlattenAt(results, w, i, j);
    }
  }

  /** `PatchUp::update`: SUCCESS while hitpoints are at or above the
      threshold; below it the node keeps RUNNING and orders a self-heal. */
  function PatchUp(hp: int, threshold: int, action: Command): (r: (BehResult, Command))
    ensures r.0 == Success <==> hp >= threshold
    ensures r.0 != Fail
    ensures r.0 == Success ==> r.1 == action
    ensures r.0 == Running ==> r.1 == HealSelf
  {
    if hp >= threshold then (Success, action) else (Running, HealSelf)
  }
}
