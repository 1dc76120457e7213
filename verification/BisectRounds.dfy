// opentine/_bisect.py and _cli_bisect.py: how many rounds a bisect takes when items skip.
module BisectRounds {
  import opened Basics
  import opened Outcomes
  import opened Bisect

  // ----- a round -----

  lemma OneCurrent(s: Span, i: int, j: int)
    requires IsCurrent(s, i) && IsCurrent(s, j)
    ensures i == j
  {
  }

  lemma SomeCurrent(s: Span) returns (best: int)
    requires !Done(s)
    ensures IsCurrent(s, best)
  {
    var open :| s.good < open < s.bad && open !in s.skipped;
    best := open;
    for j := s.good + 1 to s.bad
      invariant IsOpen(s, best)
      invariant forall k :: s.good < k < j && IsOpen(s, k) ==> Nearer(s, best, k)
    {
      if IsOpen(s, j) && !Nearer(s, best, j) {
        best := j;
      }
    }
  }

  lemma HasCurrent(s: Span)
    requires !Done(s)
    ensures exists i :: IsCurrent(s, i)
  {
    var best := SomeCurrent(s);
  }

  predicate Nearer(s: Span, i: int, j: int) {
    Distance(i, Middle(s)) < Distance(j, Middle(s)) ||
    (Distance(i, Middle(s)) == Distance(j, Middle(s)) && i <= j)
  }

  /** current() */
  ghost function ItemToTest(s: Span): (item: Option<int>)
    ensures item.None? <==> Done(s)
    ensures item.Some? ==> IsCurrent(s, item.value)
  {
    if Done(s) then None
    else
      HasCurrent(s);
      var i :| IsCurrent(s, i);
      Some(i)
  }

  /** The span after this many rounds, or when nothing is open any more. */
  ghost function Bisected(s: Span, judge: Judge, rounds: nat): Span
    decreases rounds
  {
    var item := ItemToTest(s);
    if item.None? || rounds == 0 then s else Bisected(Marked(s, item.value, judge(item.value)), judge, rounds - 1)
  }

  lemma BisectedRound(s: Span, judge: Judge, rounds: nat, i: int)
    requires IsCurrent(s, i) && rounds > 0
    ensures Bisected(s, judge, rounds) == Bisected(Marked(s, i, judge(i)), judge, rounds - 1)
  {
    OneCurrent(s, i, ItemToTest(s).value);
  }

  // ----- what a span still holds -----

  /** The open items that will be judged good or bad. */
  function Plain(s: Span, judge: Judge): set<int> {
    set i | s.good < i < s.bad && i !in s.skipped && judge(i) != Skip
  }

  /** Between two open items, or one itself. */
  ghost predicate Flanked(s: Span, i: int) {
    (exists j :: j <= i && IsOpen(s, j)) && (exists j :: i <= j && IsOpen(s, j))
  }

  /** The skips, done or to come, that are not at an end of the range with nothing open beyond
      them. */
  ghost function Inner(s: Span, judge: Judge): set<int> {
    set i | i in Skips(s, judge) && Flanked(s, i)
  }

  lemma SplitWidth(s: Span, judge: Judge)
    requires s.good < s.bad
    ensures |Plain(s, judge)| + |Skips(s, judge)| == Width(s) - 1
    ensures |Inner(s, judge)| <= |Skips(s, judge)| && |Unskipped(s, judge)| <= |Skips(s, judge)|
  {
    var all := Range(s.good + 1, s.bad);
    assert all == Plain(s, judge) + Skips(s, judge);
    assert Plain(s, judge) !! Skips(s, judge);
    SubsetSize(Inner(s, judge), Skips(s, judge));
    SubsetSize(Unskipped(s, judge), Skips(s, judge));
  }

  lemma NothingLeft(s: Span, judge: Judge)
    requires Plain(s, judge) == {} && Unskipped(s, judge) == {}
    ensures Done(s)
  {
    forall i | s.good < i < s.bad
      ensures i in s.skipped
    {
      assert i !in Plain(s, judge) && i !in Unskipped(s, judge);
    }
  }

  /** What no verdict can add. */
  lemma NothingAdded(s: Span, judge: Judge, i: int)
    requires IsOpen(s, i)
    ensures var next := Marked(s, i, judge(i));
            && Plain(next, judge) <= Plain(s, judge) && Unskipped(next, judge) <= Unskipped(s, judge)
            && Inner(next, judge) <= Inner(s, judge)
  {
    var next := Marked(s, i, judge(i));
    assert forall j :: IsOpen(next, j) ==> IsOpen(s, j);
    assert Skips(next, judge) <= Skips(s, judge);
  }

  // ----- one verdict -----

  /** The skipped items nearer the middle than the item to test. */
  function Block(s: Span, d: nat): (block: set<int>)
    requires d > 0
    ensures |block| == 2 * d - 1 && forall j :: j in block <==> Middle(s) - d < j < Middle(s) + d
  {
    Range(Middle(s) - d + 1, Middle(s) + d)
  }

  lemma BlockSkipped(s: Span, judge: Judge, i: int, d: nat)
    requires s.good < s.bad && IsCurrent(s, i) && d == Distance(i, Middle(s)) > 0
    ensures Block(s, d) <= Skips(s, judge) && forall j :: j in Block(s, d) ==> j in s.skipped && s.good < j < s.bad
  {
    forall j | j in Block(s, d)
      ensures j in s.skipped && s.good < j < s.bad
    {
      assert s.good < j < s.bad;
      assert Distance(j, Middle(s)) < d;
    }
  }

  /** The verdict keeps the side of the range that holds the block. */
  predicate KeepsBlock(s: Span, i: int, v: Verdict) {
    (v == Good && i < Middle(s)) || (v == Bad && i > Middle(s))
  }

  /** Then the block lies at an end, and no longer counts as inner. */
  lemma BlockSpent(s: Span, judge: Judge, i: int, d: nat)
    requires s.good < s.bad && IsCurrent(s, i) && d == Distance(i, Middle(s)) && KeepsBlock(s, i, judge(i))
    ensures d > 0 && Inner(Marked(s, i, judge(i)), judge) !! Block(s, d)
  {
    var next := Marked(s, i, judge(i));
    BlockSkipped(s, judge, i, d);
    assert forall j :: Middle(s) - d < j < Middle(s) + d ==> j in Block(s, d);
    forall x | x in Block(s, d)
      ensures !Flanked(next, x)
    {
      if judge(i) == Good {
        assert forall j :: i < j <= x ==> j in s.skipped;
      } else {
        assert forall j :: x <= j < i ==> j in s.skipped;
      }
    }
  }

  /** Until then it does, unless nothing plain is left on its other side. */
  lemma BlockWasInner(s: Span, judge: Judge, i: int, d: nat, p: int)
    requires s.good < s.bad && IsCurrent(s, i) && d == Distance(i, Middle(s)) > 0 && KeepsBlock(s, i, judge(i))
    requires p in Plain(Marked(s, i, judge(i)), judge)
    ensures Block(s, d) <= Inner(s, judge)
  {
    BlockSkipped(s, judge, i, d);
    assert IsOpen(s, p) && p !in Block(s, d);
    forall x | x in Block(s, d)
      ensures Flanked(s, x)
    {
      if judge(i) == Good {
        assert i <= x <= p;
      } else {
        assert p <= x <= i;
      }
    }
  }

  /** How far past half the range may stay, for inner skips spent: d items for 2d - 1 skips. */
  predicate Halves(w: int, inner: nat, w': int, inner': nat, d: nat) {
    && w' <= (w + 1) / 2 + d
    && inner' + (if d > 0 then 2 * d - 1 else 0) <= inner
  }

  lemma VerdictHalves(s: Span, judge: Judge, i: int) returns (d: nat)
    requires s.good < s.bad && IsCurrent(s, i) && judge(i) != Skip && Plain(Marked(s, i, judge(i)), judge) != {}
    ensures var next := Marked(s, i, judge(i));
            Halves(Width(s), |Inner(s, judge)|, Width(next), |Inner(next, judge)|, d)
  {
    var next := Marked(s, i, judge(i));
    NothingAdded(s, judge, i);
    if KeepsBlock(s, i, judge(i)) {
      d := Distance(i, Middle(s));
      var p :| p in Plain(next, judge);
      BlockSpent(s, judge, i, d);
      BlockWasInner(s, judge, i, d, p);
      SubsetSize(Inner(next, judge), Inner(s, judge) - Block(s, d));
    } else {
      d := 0;
      SubsetSize(Inner(next, judge), Inner(s, judge));
    }
  }

  // ----- a range small enough for r verdicts -----

  /** The widest range, with this many inner skips, that r >= 9 verdicts surely end. */
  function Widest(r: nat, inner: nat): int
    requires r >= 9
  {
    if r == 9 then 127 - inner else 2 * Widest(r - 1, inner)
  }

  /** Twice the width and the inner skips together, at most, for r <= 8 verdicts. */
  function Least(r: nat): nat {
    match r
    case 1 => 5
    case 2 => 9
    case 3 => 14
    case 4 => 23
    case 5 => 36
    case 6 => 55
    case 7 => 84
    case 8 => 129
    case _ => 0
  }

  predicate Fits(r: nat, w: int, inner: nat) {
    inner <= 48 && r > 0 && if r <= 8 then 2 * w + inner <= Least(r) else w <= Widest(r, inner)
  }

  lemma {:induction false} WidestTrades(r: nat, inner: nat, fewer: nat)
    requires r >= 9 && fewer <= inner
    ensures Widest(r, inner) + (inner - fewer) <= Widest(r, fewer)
    decreases r
  {
    if r > 9 {
      WidestTrades(r - 1, inner, fewer);
    }
  }

  lemma FitsFewer(r: nat, w: int, inner: nat, fewer: nat)
    requires Fits(r, w, inner) && fewer <= inner
    ensures Fits(r, w, fewer)
  {
    if r >= 9 {
      WidestTrades(r, inner, fewer);
    }
  }

  /** A verdict on a range with more plain items than r leaves one that fits r - 1. */
  lemma FitsAfter(r: nat, w: int, inner: nat, w': int, inner': nat, d: nat)
    requires Fits(r, w, inner) && w >= r + 2 + inner && Halves(w, inner, w', inner', d)
    ensures Fits(r - 1, w', inner')
  {
    if r > 9 {
      WidestTrades(r - 1, inner, inner');
    } else {
      assert 2 * w' + inner' <= w + 1 + inner + 1;
    }
  }

  // ----- the rounds still needed -----

  /** r verdicts other than skips are enough. */
  ghost predicate Within(s: Span, judge: Judge, r: nat) {
    |Plain(s, judge)| <= r || Fits(r, Width(s), |Inner(s, judge)|)
  }

  /** And with the skips still to come, n rounds. */
  ghost predicate EndsWithin(s: Span, judge: Judge, n: nat) {
    exists r: nat :: r + |Unskipped(s, judge)| <= n && Within(s, judge, r)
  }

  lemma VerdictCounts(s: Span, judge: Judge, i: int, r: nat)
    requires s.good < s.bad && IsCurrent(s, i) && judge(i) != Skip && Within(s, judge, r)
    ensures r > 0 && Within(Marked(s, i, judge(i)), judge, r - 1)
  {
    var next := Marked(s, i, judge(i));
    NothingAdded(s, judge, i);
    assert i in Plain(s, judge) && i !in Plain(next, judge);
    SubsetSize(Plain(next, judge), Plain(s, judge) - {i});
    SplitWidth(s, judge);
    if |Plain(s, judge)| > r && Plain(next, judge) != {} {
      var d := VerdictHalves(s, judge, i);
      FitsAfter(r, Width(s), |Inner(s, judge)|, Width(next), |Inner(next, judge)|, d);
    }
  }

  lemma SkipCounts(s: Span, judge: Judge, i: int, r: nat)
    requires s.good < s.bad && IsCurrent(s, i) && judge(i) == Skip && Within(s, judge, r)
    ensures Within(Marked(s, i, Skip), judge, r)
  {
    var next := Marked(s, i, Skip);
    NothingAdded(s, judge, i);
    SubsetSize(Plain(next, judge), Plain(s, judge));
    SubsetSize(Inner(next, judge), Inner(s, judge));
    if |Plain(s, judge)| > r {
      FitsFewer(r, Width(s), |Inner(s, judge)|, |Inner(next, judge)|);
    }
  }

  /** Each round brings the end one round nearer. */
  lemma RoundCounts(s: Span, judge: Judge, n: nat, i: int)
    requires s.good < s.bad && IsCurrent(s, i) && EndsWithin(s, judge, n)
    ensures n > 0 && EndsWithin(Marked(s, i, judge(i)), judge, n - 1)
  {
    var next := Marked(s, i, judge(i));
    var r: nat :| r + |Unskipped(s, judge)| <= n && Within(s, judge, r);
    SkipsShrink(s, judge, i);
    if judge(i) == Skip {
      SkipCounts(s, judge, i, r);
      assert r + |Unskipped(next, judge)| <= n - 1;
    } else {
      VerdictCounts(s, judge, i, r);
      SubsetSize(Unskipped(next, judge), Unskipped(s, judge));
      assert r - 1 + |Unskipped(next, judge)| <= n - 1;
    }
  }

  lemma NoneToGo(s: Span, judge: Judge)
    requires EndsWithin(s, judge, 0)
    ensures Done(s)
  {
    NothingLeft(s, judge);
  }

  lemma {:induction false} EndsInTime(s: Span, judge: Judge, n: nat)
    requires s.good < s.bad && EndsWithin(s, judge, n)
    ensures Done(Bisected(s, judge, n))
    decreases n
  {
    if n == 0 {
      NoneToGo(s, judge);
    } else if !Done(s) {
      var i := ItemToTest(s).value;
      RoundCounts(s, judge, n, i);
      EndsInTime(Marked(s, i, judge(i)), judge, n - 1);
    }
  }

  /** Among 10,000 candidates, k <= 48 skips end within 16 + k rounds. */
  lemma FewSkips(s: Span, judge: Judge)
    requires 0 <= s.good < s.bad < MAX_CANDIDATES && |Skips(s, judge)| <= 48
    ensures EndsWithin(s, judge, 16 + |Skips(s, judge)|) && EndsWithin(s, judge, MAX_RUN_ROUNDS)
  {
    SplitWidth(s, judge);
    var inner := |Inner(s, judge)|;
    assert Widest(16, inner) == 128 * (127 - inner) by {
      assert Widest(10, inner) == 2 * (127 - inner);
      assert Widest(11, inner) == 4 * (127 - inner);
      assert Widest(12, inner) == 8 * (127 - inner);
      assert Widest(13, inner) == 16 * (127 - inner);
      assert Widest(14, inner) == 32 * (127 - inner);
      assert Widest(15, inner) == 64 * (127 - inner);
    }
    assert Fits(16, Width(s), inner);
    assert Within(s, judge, 16);
  }

  /** At most 48 skips among 10,000 candidates leave 64 rounds enough. */
  lemma RoundsSuffice(s: Span, judge: Judge)
    requires 0 <= s.good < s.bad < MAX_CANDIDATES && |Skips(s, judge)| <= 48
    ensures Done(Bisected(s, judge, MAX_RUN_ROUNDS))
  {
    FewSkips(s, judge);
    EndsInTime(s, judge, MAX_RUN_ROUNDS);
  }

  lemma SkipCloses(s: Span, i: int)
    requires IsOpen(s, i)
    ensures |OpenSet(Marked(s, i, Skip))| == |OpenSet(s)| - 1
    ensures forall j :: IsOpen(Marked(s, i, Skip), j) ==> IsOpen(s, j)
  {
    assert OpenSet(s) == OpenSet(Marked(s, i, Skip)) + {i};
  }

  predicate AllSkip(s: Span, judge: Judge) {
    forall i :: s.good < i < s.bad && IsOpen(s, i) ==> judge(i) == Skip
  }

  lemma AllSkipRound(s: Span, judge: Judge) returns (next: Span)
    requires AllSkip(s, judge) && OpenSet(s) != {}
    ensures AllSkip(next, judge) && |OpenSet(next)| == |OpenSet(s)| - 1
    ensures forall n: nat :: n > 0 ==> Bisected(s, judge, n) == Bisected(next, judge, n - 1)
  {
    DoneIffNoneOpen(s);
    var i := ItemToTest(s).value;
    next := Marked(s, i, Skip);
    SkipCloses(s, i);
  }

  /** Skips close one open item a round and move neither end: a range of more open items than
      rounds that all skip is still open at the end. */
  lemma {:induction false} SkipsOnly(s: Span, judge: Judge, n: nat)
    requires AllSkip(s, judge) && |OpenSet(s)| > n
    ensures !Done(Bisected(s, judge, n))
    decreases n
  {
    if n == 0 {
      DoneIffNoneOpen(s);
    } else {
      var next := AllSkipRound(s, judge);
      SkipsOnly(next, judge, n - 1);
    }
  }
}
