// opentine/_bisect.py and _cli_bisect.py: the search for the first bad item, with skips,
// and the capped loop that drives it.
module Bisect {
  import opened Basics

  const MAX_CANDIDATES := 10_000
  const MAX_RUN_ROUNDS := 64

  datatype Verdict = Good | Bad | Skip

  /** The part of the state verdicts move: the last known good, the first known bad, and the
      skipped items. */
  datatype Span = Span(good: int, bad: int, skipped: seq<int>)

  predicate IsOpen(s: Span, i: int) {
    s.good < i < s.bad && i !in s.skipped
  }

  predicate Done(s: Span) {
    forall i :: s.good < i < s.bad ==> i in s.skipped
  }

  function Distance(i: int, j: int): nat {
    if i < j then j - i else i - j
  }

  function Middle(s: Span): int {
    (s.good + s.bad) / 2
  }

  /** The open item nearest the middle, the lower of two. */
  predicate IsCurrent(s: Span, i: int) {
    && IsOpen(s, i)
    && forall j :: s.good < j < s.bad && IsOpen(s, j) ==>
         Distance(i, Middle(s)) < Distance(j, Middle(s)) ||
         (Distance(i, Middle(s)) == Distance(j, Middle(s)) && i <= j)
  }

  function Marked(s: Span, i: int, v: Verdict): Span {
    match v
    case Good => s.(good := i)
    case Bad => s.(bad := i)
    case Skip => s.(skipped := s.skipped + [i])
  }

  // ----- what a finished search means -----

  /** A verdict is honest about the threshold: what is below it is good, the rest bad. */
  predicate Honest(i: int, v: Verdict, threshold: int) {
    (v == Good ==> i < threshold) && (v == Bad ==> threshold <= i)
  }

  function After(start: Span, marks: seq<(int, Verdict)>): Span {
    if marks == [] then start
    else Marked(After(start, marks[..|marks| - 1]), marks[|marks| - 1].0, marks[|marks| - 1].1)
  }

  /** Verdicts the search accepts: each for an item inside the range still being searched. */
  predicate Accepted(start: Span, marks: seq<(int, Verdict)>) {
    marks == [] ||
    var before := After(start, marks[..|marks| - 1]);
    Accepted(start, marks[..|marks| - 1]) && before.good < marks[|marks| - 1].0 < before.bad
  }

  predicate AllHonest(marks: seq<(int, Verdict)>, threshold: int) {
    forall m :: m in marks ==> Honest(m.0, m.1, threshold)
  }

  /** Every reachable state keeps the threshold between the last good and the first bad, and
      once nothing is open it is the first bad item or one that was skipped. */
  lemma {:induction false} ThresholdKept(start: Span, marks: seq<(int, Verdict)>, threshold: int)
    requires start.good < threshold <= start.bad && Accepted(start, marks) && AllHonest(marks, threshold)
    ensures var s := After(start, marks);
            s.good < threshold <= s.bad && (Done(s) ==> threshold == s.bad || threshold in s.skipped)
  {
    if marks != [] {
      assert marks[|marks| - 1] in marks;
      ThresholdKept(start, marks[..|marks| - 1], threshold);
    }
  }

  /** Even when verdicts follow no threshold, the range ends on a change: its good side was
      judged good, its bad side bad, and whatever is skipped was marked so. */
  lemma {:induction false} EndsOnAChange(start: Span, marks: seq<(int, Verdict)>)
    requires start.good < start.bad && Accepted(start, marks)
    ensures var s := After(start, marks);
            && start.good <= s.good < s.bad <= start.bad
            && (s.good == start.good || (s.good, Good) in marks)
            && (s.bad == start.bad || (s.bad, Bad) in marks)
            && forall i :: i in s.skipped ==> i in start.skipped || (i, Skip) in marks
  {
    if marks != [] {
      var before, last := marks[..|marks| - 1], marks[|marks| - 1];
      assert marks == before + [last];
      EndsOnAChange(start, before);
    }
  }

  /** Each verdict on an open item takes it out of the open set and lets nothing in. */
  lemma MarkShrinks(s: Span, i: int, v: Verdict)
    requires IsOpen(s, i)
    ensures !IsOpen(Marked(s, i, v), i) && forall j :: IsOpen(Marked(s, i, v), j) ==> IsOpen(s, j)
    ensures |OpenSet(Marked(s, i, v))| < |OpenSet(s)|
  {
    var next := Marked(s, i, v);
    assert i in OpenSet(s) && i !in OpenSet(next);
    assert OpenSet(next) <= OpenSet(s) - {i};
    SubsetSize(OpenSet(next), OpenSet(s) - {i});
  }

  function OpenSet(s: Span): set<int> {
    set i | s.good < i < s.bad && IsOpen(s, i)
  }

  /** first, first + 1, ..., end - 1 */
  function Range(first: int, end: int): (r: set<int>)
    requires first <= end
    ensures |r| == end - first && (forall i :: i in r <==> first <= i < end)
    decreases end - first
  {
    if first == end then {}
    else
      var rest := Range(first + 1, end);
      assert first !in rest;
      {first} + rest
  }

  // ----- how fast -----

  function Width(s: Span): int {
    s.bad - s.good
  }

  function SkippedWithin(s: Span): set<int> {
    set i | s.good < i < s.bad && i in s.skipped
  }

  /** Everything nearer the middle than the item to test next was skipped. */
  lemma CurrentNearMiddle(s: Span, i: int)
    requires s.good < s.bad && IsCurrent(s, i)
    ensures 2 * Distance(i, Middle(s)) <= |SkippedWithin(s)| + 1
  {
    var d, m := Distance(i, Middle(s)), Middle(s);
    if d > 0 {
      var near := Range(m - d + 1, m + d);
      forall j | j in near
        ensures j in SkippedWithin(s)
      {
        assert s.good < j < s.bad;
        assert Distance(j, m) < d;
      }
      SubsetSize(near, SkippedWithin(s));
    }
  }

  /** A good or bad verdict on the item to test next halves the range, but for the skips. */
  lemma MarkHalves(s: Span, i: int, v: Verdict)
    requires s.good < s.bad && IsCurrent(s, i) && v != Skip
    ensures 1 <= Width(Marked(s, i, v)) && 2 * Width(Marked(s, i, v)) <= Width(s) + |SkippedWithin(s)| + 2
    ensures SkippedWithin(s) == {} ==> 2 * Width(Marked(s, i, v)) <= Width(s) + 1
  {
    CurrentNearMiddle(s, i);
  }

  /** The least k with w <= 2^k. */
  function CeilLog2(w: nat): nat
    requires w >= 1
  {
    if w == 1 then 0 else 1 + CeilLog2((w + 1) / 2)
  }

  function Pow2(k: nat): nat {
    if k == 0 then 1 else 2 * Pow2(k - 1)
  }

  lemma {:induction false} CeilLog2Bounds(w: nat, k: nat)
    requires w >= 1
    ensures CeilLog2(w) <= k <==> w <= Pow2(k)
    decreases w, k
  {
    if w == 1 {
      PowPositive(k);
    } else if k > 0 {
      CeilLog2Bounds((w + 1) / 2, k - 1);
    }
  }

  lemma {:induction false} PowPositive(k: nat)
    ensures Pow2(k) >= 1
  {
    if k > 0 {
      PowPositive(k - 1);
    }
  }

  lemma {:induction false} CeilLog2Monotone(v: nat, w: nat)
    requires 1 <= v <= w
    ensures CeilLog2(v) <= CeilLog2(w)
  {
    CeilLog2Bounds(w, CeilLog2(w));
    CeilLog2Bounds(v, CeilLog2(w));
  }

  /** What an evaluator says of each item. */
  type Judge = int -> Verdict

  /** The items of the range that are skipped or will be. */
  function Skips(s: Span, judge: Judge): set<int> {
    set i | s.good < i < s.bad && (i in s.skipped || judge(i) == Skip)
  }

  function Unskipped(s: Span, judge: Judge): set<int> {
    set i | s.good < i < s.bad && i !in s.skipped && judge(i) == Skip
  }

  lemma SkipsShrink(s: Span, judge: Judge, i: int)
    requires IsOpen(s, i)
    ensures var next := Marked(s, i, judge(i));
            Skips(next, judge) <= Skips(s, judge) && Unskipped(next, judge) <= Unskipped(s, judge)
    ensures judge(i) == Skip ==> |Unskipped(Marked(s, i, Skip), judge)| < |Unskipped(s, judge)|
  {
    if judge(i) == Skip {
      var next := Marked(s, i, Skip);
      assert i in Unskipped(s, judge) && i !in Unskipped(next, judge);
      assert Unskipped(next, judge) <= Unskipped(s, judge) - {i};
      SubsetSize(Unskipped(next, judge), Unskipped(s, judge) - {i});
    }
  }

  lemma DoneIffNoneOpen(s: Span)
    ensures Done(s) <==> OpenSet(s) == {}
  {
    if OpenSet(s) == {} {
      forall i | s.good < i < s.bad
        ensures i in s.skipped
      {
        assert i !in OpenSet(s);
      }
    }
  }
}
