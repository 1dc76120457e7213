// opentine/_cli_bisect.py: the round cap of bisect run is enough for 48 skips and not for 49.
module BisectCap {
  import opened Bisect
  import opened BisectRounds

  // ----- items in the order a run of skips tests them -----

  /** m, m - 1, m + 1, m - 2, ... */
  function Near(m: int, k: nat): int {
    if k % 2 == 1 then m - (k + 1) / 2 else m + k / 2
  }

  function NearFirst(m: int, k: nat): (s: seq<int>)
    ensures |s| == k && forall j :: 0 <= j < k ==> s[j] == Near(m, j)
  {
    seq(k, j requires 0 <= j < k => Near(m, j))
  }

  /** Where an item stands in that order. */
  function Turn(m: int, i: int): nat {
    if i < m then 2 * (m - i) - 1 else 2 * (i - m)
  }

  lemma TurnOf(m: int, k: nat, i: int)
    ensures Near(m, Turn(m, i)) == i && Turn(m, Near(m, k)) == k
    ensures Turn(m, i) >= k ==>
              Distance(Near(m, k), m) < Distance(i, m) || (Distance(Near(m, k), m) == Distance(i, m) && Near(m, k) <= i)
  {
    var h := k / 2;
    assert if k % 2 == 1 then k == 2 * h + 1 && Near(m, k) == m - h - 1 else k == 2 * h && Near(m, k) == m + h;
    TurnNear(m, i);
  }

  lemma TurnNear(m: int, i: int)
    ensures Near(m, Turn(m, i)) == i
  {
    if i < m {
      assert (2 * (m - i) - 1) % 2 == 1 && (2 * (m - i)) / 2 == m - i;
    } else {
      assert (2 * (i - m)) % 2 == 0 && (2 * (i - m)) / 2 == i - m;
    }
  }

  /** The span once the k items nearest its middle have been skipped. */
  function WithSkips(s: Span, k: nat): Span {
    s.(skipped := s.skipped + NearFirst(Middle(s), k))
  }

  lemma NextIsNear(s: Span, k: nat)
    requires IsOpen(s, Near(Middle(s), k))
    ensures IsCurrent(WithSkips(s, k), Near(Middle(s), k))
  {
    var t, m := WithSkips(s, k), Middle(s);
    forall j | s.good < j < s.bad && IsOpen(t, j)
      ensures Turn(m, j) >= k
    {
      TurnOf(m, k, j);
      assert forall q :: 0 <= q < k ==> NearFirst(m, k)[q] in t.skipped;
    }
    forall j | s.good < j < s.bad && IsOpen(t, j)
      ensures Distance(Near(m, k), m) < Distance(j, m) ||
              (Distance(Near(m, k), m) == Distance(j, m) && Near(m, k) <= j)
    {
      TurnOf(m, k, j);
    }
    forall j | 0 <= j < k
      ensures NearFirst(m, k)[j] != Near(m, k)
    {
      TurnOf(m, j, 0);
      TurnOf(m, k, 0);
    }
  }

  lemma OneSkipMore(s: Span, k: nat)
    ensures Marked(WithSkips(s, k), Near(Middle(s), k), Skip) == WithSkips(s, k + 1)
  {
    assert NearFirst(Middle(s), k + 1) == NearFirst(Middle(s), k) + [Near(Middle(s), k)];
    assert s.skipped + NearFirst(Middle(s), k) + [Near(Middle(s), k)] ==
           s.skipped + (NearFirst(Middle(s), k) + [Near(Middle(s), k)]);
  }

  /** n skips from the middle outwards take n rounds. */
  lemma {:induction false} SkipsInTurn(s: Span, judge: Judge, k: nat, n: nat, rounds: nat)
    requires k <= n
    requires forall j :: 0 <= j < n ==> IsOpen(s, Near(Middle(s), j)) && judge(Near(Middle(s), j)) == Skip
    ensures Bisected(WithSkips(s, k), judge, rounds + n - k) == Bisected(WithSkips(s, n), judge, rounds)
    decreases n - k
  {
    hide Bisected, IsCurrent, Near;
    if k < n {
      var i := Near(Middle(s), k);
      NextIsNear(s, k);
      BisectedRound(WithSkips(s, k), judge, rounds + n - k, i);
      OneSkipMore(s, k);
      SkipsInTurn(s, judge, k + 1, n, rounds);
    }
  }

  // ----- phases: some skips, then a good item just below them -----

  /** The skipped items of the range are the p lowest. */
  predicate LowestSkipped(s: Span, good: int, bad: int, p: nat) {
    && s.good == good && s.bad == bad
    && forall i :: good < i < bad ==> (i in s.skipped <==> i <= good + p)
  }

  /** d - 1 items on each side of the middle skip, and the middle one, for d > 0. */
  function Skipped(d: nat): nat {
    if d == 0 then 0 else 2 * d - 1
  }

  lemma Phase(s: Span, judge: Judge, good: int, bad: int, p: nat, d: nat, rounds: nat) returns (t: Span)
    requires LowestSkipped(s, good, bad, p) && good < bad
    requires var m := (good + bad) / 2;
             && good + p < m - d && m - d < bad && m + d <= bad && judge(m - d) == Good
             && forall i :: m - d < i < m + d ==> judge(i) == Skip
    ensures LowestSkipped(t, (good + bad) / 2 - d, bad, Skipped(d))
    ensures Bisected(s, judge, rounds + Skipped(d) + 1) == Bisected(t, judge, rounds)
  {
    hide Bisected, IsCurrent, WithSkips;
    var m, n := Middle(s), Skipped(d);
    var u := WithSkips(s, n);
    forall j | 0 <= j < n
      ensures IsOpen(s, Near(m, j)) && judge(Near(m, j)) == Skip
    {
      assert m - d < Near(m, j) < m + d;
    }
    NoSkipsYet(s);
    SkipsInTurn(s, judge, 0, n, rounds + 1);
    assert Near(m, n) == m - d;
    NextIsNear(s, n);
    BisectedRound(u, judge, rounds + 1, m - d);
    t := Marked(u, m - d, judge(m - d));
    PhaseLeaves(s, d, t);
  }

  lemma NoSkipsYet(s: Span)
    ensures WithSkips(s, 0) == s
  {
    assert NearFirst(Middle(s), 0) == [];
    assert s.skipped + [] == s.skipped;
  }

  lemma PhaseLeaves(s: Span, d: nat, t: Span)
    requires s.good < Middle(s) - d && t == Marked(WithSkips(s, Skipped(d)), Middle(s) - d, Good)
    requires forall i :: Middle(s) - d < i < s.bad ==> i !in s.skipped
    ensures LowestSkipped(t, Middle(s) - d, s.bad, Skipped(d))
  {
    var m, n := Middle(s), Skipped(d);
    forall i | m - d < i < s.bad
      ensures i in t.skipped <==> i <= m - d + n
    {
      TurnOf(m, 0, i);
      if i <= m - d + n {
        assert NearFirst(m, n)[Turn(m, i)] == i;
      }
      if i in NearFirst(m, n) {
        var j :| 0 <= j < n && NearFirst(m, n)[j] == i;
      }
    }
  }

  // ----- 49 skips -----

  /** 7 + 19 + 11 + 7 + 3 + 1 + 1 items that skip. */
  predicate Stubborn(i: int) {
    || 9917 <= i <= 9923 || 9948 <= i <= 9966 || 9968 <= i <= 9978 || 9980 <= i <= 9986 || 9988 <= i <= 9990
    || i == 9993 || i == 9995
  }

  /** An evaluator that skips these and finds everything else good. */
  function StubbornJudge(): Judge {
    i => if Stubborn(i) then Skip else Good
  }

  const WHOLE := Span(0, 9999, [])

  /** One range more, above those counted. */
  lemma RangeAdded(a: set<int>, first: int, end: int)
    requires first <= end && forall i :: i in a ==> i < first
    ensures |a + Range(first, end)| == |a| + end - first
    ensures forall i :: i in a + Range(first, end) <==> i in a || first <= i < end
    ensures forall i :: i in a + Range(first, end) ==> i < end
  {
    assert a !! Range(first, end);
  }

  lemma StubbornItems() returns (all: set<int>)
    ensures |all| == 49 && forall i :: i in all <==> Stubborn(i)
  {
    hide Range;
    RangeAdded({}, 9917, 9924);
    all := {} + Range(9917, 9924);
    RangeAdded(all, 9948, 9967);
    all := all + Range(9948, 9967);
    RangeAdded(all, 9968, 9979);
    all := all + Range(9968, 9979);
    RangeAdded(all, 9980, 9987);
    all := all + Range(9980, 9987);
    RangeAdded(all, 9988, 9991);
    all := all + Range(9988, 9991);
    RangeAdded(all, 9993, 9994);
    all := all + Range(9993, 9994);
    RangeAdded(all, 9995, 9996);
    all := all + Range(9995, 9996);
  }

  lemma StubbornCount()
    ensures |Skips(WHOLE, StubbornJudge())| == 49
  {
    var all := StubbornItems();
    assert Skips(WHOLE, StubbornJudge()) == all;
  }

  lemma WholeUnskipped()
    ensures LowestSkipped(WHOLE, 0, 9999, 0)
  {
  }

  /** Six good verdicts, with no skip yet. */
  lemma HalvingPhases(judge: Judge, rounds: nat) returns (s: Span)
    requires judge == StubbornJudge()
    ensures LowestSkipped(s, 9842, 9999, 0) && Bisected(WHOLE, judge, rounds + 6) == Bisected(s, judge, rounds)
  {
    hide Bisected, LowestSkipped;
    WholeUnskipped();
    s := Phase(WHOLE, judge, 0, 9999, 0, 0, rounds + 5);
    s := Phase(s, judge, 4999, 9999, 0, 0, rounds + 4);
    s := Phase(s, judge, 7499, 9999, 0, 0, rounds + 3);
    s := Phase(s, judge, 8749, 9999, 0, 0, rounds + 2);
    s := Phase(s, judge, 9374, 9999, 0, 0, rounds + 1);
    s := Phase(s, judge, 9686, 9999, 0, 0, rounds);
  }

  /** Then skips around every middle, with a good item below them. */
  lemma SkippingPhases(first: Span, judge: Judge, rounds: nat) returns (s: Span)
    requires judge == StubbornJudge() && LowestSkipped(first, 9842, 9999, 0)
    ensures LowestSkipped(s, 9994, 9999, 1) && Bisected(first, judge, rounds + 56) == Bisected(s, judge, rounds)
  {
    hide Bisected, LowestSkipped;
    s := Phase(first, judge, 9842, 9999, 0, 4, rounds + 48);
    s := Phase(s, judge, 9916, 9999, 7, 10, rounds + 28);
    s := Phase(s, judge, 9947, 9999, 19, 6, rounds + 16);
    s := Phase(s, judge, 9967, 9999, 11, 4, rounds + 8);
    s := Phase(s, judge, 9979, 9999, 7, 2, rounds + 4);
    s := Phase(s, judge, 9987, 9999, 3, 1, rounds + 2);
    s := Phase(s, judge, 9992, 9999, 1, 1, rounds);
  }

  /** After 64 rounds, 49 of them skips, an item is still open. */
  lemma StubbornUnfinished()
    ensures !Done(Bisected(WHOLE, StubbornJudge(), MAX_RUN_ROUNDS))
  {
    hide Bisected, LowestSkipped;
    var judge := StubbornJudge();
    var s := HalvingPhases(judge, 58);
    s := SkippingPhases(s, judge, 2);
    s := Phase(s, judge, 9994, 9999, 1, 0, 1);
    s := Phase(s, judge, 9996, 9999, 0, 0, 0);
    LastIsOpen(s, judge);
  }

  lemma LastIsOpen(s: Span, judge: Judge)
    requires LowestSkipped(s, 9997, 9999, 0)
    ensures !Done(Bisected(s, judge, 0))
  {
    assert IsOpen(s, 9998);
  }

  /** All evaluators of which at most k candidates skip, of at most 10,000, are finished with
      within the cap exactly when k is at most 48. */
  lemma CapIff(k: nat)
    ensures (forall s: Span, judge: Judge :: 0 <= s.good < s.bad < MAX_CANDIDATES && |Skips(s, judge)| <= k ==>
               Done(Bisected(s, judge, MAX_RUN_ROUNDS))) <==> k <= 48
  {
    if k <= 48 {
      forall s: Span, judge: Judge | 0 <= s.good < s.bad < MAX_CANDIDATES && |Skips(s, judge)| <= k
        ensures Done(Bisected(s, judge, MAX_RUN_ROUNDS))
      {
        RoundsSuffice(s, judge);
      }
    } else {
      StubbornCount();
      StubbornUnfinished();
      assert 0 <= WHOLE.good < WHOLE.bad < MAX_CANDIDATES;
    }
  }
}
