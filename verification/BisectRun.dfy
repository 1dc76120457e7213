// opentine/_bisect.py and _cli_bisect.py: the bisect state, and the loop that lets an
// evaluator decide.
module BisectRun {
  import opened Basics
  import opened Outcomes
  import opened Bisect
  import opened BisectRounds

  datatype Failure = TooMany | Ambiguous(count: nat) | OutOfOrder | OutOfRange | EvaluatorStopped(code: int)

  // ----- naming an item -----

  predicate Names(item: string, name: string, whole: bool) {
    if whole then name == item else HasPrefix(name, item)
  }

  /** The indices a text names, in order: by its whole name or as a prefix. */
  function Named(candidates: seq<string>, item: string, whole: bool): seq<nat> {
    if candidates == [] then []
    else Named(candidates[..|candidates| - 1], item, whole) +
         if Names(item, candidates[|candidates| - 1], whole) then [|candidates| - 1] else []
  }

  /** An item is found when its whole name occurs once, or occurs nowhere and it begins one
      candidate only. */
  predicate Found(candidates: seq<string>, item: string, i: nat) {
    var exact := Named(candidates, item, true);
    if exact != [] then exact == [i] else Named(candidates, item, false) == [i]
  }

  /** The i-th item is meant: the text is its name and no other's, or is nobody's name and begins
      its and no other's. */
  ghost predicate Identifies(candidates: seq<string>, item: string, i: nat) {
    i < |candidates| &&
    if exists j :: 0 <= j < |candidates| && candidates[j] == item
    then forall j :: 0 <= j < |candidates| ==> (candidates[j] == item <==> j == i)
    else forall j :: 0 <= j < |candidates| ==> (item <= candidates[j] <==> j == i)
  }

  lemma {:induction false} NamedOnce(candidates: seq<string>, item: string, whole: bool, i: nat)
    ensures Named(candidates, item, whole) == [] <==>
            forall j :: 0 <= j < |candidates| ==> !Names(item, candidates[j], whole)
    ensures Named(candidates, item, whole) == [i] <==>
            i < |candidates| && forall j :: 0 <= j < |candidates| ==> (Names(item, candidates[j], whole) <==> j == i)
  {
    if candidates != [] {
      var n := |candidates| - 1;
      var before := candidates[..n];
      NamedOnce(before, item, whole, i);
      assert forall j :: 0 <= j < n ==> before[j] == candidates[j];
      if Names(item, candidates[n], whole) {
        assert Named(candidates, item, whole)[|Named(before, item, whole)|] == n;
      }
    }
  }

  lemma FoundIs(candidates: seq<string>, item: string, i: nat)
    ensures Found(candidates, item, i) <==> Identifies(candidates, item, i)
  {
    hide Named;
    NamedOnce(candidates, item, true, i);
    NamedOnce(candidates, item, false, i);
    forall j | 0 <= j < |candidates|
      ensures Names(item, candidates[j], true) <==> candidates[j] == item
      ensures Names(item, candidates[j], false) <==> item <= candidates[j]
    {
    }
  }

  lemma AllFoundAre(candidates: seq<string>, item: string)
    ensures forall i: nat :: Found(candidates, item, i) <==> Identifies(candidates, item, i)
  {
    forall i: nat {
      FoundIs(candidates, item, i);
    }
  }

  /** A text means one item at most. */
  lemma OneIdentified(candidates: seq<string>, item: string, i: nat)
    requires Identifies(candidates, item, i)
    ensures forall j: nat :: Identifies(candidates, item, j) ==> j == i
  {
    forall j: nat | Identifies(candidates, item, j)
      ensures j == i
    {
      assert candidates[i] == item <==> candidates[j] == item;
      assert item <= candidates[i] <==> item <= candidates[j];
    }
  }

  /** The state of one bisect. */
  class BisectState {
    const candidates: seq<string>
    var good: int
    var bad: int
    var skipped: seq<int>
    var log: seq<(string, Verdict)>

    predicate Valid()
      reads this
    {
      0 <= good < bad < |candidates|
    }

    function Now(): Span
      reads this
    {
      Span(good, bad, skipped)
    }

    constructor (candidates: seq<string>, good: int, bad: int)
      requires 0 <= good < bad < |candidates|
      ensures Valid() && this.candidates == candidates && Now() == Span(good, bad, [])
      ensures log == [(candidates[bad], Bad), (candidates[good], Good)]
    {
      this.candidates, this.good, this.bad, skipped := candidates, good, bad, [];
      log := [(candidates[bad], Bad), (candidates[good], Good)];
    }

    /** The open midpoint, or nothing once the first bad item is found. */
    method Current() returns (current: Option<int>)
      requires Valid()
      ensures current.None? <==> Done(Now())
      ensures current.Some? ==> IsCurrent(Now(), current.value)
    {
      current := None;
      var middle := (good + bad) / 2;
      for i := good + 1 to bad
        invariant current.None? ==> forall j :: good < j < i ==> j in skipped
        invariant current.Some? ==> good < current.value < i && current.value !in skipped
        invariant current.Some? ==> forall j :: good < j < i && IsOpen(Now(), j) ==>
          Distance(current.value, middle) < Distance(j, middle) ||
          (Distance(current.value, middle) == Distance(j, middle) && current.value <= j)
      {
        if i !in skipped && (current.None? || Distance(i, middle) < Distance(current.value, middle)) {
          current := Some(i);
        }
      }
      assert current.Some? ==> IsOpen(Now(), current.value);
    }

    method FirstBad() returns (item: Option<string>)
      requires Valid()
      ensures item == if Done(Now()) then Some(candidates[bad]) else None
    {
      var current := Current();
      item := if current.None? then Some(candidates[bad]) else None;
    }

    /** A verdict outside the range still being searched is refused and changes nothing. */
    method Mark(index: int, verdict: Verdict) returns (r: Result<(), Failure>)
      requires Valid()
      modifies this
      ensures Valid()
      ensures r.Ok? <==> old(good) < index < old(bad)
      ensures r.Ok? ==> Now() == Marked(old(Now()), index, verdict) && log == old(log) + [(candidates[index], verdict)]
      ensures r.Err? ==> Now() == old(Now()) && log == old(log) && r.error == OutOfRange
    {
      if !(good < index < bad) {
        return Err(OutOfRange);
      }
      match verdict {
        case Good => good := index;
        case Bad => bad := index;
        case Skip => skipped := skipped + [index];
      }
      log := log + [(candidates[index], verdict)];
      return Ok(());
    }
  }

  method IndexOf(candidates: seq<string>, item: string) returns (r: Result<nat, Failure>)
    ensures r.Ok? ==> Identifies(candidates, item, r.value)
    ensures r.Err? ==> forall i: nat :: !Identifies(candidates, item, i)
  {
    var matches: seq<nat> := [];
    for i := 0 to |candidates|
      invariant matches == Named(candidates[..i], item, true)
    {
      assert candidates[..i + 1][..i] == candidates[..i];
      if candidates[i] == item {
        matches := matches + [i];
      }
    }
    assert candidates[..|candidates|] == candidates;
    if matches == [] {
      for i := 0 to |candidates|
        invariant matches == Named(candidates[..i], item, false)
      {
        assert candidates[..i + 1][..i] == candidates[..i];
        if HasPrefix(candidates[i], item) {
          matches := matches + [i];
        }
      }
    }
    AllFoundAre(candidates, item);
    if |matches| != 1 {
      return Err(Ambiguous(|matches|));
    }
    assert matches == [matches[0]];
    return Ok(matches[0]);
  }

  /** start(): a bisect between two named items, good before bad. */
  method Start(candidates: seq<string>, good: string, bad: string) returns (r: Result<BisectState, Failure>)
    ensures r.Ok? ==> fresh(r.value) && r.value.Valid() && r.value.candidates == candidates && r.value.skipped == []
    ensures r.Ok? ==> Identifies(candidates, good, r.value.good) && Identifies(candidates, bad, r.value.bad)
    ensures r.Ok? <==>
            && |candidates| <= MAX_CANDIDATES
            && exists i: nat, j: nat :: Identifies(candidates, good, i) && Identifies(candidates, bad, j) && i < j
  {
    if |candidates| > MAX_CANDIDATES {
      return Err(TooMany);
    }
    var first := IndexOf(candidates, good);
    if first.Err? {
      return Err(first.error);
    }
    var last := IndexOf(candidates, bad);
    if last.Err? {
      return Err(last.error);
    }
    OneIdentified(candidates, good, first.value);
    OneIdentified(candidates, bad, last.value);
    if first.value >= last.value {
      return Err(OutOfOrder);
    }
    var state := new BisectState(candidates, first.value, last.value);
    return Ok(state);
  }

  // ----- bisect run -----

  const SKIP_EXIT := 125

  function ExitVerdict(code: int): Result<Verdict, Failure> {
    if code == 0 then Ok(Good)
    else if code == SKIP_EXIT then Ok(Skip)
    else if 0 < code < 128 then Ok(Bad)
    else Err(EvaluatorStopped(code))
  }

  function Verdicts(exit: int -> int): Judge {
    i => if ExitVerdict(exit(i)).Ok? then ExitVerdict(exit(i)).value else Bad
  }

  /** What an exit code says, in the evaluator's own terms. */
  lemma ExitCodes(code: int)
    ensures ExitVerdict(code) == Ok(Good) <==> code == 0
    ensures ExitVerdict(code) == Ok(Bad) <==> 1 <= code <= 127 && code != 125
    ensures ExitVerdict(code) == Ok(Skip) <==> code == 125
    ensures ExitVerdict(code).Err? <==> code < 0 || code >= 128
    ensures ExitVerdict(code).Err? ==> ExitVerdict(code).error == EvaluatorStopped(code)
  {
  }

  /** The range moved only to items whose exit codes say so. */
  ghost predicate MovedByExits(before: Span, after: Span, exit: int -> int) {
    && (after.good == before.good || exit(after.good) == 0)
    && (after.bad == before.bad || (1 <= exit(after.bad) <= 127 && exit(after.bad) != 125))
    && forall i :: i in after.skipped ==> i in before.skipped || exit(i) == 125
  }

  /** An evaluator that fails exactly from some item on, where it does not skip. */
  ghost predicate FailsFrom(exit: int -> int, threshold: int) {
    && (forall i :: i < threshold ==> exit(i) == 0 || exit(i) == 125)
    && forall i :: threshold <= i ==> 1 <= exit(i) <= 127
  }

  /** Such an evaluator's first failure stays in the range, and is what a finished search ends
      on, unless it was skipped. */
  ghost predicate FindsFailure(before: Span, after: Span, exit: int -> int) {
    forall threshold :: before.good < threshold <= before.bad && FailsFrom(exit, threshold) ==>
      after.good < threshold <= after.bad && (Done(after) ==> threshold == after.bad || threshold in after.skipped)
  }

  lemma ExitsDecide(start: Span, marks: seq<(int, Verdict)>, exit: int -> int)
    requires start.good < start.bad && Accepted(start, marks) && FromEvaluator(marks, exit)
    ensures MovedByExits(start, After(start, marks), exit) && FindsFailure(start, After(start, marks), exit)
  {
    EndsOnAChange(start, marks);
    forall threshold | start.good < threshold <= start.bad && FailsFrom(exit, threshold)
      ensures AllHonest(marks, threshold)
    {
      forall m | m in marks
        ensures Honest(m.0, m.1, threshold)
      {
        ExitCodes(exit(m.0));
      }
    }
    forall threshold | start.good < threshold <= start.bad && AllHonest(marks, threshold)
      ensures var s := After(start, marks);
              s.good < threshold <= s.bad && (Done(s) ==> threshold == s.bad || threshold in s.skipped)
    {
      ThresholdKept(start, marks, threshold);
    }
  }

  /** The items skipped, or to be skipped, are those it answers 125 for. */
  lemma SkipsAre125(s: Span, exit: int -> int, i: int)
    ensures i in Skips(s, Verdicts(exit)) <==> s.good < i < s.bad && (i in s.skipped || exit(i) == 125)
    ensures AllSkip(s, Verdicts(exit)) <==> forall j :: IsOpen(s, j) ==> exit(j) == 125
  {
    forall j
      ensures Verdicts(exit)(j) == Skip <==> exit(j) == 125
    {
      ExitCodes(exit(j));
    }
  }

  predicate FromEvaluator(marks: seq<(int, Verdict)>, exit: int -> int) {
    forall m :: m in marks ==> ExitVerdict(exit(m.0)) == Ok(m.1)
  }

  /** Without skips one round halves the range. */
  lemma RoundHalves(s: Span, judge: Judge, i: int)
    requires s.good < s.bad && IsCurrent(s, i) && Skips(s, judge) == {}
    ensures Skips(Marked(s, i, judge(i)), judge) == {}
    ensures CeilLog2(Width(Marked(s, i, judge(i)))) < CeilLog2(Width(s))
  {
    SkipsShrink(s, judge, i);
    assert i !in Skips(s, judge);
    assert SkippedWithin(s) <= Skips(s, judge);
    MarkHalves(s, i, judge(i));
    CeilLog2Monotone(Width(Marked(s, i, judge(i))), (Width(s) + 1) / 2);
  }

  /** At most 48 of at most 10,000 candidates skip. */
  predicate Few(start: Span, judge: Judge) {
    start.bad < MAX_CANDIDATES && |Skips(start, judge)| <= 48
  }

  /** The rounds done and the rounds still needed fit 16 and the skips, and the logarithm. */
  ghost predicate OnTrack(start: Span, now: Span, judge: Judge, round: nat) {
    && 0 <= start.good < start.bad && now.good < now.bad
    && (round <= MAX_RUN_ROUNDS ==>
          Bisected(start, judge, MAX_RUN_ROUNDS) == Bisected(now, judge, MAX_RUN_ROUNDS - round))
    && (Few(start, judge) ==>
          round <= 16 + |Skips(start, judge)| && EndsWithin(now, judge, 16 + |Skips(start, judge)| - round))
    && (Skips(start, judge) == {} ==>
          Skips(now, judge) == {} && CeilLog2(Width(now)) + round <= CeilLog2(Width(start)))
  }

  lemma OnTrackAtStart(start: Span, judge: Judge)
    requires 0 <= start.good < start.bad
    ensures OnTrack(start, start, judge, 0)
  {
    if Few(start, judge) {
      FewSkips(start, judge);
    }
  }

  lemma OnTrackStep(start: Span, now: Span, judge: Judge, round: nat, i: int)
    requires OnTrack(start, now, judge, round) && IsCurrent(now, i) && round < MAX_RUN_ROUNDS
    ensures OnTrack(start, Marked(now, i, judge(i)), judge, round + 1)
  {
    BisectedRound(now, judge, MAX_RUN_ROUNDS - round, i);
    if Few(start, judge) {
      RoundCounts(now, judge, 16 + |Skips(start, judge)| - round, i);
    }
    if Skips(start, judge) == {} {
      RoundHalves(now, judge, i);
    }
  }

  /** Where a run ends that no evaluator stops: at the cap or with nothing open. */
  lemma OnTrackEnds(start: Span, now: Span, judge: Judge, round: nat)
    requires OnTrack(start, now, judge, round) && round <= MAX_RUN_ROUNDS && (Done(now) || round == MAX_RUN_ROUNDS)
    ensures now == Bisected(start, judge, MAX_RUN_ROUNDS)
    ensures Few(start, judge) ==> Done(now) && round <= 16 + |Skips(start, judge)|
    ensures AllSkip(start, judge) && |OpenSet(start)| > MAX_RUN_ROUNDS ==> !Done(now)
  {
    if Few(start, judge) {
      RoundsSuffice(start, judge);
    }
    if AllSkip(start, judge) && |OpenSet(start)| > MAX_RUN_ROUNDS {
      SkipsOnly(start, judge, MAX_RUN_ROUNDS);
    }
  }

  /** At most 64 rounds. The verdicts given are the evaluator's, each for an item then in range.
      Unless the evaluator stops it, the run is the bisection of 64 rounds: k <= 48 skips among
      at most 10,000 candidates finish it within 16 + k, none within ceil(log2(bad - good)); and
      when more than 64 items are open and all skip it ends unfinished. */
  method Run(state: BisectState, exit: int -> int)
    returns (r: Result<nat, Failure>, ghost marks: seq<(int, Verdict)>)
    requires state.Valid()
    modifies state
    ensures state.Valid()
    ensures Accepted(old(state.Now()), marks) && state.Now() == After(old(state.Now()), marks) &&
        FromEvaluator(marks, exit)
    ensures MovedByExits(old(state.Now()), state.Now(), exit) && FindsFailure(old(state.Now()), state.Now(), exit)
    ensures r.Err? ==> exists i :: IsCurrent(state.Now(), i) && !(0 <= exit(i) <= 127) &&
                                   r.error == EvaluatorStopped(exit(i))
    ensures r.Ok? ==> r.value == |marks| <= MAX_RUN_ROUNDS && (Done(state.Now()) || r.value == MAX_RUN_ROUNDS)
    ensures r.Ok? ==> state.Now() == Bisected(old(state.Now()), Verdicts(exit), MAX_RUN_ROUNDS)
    ensures r.Ok? && Few(old(state.Now()), Verdicts(exit)) ==>
      Done(state.Now()) && r.value <= 16 + |Skips(old(state.Now()), Verdicts(exit))|
    ensures r.Ok? && Skips(old(state.Now()), Verdicts(exit)) == {} ==> r.value <= CeilLog2(Width(old(state.Now())))
    ensures r.Ok? && AllSkip(old(state.Now()), Verdicts(exit)) && |OpenSet(old(state.Now()))| > MAX_RUN_ROUNDS ==>
      !Done(state.Now())
  {
    hide OnTrack, Bisected, Skips, CeilLog2, OpenSet, MovedByExits, FindsFailure, FromEvaluator, ExitVerdict;
    marks := [];
    ghost var start, judge := state.Now(), Verdicts(exit);
    NoMarks(start, exit);
    OnTrackAtStart(start, judge);
    for round := 0 to MAX_RUN_ROUNDS
      invariant state.Valid() && |marks| == round
      invariant Accepted(start, marks) && state.Now() == After(start, marks) && FromEvaluator(marks, exit)
      invariant OnTrack(start, state.Now(), judge, round)
    {
      var current := state.Current();
      ExitsDecide(start, marks, exit);
      if current.None? {
        OnTrackEnds(start, state.Now(), judge, round);
        OnTrackCeil(start, state.Now(), judge, round);
        return Ok(round), marks;
      }
      var index := current.value;
      var verdict := ExitVerdict(exit(index));
      ExitCodes(exit(index));
      if verdict.Err? {
        return Err(verdict.error), marks;
      }
      OnTrackStep(start, state.Now(), judge, round, index);
      var _ := state.Mark(index, verdict.value);
      marks := OneMore(start, marks, index, verdict.value, exit);
    }
    r := Ok(MAX_RUN_ROUNDS);
    ExitsDecide(start, marks, exit);
    OnTrackEnds(start, state.Now(), judge, MAX_RUN_ROUNDS);
    OnTrackCeil(start, state.Now(), judge, MAX_RUN_ROUNDS);
  }

  lemma OnTrackCeil(start: Span, now: Span, judge: Judge, round: nat)
    requires OnTrack(start, now, judge, round)
    ensures Skips(start, judge) == {} ==> round <= CeilLog2(Width(start))
  {
  }

  lemma NoMarks(start: Span, exit: int -> int)
    ensures Accepted(start, []) && After(start, []) == start && FromEvaluator([], exit)
  {
  }

  lemma OneMore(start: Span, marks: seq<(int, Verdict)>, i: int, v: Verdict, exit: int -> int)
    returns (more: seq<(int, Verdict)>)
    requires Accepted(start, marks) && FromEvaluator(marks, exit) && ExitVerdict(exit(i)) == Ok(v)
    requires After(start, marks).good < i < After(start, marks).bad
    ensures |more| == |marks| + 1 && Accepted(start, more) && FromEvaluator(more, exit)
    ensures After(start, more) == Marked(After(start, marks), i, v)
  {
    more := marks + [(i, v)];
    assert more[..|more| - 1] == marks;
  }
}
