// opentine/_atif_export.py: the exported trajectories partition the run.
module AtifTheorems {
  import opened AtifUsage
  import opened AtifOwners
  import opened AtifExport

  // ----- every step once -----

  lemma CountLast<T>(s: seq<T>, x: T, y: T)
    ensures multiset(s + [x])[y] == multiset(s)[y] + if x == y then 1 else 0
  {
  }

  lemma IdsApart(steps: seq<Step>, i: nat, j: nat)
    requires WellNamed(steps) && i < |steps| && j < |steps|
    ensures steps[i].id == steps[j].id <==> i == j
  {
  }

  lemma {:induction false} GroupHolds(steps: seq<Step>, n: nat, key: string, i: nat)
    requires WellNamed(steps) && n <= |steps| && i < |steps|
    ensures multiset(Group(steps, n, key))[steps[i]] ==
            if i < n && steps[i].kind != Subagent && OwnerAt(steps, i) == key then 1 else 0
  {
    hide Group, OwnerAt;
    if n == 0 {
      GroupStarts(steps, key, steps[i]);
    } else {
      GroupHolds(steps, n - 1, key, i);
      GroupCount(steps, n - 1, key, steps[i]);
      IdsApart(steps, i, n - 1);
    }
  }

  lemma GroupStarts(steps: seq<Step>, key: string, step: Step)
    ensures multiset(Group(steps, 0, key))[step] == 0
  {
  }

  lemma GroupCount(steps: seq<Step>, n: nat, key: string, step: Step)
    requires n < |steps|
    ensures multiset(Group(steps, n + 1, key))[step] ==
            multiset(Group(steps, n, key))[step] +
            if steps[n].kind != Subagent && OwnerAt(steps, n) == key && steps[n] == step then 1 else 0
  {
    CountLast(Group(steps, n, key), steps[n], step);
  }

  /** A step that is no subagent occurs once in the trajectory of its owner and in no other; a
      subagent step occurs in none. */
  lemma StepsPartition(steps: seq<Step>, d: Document, i: nat, key: string)
    requires WellNamed(steps) && Laid(steps, |steps|, d.trajectories) && i < |steps| && key in d.trajectories
    ensures multiset(StepsIn(d.trajectories[key].items))[steps[i]] ==
            if steps[i].kind != Subagent && OwnerAt(steps, i) == key then 1 else 0
  {
    GroupHolds(steps, |steps|, key, i);
  }

  // ----- every subagent once -----

  lemma {:induction false} EmbeddedHolds(steps: seq<Step>, n: nat, key: string, i: nat)
    requires WellNamed(steps) && n <= |steps| && i < |steps|
    ensures multiset(Embedded(steps, n, key))[steps[i].id] ==
            if i < n && steps[i].kind == Subagent && OwnerAt(steps, i) == key then 1 else 0
  {
    hide Embedded, OwnerAt;
    if n == 0 {
      EmbeddedStarts(steps, key, steps[i].id);
    } else {
      EmbeddedHolds(steps, n - 1, key, i);
      EmbeddedCount(steps, n - 1, key, steps[i].id);
      IdsApart(steps, i, n - 1);
    }
  }

  lemma EmbeddedStarts(steps: seq<Step>, key: string, id: string)
    ensures multiset(Embedded(steps, 0, key))[id] == 0
  {
  }

  lemma EmbeddedCount(steps: seq<Step>, n: nat, key: string, id: string)
    requires n < |steps|
    ensures multiset(Embedded(steps, n + 1, key))[id] ==
            multiset(Embedded(steps, n, key))[id] +
            if steps[n].kind == Subagent && OwnerAt(steps, n) == key && steps[n].id == id then 1 else 0
  {
    CountLast(Embedded(steps, n, key), steps[n].id, id);
  }

  /** A subagent is embedded once in its owner's trajectory and in no other, and referred to
      there by exactly one result. */
  lemma SubagentsPartition(steps: seq<Step>, d: Document, i: nat, key: string)
    requires WellNamed(steps) && Laid(steps, |steps|, d.trajectories) && i < |steps| && key in d.trajectories
    ensures multiset(d.trajectories[key].children)[steps[i].id] ==
            if steps[i].kind == Subagent && OwnerAt(steps, i) == key then 1 else 0
    ensures RefsIn(d.trajectories[key].items)[steps[i].id] == multiset(d.trajectories[key].children)[steps[i].id]
  {
    EmbeddedHolds(steps, |steps|, key, i);
  }

  lemma {:induction false} EmbeddedAreSubagents(steps: seq<Step>, n: nat, key: string, child: string)
    requires n <= |steps| && child in Embedded(steps, n, key)
    ensures exists i :: 0 <= i < n && steps[i].id == child && steps[i].kind == Subagent && OwnerAt(steps, i) == key
  {
    if child in Embedded(steps, n - 1, key) {
      EmbeddedAreSubagents(steps, n - 1, key, child);
    } else {
      assert steps[n - 1].id == child;
    }
  }

  /** A way down the document: from the root, each trajectory embedded in the one before. */
  predicate IsPath(doc: map<string, Trajectory>, path: seq<string>, key: string) {
    && path != [] && path[|path| - 1] == key
    && (if |path| == 1 then key == ""
        else
          var up, parent := path[..|path| - 1], path[|path| - 2];
          parent in doc && key in doc[parent].children && IsPath(doc, up, parent))
  }

  /** Up the owners to the root. */
  function PathTo(steps: seq<Step>, key: string): seq<string>
    requires WellNamed(steps) && ParentsFirst(steps) && IsKey(steps, key)
    decreases if key == "" then 0 else Index(steps, key) + 1
  {
    if key == "" then [""]
    else
      OwnerExists(steps, Index(steps, key));
      PathTo(steps, OwnerAt(steps, Index(steps, key))) + [key]
  }

  /** Every trajectory is reached from the root. */
  lemma {:induction false} Reached(steps: seq<Step>, d: Document, key: string)
    requires WellNamed(steps) && ParentsFirst(steps) && Laid(steps, |steps|, d.trajectories) && IsKey(steps, key)
    ensures IsPath(d.trajectories, PathTo(steps, key), key)
    decreases if key == "" then 0 else Index(steps, key) + 1
  {
    if key != "" {
      var i := Index(steps, key);
      OwnerExists(steps, i);
      var owner := OwnerAt(steps, i);
      Reached(steps, d, owner);
      SubagentsPartition(steps, d, i, owner);
      assert key in d.trajectories[owner].children;
      var up := PathTo(steps, owner);
      assert (up + [key])[..|up|] == up;
    }
  }

  /** And by one way only: each subagent's trajectory stands once in the nested document. */
  lemma {:induction false} ReachedOnce(steps: seq<Step>, d: Document, path: seq<string>, key: string)
    requires WellNamed(steps) && ParentsFirst(steps) && Laid(steps, |steps|, d.trajectories)
    requires IsPath(d.trajectories, path, key)
    ensures IsKey(steps, key) && path == PathTo(steps, key)
    decreases |path|
  {
    hide Laid, ParentsFirst;
    if |path| == 1 {
      assert path == [""];
    } else {
      var up, owner := path[..|path| - 1], path[|path| - 2];
      assert path == up + [key];
      OwnerOfChild(steps, d, owner, key);
      ReachedOnce(steps, d, up, owner);
    }
  }

  /** What a trajectory embeds is owned by it. */
  lemma OwnerOfChild(steps: seq<Step>, d: Document, owner: string, key: string)
    requires WellNamed(steps) && Laid(steps, |steps|, d.trajectories)
    requires owner in d.trajectories && key in d.trajectories[owner].children
    ensures key != "" && IsKey(steps, key) && OwnerAt(steps, Index(steps, key)) == owner
  {
    assert Holds(steps, |steps|, owner, d.trajectories[owner]);
    EmbeddedAreSubagents(steps, |steps|, owner, key);
    var i :| 0 <= i < |steps| && steps[i].id == key && steps[i].kind == Subagent && OwnerAt(steps, i) == owner;
    IndexAt(steps, i);
  }

  // ----- totals -----

  /** A count added up over these steps; human steps have none. */
  function Sum(group: seq<Step>, count: Usage -> int): int {
    if group == [] then 0
    else
      var last := group[|group| - 1];
      Sum(group[..|group| - 1], count) + if last.kind == Human then 0 else count(last.usage)
  }

  /** The totals of steps are sums of their own buckets: what they were prompted with, cache
      reads and writes included, what they completed, reasoning included, and cache reads. */
  lemma {:induction false} TotalOfBuckets(group: seq<Step>)
    ensures Total(group).prompt == Sum(group, (u: Usage) => u.input + u.cacheRead + u.write5m + u.write1h)
    ensures Total(group).completion == Sum(group, (u: Usage) => u.output + u.reasoning)
    ensures Total(group).cached == Sum(group, (u: Usage) => u.cacheRead)
  {
    if group != [] {
      TotalOfBuckets(group[..|group| - 1]);
    }
  }

  /** The sum of the own totals of these trajectories. */
  function SumOver(steps: seq<Step>, n: nat, keys: seq<string>): Tokens
    requires n <= |steps|
  {
    if keys == [] then ZERO
    else Plus(SumOver(steps, n, keys[..|keys| - 1]), Total(Group(steps, n, keys[|keys| - 1])))
  }

  predicate NoRepeats(keys: seq<string>) {
    forall i, j :: 0 <= i < j < |keys| ==> keys[i] != keys[j]
  }

  predicate Joins(steps: seq<Step>, n: nat, key: string)
    requires n < |steps|
  {
    steps[n].kind != Subagent && OwnerAt(steps, n) == key
  }

  lemma GroupBumps(steps: seq<Step>, n: nat, key: string)
    requires n < |steps|
    ensures Total(Group(steps, n + 1, key)) ==
            if Joins(steps, n, key) then Plus(Total(Group(steps, n, key)), Counted(steps[n])) else Total(Group(steps,
                n, key))
  {
    TotalLast(Group(steps, n, key), steps[n]);
  }

  lemma LastBump(a: Tokens, b: Tokens, c: Tokens)
    ensures Plus(Plus(a, c), b) == Plus(Plus(a, b), c) && Plus(a, Plus(b, c)) == Plus(Plus(a, b), c)
  {
  }

  predicate JoinsOne(steps: seq<Step>, n: nat, keys: seq<string>)
    requires n < |steps|
  {
    steps[n].kind != Subagent && OwnerAt(steps, n) in keys
  }

  lemma JoinsLast(steps: seq<Step>, n: nat, keys: seq<string>)
    requires n < |steps| && NoRepeats(keys) && keys != []
    ensures var rest, last := keys[..|keys| - 1], keys[|keys| - 1];
            && (JoinsOne(steps, n, keys) <==> JoinsOne(steps, n, rest) || Joins(steps, n, last))
            && !(JoinsOne(steps, n, rest) && Joins(steps, n, last))
  {
    var rest, last := keys[..|keys| - 1], keys[|keys| - 1];
    assert keys == rest + [last];
  }

  /** One step more counts in the trajectory of its owner only. */
  lemma {:induction false} SumBumps(steps: seq<Step>, n: nat, keys: seq<string>)
    requires n < |steps| && NoRepeats(keys)
    ensures SumOver(steps, n + 1, keys) ==
            if JoinsOne(steps, n, keys) then Plus(SumOver(steps, n, keys), Counted(steps[n])) else SumOver(steps, n,
                keys)
    decreases |keys|
  {
    if keys != [] {
      var rest, last := keys[..|keys| - 1], keys[|keys| - 1];
      SumBumps(steps, n, rest);
      GroupBumps(steps, n, last);
      JoinsLast(steps, n, keys);
      LastBump(SumOver(steps, n, rest), Total(Group(steps, n, last)), Counted(steps[n]));
    }
  }

  lemma {:induction false} SumNothing(steps: seq<Step>, keys: seq<string>)
    ensures SumOver(steps, 0, keys) == ZERO
  {
    if keys != [] {
      SumNothing(steps, keys[..|keys| - 1]);
    }
  }

  lemma PlainBumps(steps: seq<Step>, n: nat)
    requires n < |steps|
    ensures Total(Plain(steps, n + 1)) ==
            if steps[n].kind != Subagent then Plus(Total(Plain(steps, n)), Counted(steps[n])) else Total(Plain(steps,
                n))
  {
    TotalLast(Plain(steps, n), steps[n]);
  }

  /** These trajectories own every step. */
  predicate OwnAll(steps: seq<Step>, keys: seq<string>) {
    forall i :: 0 <= i < |steps| ==> OwnerAt(steps, i) in keys
  }

  /** Every agent of the document, the root first. */
  function Keys(steps: seq<Step>): seq<string> {
    [""] + Subagents(steps, |steps|)
  }

  lemma {:induction false} SubagentsListed(steps: seq<Step>, n: nat)
    requires WellNamed(steps) && n <= |steps|
    ensures NoRepeats(Subagents(steps, n)) && "" !in Subagents(steps, n)
    ensures forall id :: id in Subagents(steps, n) <==> IsSubagent(steps, id) && Index(steps, id) < n
  {
    if n > 0 {
      SubagentsListed(steps, n - 1);
      KeyAt(steps, n - 1);
      IndexAt(steps, n - 1);
      var before := Subagents(steps, n - 1);
      forall i | 0 <= i < |before|
        ensures before[i] != steps[n - 1].id
      {
        assert before[i] in before;
      }
    }
  }

  lemma KeysListed(steps: seq<Step>)
    requires WellNamed(steps)
    ensures NoRepeats(Keys(steps)) && OwnAll(steps, Keys(steps))
    ensures forall key :: IsKey(steps, key) <==> key in Keys(steps)
  {
    var subs := Subagents(steps, |steps|);
    SubagentsListed(steps, |steps|);
    forall j | 1 <= j < |Keys(steps)|
      ensures Keys(steps)[j] == subs[j - 1] && Keys(steps)[j] != ""
    {
      assert subs[j - 1] in subs;
    }
    forall i | 0 <= i < |steps|
      ensures OwnerAt(steps, i) in Keys(steps)
    {
      OwnerExists(steps, i);
    }
  }

  /** All trajectories add up to the plain steps among the first n. */
  predicate AddsUp(steps: seq<Step>, n: nat)
    requires n <= |steps|
  {
    SumOver(steps, n, Keys(steps)) == Total(Plain(steps, n))
  }

  lemma SumStep(steps: seq<Step>, n: nat)
    requires WellNamed(steps) && n < |steps| && AddsUp(steps, n)
    ensures AddsUp(steps, n + 1)
  {
    KeysListed(steps);
    SumBumps(steps, n, Keys(steps));
    PlainBumps(steps, n);
  }

  lemma SumStarts(steps: seq<Step>)
    ensures AddsUp(steps, 0)
  {
    SumNothing(steps, Keys(steps));
  }

  lemma {:induction false} SumIsTotal(steps: seq<Step>, n: nat)
    requires WellNamed(steps) && n <= |steps|
    ensures AddsUp(steps, n)
  {
    hide AddsUp;
    if n == 0 {
      SumStarts(steps);
    } else {
      SumIsTotal(steps, n - 1);
      SumStep(steps, n - 1);
    }
  }

  /** The root's totals are the sum of what every trajectory, nested ones included, counts for
      its own steps. */
  lemma TotalsAddUp(steps: seq<Step>)
    requires WellNamed(steps)
    ensures SumOver(steps, |steps|, Keys(steps)) == Total(Plain(steps, |steps|))
  {
    SumIsTotal(steps, |steps|);
  }
}
