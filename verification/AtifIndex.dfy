// opentine/_atif.py: the embedded trajectories of an exported document, indexed within the
// importer's limits.
module AtifIndex {
  import opened Outcomes
  import opened Basics
  import opened AtifUsage
  import opened AtifOwners
  import opened AtifExport
  import opened AtifTheorems

  const MAX_DEPTH := 8
  const MAX_TRAJECTORIES := 1_000
  const MAX_TOOL_CALLS := 1_000

  type Trajectories = map<string, Trajectory>

  // ----- the document as the importer sees it -----

  /** The trajectories of an exported run. */
  ghost predicate FromRun(steps: seq<Step>, doc: Trajectories) {
    WellNamed(steps) && ParentsFirst(steps) && Laid(steps, |steps|, doc)
  }

  predicate ChildOf(steps: seq<Step>, child: string, key: string) {
    IsSubagent(steps, child) && OwnerAt(steps, Index(steps, child)) == key
  }

  /** How many subagents a trajectory is nested under, itself included. */
  function Depth(steps: seq<Step>, key: string): (n: nat)
    requires WellNamed(steps) && ParentsFirst(steps) && IsKey(steps, key)
  {
    |PathTo(steps, key)| - 1
  }

  /** A run with no more trajectories than are followed. */
  predicate Few(steps: seq<Step>) {
    |Keys(steps)| <= MAX_TRAJECTORIES
  }

  /** The subagents an item's results refer to: a step's, when it is a tool call. */
  function Refs(item: Item): seq<string> {
    match item
    case Of(step, refs) => if step.kind == ToolCall then refs else []
    case Added(refs) => refs
  }

  lemma ChildDeeper(steps: seq<Step>, child: string, key: string)
    requires WellNamed(steps) && ParentsFirst(steps) && ChildOf(steps, child, key)
    ensures child != "" && IsKey(steps, child) && IsKey(steps, key)
    ensures Depth(steps, child) == Depth(steps, key) + 1
    ensures key != "" ==> Index(steps, key) < Index(steps, child)
  {
    OwnerExists(steps, Index(steps, child));
  }

  /** A trajectory embeds what it owns, and refers to just that. */
  lemma ChildrenOf(steps: seq<Step>, doc: Trajectories, key: string, child: string)
    requires FromRun(steps, doc) && key in doc
    ensures child in doc[key].children <==> ChildOf(steps, child, key)
    ensures (exists i :: 0 <= i < |doc[key].items| && child in Refs(doc[key].items[i])) <==> ChildOf(steps, child, key)
  {
    var t := doc[key];
    RefsSeen(t.items, child);
    assert RefsIn(t.items) == multiset(t.children);
    if child in t.children {
      OwnerOfChild(steps, Document(doc, ZERO, 0), key, child);
    }
    if ChildOf(steps, child, key) {
      SubagentsPartition(steps, Document(doc, ZERO, 0), Index(steps, child), key);
    }
  }

  lemma {:induction false} RefsSeen(items: seq<Item>, child: string)
    requires RefsPlaced(items)
    ensures child in RefsIn(items) <==> exists i :: 0 <= i < |items| && child in Refs(items[i])
  {
    if items != [] {
      var before, last := items[..|items| - 1], items[|items| - 1];
      RefsSeen(before, child);
      assert Refs(last) == last.refs;
      assert RefsIn(items)[child] == RefsIn(before)[child] + multiset(last.refs)[child];
    }
  }

  lemma {:induction false} RefsFit(items: seq<Item>, i: nat)
    requires i < |items|
    ensures |items[i].refs| <= |RefsIn(items)|
  {
    assert |RefsIn(items)| == |RefsIn(items[..|items| - 1])| + |items[|items| - 1].refs|;
    if i < |items| - 1 {
      RefsFit(items[..|items| - 1], i);
    }
  }

  lemma {:induction false} EmbeddedFew(steps: seq<Step>, n: nat, key: string)
    requires n <= |steps|
    ensures |Embedded(steps, n, key)| <= |Subagents(steps, n)|
  {
    if n > 0 {
      EmbeddedFew(steps, n - 1, key);
    }
  }

  /** No result of a run with few subagents refers to more of them than are read. */
  lemma FewRefs(steps: seq<Step>, doc: Trajectories, key: string)
    requires FromRun(steps, doc) && key in doc && Few(steps)
    ensures forall i :: 0 <= i < |doc[key].items| ==> |Refs(doc[key].items[i])| <= MAX_TOOL_CALLS
  {
    var t := doc[key];
    EmbeddedFew(steps, |steps|, key);
    assert |RefsIn(t.items)| == |multiset(t.children)| == |t.children| <= |Subagents(steps, |steps|)|;
    forall i | 0 <= i < |t.items|
      ensures |Refs(t.items[i])| <= MAX_TOOL_CALLS
    {
      RefsFit(t.items, i);
    }
  }

  lemma {:induction false} SetOfSeq<T>(s: seq<T>, a: set<T>)
    requires forall x :: x in a ==> x in s
    ensures |a| <= |s|
  {
    if s != [] {
      var last := s[|s| - 1];
      LastApart(s);
      SetOfSeq(s[..|s| - 1], a - {last});
      assert a <= (a - {last}) + {last};
      SubsetSize(a, (a - {last}) + {last});
    } else {
      assert a == {};
    }
  }

  lemma SubagentsBound(steps: seq<Step>, a: set<string>)
    requires WellNamed(steps) && forall k :: k in a ==> IsSubagent(steps, k)
    ensures |a| <= |Subagents(steps, |steps|)| == |Keys(steps)| - 1
    ensures forall k :: k !in a && IsSubagent(steps, k) ==> |a| < |Subagents(steps, |steps|)|
  {
    SubagentsListed(steps, |steps|);
    SetOfSeq(Subagents(steps, |steps|), a);
    forall k | k !in a && IsSubagent(steps, k)
      ensures |a| < |Subagents(steps, |steps|)|
    {
      SetOfSeq(Subagents(steps, |steps|), a + {k});
    }
  }

  // ----- _collect -----

  /** What may be indexed: subagents no more than eight deep, and no more than 1,000. */
  ghost predicate Indexed(steps: seq<Step>, embedded: set<string>)
    requires WellNamed(steps) && ParentsFirst(steps)
  {
    && (forall k :: k in embedded ==> IsSubagent(steps, k) && Depth(steps, k) <= MAX_DEPTH)
    && |embedded| <= MAX_TRAJECTORIES
    && (Few(steps) ==> forall k :: IsSubagent(steps, k) && Depth(steps, k) <= MAX_DEPTH ==> k in embedded)
  }

  predicate Found(embedded: set<string>, key: string) {
    key == "" || key in embedded
  }

  predicate OnStack(stack: seq<(string, nat)>, key: string) {
    exists i :: 0 <= i < |stack| && stack[i].0 == key
  }

  /** The stack holds found trajectories once each, at their depth; what is found was found by
      its owner, which then left the stack. */
  ghost predicate Collecting(steps: seq<Step>, embedded: set<string>, stack: seq<(string, nat)>)
    requires WellNamed(steps) && ParentsFirst(steps)
  {
    && (forall k :: k in embedded ==> IsSubagent(steps, k) && Depth(steps, k) <= MAX_DEPTH)
    && (forall k :: k in embedded ==>
          var owner := OwnerAt(steps, Index(steps, k)); Found(embedded, owner) && !OnStack(stack, owner))
    && (forall i :: 0 <= i < |stack| ==>
          IsKey(steps, stack[i].0) && Found(embedded, stack[i].0) && stack[i].1 == Depth(steps, stack[i].0))
    && (forall i, j :: 0 <= i < j < |stack| ==> stack[i].0 != stack[j].0)
  }

  predicate Expands(steps: seq<Step>, embedded: set<string>, stack: seq<(string, nat)>, but: Option<string>, k: string)
    requires WellNamed(steps) && ParentsFirst(steps) && IsKey(steps, k)
  {
    Found(embedded, k) && Some(k) != but && !OnStack(stack, k) && Depth(steps, k) < MAX_DEPTH
  }

  /** What has been found, left the stack and is not too deep has all its children found. */
  ghost predicate Expanded(steps: seq<Step>, embedded: set<string>, stack: seq<(string, nat)>, but: Option<string>)
    requires WellNamed(steps) && ParentsFirst(steps)
  {
    forall k, c ::
      ChildOf(steps, c, k) && IsKey(steps, k) && Expands(steps, embedded, stack, but, k) ==> c in embedded
  }

  lemma OnStackMore(stack: seq<(string, nat)>, e: (string, nat), k: string)
    ensures OnStack(stack + [e], k) <==> OnStack(stack, k) || k == e.0
  {
    var more := stack + [e];
    if OnStack(stack, k) {
      var i :| 0 <= i < |stack| && stack[i].0 == k;
      assert more[i].0 == k;
    }
    assert more[|stack|] == e;
  }

  lemma Popped(steps: seq<Step>, embedded: set<string>, stack: seq<(string, nat)>)
    requires WellNamed(steps) && ParentsFirst(steps) && stack != []
    requires Collecting(steps, embedded, stack) && Expanded(steps, embedded, stack, None)
    ensures var (current, level), rest := stack[|stack| - 1], stack[..|stack| - 1];
            && IsKey(steps, current) && level == Depth(steps, current) && Found(embedded, current)
            && Collecting(steps, embedded, rest) && !OnStack(rest, current)
            && Expanded(steps, embedded, rest, Some(current))
            && (level >= MAX_DEPTH ==> Expanded(steps, embedded, rest, None))
            && forall c :: ChildOf(steps, c, current) ==> c !in embedded
  {
    hide WellNamed, ParentsFirst, Depth, OnStack, OwnerAt, IsKey, IsSubagent, Found, Expanded, Collecting, ChildOf;
    var rest, top := stack[..|stack| - 1], stack[|stack| - 1];
    LastApart(stack);
    forall k
      ensures OnStack(stack, k) <==> OnStack(rest, k) || k == top.0
    {
      OnStackMore(rest, top, k);
    }
    PoppedTop(steps, embedded, stack);
    PoppedCollecting(steps, embedded, stack, rest);
    PoppedExpanded(steps, embedded, stack, rest, top.0);
  }

  /** The top of the stack is found, stands there once, and none of its children is found yet. */
  lemma PoppedTop(steps: seq<Step>, embedded: set<string>, stack: seq<(string, nat)>)
    requires WellNamed(steps) && ParentsFirst(steps) && stack != [] && Collecting(steps, embedded, stack)
    ensures var (current, level), rest := stack[|stack| - 1], stack[..|stack| - 1];
            && IsKey(steps, current) && level == Depth(steps, current) && Found(embedded, current)
            && !OnStack(rest, current)
            && forall c :: ChildOf(steps, c, current) ==> c !in embedded
  {
    hide WellNamed, ParentsFirst, Depth, OwnerAt, IsKey, IsSubagent;
    assert OnStack(stack, stack[|stack| - 1].0);
  }

  lemma PoppedCollecting(steps: seq<Step>, embedded: set<string>, stack: seq<(string, nat)>, rest: seq<(string, nat)>)
    requires WellNamed(steps) && ParentsFirst(steps) && Collecting(steps, embedded, stack) && rest <= stack
    requires forall k :: OnStack(rest, k) ==> OnStack(stack, k)
    ensures Collecting(steps, embedded, rest)
  {
    hide WellNamed, ParentsFirst, Depth, OnStack, OwnerAt, IsKey, IsSubagent, Found;
  }

  lemma PoppedExpanded(steps: seq<Step>, embedded: set<string>, stack: seq<(string, nat)>, rest: seq<(string, nat)>,
                       current: string)
    requires WellNamed(steps) && ParentsFirst(steps) && IsKey(steps, current)
    requires Expanded(steps, embedded, stack, None)
    requires forall k :: OnStack(stack, k) <==> OnStack(rest, k) || k == current
    ensures Expanded(steps, embedded, rest, Some(current))
    ensures Depth(steps, current) >= MAX_DEPTH ==> Expanded(steps, embedded, rest, None)
  {
    hide OnStack, Depth, WellNamed, ParentsFirst, ChildOf, IsKey, Found;
    forall k, c | ChildOf(steps, c, k) && IsKey(steps, k) && Expands(steps, embedded, rest, Some(current), k)
      ensures c in embedded
    {
      assert Expands(steps, embedded, stack, None, k);
    }
    if Depth(steps, current) >= MAX_DEPTH {
      forall k, c | ChildOf(steps, c, k) && IsKey(steps, k) && Expands(steps, embedded, rest, None, k)
        ensures c in embedded
      {
        assert Expands(steps, embedded, stack, None, k);
      }
    }
  }

  lemma Pushed(steps: seq<Step>, embedded: set<string>, stack: seq<(string, nat)>, current: string, sub: string)
    requires WellNamed(steps) && ParentsFirst(steps) && IsKey(steps, current) && Found(embedded, current)
    requires Collecting(steps, embedded, stack) && Expanded(steps, embedded, stack, Some(current))
    requires !OnStack(stack, current) && ChildOf(steps, sub, current) && sub !in embedded
    requires Depth(steps, current) < MAX_DEPTH
    ensures var more, found := stack + [(sub, Depth(steps, current) + 1)], embedded + {sub};
            && Collecting(steps, found, more) && Expanded(steps, found, more, Some(current)) && !OnStack(more, current)
  {
    hide WellNamed, ParentsFirst, Depth, OnStack, OwnerAt, IsKey, IsSubagent;
    ChildDeeper(steps, sub, current);
    var more := stack + [(sub, Depth(steps, current) + 1)];
    forall k
      ensures OnStack(more, k) <==> OnStack(stack, k) || k == sub
    {
      OnStackMore(stack, (sub, Depth(steps, current) + 1), k);
    }
    PushedExpanded(steps, embedded, stack, current, sub, more);
    hide Expanded;
    SubWasNew(stack, embedded, sub);
  }

  lemma SubWasNew(stack: seq<(string, nat)>, embedded: set<string>, sub: string)
    requires sub !in embedded && sub != "" && forall i :: 0 <= i < |stack| ==> Found(embedded, stack[i].0)
    ensures !OnStack(stack, sub) && forall i :: 0 <= i < |stack| ==> stack[i].0 != sub
  {
  }

  lemma PushedExpanded(steps: seq<Step>, embedded: set<string>, stack: seq<(string, nat)>, current: string, sub: string,
                       more: seq<(string, nat)>)
    requires WellNamed(steps) && ParentsFirst(steps) && Expanded(steps, embedded, stack, Some(current))
    requires forall k :: OnStack(more, k) <==> OnStack(stack, k) || k == sub
    ensures Expanded(steps, embedded + {sub}, more, Some(current))
  {
    hide OnStack, Depth, WellNamed, ParentsFirst, ChildOf, IsKey;
    forall k, c | ChildOf(steps, c, k) && IsKey(steps, k) && Expands(steps, embedded + {sub}, more, Some(current), k)
      ensures c in embedded + {sub}
    {
      assert Expands(steps, embedded, stack, Some(current), k);
    }
  }

  /** The children of the trajectory just popped, all in, leave nothing to do for it. */
  lemma AllPushed(steps: seq<Step>, doc: Trajectories, embedded: set<string>, stack: seq<(string, nat)>,
                  current: string)
    requires FromRun(steps, doc) && current in doc && Expanded(steps, embedded, stack, Some(current))
    requires forall c :: c in doc[current].children ==> c in embedded
    ensures Expanded(steps, embedded, stack, None)
  {
    forall c | ChildOf(steps, c, current)
      ensures c in embedded
    {
      ChildrenOf(steps, doc, current, c);
    }
  }

  /** With the stack empty, everything not too deep has been found. */
  lemma {:induction false} AllFound(steps: seq<Step>, embedded: set<string>, key: string)
    requires WellNamed(steps) && ParentsFirst(steps) && Expanded(steps, embedded, [], None)
    requires IsKey(steps, key) && Depth(steps, key) <= MAX_DEPTH
    ensures Found(embedded, key)
    decreases if key == "" then 0 else Index(steps, key) + 1
  {
    if key != "" {
      var owner := OwnerAt(steps, Index(steps, key));
      ChildDeeper(steps, key, owner);
      AllFound(steps, embedded, owner);
      assert Expands(steps, embedded, [], None, owner);
    }
  }

  lemma {:induction false} ChildrenApart(steps: seq<Step>, n: nat, key: string)
    requires WellNamed(steps) && n <= |steps|
    ensures AtifTheorems.NoRepeats(Embedded(steps, n, key))
    ensures forall c :: c in Embedded(steps, n, key) ==> IsSubagent(steps, c) && Index(steps, c) < n
  {
    if n > 0 {
      ChildrenApart(steps, n - 1, key);
      IndexAt(steps, n - 1);
    }
  }

  lemma CollectStarts(steps: seq<Step>)
    requires WellNamed(steps) && ParentsFirst(steps)
    ensures Collecting(steps, {}, [("", 0)]) && Expanded(steps, {}, [("", 0)], None)
  {
    assert OnStack([("", 0)], "") by {
      assert [("", 0)][0].0 == "";
    }
  }

  lemma CollectBound(steps: seq<Step>, embedded: set<string>, stack: seq<(string, nat)>)
    requires WellNamed(steps) && ParentsFirst(steps) && Collecting(steps, embedded, stack)
    ensures |embedded| <= |Subagents(steps, |steps|)| == |Keys(steps)| - 1
    ensures forall k :: k !in embedded && IsSubagent(steps, k) ==> |embedded| < |Subagents(steps, |steps|)|
  {
    SubagentsBound(steps, embedded);
  }

  lemma CollectEnds(steps: seq<Step>, embedded: set<string>)
    requires WellNamed(steps) && ParentsFirst(steps) && |embedded| <= MAX_TRAJECTORIES
    requires Collecting(steps, embedded, []) && Expanded(steps, embedded, [], None)
    ensures Indexed(steps, embedded)
  {
    forall k | IsSubagent(steps, k) && Depth(steps, k) <= MAX_DEPTH
      ensures k in embedded
    {
      assert k != "";
      AllFound(steps, embedded, k);
    }
  }

  /** Stopped at 1,000 with a subagent left over, there are more than are followed. */
  lemma CollectStops(steps: seq<Step>, embedded: set<string>, stack: seq<(string, nat)>, sub: string, current: string)
    requires WellNamed(steps) && ParentsFirst(steps) && Collecting(steps, embedded, stack)
    requires |embedded| == MAX_TRAJECTORIES && ChildOf(steps, sub, current) && sub !in embedded
    ensures Indexed(steps, embedded)
  {
    CollectBound(steps, embedded, stack);
  }

  /** The children of a trajectory that has just been popped are yet to be found. */
  lemma SubsNew(steps: seq<Step>, doc: Trajectories, embedded: set<string>, current: string)
    requires FromRun(steps, doc) && IsKey(steps, current) && forall c :: ChildOf(steps, c, current) ==> c !in embedded
    ensures current in doc && AtifTheorems.NoRepeats(doc[current].children)
    ensures forall c :: c in doc[current].children ==> ChildOf(steps, c, current) && c !in embedded
  {
    ChildrenApart(steps, |steps|, current);
    forall c | c in doc[current].children
      ensures ChildOf(steps, c, current)
    {
      ChildrenOf(steps, doc, current, c);
    }
  }

  /** _collect() from the root: the embedded trajectories by id. */
  method Collect(ghost steps: seq<Step>, doc: Trajectories) returns (embedded: set<string>)
    requires FromRun(steps, doc)
    ensures Indexed(steps, embedded)
  {
    hide Collecting, Expanded, Depth, Laid, Keys, ChildOf, OnStack, Indexed, WellNamed, ParentsFirst;
    embedded := {};
    var stack: seq<(string, nat)> := [("", 0)];
    CollectStarts(steps);
    while stack != []
      invariant Collecting(steps, embedded, stack) && Expanded(steps, embedded, stack, None)
      invariant |embedded| <= MAX_TRAJECTORIES && |embedded| <= |Subagents(steps, |steps|)|
      decreases |Subagents(steps, |steps|)| - |embedded|, |stack|
    {
      Popped(steps, embedded, stack);
      var (current, level) := stack[|stack| - 1];
      stack := stack[..|stack| - 1];
      if level >= MAX_DEPTH {
        continue;
      }
      SubsNew(steps, doc, embedded, current);
      var subs := doc[current].children;
      ghost var before, height := embedded, |stack|;
      for i := 0 to |subs|
        invariant Collecting(steps, embedded, stack) && Expanded(steps, embedded, stack, Some(current))
        invariant |embedded| <= MAX_TRAJECTORIES && !OnStack(stack, current) && Found(embedded, current)
        invariant before <= embedded && |embedded| == |before| + i && |stack| == height + i
        invariant forall j :: 0 <= j < |subs| ==> (subs[j] in embedded <==> j < i)
      {
        if |embedded| >= MAX_TRAJECTORIES {
          CollectStops(steps, embedded, stack, subs[i], current);
          return;
        }
        Pushed(steps, embedded, stack, current, subs[i]);
        embedded := embedded + {subs[i]};
        stack := stack + [(subs[i], level + 1)];
      }
      AllPushed(steps, doc, embedded, stack, current);
      CollectBound(steps, embedded, stack);
    }
    CollectEnds(steps, embedded);
  }
}
