// opentine/_atif_export.py: a run's steps laid out as nested trajectories.
module AtifExport {
  import opened Outcomes
  import opened AtifUsage
  import opened AtifOwners

  datatype Tokens = Tokens(prompt: int, completion: int, cached: int)

  const ZERO := Tokens(0, 0, 0)

  function Plus(a: Tokens, b: Tokens): Tokens {
    Tokens(a.prompt + b.prompt, a.completion + b.completion, a.cached + b.cached)
  }

  /** What a step's item shows of it: its kind, which a human step's does not say, and its
      metrics. */
  datatype Line = Line(kind: Option<Kind>, metrics: Option<Metrics>)

  /** _step(), as far as totals go. */
  function LineOf(step: Step): Line {
    if step.kind == Human then Line(None, None) else Line(Some(step.kind), Some(Exported(step.usage)))
  }

  function MetricsCount(metrics: Option<Metrics>): Tokens {
    match metrics
    case None => ZERO
    case Some(m) => Tokens(m.prompt, m.completion, m.cached)
  }

  /** What a step counts for; a human step carries no metrics. */
  function Counted(step: Step): Tokens {
    MetricsCount(LineOf(step).metrics)
  }

  /** An item of a trajectory: a step of the run, or one added to hold a reference. `refs` are
      the subagents its results refer to. */
  datatype Item =
    | Of(step: Step, refs: seq<string>)
    | Added(refs: seq<string>)

  datatype Trajectory = Trajectory(items: seq<Item>, children: seq<string>, total: Tokens, count: nat)

  // ----- what the export is to hold -----

  /** The steps among the first n that a trajectory holds. */
  function Group(steps: seq<Step>, n: nat, key: string): seq<Step>
    requires n <= |steps|
  {
    if n == 0 then []
    else
      var before := Group(steps, n - 1, key);
      if steps[n - 1].kind != Subagent && OwnerAt(steps, n - 1) == key then before + [steps[n - 1]] else before
  }

  /** The subagents among the first n that a trajectory embeds. */
  function Embedded(steps: seq<Step>, n: nat, key: string): seq<string>
    requires n <= |steps|
  {
    if n == 0 then []
    else
      var before := Embedded(steps, n - 1, key);
      if steps[n - 1].kind == Subagent && OwnerAt(steps, n - 1) == key then before + [steps[n - 1].id] else before
  }

  /** The subagents among the first n. */
  function Subagents(steps: seq<Step>, n: nat): seq<string>
    requires n <= |steps|
  {
    if n == 0 then []
    else
      var before := Subagents(steps, n - 1);
      if steps[n - 1].kind == Subagent then before + [steps[n - 1].id] else before
  }

  function Total(group: seq<Step>): Tokens {
    if group == [] then ZERO else Plus(Total(group[..|group| - 1]), Counted(group[|group| - 1]))
  }

  function StepsIn(items: seq<Item>): seq<Step> {
    if items == [] then []
    else
      var before := StepsIn(items[..|items| - 1]);
      if items[|items| - 1].Of? then before + [items[|items| - 1].step] else before
  }

  /** Only tool calls have results of their own to refer from. */
  predicate RefsPlaced(items: seq<Item>) {
    forall i :: 0 <= i < |items| && items[i].Of? && items[i].step.kind != ToolCall ==> items[i].refs == []
  }

  function RefsIn(items: seq<Item>): multiset<string> {
    if items == [] then multiset{} else RefsIn(items[..|items| - 1]) + multiset(items[|items| - 1].refs)
  }

  function SumOf(lines: seq<Line>): Tokens {
    if lines == [] then ZERO else Plus(SumOf(lines[..|lines| - 1]), MetricsCount(lines[|lines| - 1].metrics))
  }

  /** _totals(): the sum over the items that carry metrics, and how many items there are. */
  method Totals(lines: seq<Line>) returns (total: Tokens, count: nat)
    ensures total == SumOf(lines) && count == |lines|
  {
    total := ZERO;
    for i := 0 to |lines|
      invariant total == SumOf(lines[..i])
    {
      assert lines[..i + 1][..i] == lines[..i];
      var metrics := lines[i].metrics;
      if metrics.Some? {
        total := Tokens(total.prompt + metrics.value.prompt, total.completion + metrics.value.completion,
                        total.cached + metrics.value.cached);
      }
    }
    assert lines[..|lines|] == lines;
    count := |lines|;
  }

  lemma SumOfMore(lines: seq<Line>, line: Line)
    ensures SumOf(lines + [line]) == Plus(SumOf(lines), MetricsCount(line.metrics))
  {
    assert (lines + [line])[..|lines|] == lines;
  }

  lemma TotalLast(group: seq<Step>, step: Step)
    ensures Total(group + [step]) == Plus(Total(group), Counted(step))
  {
    assert (group + [step])[..|group|] == group;
  }

  lemma StepsInMore(items: seq<Item>, item: Item)
    ensures StepsIn(items + [item]) == if item.Of? then StepsIn(items) + [item.step] else StepsIn(items)
  {
    assert (items + [item])[..|items|] == items;
  }

  /** The totals of a trajectory's items: those of its steps, since added items have no metrics. */
  method TotalItems(items: seq<Item>) returns (total: Tokens, count: nat)
    ensures total == Total(StepsIn(items)) && count == |items|
  {
    var lines := [];
    for i := 0 to |items|
      invariant |lines| == i && SumOf(lines) == Total(StepsIn(items[..i]))
    {
      assert items[..i + 1] == items[..i] + [items[i]];
      StepsInMore(items[..i], items[i]);
      var line := match items[i] case Of(step, _) => LineOf(step) case Added(_) => Line(Some(Subagent), None);
      SumOfMore(lines, line);
      if items[i].Of? {
        TotalLast(StepsIn(items[..i]), items[i].step);
      }
      lines := lines + [line];
    }
    assert items[..|items|] == items;
    total, count := Totals(lines);
  }

  function Fresh(group: seq<Step>): (items: seq<Item>)
    ensures |items| == |group| && forall i :: 0 <= i < |items| ==> items[i] == Of(group[i], [])
  {
    seq(|group|, i requires 0 <= i < |group| => Of(group[i], []))
  }

  lemma {:induction false} FreshHolds(group: seq<Step>)
    ensures StepsIn(Fresh(group)) == group && RefsIn(Fresh(group)) == multiset{}
  {
    if group != [] {
      var rest := group[..|group| - 1];
      FreshHolds(rest);
      assert Fresh(group)[..|rest|] == Fresh(rest);
      assert group == rest + [group[|group| - 1]];
    }
  }

  // ----- _attach -----

  /** The item whose results take a reference: the spawning step's, when it is a tool call. */
  predicate Takes(item: Item, spawner: Option<string>) {
    item.Of? && spawner == Some(item.step.id) && item.step.kind == ToolCall
  }

  function WithRef(item: Item, child: string): Item {
    match item
    case Of(step, refs) => Of(step, refs + [child])
    case Added(refs) => Added(refs + [child])
  }

  lemma {:induction false} StepsUntouched(items: seq<Item>, i: nat, child: string)
    requires i < |items|
    ensures StepsIn(items[i := WithRef(items[i], child)]) == StepsIn(items)
    decreases |items|
  {
    var rest, more := items[..|items| - 1], items[i := WithRef(items[i], child)];
    if i < |rest| {
      StepsUntouched(rest, i, child);
      assert more[..|items| - 1] == rest[i := WithRef(rest[i], child)];
    } else {
      assert more[..|items| - 1] == rest;
    }
  }

  lemma {:induction false} RefAdded(items: seq<Item>, i: nat, child: string)
    requires i < |items|
    ensures RefsIn(items[i := WithRef(items[i], child)]) == RefsIn(items) + multiset{child}
    decreases |items|
  {
    hide RefsIn;
    var rest, more := items[..|items| - 1], items[i := WithRef(items[i], child)];
    RefAppended(items[i], child);
    RefsInLast(items);
    RefsInLast(more);
    if i < |rest| {
      assert more[..|items| - 1] == rest[i := WithRef(rest[i], child)];
      RefAdded(rest, i, child);
    } else {
      assert more[..|items| - 1] == rest;
    }
  }

  lemma RefsInLast(items: seq<Item>)
    requires items != []
    ensures RefsIn(items) == RefsIn(items[..|items| - 1]) + multiset(items[|items| - 1].refs)
  {
  }

  lemma RefAppended(item: Item, child: string)
    ensures multiset(WithRef(item, child).refs) == multiset(item.refs) + multiset{child}
  {
  }

  lemma ItemAdded(items: seq<Item>, child: string)
    ensures StepsIn(items + [Added([child])]) == StepsIn(items)
    ensures RefsIn(items + [Added([child])]) == RefsIn(items) + multiset{child}
  {
    assert (items + [Added([child])])[..|items|] == items;
    assert multiset([child]) == multiset{child};
  }

  /** Where a reference to a child goes: into the item that takes it, or an item of its own. */
  ghost predicate RefPut(items: seq<Item>, spawner: Option<string>, child: string, next: seq<Item>) {
    if exists i :: 0 <= i < |items| && Takes(items[i], spawner)
    then exists i :: 0 <= i < |items| && Takes(items[i], spawner) && next == items[i := WithRef(items[i], child)]
    else next == items + [Added([child])]
  }

  /** _attach(): the parent embeds the child and refers to it exactly once more, from the
      spawning tool call or from an item added for it; its steps are untouched. */
  method Attach(parent: Trajectory, spawner: Option<string>, child: string) returns (t: Trajectory)
    ensures Attached(parent, child, t)
    ensures RefPut(parent.items, spawner, child, t.items)
  {
    for i := 0 to |parent.items|
      invariant forall j :: 0 <= j < i ==> !Takes(parent.items[j], spawner)
    {
      if Takes(parent.items[i], spawner) {
        RefAdded(parent.items, i, child);
        StepsUntouched(parent.items, i, child);
        return parent.(items := parent.items[i := WithRef(parent.items[i], child)],
            children := parent.children + [child]);
      }
    }
    ItemAdded(parent.items, child);
    return parent.(items := parent.items + [Added([child])], children := parent.children + [child]);
  }

  // ----- where the references stand -----

  /** The subagents among the first n that the trajectory's tool call spawned. */
  function Spawned(steps: seq<Step>, n: nat, key: string, call: Step): seq<string>
    requires n <= |steps|
  {
    if n == 0 then []
    else
      var before, last := Spawned(steps, n - 1, key, call), steps[n - 1];
      if last.kind == Subagent && OwnerAt(steps, n - 1) == key && call.kind == ToolCall && last.parent == Some(call.id)
      then before + [last.id] else before
  }

  /** The step is a subagent of the trajectory that none of the tool calls there spawned. */
  ghost predicate Unclaimed(steps: seq<Step>, key: string, i: nat)
    requires i < |steps|
  {
    && steps[i].kind == Subagent && OwnerAt(steps, i) == key
    && forall call :: call in Group(steps, |steps|, key) && call.kind == ToolCall ==> steps[i].parent != Some(call.id)
  }

  ghost function AddedItems(steps: seq<Step>, n: nat, key: string): seq<Item>
    requires n <= |steps|
  {
    if n == 0 then []
    else
      AddedItems(steps, n - 1, key) + if Unclaimed(steps, key, n - 1) then [Added([steps[n - 1].id])] else []
  }

  ghost function OwnItems(steps: seq<Step>, n: nat, key: string): (items: seq<Item>)
    requires n <= |steps|
    ensures |items| == |Group(steps, |steps|, key)|
  {
    var group := Group(steps, |steps|, key);
    seq(|group|, i requires 0 <= i < |group| => Of(group[i], Spawned(steps, n, key, group[i])))
  }

  /** A trajectory's items: its own steps in order, each tool call with the subagents it spawned, and
      then one item for each other subagent. */
  ghost predicate Placed(steps: seq<Step>, n: nat, key: string, items: seq<Item>)
    requires n <= |steps|
  {
    items == OwnItems(steps, n, key) + AddedItems(steps, n, key)
  }

  lemma {:induction false} GroupIds(steps: seq<Step>, n: nat, key: string)
    requires WellNamed(steps) && n <= |steps|
    ensures forall s :: s in Group(steps, n, key) ==> s in steps[..n]
    ensures forall i, j :: 0 <= i < j < |Group(steps, n, key)| ==>
      Group(steps, n, key)[i].id != Group(steps, n, key)[j].id
  {
    if n > 0 {
      GroupIds(steps, n - 1, key);
      var before := Group(steps, n - 1, key);
      assert steps[..n] == steps[..n - 1] + [steps[n - 1]];
      forall s | s in before
        ensures s.id != steps[n - 1].id
      {
        var i :| 0 <= i < n - 1 && steps[i] == s;
      }
    }
  }

  lemma {:induction false} AddedTakeNone(steps: seq<Step>, n: nat, key: string)
    requires n <= |steps|
    ensures forall i :: 0 <= i < |AddedItems(steps, n, key)| ==> AddedItems(steps, n, key)[i].Added?
  {
    if n > 0 {
      AddedTakeNone(steps, n - 1, key);
    }
  }

  /** Of the trajectory's items only the call that spawned the n-th step takes a reference to it. */
  lemma OwnStep(steps: seq<Step>, n: nat, key: string, i: nat)
    requires n < |steps| && i < |Group(steps, |steps|, key)|
    ensures var own, call := OwnItems(steps, n, key)[i], Group(steps, |steps|, key)[i];
            && own.Of? && own.step == call
            && (Takes(own, steps[n].parent) <==> call.kind == ToolCall && steps[n].parent == Some(call.id))
            && OwnItems(steps, n + 1, key)[i] ==
                 if steps[n].kind == Subagent && OwnerAt(steps, n) == key && Takes(own, steps[n].parent)
                 then WithRef(own, steps[n].id) else own
  {
  }

  lemma AllOwnStep(steps: seq<Step>, n: nat, key: string)
    requires n < |steps|
    ensures var own, after := OwnItems(steps, n, key), OwnItems(steps, n + 1, key);
            var put := steps[n].kind == Subagent && OwnerAt(steps, n) == key;
            forall i :: 0 <= i < |own| ==>
              after[i] == if put && Takes(own[i], steps[n].parent) then WithRef(own[i], steps[n].id) else own[i]
  {
    forall i | 0 <= i < |OwnItems(steps, n, key)| {
      OwnStep(steps, n, key, i);
    }
  }

  lemma OneTakes(steps: seq<Step>, n: nat, key: string, i: nat, j: nat)
    requires WellNamed(steps) && n < |steps| && i < |OwnItems(steps, n, key)| && j < |OwnItems(steps, n, key)|
    requires Takes(OwnItems(steps, n, key)[i], steps[n].parent) && Takes(OwnItems(steps, n, key)[j], steps[n].parent)
    ensures i == j
  {
    hide Group, OwnItems;
    GroupIds(steps, |steps|, key);
    OwnStep(steps, n, key, i);
    OwnStep(steps, n, key, j);
  }

  lemma UnclaimedIs(steps: seq<Step>, n: nat, key: string)
    requires n < |steps| && steps[n].kind == Subagent && OwnerAt(steps, n) == key
    ensures Unclaimed(steps, key, n) <==>
            forall i :: 0 <= i < |OwnItems(steps, n, key)| ==> !Takes(OwnItems(steps, n, key)[i], steps[n].parent)
  {
    hide Group, OwnItems, Takes;
    var group := Group(steps, |steps|, key);
    forall i | 0 <= i < |group| {
      OwnStep(steps, n, key, i);
    }
    if !Unclaimed(steps, key, n) {
      var call :| call in group && call.kind == ToolCall && steps[n].parent == Some(call.id);
      var i :| 0 <= i < |group| && group[i] == call;
      OwnStep(steps, n, key, i);
    }
  }

  /** Only own items take references. */
  lemma TakerIsOwn(own: seq<Item>, added: seq<Item>, spawner: Option<string>, k: nat)
    requires k < |own + added| && Takes((own + added)[k], spawner)
    requires forall i :: 0 <= i < |added| ==> added[i].Added?
    ensures k < |own| && Takes(own[k], spawner)
  {
  }

  lemma PutWithCall(steps: seq<Step>, n: nat, key: string, k: nat)
    requires WellNamed(steps) && n < |steps| && steps[n].kind == Subagent && OwnerAt(steps, n) == key
    requires k < |OwnItems(steps, n, key)| && Takes(OwnItems(steps, n, key)[k], steps[n].parent)
    ensures var own := OwnItems(steps, n, key);
            OwnItems(steps, n + 1, key) == own[k := WithRef(own[k], steps[n].id)]
    ensures AddedItems(steps, n + 1, key) == AddedItems(steps, n, key)
  {
    hide OwnItems, Takes, OwnerAt, Group, WellNamed, Unclaimed, WithRef;
    var own := OwnItems(steps, n, key);
    AllOwnStep(steps, n, key);
    UnclaimedIs(steps, n, key);
    forall j | 0 <= j < |own| && Takes(own[j], steps[n].parent)
      ensures j == k
    {
      OneTakes(steps, n, key, j, k);
    }
  }

  lemma PutBeside(steps: seq<Step>, n: nat, key: string)
    requires n < |steps| && steps[n].kind == Subagent && OwnerAt(steps, n) == key
    requires forall i :: 0 <= i < |OwnItems(steps, n, key)| ==> !Takes(OwnItems(steps, n, key)[i], steps[n].parent)
    ensures OwnItems(steps, n + 1, key) == OwnItems(steps, n, key)
    ensures AddedItems(steps, n + 1, key) == AddedItems(steps, n, key) + [Added([steps[n].id])]
  {
    hide OwnItems, Takes, OwnerAt, Group, Unclaimed, WithRef;
    AllOwnStep(steps, n, key);
    UnclaimedIs(steps, n, key);
  }

  /** Attaching the n-th step's child keeps every reference where it belongs. */
  lemma PlacedStep(steps: seq<Step>, n: nat, key: string, items: seq<Item>, next: seq<Item>)
    requires WellNamed(steps) && n < |steps| && Placed(steps, n, key, items)
    requires if steps[n].kind == Subagent && OwnerAt(steps, n) == key
             then RefPut(items, steps[n].parent, steps[n].id, next) else next == items
    ensures Placed(steps, n + 1, key, next)
  {
    hide OwnItems, AddedItems, Takes, OwnerAt, Group, WellNamed, WithRef;
    var own, added, spawner := OwnItems(steps, n, key), AddedItems(steps, n, key), steps[n].parent;
    if !(steps[n].kind == Subagent && OwnerAt(steps, n) == key) {
      NothingPut(steps, n, key);
    } else {
      AddedTakeNone(steps, n, key);
      if i :| 0 <= i < |items| && Takes(items[i], spawner) {
        var k :| 0 <= k < |items| && Takes(items[k], spawner) && next == items[k := WithRef(items[k], steps[n].id)];
        TakerIsOwn(own, added, spawner, k);
        PutWithCall(steps, n, key, k);
        assert next == own[k := WithRef(own[k], steps[n].id)] + added;
      } else {
        forall j | 0 <= j < |own|
          ensures !Takes(own[j], spawner)
        {
          assert items[j] == own[j];
        }
        PutBeside(steps, n, key);
      }
    }
  }

  lemma NothingPut(steps: seq<Step>, n: nat, key: string)
    requires n < |steps| && !(steps[n].kind == Subagent && OwnerAt(steps, n) == key)
    ensures OwnItems(steps, n + 1, key) == OwnItems(steps, n, key)
    ensures AddedItems(steps, n + 1, key) == AddedItems(steps, n, key)
  {
    hide OwnItems, Takes, Group, WithRef;
    AllOwnStep(steps, n, key);
  }

  // ----- to_atif -----

  /** A trajectory after the first n steps' subagents are attached. */
  ghost predicate Holds(steps: seq<Step>, n: nat, key: string, t: Trajectory)
    requires n <= |steps|
  {
    && StepsIn(t.items) == Group(steps, |steps|, key)
    && t.children == Embedded(steps, n, key)
    && RefsIn(t.items) == multiset(t.children) && RefsPlaced(t.items)
    && |t.items| <= |StepsIn(t.items)| + |t.children|
  }

  predicate IsKey(steps: seq<Step>, key: string) {
    key == "" || IsSubagent(steps, key)
  }

  /** The whole export: one trajectory for the root agent and one for each subagent. */
  ghost predicate Laid(steps: seq<Step>, n: nat, doc: map<string, Trajectory>)
    requires n <= |steps|
  {
    && (forall key :: key in doc <==> IsKey(steps, key))
    && (forall key :: key in doc ==> Holds(steps, n, key, doc[key]) && Placed(steps, n, key, doc[key].items))
  }

  function GroupIn(groups: map<string, seq<Step>>, key: string): seq<Step> {
    if key in groups then groups[key] else []
  }

  method Grouped(steps: seq<Step>, owner: map<string, string>) returns (groups: map<string, seq<Step>>)
    requires WellNamed(steps) && Owned(steps, |steps|, owner)
    ensures "" in groups && forall key :: GroupIn(groups, key) == Group(steps, |steps|, key)
  {
    hide OwnerAt, Owned, WellNamed;
    groups := map["" := []];
    for i := 0 to |steps|
      invariant "" in groups && forall key :: GroupIn(groups, key) == Group(steps, i, key)
    {
      hide Group;
      var step := steps[i];
      OwnedAt(steps, owner, i);
      ghost var before := groups;
      if step.kind != Subagent {
        var key := owner[step.id];
        groups := groups[key := GroupIn(groups, key) + [step]];
      }
      forall key
        ensures GroupIn(groups, key) == Group(steps, i + 1, key)
      {
        GroupGrows(steps, i, key, GroupIn(before, key));
      }
    }
  }

  lemma GroupGrows(steps: seq<Step>, n: nat, key: string, group: seq<Step>)
    requires n < |steps| && group == Group(steps, n, key)
    ensures Group(steps, n + 1, key) ==
            if steps[n].kind != Subagent && OwnerAt(steps, n) == key then group + [steps[n]] else group
  {
  }

  function Start(group: seq<Step>): Trajectory {
    Trajectory(Fresh(group), [], ZERO, 0)
  }

  lemma StartHolds(steps: seq<Step>, key: string)
    ensures var t := Start(Group(steps, |steps|, key)); Holds(steps, 0, key, t) && Placed(steps, 0, key, t.items)
  {
    FreshHolds(Group(steps, |steps|, key));
  }

  /** One trajectory a key, in step order. */
  method Trajectories(steps: seq<Step>, groups: map<string, seq<Step>>) returns (doc: map<string, Trajectory>)
    requires WellNamed(steps)
    requires "" in groups && forall key :: GroupIn(groups, key) == Group(steps, |steps|, key)
    ensures Laid(steps, 0, doc)
  {
    doc := map["" := Start(GroupIn(groups, ""))];
    StartHolds(steps, "");
    for i := 0 to |steps|
      invariant forall key :: key in doc <==> key == "" || (IsSubagent(steps, key) && Index(steps, key) < i)
      invariant forall key :: key in doc ==> Holds(steps, 0, key, doc[key]) && Placed(steps, 0, key, doc[key].items)
    {
      var step := steps[i];
      IndexAt(steps, i);
      KeyAt(steps, i);
      if step.kind == Subagent {
        StartHolds(steps, step.id);
        doc := doc[step.id := Start(GroupIn(groups, step.id))];
      }
    }
  }

  lemma KeyAt(steps: seq<Step>, i: nat)
    requires WellNamed(steps) && i < |steps|
    ensures forall key :: IsSubagent(steps, key) && Index(steps, key) < i + 1 <==>
                          (IsSubagent(steps, key) && Index(steps, key) < i) || (steps[i].kind == Subagent &&
                              key == steps[i].id)
  {
    IndexAt(steps, i);
  }

  lemma HoldsStep(steps: seq<Step>, n: nat, key: string, t: Trajectory, next: Trajectory)
    requires n < |steps| && Holds(steps, n, key, t)
    requires if steps[n].kind == Subagent && OwnerAt(steps, n) == key then Attached(t, steps[n].id, next) else next == t
    ensures Holds(steps, n + 1, key, next)
  {
  }

  /** What attaching a child changes. */
  ghost predicate Attached(t: Trajectory, child: string, next: Trajectory) {
    && next.children == t.children + [child] && next.total == t.total && next.count == t.count
    && StepsIn(next.items) == StepsIn(t.items) && RefsIn(next.items) == RefsIn(t.items) + multiset{child}
    && |next.items| <= |t.items| + 1 && (RefsPlaced(t.items) ==> RefsPlaced(next.items))
  }

  lemma LaidStep(steps: seq<Step>, n: nat, doc: map<string, Trajectory>, next: map<string, Trajectory>)
    requires WellNamed(steps) && n < |steps| && Laid(steps, n, doc) && next.Keys == doc.Keys
    requires forall key :: key in doc ==>
      if steps[n].kind == Subagent && OwnerAt(steps, n) == key
      then Attached(doc[key], steps[n].id, next[key]) &&
           RefPut(doc[key].items, steps[n].parent, steps[n].id, next[key].items)
      else next[key] == doc[key]
    ensures Laid(steps, n + 1, next)
  {
    hide Holds, Placed, RefPut, Attached, WellNamed, IsKey;
    forall key | key in next
      ensures Holds(steps, n + 1, key, next[key]) && Placed(steps, n + 1, key, next[key].items)
    {
      HoldsStep(steps, n, key, doc[key], next[key]);
      PlacedStep(steps, n, key, doc[key].items, next[key].items);
    }
  }

  // ----- the whole document -----

  /** The steps among the first n that are not subagents. */
  function Plain(steps: seq<Step>, n: nat): seq<Step>
    requires n <= |steps|
  {
    if n == 0 then []
    else
      var before := Plain(steps, n - 1);
      if steps[n - 1].kind != Subagent then before + [steps[n - 1]] else before
  }

  /** The exported document: its trajectories by agent, and the totals of the root. */
  datatype Document = Document(trajectories: map<string, Trajectory>, total: Tokens, count: nat)

  /** The totals of a trajectory are those of its own steps. */
  predicate OwnTotals(steps: seq<Step>, key: string, t: Trajectory) {
    t.total == Total(Group(steps, |steps|, key)) && t.count == |Group(steps, |steps|, key)|
  }

  /** The totals written on the subagents among the first n. */
  ghost predicate Totalled(steps: seq<Step>, n: nat, doc: map<string, Trajectory>)
    requires n <= |steps|
  {
    forall key :: key in doc && IsSubagent(steps, key) && Index(steps, key) < n ==> OwnTotals(steps, key, doc[key])
  }

  lemma {:induction false} NoneEmbeddedYet(steps: seq<Step>, i: nat, n: nat)
    requires WellNamed(steps) && ParentsFirst(steps) && n <= i < |steps|
    ensures Embedded(steps, n, steps[i].id) == []
  {
    if n > 0 {
      NoneEmbeddedYet(steps, i, n - 1);
      OwnerExists(steps, n - 1);
      IndexAt(steps, i);
    }
  }

  lemma {:induction false} StepsNoMore(items: seq<Item>)
    ensures |StepsIn(items)| <= |items|
  {
    if items != [] {
      StepsNoMore(items[..|items| - 1]);
    }
  }

  /** Before anything is embedded in it, a trajectory holds its steps and nothing else. */
  lemma OwnOnly(steps: seq<Step>, n: nat, t: Trajectory)
    requires WellNamed(steps) && ParentsFirst(steps) && n < |steps| && Holds(steps, n, steps[n].id, t)
    ensures |t.items| == |Group(steps, |steps|, steps[n].id)|
  {
    NoneEmbeddedYet(steps, n, n);
    StepsNoMore(t.items);
  }

  /** child.update(final_metrics=...): the subagent's totals, before anything is embedded in it. */
  method Finish(steps: seq<Step>, n: nat, doc: map<string, Trajectory>) returns (next: map<string, Trajectory>)
    requires WellNamed(steps) && ParentsFirst(steps) && n < |steps| && steps[n].kind == Subagent
    requires Laid(steps, n, doc) && Totalled(steps, n, doc)
    ensures Laid(steps, n, next) && Totalled(steps, n + 1, next)
  {
    var id := steps[n].id;
    IndexAt(steps, n);
    OwnOnly(steps, n, doc[id]);
    var total, count := TotalItems(doc[id].items);
    next := doc[id := doc[id].(total := total, count := count)];
    MarkedHolds(steps, n, doc, next, id);
    TotalledStep(steps, n, doc, next);
  }

  method Embed(steps: seq<Step>, n: nat, key: string, doc: map<string, Trajectory>)
    returns (next: map<string, Trajectory>)
    requires WellNamed(steps) && n < |steps| && steps[n].kind == Subagent && key == OwnerAt(steps, n)
    requires Laid(steps, n, doc) && Totalled(steps, n + 1, doc)
    ensures Laid(steps, n + 1, next) && Totalled(steps, n + 1, next)
  {
    hide Holds, Placed, RefPut;
    OwnerExists(steps, n);
    var parent := Attach(doc[key], steps[n].parent, steps[n].id);
    next := doc[key := parent];
    LaidStep(steps, n, doc, next);
  }

  lemma MarkedHolds(steps: seq<Step>, n: nat, doc: map<string, Trajectory>, marked: map<string, Trajectory>,
            key: string)
    requires n <= |steps| && Laid(steps, n, doc) && key in doc
    requires key in marked && marked == doc[key := doc[key].(total := marked[key].total, count := marked[key].count)]
    ensures Laid(steps, n, marked)
  {
    forall k | k in marked
      ensures Holds(steps, n, k, marked[k]) && Placed(steps, n, k, marked[k].items)
    {
      assert Holds(steps, n, k, doc[k]) && Placed(steps, n, k, doc[k].items);
    }
  }

  lemma SkipStep(steps: seq<Step>, n: nat, doc: map<string, Trajectory>)
    requires WellNamed(steps) && n < |steps| && steps[n].kind != Subagent && Laid(steps, n, doc) &&
        Totalled(steps, n, doc)
    ensures Laid(steps, n + 1, doc) && Totalled(steps, n + 1, doc)
  {
    LaidStep(steps, n, doc, doc);
    TotalledStep(steps, n, doc, doc);
    KeyAt(steps, n);
  }

  lemma TotalledStep(steps: seq<Step>, n: nat, doc: map<string, Trajectory>, next: map<string, Trajectory>)
    requires WellNamed(steps) && n < |steps| && Totalled(steps, n, doc) && next.Keys == doc.Keys
    requires steps[n].kind == Subagent ==> steps[n].id in next && OwnTotals(steps, steps[n].id, next[steps[n].id])
    requires forall key :: key in doc && key != steps[n].id ==>
      next[key].total == doc[key].total && next[key].count == doc[key].count
    ensures Totalled(steps, n + 1, next)
  {
    KeyAt(steps, n);
    forall key | key in next && IsSubagent(steps, key) && Index(steps, key) < n + 1
      ensures OwnTotals(steps, key, next[key])
    {
      if key != steps[n].id {
        assert key in doc && Index(steps, key) < n && OwnTotals(steps, key, doc[key]);
      }
    }
  }

  method EmbedAll(steps: seq<Step>, owner: map<string, string>, laid: map<string, Trajectory>)
    returns (doc: map<string, Trajectory>)
    requires WellNamed(steps) && ParentsFirst(steps) && Laid(steps, 0, laid)
    requires Owned(steps, |steps|, owner)
    ensures Laid(steps, |steps|, doc) && Totalled(steps, |steps|, doc)
  {
    doc := laid;
    for n := 0 to |steps|
      invariant Laid(steps, n, doc) && Totalled(steps, n, doc)
    {
      if steps[n].kind == Subagent {
        doc := Finish(steps, n, doc);
        OwnedAt(steps, owner, n);
        doc := Embed(steps, n, owner[steps[n].id], doc);
      } else {
        SkipStep(steps, n, doc);
      }
    }
  }

  /** The root's totals: an item for every step of the run, those of subagents dropped, and the
      rest added up. */
  method RootTotals(steps: seq<Step>) returns (total: Tokens, count: nat)
    ensures total == Total(Plain(steps, |steps|)) && count == |Plain(steps, |steps|)|
  {
    var every := [];
    for i := 0 to |steps|
      invariant |every| == i && forall j :: 0 <= j < i ==> every[j] == LineOf(steps[j])
    {
      every := every + [LineOf(steps[i])];
    }
    var kept := [];
    for i := 0 to |every|
      invariant |kept| == |Plain(steps, i)| && SumOf(kept) == Total(Plain(steps, i))
    {
      if every[i].kind != Some(Subagent) {
        SumOfMore(kept, every[i]);
        TotalLast(Plain(steps, i), steps[i]);
        kept := kept + [every[i]];
      }
    }
    total, count := Totals(kept);
  }

  /** to_atif() */
  method ToAtif(steps: seq<Step>) returns (d: Document)
    requires WellNamed(steps) && ParentsFirst(steps)
    ensures Laid(steps, |steps|, d.trajectories) && Totalled(steps, |steps|, d.trajectories)
    ensures d.total == Total(Plain(steps, |steps|)) && d.count == |Plain(steps, |steps|)|
  {
    var owner := Owners(steps);
    var groups := Grouped(steps, owner);
    var doc := Trajectories(steps, groups);
    doc := EmbedAll(steps, owner, doc);
    var total, count := RootTotals(steps);
    return Document(doc, total, count);
  }
}
