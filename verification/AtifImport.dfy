// opentine/_atif.py: an exported document read back, and what of a run's usage returns.
module AtifImport {
  import opened Outcomes
  import opened Basics
  import opened AtifUsage
  import opened AtifOwners
  import opened AtifExport
  import opened AtifTheorems
  import opened AtifIndex

  const MAX_EVENTS := 100_000

  /** An event read from an item, by the item's trajectory and number. Each subagent adds one
      event more, which holds neither text nor usage and is only counted. */
  datatype Event =
    | Said(trajectory: string, number: nat)
    | Model(trajectory: string, number: nat, usage: Usage)
    | Tool(trajectory: string, number: nat)

  // ----- what a trajectory's items are read as -----

  /** _step() and _tools() */
  function ItemEvents(key: string, number: nat, item: Item): seq<Event> {
    match item
    case Of(step, _) =>
      var read := Model(key, number, Reimported(step.kind, step.usage));
      if step.kind == Human then [Said(key, number)]
      else if step.kind == ToolCall then [read, Tool(key, number)]
      else [read]
    case Added(_) => [Model(key, number, NOTHING), Tool(key, number)]
  }

  function ItemsEvents(key: string, items: seq<Item>): seq<Event> {
    if items == [] then []
    else ItemsEvents(key, items[..|items| - 1]) + ItemEvents(key, |items|, items[|items| - 1])
  }

  /** The events of these trajectories, in order. */
  function EventsOf(doc: Trajectories, keys: seq<string>): seq<Event> {
    if keys == [] then []
    else
      var last := keys[|keys| - 1];
      EventsOf(doc, keys[..|keys| - 1]) + if last in doc then ItemsEvents(last, doc[last].items) else []
  }

  lemma {:induction false} ItemsEventsGrow(key: string, items: seq<Item>, n: nat)
    requires n <= |items|
    ensures |ItemsEvents(key, items[..n])| <= |ItemsEvents(key, items)|
    decreases |items|
  {
    if n < |items| {
      ItemsEventsGrow(key, items[..|items| - 1], n);
      assert items[..|items| - 1][..n] == items[..n];
    } else {
      assert items[..n] == items;
    }
  }

  lemma EventsMore(doc: Trajectories, keys: seq<string>, key: string)
    requires key in doc
    ensures EventsOf(doc, keys + [key]) == EventsOf(doc, keys) + ItemsEvents(key, doc[key].items)
  {
    assert (keys + [key])[..|keys|] == keys;
  }

  /** Some of the document's trajectories have more events, with one for each subagent, than an
      import may. */
  ghost predicate TooMany(steps: seq<Step>, doc: Trajectories) {
    exists keys :: AtifTheorems.NoRepeats(keys) && (forall k :: k in keys ==> k in doc) &&
                   |EventsOf(doc, keys)| + |Subagents(steps, |steps|)| > MAX_EVENTS
  }

  /** One of the trajectory's items refers to it. */
  predicate ReferredBy(items: seq<Item>, child: string) {
    exists i :: 0 <= i < |items| && child in Refs(items[i])
  }

  /** Every indexed subagent the items refer to has been imported. */
  predicate AllIn(items: seq<Item>, embedded: set<string>, imported: set<string>) {
    forall j, r :: 0 <= j < |items| && r in Refs(items[j]) && r in embedded ==> r in imported
  }

  lemma NothingRead(key: string, embedded: set<string>, imported: set<string>)
    ensures ItemsEvents(key, []) == [] && AllIn([], embedded, imported) && AtifTheorems.NoRepeats([])
  {
  }

  lemma AllInMore(items: seq<Item>, item: Item, embedded: set<string>, before: set<string>, imported: set<string>)
    requires before <= imported
    ensures AllIn(items, embedded, before) && (forall r :: r in Refs(item) && r in embedded ==> r in imported) ==>
              AllIn(items + [item], embedded, imported)
  {
    hide Refs;
  }

  lemma AllInWhole(items: seq<Item>, embedded: set<string>, imported: set<string>)
    ensures AllIn(items, embedded, imported) ==>
              forall r :: ReferredBy(items, r) && r in embedded ==> r in imported
  {
  }

  lemma ItemsEventsMore(key: string, items: seq<Item>, item: Item)
    ensures ItemsEvents(key, items + [item]) == ItemsEvents(key, items) + ItemEvents(key, |items| + 1, item)
  {
    assert (items + [item])[..|items|] == items;
  }

  lemma RefsReadAt(items: seq<Item>, n: nat)
    requires RefsRead(items) && n < |items|
    ensures |Refs(items[n])| <= MAX_TOOL_CALLS
  {
  }

  predicate RefsRead(items: seq<Item>) {
    forall i :: 0 <= i < |items| ==> |Refs(items[i])| <= MAX_TOOL_CALLS
  }

  /** How far an import has come: what it imported and read, and the trajectories it called
      and, of those, followed, in order. */
  datatype Progress = Progress(imported: set<string>, trajectories: nat, events: seq<Event>, called: set<string>,
                               followed: seq<string>)

  ghost predicate Reading(steps: seq<Step>, doc: Trajectories, embedded: set<string>, p: Progress) {
    Bounded(embedded, p) && Traced(steps, p) && p.events == EventsOf(doc, p.followed)
  }

  predicate Bounded(embedded: set<string>, p: Progress) {
    && p.imported <= embedded && p.trajectories == |p.called|
    && |p.followed| <= p.trajectories && |p.followed| <= MAX_TRAJECTORIES
    && |p.events| + |p.imported| <= MAX_EVENTS
  }

  /** What is called was imported, by a trajectory that was followed. */
  predicate Traced(steps: seq<Step>, p: Progress) {
    && (forall k :: k in p.called ==> k == "" || k in p.imported)
    && (forall k :: k in p.imported ==> OwnerOf(steps, k) in p.followed)
    && (forall k :: k in p.followed ==> k in p.called) && AtifTheorems.NoRepeats(p.followed)
    && (Few(steps) ==> forall k :: k in p.called ==> k in p.followed)
  }

  /** Whether a trajectory may be called now. */
  predicate Callable(p: Progress, key: string) {
    key !in p.called && (key == "" || key in p.imported)
  }

  function OwnerOf(steps: seq<Step>, key: string): string {
    if IsSubagent(steps, key) then OwnerAt(steps, Index(steps, key)) else ""
  }

  lemma LeftOutTraced(steps: seq<Step>, p: Progress, key: string)
    requires Traced(steps, p) && !Few(steps) && Callable(p, key)
    ensures Traced(steps, p.(trajectories := p.trajectories + 1, called := p.called + {key}))
  {
    hide OwnerOf, Few, AtifTheorems.NoRepeats;
  }

  /** A trajectory called and left out. */
  lemma LeftOut(steps: seq<Step>, doc: Trajectories, embedded: set<string>, p: Progress, key: string)
    requires Reading(steps, doc, embedded, p) && !Few(steps) && Callable(p, key)
    ensures Reading(steps, doc, embedded, p.(trajectories := p.trajectories + 1, called := p.called + {key}))
  {
    hide EventsOf, Traced;
    LeftOutTraced(steps, p, key);
    assert |p.called + {key}| == |p.called| + 1;
  }

  /** The progress after a trajectory is followed that brings these subagents. */
  function TakenIn(p: Progress, key: string, imported: set<string>, chain: seq<Event>): Progress {
    Progress(imported, p.trajectories + 1, p.events + chain, p.called + {key}, p.followed + [key])
  }

  lemma TakenInReads(steps: seq<Step>, doc: Trajectories, embedded: set<string>, p: Progress, key: string,
                     imported: set<string>, chain: seq<Event>, queue: seq<string>)
    requires Reading(steps, doc, embedded, p) && Callable(p, key) && p.trajectories < MAX_TRAJECTORIES && key in doc
    requires p.imported <= imported <= embedded && |p.events| + |chain| + |imported| <= MAX_EVENTS
    requires forall k :: k in imported <==> k in p.imported || k in queue
    requires forall q :: q in queue ==> ChildOf(steps, q, key)
    requires chain == ItemsEvents(key, doc[key].items)
    ensures Reading(steps, doc, embedded, TakenIn(p, key, imported, chain))
  {
    hide EventsOf, ItemsEvents, Few, Traced, ChildOf;
    EventsMore(doc, p.followed, key);
    TakenInTraced(steps, p, key, imported, chain, queue);
    assert |p.called + {key}| == |p.called| + 1;
  }

  lemma TakenInTraced(steps: seq<Step>, p: Progress, key: string, imported: set<string>, chain: seq<Event>,
                      queue: seq<string>)
    requires Traced(steps, p) && Callable(p, key) && p.imported <= imported
    requires forall k :: k in imported <==> k in p.imported || k in queue
    requires forall q :: q in queue ==> ChildOf(steps, q, key)
    ensures Traced(steps, TakenIn(p, key, imported, chain))
  {
    hide Few, AtifTheorems.NoRepeats;
    OneMore(p.followed, key);
    OwnersFollowed(steps, p, key, imported, queue);
    hide OwnerOf, ChildOf;
  }

  lemma OneMore(keys: seq<string>, key: string)
    requires AtifTheorems.NoRepeats(keys) && key !in keys
    ensures AtifTheorems.NoRepeats(keys + [key]) && forall k :: k in keys + [key] <==> k in keys || k == key
  {
  }

  lemma OwnersFollowed(steps: seq<Step>, p: Progress, key: string, imported: set<string>, queue: seq<string>)
    requires forall k :: k in p.imported ==> OwnerOf(steps, k) in p.followed
    requires forall k :: k in imported <==> k in p.imported || k in queue
    requires forall q :: q in queue ==> ChildOf(steps, q, key)
    ensures forall k :: k in imported ==> OwnerOf(steps, k) in p.followed + [key]
  {
  }

  class Importer {
    const doc: Trajectories
    const embedded: set<string>
    var imported: set<string>
    var trajectories: nat
    var events: seq<Event>
    ghost var called: set<string>
    ghost var followed: seq<string>

    ghost predicate Valid(steps: seq<Step>)
      reads this
    {
      FromRun(steps, doc) && Indexed(steps, embedded) && Reading(steps, doc, embedded, SoFar())
    }

    ghost function SoFar(): Progress
      reads this
    {
      Progress(imported, trajectories, events, called, followed)
    }

    constructor (ghost steps: seq<Step>, d: Trajectories)
      requires FromRun(steps, d)
      ensures Valid(steps) && doc == d && trajectories == 0 && called == {} && followed == []
    {
      var index := Collect(steps, d);
      doc, embedded := d, index;
      imported, trajectories, events := {}, 0, [];
      called, followed := {}, [];
    }

    /** _subagents(): the references not yet imported are queued. */
    method Subagents(refs: seq<string>, queue: seq<string>) returns (more: seq<string>)
      requires imported <= embedded && AtifTheorems.NoRepeats(queue) && forall q :: q in queue ==> q in imported
      modifies this`imported
      ensures old(imported) <= imported <= embedded && queue <= more && AtifTheorems.NoRepeats(more)
      ensures forall k :: k in imported <==> k in old(imported) || k in more[|queue|..]
      ensures forall q :: q in more[|queue|..] ==> q in refs && q !in old(imported)
      ensures |refs| <= MAX_TOOL_CALLS ==> forall r :: r in refs && r in embedded ==> r in imported
    {
      more := queue;
      var read := if |refs| < MAX_TOOL_CALLS then |refs| else MAX_TOOL_CALLS;
      for i := 0 to read
        invariant old(imported) <= imported <= embedded && queue <= more && AtifTheorems.NoRepeats(more)
        invariant forall q :: q in more ==> q in imported
        invariant forall k :: k in imported <==> k in old(imported) || k in more[|queue|..]
        invariant forall q :: q in more[|queue|..] ==> q in refs && q !in old(imported)
        invariant forall j :: 0 <= j < i && refs[j] in embedded ==> refs[j] in imported
      {
        if refs[i] in embedded && refs[i] !in imported {
          imported := imported + {refs[i]};
          more := more + [refs[i]];
          assert more[|queue|..] == more[..|more| - 1][|queue|..] + [refs[i]];
        }
      }
    }

    /** The items of one trajectory: their events, and the subagents they bring to follow. */
    method ReadItems(key: string) returns (ok: bool, chain: seq<Event>, queue: seq<string>)
      requires key in doc && imported <= embedded && |events| + |imported| <= MAX_EVENTS
      modifies this`imported
      ensures old(imported) <= imported <= embedded && AtifTheorems.NoRepeats(queue)
      ensures forall k :: k in imported <==> k in old(imported) || k in queue
      ensures forall q :: q in queue ==> q !in old(imported) && ReferredBy(doc[key].items, q)
      ensures ok ==> chain == ItemsEvents(key, doc[key].items) && |events| + |chain| + |imported| <= MAX_EVENTS
      ensures ok && RefsRead(doc[key].items) ==>
                forall r :: ReferredBy(doc[key].items, r) && r in embedded ==> r in imported
      ensures !ok ==> |events| + |ItemsEvents(key, doc[key].items)| + |embedded| > MAX_EVENTS
    {
      hide ItemsEvents, ItemEvents, AllIn, Refs, RefsRead, AtifTheorems.NoRepeats;
      var items := doc[key].items;
      chain, queue := [], [];
      NothingRead(key, embedded, imported);
      assert items[..0] == [];
      for n := 0 to |items|
        invariant old(imported) <= imported <= embedded && AtifTheorems.NoRepeats(queue)
        invariant forall k :: k in imported <==> k in old(imported) || k in queue
        invariant forall q :: q in queue ==> q !in old(imported) && ReferredBy(items, q)
        invariant chain == ItemsEvents(key, items[..n]) && |events| + |chain| + |imported| <= MAX_EVENTS
        invariant RefsRead(items) ==> AllIn(items[..n], embedded, imported)
      {
        assert items[..n + 1] == items[..n] + [items[n]];
        ItemsEventsMore(key, items[..n], items[n]);
        chain := chain + ItemEvents(key, n + 1, items[n]);
        ghost var before := imported;
        var longer := Subagents(Refs(items[n]), queue);
        assert longer == queue + longer[|queue|..];
        queue := longer;
        AllInMore(items[..n], items[n], embedded, before, imported);
        if RefsRead(items) {
          RefsReadAt(items, n);
        }
        if |events| + |chain| + |imported| > MAX_EVENTS {
          ItemsEventsGrow(key, items, n + 1);
          SubsetSize(imported, embedded);
          return false, chain, queue;
        }
      }
      assert items[..|items|] == items;
      AllInWhole(items, embedded, imported);
      ok := true;
    }

    /** trajectory(): the items of one trajectory, then those of the subagents they refer to. It
        fails only when there are too many events. */
    method Trajectory(ghost steps: seq<Step>, key: string, depth: nat) returns (ok: bool)
      requires Valid(steps) && key !in called && (key == "" || key in imported) && IsKey(steps, key)
      requires depth == Depth(steps, key)
      modifies this
      ensures ok ==> Valid(steps) && old(followed) <= followed && old(imported) <= imported
      ensures ok ==> old(called) <= called && key in called
      ensures ok ==> forall k :: k in called ==> k in old(called) || k == key || (k in imported && k !in old(imported))
      ensures ok && old(trajectories) < MAX_TRAJECTORIES && depth <= MAX_DEPTH ==> old(followed) + [key] <= followed
      ensures ok && Few(steps) ==> Complete(steps, embedded, followed, |old(followed)|)
      ensures !ok ==> TooMany(steps, doc)
      decreases MAX_DEPTH + 1 - depth
    {
      hide Laid, Indexed, Few, Complete, EventsOf, ItemsEvents, Depth, ChildOf, OwnerOf, IsKey, TooMany, Reading;
      hide ReferredBy, RefsRead, WellNamed, ParentsFirst;
      ghost var p := SoFar();
      called := called + {key};
      trajectories := trajectories + 1;
      if trajectories > MAX_TRAJECTORIES || depth > MAX_DEPTH {
        NotFew(steps, doc, embedded, p, key);
        LeftOut(steps, doc, embedded, p, key);
        return true;
      }
      CanRead(steps, doc, embedded, p, key);
      var read, chain, queue := ReadItems(key);
      if !read {
        EventsPassed(steps, doc, embedded, p, key);
        return false;
      }
      QueueOwned(steps, doc, embedded, p, imported, key, queue);
      TakenInReads(steps, doc, embedded, p, key, imported, chain, queue);
      events := events + chain;
      followed := followed + [key];
      ghost var start := |followed|;
      CompleteNothing(steps, embedded, followed);
      for i := 0 to |queue|
        invariant Valid(steps) && p.followed + [key] <= followed && p.imported <= imported
        invariant p.called <= called && key in called
        invariant forall k :: k in called ==> k in p.called || k == key || (k in imported && k !in p.imported)
        invariant forall j :: 0 <= j < |queue| ==> queue[j] in imported && (queue[j] in called <==> j < i)
        invariant Few(steps) ==> Complete(steps, embedded, followed, start)
      {
        ChildDeeper(steps, queue[i], key);
        ghost var mid := followed;
        var followedOn := Trajectory(steps, queue[i], depth + 1);
        if !followedOn {
          return false;
        }
        if Few(steps) {
          CompleteMore(steps, embedded, mid, followed, start);
        }
      }
      if Few(steps) {
        CompleteFrom(steps, doc, embedded, SoFar(), start - 1, key, queue);
      }
      ok := true;
    }
  }

  /** What is followed from here on has its indexed children followed too. */
  ghost predicate Complete(steps: seq<Step>, embedded: set<string>, followed: seq<string>, start: nat) {
    forall i, c :: start <= i < |followed| && ChildOf(steps, c, followed[i]) && c in embedded ==> c in followed
  }

  lemma CompleteNothing(steps: seq<Step>, embedded: set<string>, followed: seq<string>)
    ensures Complete(steps, embedded, followed, |followed|)
  {
  }

  lemma CompleteMore(steps: seq<Step>, embedded: set<string>, mid: seq<string>, after: seq<string>, start: nat)
    requires mid <= after && Complete(steps, embedded, mid, start) && Complete(steps, embedded, after, |mid|)
    ensures Complete(steps, embedded, after, start)
  {
  }

  lemma CompleteFrom(steps: seq<Step>, doc: Trajectories, embedded: set<string>, p: Progress, start: nat,
                     key: string, queue: seq<string>)
    requires Reading(steps, doc, embedded, p) && Few(steps)
    requires start < |p.followed| && p.followed[start] == key && Complete(steps, embedded, p.followed, start + 1)
    requires forall c :: ChildOf(steps, c, key) && c in embedded ==> c in queue
    requires forall q :: q in queue ==> q in p.called
    ensures Complete(steps, embedded, p.followed, start)
  {
  }

  /** A trajectory is only left out of a run that has too many of them. */
  lemma NotFew(steps: seq<Step>, doc: Trajectories, embedded: set<string>, p: Progress, key: string)
    requires Reading(steps, doc, embedded, p)
    requires FromRun(steps, doc) && Indexed(steps, embedded) && IsKey(steps, key)
    requires Callable(p, key)
    requires p.trajectories >= MAX_TRAJECTORIES || Depth(steps, key) > MAX_DEPTH
    ensures !Few(steps)
  {
    var all := p.called + {key};
    SubagentsBound(steps, all - {""});
    SubsetSize(all, (all - {""}) + {""});
  }

  lemma CanRead(steps: seq<Step>, doc: Trajectories, embedded: set<string>, p: Progress, key: string)
    requires Reading(steps, doc, embedded, p)
    requires FromRun(steps, doc) && IsKey(steps, key)
    ensures key in doc && p.imported <= embedded && |p.events| + |p.imported| <= MAX_EVENTS
  {
  }

  lemma EventsPassed(steps: seq<Step>, doc: Trajectories, embedded: set<string>, p: Progress, key: string)
    requires Reading(steps, doc, embedded, p)
    requires FromRun(steps, doc) && Indexed(steps, embedded) && key in doc && key !in p.called
    requires |p.events| + |ItemsEvents(key, doc[key].items)| + |embedded| > MAX_EVENTS
    ensures TooMany(steps, doc)
  {
    hide ItemsEvents, EventsOf, Few, Laid, Traced, WellNamed, ParentsFirst, AtifTheorems.NoRepeats, Depth;
    SubagentsBound(steps, embedded);
    EventsMore(doc, p.followed, key);
    FollowedHeld(steps, doc, embedded, p, key);
    assert |EventsOf(doc, p.followed + [key])| + |Subagents(steps, |steps|)| > MAX_EVENTS;
  }

  lemma KeyHeld(steps: seq<Step>, doc: Trajectories, key: string)
    requires FromRun(steps, doc) && IsKey(steps, key)
    ensures key in doc
  {
  }

  /** The followed trajectories and the one being read are different ones of the document. */
  lemma FollowedHeld(steps: seq<Step>, doc: Trajectories, embedded: set<string>, p: Progress, key: string)
    requires Traced(steps, p) && p.imported <= embedded && FromRun(steps, doc) && Indexed(steps, embedded)
    requires key in doc && key !in p.called
    ensures AtifTheorems.NoRepeats(p.followed + [key]) && forall k :: k in p.followed + [key] ==> k in doc
  {
    hide Few, OwnerOf, WellNamed, ParentsFirst, Depth, Laid;
    OneMore(p.followed, key);
    forall k | k in p.followed
      ensures k in doc
    {
      KeyHeld(steps, doc, k);
    }
  }

  /** What is queued while a trajectory is read are its own subagents; and all of those that
      are indexed, when its results have no more references than are read. */
  lemma QueueOwned(steps: seq<Step>, doc: Trajectories, embedded: set<string>, p: Progress, after: set<string>,
                   key: string, queue: seq<string>)
    requires Reading(steps, doc, embedded, p) && FromRun(steps, doc) && key in doc && Callable(p, key)
    requires forall k :: k in after <==> k in p.imported || k in queue
    requires forall q :: q in queue ==> q !in p.imported && ReferredBy(doc[key].items, q)
    requires RefsRead(doc[key].items) ==>
               forall r :: ReferredBy(doc[key].items, r) && r in embedded ==> r in after
    ensures forall q :: q in queue ==> ChildOf(steps, q, key) && q !in p.called && q != key
    ensures Few(steps) ==> forall c :: ChildOf(steps, c, key) && c in embedded ==> c in queue
  {
    hide EventsOf;
    forall c
      ensures ReferredBy(doc[key].items, c) <==> ChildOf(steps, c, key)
      ensures ChildOf(steps, c, key) ==> c != "" && c != key && OwnerOf(steps, c) == key
    {
      ChildrenOf(steps, doc, key, c);
      if ChildOf(steps, c, key) {
        ChildDeeper(steps, c, key);
      }
    }
    if Few(steps) {
      FewRefs(steps, doc, key);
    }
  }

  // ----- the whole import -----

  /** The trajectories an import follows: each once, no more than 1,000 and none more than eight
      deep; and all of those when there are no more than 1,000. */
  ghost predicate Followed(steps: seq<Step>, followed: seq<string>)
    requires WellNamed(steps) && ParentsFirst(steps)
  {
    && AtifTheorems.NoRepeats(followed) && |followed| <= MAX_TRAJECTORIES && "" in followed
    && (forall k :: k in followed ==> IsKey(steps, k) && Depth(steps, k) <= MAX_DEPTH)
    && (Few(steps) ==> forall k :: IsKey(steps, k) && Depth(steps, k) <= MAX_DEPTH ==> k in followed)
  }

  lemma {:induction false} CompleteFollows(steps: seq<Step>, embedded: set<string>, followed: seq<string>, key: string)
    requires WellNamed(steps) && ParentsFirst(steps) && Indexed(steps, embedded) && Few(steps)
    requires "" in followed && Complete(steps, embedded, followed, 0)
    requires IsKey(steps, key) && Depth(steps, key) <= MAX_DEPTH
    ensures key in followed
    decreases if key == "" then 0 else Index(steps, key) + 1
  {
    if key != "" {
      var owner := OwnerAt(steps, Index(steps, key));
      ChildDeeper(steps, key, owner);
      CompleteFollows(steps, embedded, followed, owner);
      var i :| 0 <= i < |followed| && followed[i] == owner;
      assert ChildOf(steps, key, followed[i]);
    }
  }

  lemma ImportFollows(steps: seq<Step>, doc: Trajectories, embedded: set<string>, p: Progress)
    requires FromRun(steps, doc) && Indexed(steps, embedded) && Reading(steps, doc, embedded, p)
    requires "" in p.followed && (Few(steps) ==> Complete(steps, embedded, p.followed, 0))
    ensures Followed(steps, p.followed) && p.events == EventsOf(doc, p.followed)
  {
    hide EventsOf, Few, Complete;
    if Few(steps) {
      forall k | IsKey(steps, k) && Depth(steps, k) <= MAX_DEPTH
        ensures k in p.followed
      {
        CompleteFollows(steps, embedded, p.followed, k);
      }
    }
  }

  /** atif_events() */
  method Import(ghost steps: seq<Step>, d: Document)
    returns (r: Result<seq<Event>, string>, ghost followed: seq<string>)
    requires FromRun(steps, d.trajectories)
    ensures r.Ok? ==> Followed(steps, followed) && r.value == EventsOf(d.trajectories, followed)
    ensures r.Err? ==> TooMany(steps, d.trajectories)
  {
    hide Indexed, Reading, Followed, EventsOf, TooMany, Complete, Few;
    var importer := new Importer(steps, d.trajectories);
    var ok := importer.Trajectory(steps, "", 0);
    followed := importer.followed;
    if !ok {
      return Err("trace import exceeds maximum event count"), followed;
    }
    assert followed[0] == "";
    ImportFollows(steps, d.trajectories, importer.embedded, importer.SoFar());
    r := Ok(importer.events);
  }

  lemma {:induction false} DistinctFit(a: seq<string>, b: seq<string>)
    requires AtifTheorems.NoRepeats(a) && forall x :: x in a ==> x in b
    ensures |a| <= |b|
  {
    DistinctSize(a);
    SetOfSeq(b, set x | x in a);
  }

  lemma {:induction false} DistinctSize(a: seq<string>)
    requires AtifTheorems.NoRepeats(a)
    ensures |set x | x in a| == |a|
  {
    if a != [] {
      var front, last := a[..|a| - 1], a[|a| - 1];
      DistinctSize(front);
      LastApart(a);
      assert (set x | x in a) == (set x | x in front) + {last};
    }
  }

  /** Every trajectory is followed exactly when there are no more than 1,000 and none is nested
      under more than eight subagents. */
  lemma AllFollowedIff(steps: seq<Step>, followed: seq<string>)
    requires WellNamed(steps) && ParentsFirst(steps) && Followed(steps, followed)
    ensures (forall k :: IsKey(steps, k) ==> k in followed) <==>
            Few(steps) && forall k :: IsKey(steps, k) ==> Depth(steps, k) <= MAX_DEPTH
  {
    KeysListed(steps);
    if forall k :: IsKey(steps, k) ==> k in followed {
      DistinctFit(Keys(steps), followed);
    }
  }

  // ----- what is read of each step -----

  lemma {:induction false} ItemsEventsHold(key: string, items: seq<Item>, e: Event)
    ensures e in ItemsEvents(key, items) <==>
            0 < e.number <= |items| && e in ItemEvents(key, e.number, items[e.number - 1])
    ensures e in ItemsEvents(key, items) ==> e.trajectory == key
  {
    if items != [] {
      var front, last := items[..|items| - 1], items[|items| - 1];
      ItemsEventsHold(key, front, e);
      ItemEventsAt(key, |items|, last, e);
      hide ItemEvents;
      assert 0 < e.number < |items| ==> front[e.number - 1] == items[e.number - 1];
    }
  }

  lemma ItemEventsAt(key: string, number: nat, item: Item, e: Event)
    ensures e in ItemEvents(key, number, item) ==> e.trajectory == key && e.number == number
  {
  }

  lemma {:induction false} EventsHold(doc: Trajectories, keys: seq<string>, e: Event)
    ensures e in EventsOf(doc, keys) <==>
            e.trajectory in keys && e.trajectory in doc && e in ItemsEvents(e.trajectory, doc[e.trajectory].items)
  {
    hide ItemsEvents, ItemEvents;
    if keys != [] {
      var last := keys[|keys| - 1];
      EventsHold(doc, keys[..|keys| - 1], e);
      LastApart(keys);
      if last in doc {
        ItemsEventsHold(last, doc[last].items, e);
      }
    }
  }

  /** What an item is read as: a human step is what was said; any other step is a model's, with the
      usage its metrics give, and a tool call's also a tool's; so is an item added for a
      reference, without usage. */
  ghost predicate ReadAs(item: Item, e: Event) {
    match e
    case Said(_, _) => item.Of? && item.step.kind == Human
    case Model(_, _, u) =>
      if item.Of? then item.step.kind != Human && u == Reimported(item.step.kind, item.step.usage) else u == NOTHING
    case Tool(_, _) => item.Of? ==> item.step.kind == ToolCall
  }

  /** The events of an import are exactly those of the items of the trajectories it follows. */
  lemma EventsExactly(doc: Trajectories, keys: seq<string>, e: Event)
    ensures e in EventsOf(doc, keys) <==>
            && e.trajectory in keys && e.trajectory in doc && 0 < e.number <= |doc[e.trajectory].items|
            && ReadAs(doc[e.trajectory].items[e.number - 1], e)
  {
    hide EventsOf, ItemsEvents, Reimported;
    EventsHold(doc, keys, e);
    if e.trajectory in doc {
      ItemsEventsHold(e.trajectory, doc[e.trajectory].items, e);
    }
  }

  /** Within a trajectory they stand in item order, a model's before its tool's. */
  lemma {:induction false} EventsInOrder(key: string, items: seq<Item>, i: nat, j: nat)
    requires i < j < |ItemsEvents(key, items)|
    ensures var a, b := ItemsEvents(key, items)[i], ItemsEvents(key, items)[j];
            a.number < b.number || (a.number == b.number && a.Model? && b.Tool?)
  {
    var front, n := items[..|items| - 1], |items|;
    var before := ItemsEvents(key, front);
    if j < |before| {
      EventsInOrder(key, front, i, j);
    } else if i < |before| {
      assert before[i] in before;
      ItemsEventsHold(key, front, before[i]);
      ItemEventsAt(key, n, items[n - 1], ItemsEvents(key, items)[j]);
    }
  }

  predicate StepAt(doc: Trajectories, key: string, n: nat, step: Step) {
    key in doc && 0 < n <= |doc[key].items| && doc[key].items[n - 1].Of? && doc[key].items[n - 1].step == step
  }

  /** The usage of a model event read from the step's item. */
  ghost predicate ReadFor(doc: Trajectories, events: seq<Event>, step: Step, u: Usage) {
    exists key, n :: StepAt(doc, key, n, step) && Model(key, n, u) in events
  }

  lemma {:induction false} ItemOfStep(items: seq<Item>, step: Step)
    ensures step in StepsIn(items) <==> exists n :: 0 <= n < |items| && items[n].Of? && items[n].step == step
  {
    if items != [] {
      ItemOfStep(items[..|items| - 1], step);
      LastApart(items);
    }
  }

  /** A step's item stands in its owner's trajectory, and a subagent step has none. */
  lemma StepPlaced(steps: seq<Step>, doc: Trajectories, i: nat, key: string)
    requires FromRun(steps, doc) && i < |steps| && key in doc
    ensures (exists n :: StepAt(doc, key, n, steps[i])) <==> steps[i].kind != Subagent && OwnerAt(steps, i) == key
  {
    hide Laid;
    StepsPartition(steps, Document(doc, ZERO, 0), i, key);
    ItemOfStep(doc[key].items, steps[i]);
    if n :| 0 <= n < |doc[key].items| && doc[key].items[n].Of? && doc[key].items[n].step == steps[i] {
      assert StepAt(doc, key, n + 1, steps[i]);
    }
    assert forall n :: StepAt(doc, key, n, steps[i]) ==> doc[key].items[n - 1].step == steps[i];
  }

  /** What an import reads for a step: its item's usage as ATIF carries it, exactly when its
      trajectory is followed and the item has metrics. */
  lemma ReadExactly(steps: seq<Step>, doc: Trajectories, followed: seq<string>, i: nat, u: Usage)
    requires FromRun(steps, doc) && i < |steps|
    ensures ReadFor(doc, EventsOf(doc, followed), steps[i], u) <==>
            steps[i].kind !in {Human, Subagent} && OwnerAt(steps, i) in followed &&
            u == Reimported(steps[i].kind, steps[i].usage)
  {
    var step, owner := steps[i], OwnerAt(steps, i);
    hide FromRun, OwnerAt, Reimported, EventsOf, StepAt;
    forall key, n | StepAt(doc, key, n, step) && Model(key, n, u) in EventsOf(doc, followed)
      ensures step.kind !in {Human, Subagent} && owner in followed && u == Reimported(step.kind, step.usage)
    {
      StepHeld(doc, key, n, step);
      StepPlaced(steps, doc, i, key);
      ReadAt(doc, followed, key, n, step, u);
    }
    if step.kind !in {Human, Subagent} && owner in followed && u == Reimported(step.kind, step.usage) {
      OwnerHeld(steps, doc, i);
      StepPlaced(steps, doc, i, owner);
      var n :| StepAt(doc, owner, n, step);
      ReadAt(doc, followed, owner, n, step, u);
    }
  }

  lemma StepHeld(doc: Trajectories, key: string, n: nat, step: Step)
    requires StepAt(doc, key, n, step)
    ensures key in doc
  {
  }

  lemma ReadAt(doc: Trajectories, followed: seq<string>, key: string, n: nat, step: Step, u: Usage)
    requires StepAt(doc, key, n, step) && step.kind != Subagent
    ensures Model(key, n, u) in EventsOf(doc, followed) <==>
            key in followed && step.kind != Human && u == Reimported(step.kind, step.usage)
  {
    hide Reimported;
    EventsHold(doc, followed, Model(key, n, u));
    ItemsEventsHold(key, doc[key].items, Model(key, n, u));
  }

  lemma OwnerHeld(steps: seq<Step>, doc: Trajectories, i: nat)
    requires FromRun(steps, doc) && i < |steps|
    ensures IsKey(steps, OwnerAt(steps, i)) && OwnerAt(steps, i) in doc
  {
    OwnerExists(steps, i);
  }

  /** The step's usage is what is read for it, or there is none and nothing is read. */
  ghost predicate Restored(doc: Trajectories, events: seq<Event>, step: Step) {
    || (exists u :: ReadFor(doc, events, step, u) && SameUsage(u, step.usage))
    || (Unused(step.usage) && forall u :: !ReadFor(doc, events, step, u))
  }

  /** A step's usage comes back exactly when it has none, or its trajectory is followed and ATIF
      can carry it; in a run of no more than 1,000 trajectories it is followed exactly when at
      most eight subagents stand above the step. */
  lemma StepRestored(steps: seq<Step>, doc: Trajectories, followed: seq<string>, i: nat)
    requires FromRun(steps, doc) && Followed(steps, followed) && i < |steps| && Counts(steps[i].usage)
    ensures Restored(doc, EventsOf(doc, followed), steps[i]) <==>
            || Unused(steps[i].usage)
            || (OwnerAt(steps, i) in followed && Carried(steps[i].kind, steps[i].usage))
    ensures Few(steps) ==> IsKey(steps, OwnerAt(steps, i)) &&
                           (OwnerAt(steps, i) in followed <==> Depth(steps, OwnerAt(steps, i)) <= MAX_DEPTH)
  {
    var step := steps[i];
    OwnerHeld(steps, doc, i);
    UsageRestored(step.kind, step.usage);
    UnusedReadsSame(step.kind, step.usage);
    hide FromRun, EventsOf, ReadFor, OwnerAt, Reimported, SameUsage, Few, Depth;
    forall u
      ensures ReadFor(doc, EventsOf(doc, followed), step, u) <==>
              step.kind !in {Human, Subagent} && OwnerAt(steps, i) in followed && u == Reimported(step.kind, step.usage)
    {
      ReadExactly(steps, doc, followed, i, u);
    }
  }

  lemma UnusedReadsSame(kind: Kind, u: Usage)
    requires Counts(u)
    ensures Unused(u) ==> Carried(kind, u) && SameUsage(Reimported(kind, u), u)
  {
    hide SameUsage, Reimported, NoOthers;
    UsageRestored(kind, u);
  }

  /** Export, then import: for every step of a run with no more than 1,000 trajectories, the
      exact condition under which its usage comes back. */
  method ExportThenImport(steps: seq<Step>) returns (d: Document, r: Result<seq<Event>, string>)
    requires WellNamed(steps) && ParentsFirst(steps) && forall i :: 0 <= i < |steps| ==> Counts(steps[i].usage)
    ensures r.Err? ==> TooMany(steps, d.trajectories)
    ensures r.Ok? && Few(steps) ==> forall i :: 0 <= i < |steps| ==>
              IsKey(steps, OwnerAt(steps, i)) &&
              (Restored(d.trajectories, r.value, steps[i]) <==>
                 || Unused(steps[i].usage)
                 || (Depth(steps, OwnerAt(steps, i)) <= MAX_DEPTH && Carried(steps[i].kind, steps[i].usage)))
  {
    hide Few, Restored, Unused, Carried, Counts, TooMany, Totalled, EventsOf, Followed, OwnerAt, Depth;
    d := ToAtif(steps);
    ghost var followed;
    r, followed := Import(steps, d);
    if r.Ok? {
      forall i | 0 <= i < |steps| && Few(steps)
        ensures IsKey(steps, OwnerAt(steps, i)) &&
                (Restored(d.trajectories, r.value, steps[i]) <==>
                   || Unused(steps[i].usage)
                   || (Depth(steps, OwnerAt(steps, i)) <= MAX_DEPTH && Carried(steps[i].kind, steps[i].usage)))
      {
        StepRestored(steps, d.trajectories, followed, i);
      }
    }
  }
}
