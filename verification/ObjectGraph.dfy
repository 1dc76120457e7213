// opentine/_artifact_v4.py and _artifact_v4_repo.py: the graph of content-addressed
// envelopes, the worklist that closes a root, and the stack that orders it.
module ObjectGraph {
  import opened Outcomes

  datatype Kind = Blob | Event | Run | Annotation | Attestation

  /** A typed object id: the kind it names and the digest of the stored bytes. */
  datatype Oid = Oid(kind: Kind, digest: string)

  /** What the graph operations see of an envelope: the id its bytes derive, its
      validated links, and the fields that chain annotations. `body` stands for the rest. */
  datatype Envelope = Envelope(oid: Oid, links: seq<Oid>, target: Option<Oid>, previous: Option<Oid>, body: string)

  type Store = map<Oid, Envelope>

  // ----- reachability -----

  ghost predicate Walk(g: Store, p: seq<Oid>) {
    forall i :: 0 <= i < |p| - 1 ==> p[i] in g && p[i + 1] in g[p[i]].links
  }

  ghost predicate WalkBetween(g: Store, p: seq<Oid>, a: Oid, b: Oid) {
    |p| > 0 && p[0] == a && p[|p| - 1] == b && Walk(g, p)
  }

  /** b is a or is named by a chain of links of stored objects starting at a; b itself
      need not be stored. */
  ghost predicate Reaches(g: Store, a: Oid, b: Oid) {
    exists p :: WalkBetween(g, p, a, b)
  }

  /** Links of stored objects are stored. */
  ghost predicate LinkClosed(g: Store) {
    forall o, l :: o in g && l in g[o].links ==> l in g
  }

  ghost predicate Addressed(g: Store) {
    forall o :: o in g ==> g[o].oid == o
  }

  /** Everything the root reaches is stored. */
  ghost predicate Complete(g: Store, root: Oid) {
    forall o :: Reaches(g, root, o) ==> o in g
  }

  /** seen is precisely what the root reaches. */
  ghost predicate IsClosure(g: Store, root: Oid, seen: Store) {
    && (forall o :: o in seen <==> Reaches(g, root, o))
    && (forall o :: o in seen ==> o in g && seen[o] == g[o])
  }

  lemma ReachesSelf(g: Store, a: Oid)
    ensures Reaches(g, a, a)
  {
    assert WalkBetween(g, [a], a, a);
  }

  lemma ReachesLink(g: Store, a: Oid, b: Oid, l: Oid)
    requires Reaches(g, a, b) && b in g && l in g[b].links
    ensures Reaches(g, a, l)
  {
    var p :| WalkBetween(g, p, a, b);
    assert WalkBetween(g, p + [l], a, l);
  }

  /** A set that holds the root and the links of its members holds all the root reaches. */
  lemma {:induction false} WalkStays(g: Store, s: set<Oid>, p: seq<Oid>, a: Oid, b: Oid)
    requires WalkBetween(g, p, a, b) && a in s
    requires forall o, l :: o in s && o in g && l in g[o].links ==> l in s
    ensures b in s
    decreases |p|
  {
    if |p| > 1 {
      assert p[0] in g && p[1] in g[p[0]].links;
      var q := p[1..];
      forall i | 0 <= i < |q| - 1
        ensures q[i] in g && q[i + 1] in g[q[i]].links
      {
        assert q[i] == p[i + 1] && q[i + 1] == p[i + 2];
      }
      WalkStays(g, s, q, p[1], b);
    }
  }

  lemma ReachesWithin(g: Store, s: set<Oid>, a: Oid)
    requires a in s
    requires forall o, l :: o in s && o in g && l in g[o].links ==> l in s
    ensures forall b :: Reaches(g, a, b) ==> b in s
  {
    forall b | Reaches(g, a, b)
      ensures b in s
    {
      var p :| WalkBetween(g, p, a, b);
      WalkStays(g, s, p, a, b);
    }
  }

  lemma ClosureUnique(g: Store, root: Oid, s: Store, t: Store)
    requires IsClosure(g, root, s) && IsClosure(g, root, t)
    ensures s == t
  {
    assert s.Keys == t.Keys;
  }

  /** What one object map reaches is decided by the part the root reaches: a store that
      agrees on it has the same closure. */
  lemma ClosureTransfers(g: Store, h: Store, root: Oid, seen: Store)
    requires IsClosure(g, root, seen)
    requires forall o :: o in seen ==> o in h && h[o] == seen[o]
    ensures IsClosure(h, root, seen)
  {
    ReachesSelf(g, root);
    forall o, l | o in seen.Keys && l in seen[o].links
      ensures l in seen
    {
      ReachesLink(g, root, o, l);
    }
    ReachesWithin(h, seen.Keys, root);
    forall o | o in seen
      ensures Reaches(h, root, o)
    {
      var p :| WalkBetween(g, p, root, o);
      forall i | 0 <= i < |p|
        ensures p[i] in seen
      {
        assert WalkBetween(g, p[..i + 1], root, p[i]);
      }
      assert WalkBetween(h, p, root, o);
    }
  }

  /** The closure of a closure is itself: what the writer wrote, the reader's check accepts. */
  lemma ClosureOfClosure(g: Store, root: Oid, seen: Store)
    requires IsClosure(g, root, seen)
    ensures IsClosure(seen, root, seen)
  {
    ClosureTransfers(g, seen, root, seen);
  }

  // ----- _closure -----

  datatype GraphError =
    | NoSuchObject(oid: Oid)
    | MissingLink(oid: Oid)

  ghost predicate Found(objects: Store, root: Oid, seen: Store) {
    root in seen && forall o :: o in seen ==> o in objects && seen[o] == objects[o] && Reaches(objects, root, o)
  }

  /** The links of everything seen, but for what waits on the stack and the one object
      being read, are seen. */
  ghost predicate Expanded(seen: Store, stack: seq<Oid>, reading: set<Oid>) {
    && (forall o :: o in stack ==> o in seen)
    && (forall o, l :: o in seen && o !in stack && o !in reading && l in seen[o].links ==> l in seen)
  }

  lemma FoundMore(objects: Store, root: Oid, seen: Store, stack: seq<Oid>, top: Oid, link: Oid)
    requires Found(objects, root, seen) && Expanded(seen, stack, {top})
    requires top in seen && link in seen[top].links && link in objects && link !in seen
    ensures Found(objects, root, seen[link := objects[link]])
    ensures Expanded(seen[link := objects[link]], stack + [link], {top})
  {
    ReachesLink(objects, root, top, link);
    assert forall o :: o in stack + [link] <==> o in stack || o == link;
  }

  /** The worklist terminates on every graph, cyclic or not; it answers the exact closure,
      or names a reachable object that is not there. */
  method Closure(objects: Store, root: Oid) returns (r: Result<Store, GraphError>)
    ensures r.Ok? <==> Complete(objects, root)
    ensures r.Ok? ==> IsClosure(objects, root, r.value)
    ensures r.Err? ==> r.error.oid !in objects && Reaches(objects, root, r.error.oid)
  {
    ReachesSelf(objects, root);
    if root !in objects {
      return Err(NoSuchObject(root));
    }
    var seen := map[root := objects[root]];
    var stack := [root];
    while stack != []
      invariant Found(objects, root, seen) && Expanded(seen, stack, {})
      decreases objects.Keys - seen.Keys, |stack|
    {
      var top := stack[|stack| - 1];
      ghost var before, height := seen.Keys, |stack|;
      assert stack == stack[..|stack| - 1] + [top];
      stack := stack[..|stack| - 1];
      var links := seen[top].links;
      for i := 0 to |links|
        invariant Found(objects, root, seen) && Expanded(seen, stack, {top})
        invariant top in seen && links == seen[top].links && before <= seen.Keys
        invariant seen.Keys == before ==> |stack| < height
        invariant forall j :: 0 <= j < i ==> links[j] in seen
      {
        var link := links[i];
        if link in seen {
          continue;
        }
        if link !in objects {
          ReachesLink(objects, root, top, link);
          return Err(MissingLink(link));
        }
        FoundMore(objects, root, seen, stack, top, link);
        seen := seen[link := objects[link]];
        stack := stack + [link];
        assert link in seen.Keys && link !in before;
      }
      Shrinks(objects, before, seen.Keys);
    }
    ReachesWithin(objects, seen.Keys, root);
    r := Ok(seen);
  }

  lemma Shrinks(objects: Store, before: set<Oid>, after: set<Oid>)
    requires before <= after <= objects.Keys
    ensures objects.Keys - after <= objects.Keys - before
    ensures before != after ==> objects.Keys - after < objects.Keys - before
  {
    if before != after {
      var o :| o in after && o !in before;
      assert o in objects.Keys - before && o !in objects.Keys - after;
    }
  }

  // ----- _post_order -----

  /** Content addressing gives every object a rank above the objects it links to. */
  ghost predicate Ranked(g: Store, rank: Oid -> nat) {
    forall o, l :: o in g && l in g[o].links ==> rank(l) < rank(o)
  }

  datatype Frame = Frame(oid: Oid, expanded: bool)

  /** How many pops an unexpanded frame can still cost. */
  ghost function Weight(g: Store, rank: Oid -> nat, o: Oid): nat
    requires Ranked(g, rank)
    decreases rank(o), 1, 0
  {
    if o in g then 2 + LinkWeight(g, rank, o, g[o].links) else 2
  }

  ghost function LinkWeight(g: Store, rank: Oid -> nat, o: Oid, links: seq<Oid>): nat
    requires Ranked(g, rank) && forall l :: l in links ==> rank(l) < rank(o)
    decreases rank(o), 0, |links|
  {
    if links == [] then 0 else Weight(g, rank, links[0]) + LinkWeight(g, rank, o, links[1..])
  }

  ghost function StackWeight(g: Store, rank: Oid -> nat, stack: seq<Frame>): nat
    requires Ranked(g, rank)
  {
    if stack == [] then 0
    else
      var top := stack[|stack| - 1];
      StackWeight(g, rank, stack[..|stack| - 1]) + if top.expanded then 1 else Weight(g, rank, top.oid)
  }

  /** The frames pushed for the links that are not done. */
  function Pending(links: seq<Oid>, done: set<Oid>): (frames: seq<Frame>)
    ensures forall f :: f in frames <==> f.oid in links && f.oid !in done && !f.expanded
  {
    if links == [] then []
    else (if links[0] in done then [] else [Frame(links[0], false)]) + Pending(links[1..], done)
  }

  lemma {:induction false} StackWeightAppend(g: Store, rank: Oid -> nat, s: seq<Frame>, t: seq<Frame>)
    requires Ranked(g, rank)
    ensures StackWeight(g, rank, s + t) == StackWeight(g, rank, s) + StackWeight(g, rank, t)
  {
    if t == [] {
      assert s + t == s;
    } else {
      var n := |t| - 1;
      assert (s + t)[..|s + t| - 1] == s + t[..n];
      StackWeightAppend(g, rank, s, t[..n]);
    }
  }

  lemma {:induction false} PendingWeight(g: Store, rank: Oid -> nat, o: Oid, links: seq<Oid>, done: set<Oid>)
    requires Ranked(g, rank) && forall l :: l in links ==> rank(l) < rank(o)
    ensures StackWeight(g, rank, Pending(links, done)) <= LinkWeight(g, rank, o, links)
  {
    if links != [] {
      var first := if links[0] in done then [] else [Frame(links[0], false)];
      PendingWeight(g, rank, o, links[1..], done);
      StackWeightAppend(g, rank, first, Pending(links[1..], done));
      assert first != [] ==> first[..0] == [];
    }
  }

  function Oids(order: seq<Envelope>): set<Oid> {
    set e | e in order :: e.oid
  }

  /** Every link of order[k] is the id of an earlier entry. */
  ghost predicate LinksFirst(order: seq<Envelope>) {
    forall k, l :: 0 <= k < |order| && l in order[k].links ==> l in Oids(order[..k])
  }

  ghost predicate NoRepeats(order: seq<Envelope>) {
    forall i, j :: 0 <= i < j < |order| ==> order[i].oid != order[j].oid
  }

  /** A topological enumeration of exactly what the root reaches. */
  ghost predicate IsPostOrder(objects: Store, root: Oid, order: seq<Envelope>) {
    && (forall e :: e in order ==> e.oid in objects && e == objects[e.oid])
    && (forall o :: o in Oids(order) <==> Reaches(objects, root, o))
    && NoRepeats(order)
    && LinksFirst(order)
  }

  // ----- the stack's invariant -----

  ghost predicate InTail(stack: seq<Frame>, i: nat, l: Oid) {
    exists j :: i < j < |stack| && stack[j].oid == l
  }

  /** Each expanded frame has its links done or above it on the stack. */
  ghost predicate Waiting(objects: Store, stack: seq<Frame>, done: set<Oid>) {
    forall i, l ::
      (0 <= i < |stack| && stack[i].expanded && stack[i].oid in objects && l in objects[stack[i].oid].links) ==>
        l in done || InTail(stack, i, l)
  }

  ghost predicate Ordered(objects: Store, root: Oid, order: seq<Envelope>, done: set<Oid>) {
    && done == Oids(order)
    && (forall e :: e in order ==> e.oid in objects && e == objects[e.oid] && Reaches(objects, root, e.oid))
    && NoRepeats(order)
    && LinksFirst(order)
  }

  ghost predicate Stacked(objects: Store, root: Oid, stack: seq<Frame>, done: set<Oid>) {
    && (forall f :: f in stack ==> f.oid in objects && Reaches(objects, root, f.oid))
    && Waiting(objects, stack, done)
    && (root in done || exists i :: 0 <= i < |stack| && stack[i].oid == root)
  }

  /** Popping a frame whose object is done, or is being done now, keeps the others waiting
      for nothing they have lost. */
  lemma PopDone(objects: Store, root: Oid, stack: seq<Frame>, done: set<Oid>)
    requires stack != [] && Stacked(objects, root, stack, done) && stack[|stack| - 1].oid in done
    ensures Stacked(objects, root, stack[..|stack| - 1], done)
  {
    var n := |stack| - 1;
    var rest := stack[..n];
    forall i, l | 0 <= i < |rest| && rest[i].expanded && rest[i].oid in objects &&
                  l in objects[rest[i].oid].links && l !in done
      ensures InTail(rest, i, l)
    {
      assert InTail(stack, i, l);
      var j :| i < j < |stack| && stack[j].oid == l;
      assert rest[j].oid == l;
    }
    if root !in done {
      var i :| 0 <= i < |stack| && stack[i].oid == root;
      assert rest[i].oid == root;
    }
  }

  lemma MoreDone(objects: Store, root: Oid, stack: seq<Frame>, done: set<Oid>, oid: Oid)
    requires Stacked(objects, root, stack, done)
    ensures Stacked(objects, root, stack, done + {oid})
  {
  }

  /** Expanding a frame in place and pushing its undone links. */
  lemma PushLinks(objects: Store, root: Oid, stack: seq<Frame>, done: set<Oid>)
    requires stack != [] && Stacked(objects, root, stack, done) && LinkClosed(objects)
    ensures var n := |stack| - 1;
            var oid := stack[n].oid;
            Stacked(objects, root, stack[..n] + [Frame(oid, true)] + Pending(objects[oid].links, done), done)
  {
    var n := |stack| - 1;
    var oid := stack[n].oid;
    var pending := Pending(objects[oid].links, done);
    var next := stack[..n] + [Frame(oid, true)] + pending;
    forall f | f in next
      ensures f.oid in objects && Reaches(objects, root, f.oid)
    {
      if f in pending {
        ReachesLink(objects, root, oid, f.oid);
      } else if f != Frame(oid, true) {
        assert f in stack;
      }
    }
    assert forall j :: 0 <= j <= n ==> next[j].oid == stack[j].oid;
    assert next[n + 1..] == pending;
    forall i, l | 0 <= i < |next| && next[i].expanded && next[i].oid in objects &&
                  l in objects[next[i].oid].links && l !in done
      ensures InTail(next, i, l)
    {
      if i == n {
        assert Frame(l, false) in pending;
        var k :| 0 <= k < |pending| && pending[k] == Frame(l, false);
        assert next[n + 1 + k].oid == l;
      } else if i < n {
        assert next[i] == stack[i] && InTail(stack, i, l);
        var j :| i < j < |stack| && stack[j].oid == l;
        assert next[j].oid == l;
      }
    }
    if root !in done {
      var i :| 0 <= i < |stack| && stack[i].oid == root;
      assert next[i].oid == root;
    }
  }

  lemma Append(objects: Store, root: Oid, order: seq<Envelope>, done: set<Oid>, oid: Oid)
    requires Ordered(objects, root, order, done) && Addressed(objects)
    requires oid in objects && oid !in done && Reaches(objects, root, oid)
    requires forall l :: l in objects[oid].links ==> l in done
    ensures Ordered(objects, root, order + [objects[oid]], done + {oid})
  {
    var e := objects[oid];
    var next := order + [e];
    assert forall x :: x in next <==> x in order || x == e;
    assert Oids(next) == Oids(order) + {oid};
    forall i | 0 <= i < |order|
      ensures order[i].oid != oid
    {
      assert order[i] in order;
    }
    forall k, l | 0 <= k < |next| && l in next[k].links
      ensures l in Oids(next[..k])
    {
      if k < |order| {
        assert next[..k] == order[..k];
      } else {
        assert next[..k] == order;
      }
    }
  }

  lemma FinishedOrder(objects: Store, root: Oid, order: seq<Envelope>, done: set<Oid>)
    requires Ordered(objects, root, order, done) && Stacked(objects, root, [], done) && LinkClosed(objects)
    ensures IsPostOrder(objects, root, order)
  {
    forall o, l | o in done && o in objects && l in objects[o].links
      ensures l in done
    {
      var e :| e in order && e.oid == o;
      var k :| 0 <= k < |order| && order[k] == e;
      assert l in Oids(order[..k]);
      var f :| f in order[..k] && f.oid == l;
      assert f in order;
    }
    ReachesWithin(objects, done, root);
  }

  /** Links before linkers: the explicit-stack loop terminates although objects are pushed
      more than once, and enumerates exactly the reachable objects, each once. */
  method PostOrder(objects: Store, root: Oid, ghost rank: Oid -> nat) returns (order: seq<Envelope>)
    requires root in objects && LinkClosed(objects) && Addressed(objects) && Ranked(objects, rank)
    ensures IsPostOrder(objects, root, order)
  {
    order := [];
    var done: set<Oid> := {};
    var stack := [Frame(root, false)];
    ReachesSelf(objects, root);
    assert stack[0].oid == root;
    while stack != []
      invariant Ordered(objects, root, order, done) && Stacked(objects, root, stack, done)
      decreases StackWeight(objects, rank, stack)
    {
      var n := |stack| - 1;
      var Frame(oid, expanded) := stack[n];
      ghost var was := stack;
      stack := stack[..n];
      if oid in done {
        PopDone(objects, root, was, done);
        continue;
      }
      if expanded {
        forall l | l in objects[oid].links
          ensures l in done
        {
          assert was[n].expanded && !InTail(was, n, l);
        }
        Append(objects, root, order, done, oid);
        MoreDone(objects, root, was, done, oid);
        done := done + {oid};
        order := order + [objects[oid]];
        PopDone(objects, root, was, done);
        continue;
      }
      PushLinks(objects, root, was, done);
      PendingWeight(objects, rank, oid, objects[oid].links, done);
      StackWeightAppend(objects, rank, stack + [Frame(oid, true)], Pending(objects[oid].links, done));
      assert (stack + [Frame(oid, true)])[..n] == stack;
      stack := stack + [Frame(oid, true)] + Pending(objects[oid].links, done);
    }
    FinishedOrder(objects, root, order, done);
  }
}
