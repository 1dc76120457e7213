// opentine/_agent_trust.py: the refs that descend from an agent, followed in bounded rounds
// over claimed or recomputed edges.
module Lineage {
  import opened Basics
  import opened Outcomes

  const MAX_LINEAGE_ROUNDS := 10_000

  /** A claim that the agent `child` of a run was spawned by `parent`. */
  datatype Edge = Edge(runId: string, child: string, parent: string)

  // ----- descent -----

  function Children(edges: seq<Edge>, parents: set<string>): set<string> {
    set i | 0 <= i < |edges| && edges[i].parent in parents :: edges[i].child
  }

  /** Everything at most k links below the root. */
  function Within(edges: seq<Edge>, root: string, k: nat): set<string> {
    if k == 0 then {root} else Within(edges, root, k - 1) + Children(edges, Within(edges, root, k - 1))
  }

  ghost predicate Descends(edges: seq<Edge>, root: string, ref: string) {
    exists k :: ref in Within(edges, root, k)
  }

  predicate Closed(edges: seq<Edge>, found: set<string>) {
    forall i :: 0 <= i < |edges| && edges[i].parent in found ==> edges[i].child in found
  }

  // ----- one round, and rounds -----

  /** One round: each edge in turn adds its child once its parent is found. */
  function Pass(edges: seq<Edge>, found: set<string>): set<string> {
    if edges == [] then found
    else
      var before := Pass(edges[..|edges| - 1], found);
      var last := edges[|edges| - 1];
      if last.parent in before then before + {last.child} else before
  }

  function Passes(edges: seq<Edge>, root: string, rounds: nat): set<string> {
    if rounds == 0 then {root} else Pass(edges, Passes(edges, root, rounds - 1))
  }

  lemma {:induction false} PassAdds(edges: seq<Edge>, found: set<string>)
    ensures found <= Pass(edges, found) && Children(edges, found) <= Pass(edges, found)
  {
    if edges != [] {
      var rest, last := edges[..|edges| - 1], edges[|edges| - 1];
      PassAdds(rest, found);
      forall c | c in Children(edges, found)
        ensures c in Pass(edges, found)
      {
        var i :| 0 <= i < |edges| && edges[i].parent in found && edges[i].child == c;
        if i < |rest| {
          assert rest[i] == edges[i];
          assert c in Children(rest, found);
        }
      }
    }
  }

  lemma {:induction false} WithinGrows(edges: seq<Edge>, root: string, j: nat, k: nat)
    requires j <= k
    ensures Within(edges, root, j) <= Within(edges, root, k)
  {
    if j < k {
      WithinGrows(edges, root, j, k - 1);
    }
  }

  /** A round finds nothing but descendants. */
  lemma {:induction false} PassSound(edges: seq<Edge>, all: seq<Edge>, root: string, found: set<string>)
    requires forall e :: e in edges ==> e in all
    requires forall ref :: ref in found ==> Descends(all, root, ref)
    ensures forall ref :: ref in Pass(edges, found) ==> Descends(all, root, ref)
  {
    if edges != [] {
      var rest, last := edges[..|edges| - 1], edges[|edges| - 1];
      assert last in edges && forall e :: e in rest ==> e in edges;
      PassSound(rest, all, root, found);
      if last.parent in Pass(rest, found) {
        ChildDescends(all, root, last);
      }
    }
  }

  lemma ChildDescends(edges: seq<Edge>, root: string, e: Edge)
    requires e in edges && Descends(edges, root, e.parent)
    ensures Descends(edges, root, e.child)
  {
    var k: nat :| e.parent in Within(edges, root, k);
    var i :| 0 <= i < |edges| && edges[i] == e;
    assert edges[i].child in Children(edges, Within(edges, root, k));
    assert e.child in Within(edges, root, k + 1);
  }

  lemma {:induction false} PassesSound(edges: seq<Edge>, root: string, rounds: nat)
    ensures forall ref :: ref in Passes(edges, root, rounds) ==> Descends(edges, root, ref)
  {
    if rounds == 0 {
      assert root in Within(edges, root, 0);
    } else {
      PassesSound(edges, root, rounds - 1);
      PassSound(edges, edges, root, Passes(edges, root, rounds - 1));
    }
  }

  lemma {:induction false} PassesReach(edges: seq<Edge>, root: string, rounds: nat)
    ensures Within(edges, root, rounds) <= Passes(edges, root, rounds)
  {
    if rounds > 0 {
      PassesReach(edges, root, rounds - 1);
      PassAdds(edges, Passes(edges, root, rounds - 1));
      ChildrenGrow(edges, Within(edges, root, rounds - 1), Passes(edges, root, rounds - 1));
    }
  }

  lemma ChildrenGrow(edges: seq<Edge>, a: set<string>, b: set<string>)
    requires a <= b
    ensures Children(edges, a) <= Children(edges, b)
  {
  }

  /** A set with the root that no edge leaves holds every descendant: descent is the least
      such set. */
  lemma {:induction false} ClosedHoldsAll(edges: seq<Edge>, root: string, found: set<string>, k: nat)
    requires root in found && Closed(edges, found)
    ensures Within(edges, root, k) <= found
  {
    if k > 0 {
      ClosedHoldsAll(edges, root, found, k - 1);
    }
  }

  lemma StillIsClosed(edges: seq<Edge>, found: set<string>)
    requires Pass(edges, found) == found
    ensures Closed(edges, found)
  {
    PassAdds(edges, found);
    forall i | 0 <= i < |edges| && edges[i].parent in found
      ensures edges[i].child in found
    {
      assert edges[i].child in Children(edges, found);
    }
  }

  // ----- the walk -----

  /** The refs found, as the capped loop leaves them. */
  function Found(edges: seq<Edge>, root: string): set<string> {
    Passes(edges, root, MAX_LINEAGE_ROUNDS)
  }

  /** A round that finds nothing ends the walk: no later one would. */
  lemma {:induction false} SettledStays(edges: seq<Edge>, root: string, r: nat, rounds: nat)
    requires r <= rounds && Pass(edges, Passes(edges, root, r)) == Passes(edges, root, r)
    ensures Passes(edges, root, rounds) == Passes(edges, root, r)
  {
    if r < rounds {
      SettledStays(edges, root, r, rounds - 1);
    }
  }

  /** Each round that does not settle the walk finds at least one ref more. */
  lemma {:induction false} UnsettledGrows(edges: seq<Edge>, root: string, rounds: nat)
    requires Pass(edges, Passes(edges, root, rounds)) != Passes(edges, root, rounds)
    ensures |Passes(edges, root, rounds)| >= rounds + 1
  {
    if rounds > 0 {
      var before := Passes(edges, root, rounds - 1);
      assert Passes(edges, root, rounds) == Pass(edges, before) != before;
      UnsettledGrows(edges, root, rounds - 1);
      PassAdds(edges, before);
      SubsetSize(before, Passes(edges, root, rounds));
    }
  }

  /** Whatever the order of the edges and whatever cycles they form: the walk finds only
      descendants, and all of those within 10,000 links of the root. */
  lemma FoundDescend(edges: seq<Edge>, root: string)
    ensures forall ref :: ref in Found(edges, root) ==> Descends(edges, root, ref)
    ensures Within(edges, root, MAX_LINEAGE_ROUNDS) <= Found(edges, root)
  {
    PassesSound(edges, root, MAX_LINEAGE_ROUNDS);
    PassesReach(edges, root, MAX_LINEAGE_ROUNDS);
  }

  /** With at most 10,000 descendants besides the root, the walk finds exactly them. */
  lemma FoundExactly(edges: seq<Edge>, root: string, descendants: set<string>)
    requires forall ref :: ref in descendants <==> Descends(edges, root, ref)
    requires |descendants - {root}| <= MAX_LINEAGE_ROUNDS
    ensures Found(edges, root) == descendants
  {
    var found := Found(edges, root);
    FoundDescend(edges, root);
    assert found <= descendants;
    RootFound(edges, root, MAX_LINEAGE_ROUNDS);
    if Pass(edges, found) == found {
      StillIsClosed(edges, found);
      forall ref | ref in descendants
        ensures ref in found
      {
        var k: nat :| ref in Within(edges, root, k);
        ClosedHoldsAll(edges, root, found, k);
      }
    } else {
      UnsettledGrows(edges, root, MAX_LINEAGE_ROUNDS);
      assert descendants == (descendants - {root}) + {root};
      SubsetSize(found, descendants);
    }
  }

  lemma {:induction false} RootFound(edges: seq<Edge>, root: string, rounds: nat)
    ensures root in Passes(edges, root, rounds)
  {
    if rounds > 0 {
      RootFound(edges, root, rounds - 1);
      PassAdds(edges, Passes(edges, root, rounds - 1));
    }
  }

  // ----- the bound is sharp -----

  /** A chain of refs listed last link first: name n under name n - 1, ..., name 1 under name 0. */
  function Backwards(names: seq<string>): seq<Edge>
    requires |names| >= 1
  {
    if |names| == 1 then []
    else [Edge("", names[|names| - 1], names[|names| - 2])] + Backwards(names[..|names| - 1])
  }

  predicate DistinctNames(names: seq<string>) {
    forall i, j :: 0 <= i < j < |names| ==> names[i] != names[j]
  }

  function Prefix(names: seq<string>, k: nat): set<string>
    requires k <= |names|
  {
    set i | 0 <= i < k :: names[i]
  }

  lemma {:induction false} PassConcat(a: seq<Edge>, b: seq<Edge>, found: set<string>)
    ensures Pass(a + b, found) == Pass(b, Pass(a, found))
    decreases |b|
  {
    if b == [] {
      assert a + b == a;
    } else {
      assert (a + b)[..|a + b| - 1] == a + b[..|b| - 1];
      PassConcat(a, b[..|b| - 1], found);
    }
  }

  /** Read backwards, one round goes one link down. */
  lemma {:induction false} OneLinkARound(names: seq<string>, k: nat, n: nat)
    requires DistinctNames(names) && 1 <= k <= |names| && 1 <= n <= |names|
    ensures Pass(Backwards(names[..n]), Prefix(names, k)) ==
            if k < n then Prefix(names, k + 1) else Prefix(names, k)
    decreases n
  {
    var shown := names[..n];
    if n > 1 {
      var first := Edge("", shown[n - 1], shown[n - 2]);
      assert shown[..n - 1] == names[..n - 1];
      PassConcat([first], Backwards(names[..n - 1]), Prefix(names, k));
      LastLink(names, k, n, first);
      hide Pass, Prefix, Backwards, DistinctNames;
      OneLinkARound(names, if k == n - 1 then k + 1 else k, n - 1);
    } else {
      assert Backwards(shown) == [];
    }
  }

  /** The last link is followed only when the round starts just above it. */
  lemma LastLink(names: seq<string>, k: nat, n: nat, first: Edge)
    requires DistinctNames(names) && 1 <= k <= |names| && 1 < n <= |names|
    requires first == Edge("", names[n - 1], names[n - 2])
    ensures Pass([first], Prefix(names, k)) == if k == n - 1 then Prefix(names, k + 1) else Prefix(names, k)
  {
    assert [first][..0] == [] && Pass([], Prefix(names, k)) == Prefix(names, k);
    if k == n - 1 {
      assert Prefix(names, k) + {first.child} == Prefix(names, k + 1);
    } else if k >= n {
      assert names[n - 1] in Prefix(names, k);
      assert Prefix(names, k) + {first.child} == Prefix(names, k);
    } else {
      assert names[n - 2] !in Prefix(names, k);
    }
  }

  lemma {:induction false} BackwardsRounds(names: seq<string>, rounds: nat)
    requires DistinctNames(names) && rounds < |names|
    ensures Passes(Backwards(names), names[0], rounds) == Prefix(names, rounds + 1)
  {
    if rounds == 0 {
      assert Prefix(names, 1) == {names[0]};
    } else {
      BackwardsRounds(names, rounds - 1);
      OneLinkARound(names, rounds, |names|);
      assert names[..|names|] == names;
    }
  }

  /** A chain with one descendant more, read backwards, loses exactly what lies beyond the
      10,000th link. */
  lemma CapIsSharp(names: seq<string>)
    requires DistinctNames(names) && |names| > MAX_LINEAGE_ROUNDS
    ensures Found(Backwards(names), names[0]) == Prefix(names, MAX_LINEAGE_ROUNDS + 1)
  {
    BackwardsRounds(names, MAX_LINEAGE_ROUNDS);
  }

  // ----- what a run id nominates -----

  /** The (child, parent) pair a run and the signed manifests bear out, if any. */
  type Follow = string -> Option<(string, string)>

  /** An edge a walk follows: a claimed row, or the pair recomputed for a nominated run. */
  predicate Stated(e: Edge) {
    e.child != "" && e.parent != ""
  }

  function Pending(edges: seq<Edge>): (r: seq<Edge>)
    ensures forall e :: e in r <==> e in edges && e.child != "" && e.parent != ""
  {
    if edges == [] then []
    else
      assert forall e :: e in edges <==> e in edges[..|edges| - 1] || e == edges[|edges| - 1];
      Pending(edges[..|edges| - 1]) + if Stated(edges[|edges| - 1]) then [edges[|edges| - 1]] else []
  }

  /** dict.fromkeys over the run ids. */
  function Nominated(edges: seq<Edge>): (r: seq<string>)
    ensures forall id :: id in r <==> exists i :: 0 <= i < |edges| && edges[i].runId == id
  {
    if edges == [] then []
    else
      var before, id := Nominated(edges[..|edges| - 1]), edges[|edges| - 1].runId;
      if id in before then before else before + [id]
  }

  function Recomputed(ids: seq<string>, follow: Follow): (r: seq<Edge>)
    ensures forall e :: e in r <==> e.runId in ids && follow(e.runId) == Some((e.child, e.parent))
  {
    if ids == [] then []
    else
      var id := ids[|ids| - 1];
      assert forall x :: x in ids <==> x in ids[..|ids| - 1] || x == id;
      Recomputed(ids[..|ids| - 1], follow) +
      match follow(id)
      case Some(pair) => [Edge(id, pair.0, pair.1)]
      case None => []
  }

  predicate SameNominations(a: seq<Edge>, b: seq<Edge>) {
    && (forall i :: 0 <= i < |a| ==> exists j :: 0 <= j < |b| && b[j].runId == a[i].runId)
    && (forall i :: 0 <= i < |b| ==> exists j :: 0 <= j < |a| && a[j].runId == b[i].runId)
  }

  lemma {:induction false} SameEdgesSameDescent(a: seq<Edge>, b: seq<Edge>, root: string, k: nat)
    requires forall e :: e in a ==> e in b
    ensures Within(a, root, k) <= Within(b, root, k)
  {
    if k > 0 {
      SameEdgesSameDescent(a, b, root, k - 1);
      forall i | 0 <= i < |a| && a[i].parent in Within(a, root, k - 1)
        ensures a[i].child in Children(b, Within(b, root, k - 1))
      {
        assert a[i] in a;
        var j :| 0 <= j < |b| && b[j] == a[i];
      }
    }
  }

  lemma SameEdges(a: seq<Edge>, b: seq<Edge>, follow: Follow)
    requires SameNominations(a, b)
    ensures var p, q := Pending(Recomputed(Nominated(a), follow)), Pending(Recomputed(Nominated(b), follow));
            forall e :: e in p <==> e in q
  {
    SameIds(a, b);
  }

  /** With a resolver only the set of nominated run ids matters: whatever refs, parents,
      order or repeats the rows carry, the same agents descend from the root. */
  lemma OnlyNominationsMatter(a: seq<Edge>, b: seq<Edge>, follow: Follow, root: string, ref: string)
    requires SameNominations(a, b)
    ensures Descends(Pending(Recomputed(Nominated(a), follow)), root, ref) <==>
            Descends(Pending(Recomputed(Nominated(b), follow)), root, ref)
  {
    var p, q := Pending(Recomputed(Nominated(a), follow)), Pending(Recomputed(Nominated(b), follow));
    SameEdges(a, b, follow);
    if k: nat :| ref in Within(p, root, k) {
      SameEdgesSameDescent(p, q, root, k);
    }
    if k: nat :| ref in Within(q, root, k) {
      SameEdgesSameDescent(q, p, root, k);
    }
  }

  /** So rows cannot graft anything on: with at most 10,000 descendants the refs found are
      decided by the nominated run ids alone. */
  lemma NominationsDecide(a: seq<Edge>, b: seq<Edge>, follow: Follow, root: string, descendants: set<string>)
    requires SameNominations(a, b) && |descendants - {root}| <= MAX_LINEAGE_ROUNDS
    requires forall ref :: ref in descendants <==> Descends(Pending(Recomputed(Nominated(a), follow)), root, ref)
    ensures Found(Pending(Recomputed(Nominated(a), follow)), root) == Found(Pending(Recomputed(Nominated(b), follow)),
        root)
  {
    forall ref
      ensures Descends(Pending(Recomputed(Nominated(a), follow)), root, ref) <==>
              Descends(Pending(Recomputed(Nominated(b), follow)), root, ref)
    {
      OnlyNominationsMatter(a, b, follow, root, ref);
    }
    FoundExactly(Pending(Recomputed(Nominated(a), follow)), root, descendants);
    FoundExactly(Pending(Recomputed(Nominated(b), follow)), root, descendants);
  }

  lemma SameIds(a: seq<Edge>, b: seq<Edge>)
    requires SameNominations(a, b)
    ensures forall id :: id in Nominated(a) <==> id in Nominated(b)
  {
  }

  /** lineage_refs over pending edges: rounds until one finds nothing, at most 10,000. */
  method Walk(root: string, pending: seq<Edge>) returns (found: set<string>)
    ensures found == Found(pending, root)
  {
    found := {root};
    for round := 0 to MAX_LINEAGE_ROUNDS
      invariant found == Passes(pending, root, round)
    {
      ghost var before := found;
      var grew := false;
      for i := 0 to |pending|
        invariant found == Pass(pending[..i], before)
        invariant before <= found && (!grew ==> found == before) && (grew ==> found != before)
      {
        var e := pending[i];
        assert pending[..i + 1][..i] == pending[..i];
        if e.child !in found && e.parent in found {
          found := found + {e.child};
          grew := true;
        }
      }
      assert pending[..|pending|] == pending;
      if !grew {
        SettledStays(pending, root, round, MAX_LINEAGE_ROUNDS);
        return;
      }
    }
  }

  // ----- TrustResolver -----

  /** A run as the resolver reloads it: its ref, and what its identity record claims. */
  datatype Record = Record(parent: string, parentRun: string, spawnStep: string)
  datatype Run = Run(ref: string, record: Option<Record>)

  datatype Manifest = Missing | Unreadable | Signed(spawns: seq<string>)

  /** Runs and manifests as stored, and the verdict of verifying one against the other. */
  datatype World = World(runs: string -> Option<Run>, manifests: string -> Manifest, verify: (Manifest, Run) -> bool)

  predicate Verified(w: World, runId: string) {
    w.manifests(runId).Signed? && w.runs(runId).Some? && w.verify(w.manifests(runId), w.runs(runId).value)
  }

  /** The link a run claims to its parent, vouched for by both sides: the child verifies, the
      parent it names verifies under the very ref the child claims, and the parent's signed
      manifest lists the spawning step. */
  function Vouched(w: World, runId: string): Option<(string, string)> {
    var run := w.runs(runId);
    if run.None? || run.value.record.None? then None
    else
      var r := run.value.record.value;
      if && r.parent != "" && r.parentRun != "" && Verified(w, runId) && Verified(w, r.parentRun)
         && w.runs(r.parentRun).value.ref == r.parent && r.spawnStep in w.manifests(r.parentRun).spawns
      then Some((run.value.ref, r.parent)) else None
  }

  /** Both sides bear a link out: the child's run is verified against its signed manifest and
      records the parent's ref, run and spawning step; the parent's run is verified too, has that
      very ref, and its signed manifest lists the step. */
  ghost predicate BornOut(w: World, runId: string, child: string, parent: string) {
    exists run: Run, above: Run, own: seq<string>, spawns: seq<string>, parentRun: string, step: string ::
      && w.runs(runId) == Some(run) && run == Run(child, Some(Record(parent, parentRun, step)))
      && w.manifests(runId) == Signed(own) && w.verify(Signed(own), run)
      && w.runs(parentRun) == Some(above) && above.ref == parent
      && w.manifests(parentRun) == Signed(spawns) && w.verify(Signed(spawns), above) && step in spawns
      && parent != "" && parentRun != ""
  }

  lemma VouchedIsBornOut(w: World, runId: string, child: string, parent: string)
    ensures Vouched(w, runId) == Some((child, parent)) <==> BornOut(w, runId, child, parent)
  {
    if Vouched(w, runId) == Some((child, parent)) {
      var run := w.runs(runId).value;
      var r := run.record.value;
      var above := w.runs(r.parentRun).value;
      assert w.manifests(runId) == Signed(w.manifests(runId).spawns);
      assert w.manifests(r.parentRun) == Signed(w.manifests(r.parentRun).spawns);
      assert run == Run(child, Some(Record(parent, r.parentRun, r.spawnStep)));
    }
  }

  /** The edges followed with a resolver are the links both sides bear out of the runs the rows
      nominate, whatever else the rows say. */
  lemma FollowedEdges(w: World, edges: seq<Edge>, e: Edge)
    ensures e in Pending(Recomputed(Nominated(edges), id => Vouched(w, id))) <==>
            && (exists i :: 0 <= i < |edges| && edges[i].runId == e.runId)
            && BornOut(w, e.runId, e.child, e.parent) && e.child != ""
  {
    VouchedIsBornOut(w, e.runId, e.child, e.parent);
  }

  /** A ref the walk finds below the root is the child of an edge whose parent it finds. */
  lemma {:induction false} PassHasParents(edges: seq<Edge>, all: seq<Edge>, root: string, found: set<string>)
    requires forall e :: e in edges ==> e in all
    requires forall ref :: ref in found && ref != root ==> exists e :: e in all && e.child == ref && e.parent in found
    ensures found <= Pass(edges, found)
    ensures forall ref :: ref in Pass(edges, found) && ref != root ==>
              exists e :: e in all && e.child == ref && e.parent in Pass(edges, found)
  {
    if edges != [] {
      var rest, last := edges[..|edges| - 1], edges[|edges| - 1];
      assert last in edges && forall e :: e in rest ==> e in edges;
      PassHasParents(rest, all, root, found);
      assert Pass(rest, found) <= Pass(edges, found);
    }
  }

  lemma {:induction false} PassesHaveParents(edges: seq<Edge>, root: string, rounds: nat)
    ensures forall ref :: ref in Passes(edges, root, rounds) && ref != root ==>
              exists e :: e in edges && e.child == ref && e.parent in Passes(edges, root, rounds)
  {
    if rounds > 0 {
      PassesHaveParents(edges, root, rounds - 1);
      PassHasParents(edges, edges, root, Passes(edges, root, rounds - 1));
    }
  }

  /** Every ref found below the root is the ref of a verified run whose verified parent, found
      too, lists the step that spawned it. */
  ghost predicate AllBornOut(w: World, edges: seq<Edge>, root: string, found: set<string>) {
    forall ref :: ref in found && ref != root ==>
      exists i, parent :: 0 <= i < |edges| && parent in found && BornOut(w, edges[i].runId, ref, parent)
  }

  lemma FoundBornOut(w: World, edges: seq<Edge>, root: string)
    ensures AllBornOut(w, edges, root, Found(Pending(Recomputed(Nominated(edges), id => Vouched(w, id))), root))
  {
    hide BornOut, Vouched, Passes, Recomputed, Nominated;
    var pending := Pending(Recomputed(Nominated(edges), id => Vouched(w, id)));
    PassesHaveParents(pending, root, MAX_LINEAGE_ROUNDS);
    forall ref | ref in Found(pending, root) && ref != root
      ensures exists i, parent :: 0 <= i < |edges| && parent in Found(pending, root) &&
                                  BornOut(w, edges[i].runId, ref, parent)
    {
      var e :| e in pending && e.child == ref && e.parent in Found(pending, root);
      FollowedEdges(w, edges, e);
      var i :| 0 <= i < |edges| && edges[i].runId == e.runId;
      assert BornOut(w, edges[i].runId, ref, e.parent);
    }
  }

  class TrustResolver {
    const world: World
    var runs: map<string, Option<Run>>
    var trusted: map<string, bool>

    /** What is cached is what reloading would give. */
    ghost predicate Valid()
      reads this
    {
      && (forall id :: id in runs ==> runs[id] == world.runs(id))
      && (forall id :: id in trusted ==> trusted[id] == Verified(world, id))
    }

    constructor (world: World)
      ensures Valid() && this.world == world
    {
      this.world, runs, trusted := world, map[], map[];
    }

    method Load(runId: string) returns (run: Option<Run>)
      requires Valid()
      modifies this
      ensures Valid() && run == world.runs(runId)
    {
      if runId !in runs {
        runs := runs[runId := world.runs(runId)];
      }
      return runs[runId];
    }

    method Trust(runId: string) returns (verified: bool)
      requires Valid()
      modifies this
      ensures Valid() && verified == Verified(world, runId)
    {
      if runId in trusted {
        return trusted[runId];
      }
      var stored := world.manifests(runId);
      verified := false;
      if stored.Signed? {
        var run := Load(runId);
        verified := run.Some? && world.verify(stored, run.value);
      }
      trusted := trusted[runId := verified];
    }

    method LineageEdge(runId: string) returns (edge: Option<(string, string)>)
      requires Valid()
      modifies this
      ensures Valid() && edge == Vouched(world, runId)
    {
      var child := Load(runId);
      if child.None? || child.value.record.None? {
        return None;
      }
      var record := child.value.record.value;
      if record.parent == "" || record.parentRun == "" {
        return None;
      }
      var verified := Trust(runId);
      if !verified {
        return None;
      }
      verified := Trust(record.parentRun);
      if !verified {
        return None;
      }
      var parent := Load(record.parentRun);
      if parent.None? || parent.value.ref != record.parent {
        return None;
      }
      var stored := world.manifests(record.parentRun);
      if !stored.Signed? || record.spawnStep !in stored.spawns {
        return None;
      }
      return Some((child.value.ref, record.parent));
    }
  }

  /** lineage_refs: over the rows' own claims, or with a resolver over what it recomputes
      for the run ids they nominate. */
  method LineageRefs(root: string, edges: seq<Edge>, resolver: TrustResolver?) returns (found: set<string>)
    requires resolver != null ==> resolver.Valid()
    modifies resolver
    ensures resolver != null ==> resolver.Valid()
    ensures resolver == null ==> found == Found(Pending(edges), root)
    ensures resolver != null ==>
      found == Found(Pending(Recomputed(Nominated(edges), id => Vouched(resolver.world, id))), root)
    ensures resolver != null ==> AllBornOut(resolver.world, edges, root, found)
  {
    if resolver == null {
      found := Walk(root, Pending(edges));
      return;
    }
    var ids := Nominated(edges);
    ghost var follow: Follow := id => Vouched(resolver.world, id);
    var kept: seq<Edge> := [];
    for i := 0 to |ids|
      invariant resolver.Valid() && kept == Recomputed(ids[..i], follow)
    {
      assert ids[..i + 1][..i] == ids[..i];
      var edge := resolver.LineageEdge(ids[i]);
      if edge.Some? {
        kept := kept + [Edge(ids[i], edge.value.0, edge.value.1)];
      }
    }
    assert ids[..|ids|] == ids;
    found := Walk(root, Pending(kept));
    FoundBornOut(resolver.world, edges, root);
  }
}
