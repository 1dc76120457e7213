// opentine/_bundle.py, _cli_git_sync.py and repository/_ref_txn.py: what unbundle and pull do
// to the refs of a repository.
module RefRepo {
  import opened Basics
  import opened Outcomes
  import opened ForkHistory
  import opened BundleFile
  import opened RefNames
  import opened Sidecars

  const MAX_TXN_REFS := 4096

  datatype Failure =
    | Refused(problem: Problem) | BadNamespace | BadTrackingRef(ref: string) | NotFastForward(ref: string)
    | BadTransaction | MissingObject(oid: string) | SidecarFull(run: string) | NoTrackingRef | Diverged

  datatype Row = Row(ref: string, oid: string, expected: Option<string>)

  // ----- what an import wants -----

  /** The tracking refs of a bundle's refs, at the bundle's ids. */
  function Tracking(track: Track, refs: seq<(string, string)>): map<string, string> {
    if refs == [] then map[]
    else
      var before, last := Tracking(track, refs[..|refs| - 1]), refs[|refs| - 1];
      var target := track(last.0);
      if target.Some? then before[target.value := last.1] else before
  }

  /** The updates an import asks for: every tracking ref not already there. */
  function Updates(track: Track, refs: seq<(string, string)>, local: map<string, string>): seq<Row> {
    if refs == [] then []
    else
      var last := refs[|refs| - 1];
      var target := track(last.0);
      Updates(track, refs[..|refs| - 1], local) +
      if target.Some? && Lookup(local, target.value) != Some(last.1)
      then [Row(target.value, last.1, Lookup(local, target.value))] else []
  }

  /** A ref may land: its tracking name is valid, and it is new there, already there, or moves
      the tracking ref forward. */
  predicate Lands(forks: Forks, objects: set<string>, local: map<string, string>, track: Track, ref: (string, string),
                  force: bool)
  {
    var target := track(ref.0);
    target.Some? &&
    (var at := Lookup(local, target.value);
     at.None? || at.value == ref.1 || force || Ancestor(forks, objects, at.value, ref.1))
  }

  predicate AllLand(forks: Forks, objects: set<string>, local: map<string, string>, track: Track,
                    refs: seq<(string, string)>, force: bool)
  {
    refs == [] ||
    (&& AllLand(forks, objects, local, track, refs[..|refs| - 1], force)
     && Lands(forks, objects, local, track, refs[|refs| - 1], force))
  }

  function Applied(refs: map<string, string>, rows: seq<Row>): map<string, string> {
    if rows == [] then refs else Applied(refs, rows[..|rows| - 1])[rows[|rows| - 1].ref := rows[|rows| - 1].oid]
  }

  predicate DistinctRefs(rows: seq<Row>) {
    forall i, j :: 0 <= i < j < |rows| ==> rows[i].ref != rows[j].ref
  }

  /** What update_refs asks of its rows besides their number. */
  predicate Swappable(f: Formats, objects: set<string>, refs: map<string, string>, rows: seq<Row>) {
    && DistinctRefs(rows)
    && forall row :: row in rows ==>
         row.oid in objects && Allowed(f, row.ref, row.oid) && row.expected == Lookup(refs, row.ref)
  }

  // ----- lemmas about them -----

  /** Distinct updates each take effect, and nothing else moves. */
  lemma {:induction false} AppliedIs(refs: map<string, string>, rows: seq<Row>)
    ensures DistinctRefs(rows) ==> forall row :: row in rows ==> Lookup(Applied(refs, rows), row.ref) == Some(row.oid)
    ensures forall ref :: (forall row :: row in rows ==> row.ref != ref) ==>
      Lookup(Applied(refs, rows), ref) == Lookup(refs, ref)
  {
    if rows != [] {
      var before, last := rows[..|rows| - 1], rows[|rows| - 1];
      AppliedIs(refs, before);
      assert last in rows && forall row :: row in before ==> row in rows;
      forall row | DistinctRefs(rows) && row in rows
        ensures Lookup(Applied(refs, rows), row.ref) == Some(row.oid)
      {
        if row != last {
          var i :| 0 <= i < |rows| && rows[i] == row;
          assert before[i] == row;
        }
      }
    }
  }

  lemma {:induction false} TrackingKeys(track: Track, refs: seq<(string, string)>, ref: string)
    requires ref in Tracking(track, refs)
    ensures exists i :: 0 <= i < |refs| && track(refs[i].0) == Some(ref)
  {
    var before := refs[..|refs| - 1];
    if ref in Tracking(track, before) {
      TrackingKeys(track, before, ref);
      var i :| 0 <= i < |before| && track(before[i].0) == Some(ref);
      assert refs[i] == before[i];
    } else {
      assert track(refs[|refs| - 1].0) == Some(ref);
    }
  }

  /** Each ref of a landed bundle is at its own id: none overwrites another. */
  lemma {:induction false} TrackingHolds(safe: RefCheck, track: Track, refs: seq<(string, string)>,
            present: set<string>,
                                         forks: Forks, objects: set<string>, local: map<string, string>, force: bool,
                                             i: nat)
    requires KeepsApart(track) && RefsSound(safe, refs, present) && AllLand(forks, objects, local, track, refs, force)
    requires i < |refs|
    ensures track(refs[i].0).Some? && track(refs[i].0).value in Tracking(track, refs)
    ensures Tracking(track, refs)[track(refs[i].0).value] == refs[i].1
    decreases |refs|
  {
    var before := refs[..|refs| - 1];
    if i < |before| {
      TrackingHolds(safe, track, before, present, forks, objects, local, force, i);
      LastIsApart(safe, track, refs, present);
      assert before[i] == refs[i];
    }
  }

  /** No two refs of a sound bundle share a tracking ref. */
  lemma LastIsApart(safe: RefCheck, track: Track, refs: seq<(string, string)>, present: set<string>)
    requires KeepsApart(track) && refs != [] && RefsSound(safe, refs, present) && track(refs[|refs| - 1].0).Some?
    ensures track(refs[|refs| - 1].0).value !in Tracking(track, refs[..|refs| - 1])
  {
    var before, last := refs[..|refs| - 1], refs[|refs| - 1];
    var target := track(last.0).value;
    if target in Tracking(track, before) {
      TrackingKeys(track, before, target);
    }
  }

  /** Every ref names a stored object of a type its name allows. */
  ghost predicate RefsHeld(f: Formats, objects: set<string>, refs: map<string, string>) {
    forall ref :: ref in refs ==> refs[ref] in objects && Allowed(f, ref, refs[ref])
  }

  lemma HeldMore(f: Formats, objects: set<string>, refs: map<string, string>, brought: Fetched)
    requires RefsHeld(f, objects, refs)
    ensures RefsHeld(f, objects + brought.objects, refs)
    ensures RefsHeld(f, brought.objects, brought.refs) ==>
      RefsHeld(f, objects + brought.objects, refs + brought.refs)
  {
  }

  /** Each row's ref is at its new value, no other ref has moved, and the refs still name what is
      stored. */
  ghost predicate Swapped(f: Formats, objects: set<string>, refs: map<string, string>, rows: seq<Row>,
                          after: map<string, string>)
  {
    && (forall row :: row in rows ==> Lookup(after, row.ref) == Some(row.oid))
    && (forall ref :: (forall row :: row in rows ==> row.ref != ref) ==> Lookup(after, ref) == Lookup(refs, ref))
    && (RefsHeld(f, objects, refs) ==> RefsHeld(f, objects, after))
  }

  lemma AppliedSwaps(f: Formats, objects: set<string>, refs: map<string, string>, rows: seq<Row>)
    requires Swappable(f, objects, refs, rows)
    ensures Swapped(f, objects, refs, rows, Applied(refs, rows))
  {
    hide Allowed, Applied;
    var after := Applied(refs, rows);
    AppliedIs(refs, rows);
    forall ref | RefsHeld(f, objects, refs) && ref in after
      ensures after[ref] in objects && Allowed(f, ref, after[ref])
    {
      if row :| row in rows && row.ref == ref {
        assert Lookup(after, ref) == Some(row.oid);
      } else {
        assert Lookup(after, ref) == Lookup(refs, ref);
      }
    }
  }

  lemma {:induction false} UpdatesWithin(track: Track, refs: seq<(string, string)>, local: map<string, string>)
    ensures forall r :: r in Updates(track, refs, local) ==>
      r.ref in Tracking(track, refs) && r.expected == Lookup(local, r.ref)
  {
    if refs != [] {
      UpdatesWithin(track, refs[..|refs| - 1], local);
    }
  }

  lemma LastApplies(local: map<string, string>, tracking: map<string, string>, rows: seq<Row>, target: string,
            oid: string)
    requires Applied(local, rows) == local + tracking && DistinctRefs(rows) && target !in tracking
    requires forall r :: r in rows ==> r.ref in tracking
    ensures var row := Row(target, oid, Lookup(local, target));
            var more := rows + if Lookup(local, target) != Some(oid) then [row] else [];
            DistinctRefs(more) && Applied(local, more) == local + tracking[target := oid]
  {
    var row := Row(target, oid, Lookup(local, target));
    if Lookup(local, target) != Some(oid) {
      assert (rows + [row])[..|rows|] == rows;
      forall i | 0 <= i < |rows|
        ensures rows[i].ref != target
      {
        assert rows[i] in rows;
      }
    } else {
      assert rows + [] == rows;
    }
  }

  /** The updates are distinct, and applying them puts every tracking ref of the bundle at
      the bundle's id and moves nothing else. */
  lemma {:induction false} UpdatesApply(safe: RefCheck, track: Track, refs: seq<(string, string)>, present: set<string>,
                                        local: map<string, string>, forks: Forks, objects: set<string>, force: bool)
    requires KeepsApart(track) && RefsSound(safe, refs, present) && AllLand(forks, objects, local, track, refs, force)
    ensures DistinctRefs(Updates(track, refs, local))
    ensures Applied(local, Updates(track, refs, local)) == local + Tracking(track, refs)
  {
    if refs == [] {
      assert local + map[] == local;
    } else {
      var before, last := refs[..|refs| - 1], refs[|refs| - 1];
      UpdatesApply(safe, track, before, present, local, forks, objects, force);
      LastIsApart(safe, track, refs, present);
      UpdatesWithin(track, before, local);
      LastApplies(local, Tracking(track, before), Updates(track, before, local), track(last.0).value, last.1);
    }
  }

  /** The updates pass the checks of update_refs: their targets are in the pack and typed,
      tracking refs take any type, and the expected values are the current ones. */
  lemma {:induction false} UpdatesSound(f: Formats, safe: RefCheck, track: Track, refs: seq<(string, string)>,
                                        present: set<string>, local: map<string, string>)
    requires RefsSound(safe, refs, present) && Typed(f, safe) && Untyped(f, track)
    ensures forall row :: row in Updates(track, refs, local) ==>
      row.oid in present && Allowed(f, row.ref, row.oid) && row.expected == Lookup(local, row.ref)
  {
    if refs != [] {
      UpdatesSound(f, safe, track, refs[..|refs| - 1], present, local);
    }
  }

  /** What passes has a target of some type. */
  ghost predicate Typed(f: Formats, safe: RefCheck) {
    forall ref :: safe(ref) ==> f.typeOf(ref.1).Some?
  }

  /** The refs tracked may name objects of any type. */
  ghost predicate Untyped(f: Formats, track: Track) {
    forall ref, oid :: track(ref).Some? && f.typeOf(oid).Some? ==> Allowed(f, track(ref).value, oid)
  }

  lemma SafeIsTyped(f: Formats)
    ensures Typed(f, Safe(f))
  {
  }

  lemma TrackingUntyped(f: Formats, name: string)
    ensures Untyped(f, TrackUnder(name))
  {
    forall ref, oid | TrackUnder(name)(ref).Some? && f.typeOf(oid).Some?
      ensures Allowed(f, TrackUnder(name)(ref).value, oid)
    {
      TrackingRefIs(name, ref);
      RemotesAllowed(f, name + "/" + TrackedName(ref), oid);
    }
  }

  lemma RemotesAllowed(f: Formats, rest: string, oid: string)
    requires f.typeOf(oid).Some?
    ensures Allowed(f, "remotes/" + rest, oid)
  {
    RemotesUntyped(rest);
  }

  lemma RemotesUntyped(rest: string)
    ensures Before("remotes/" + rest, '/') == "remotes"
  {
    BeforeFirst("remotes", rest);
    assert "remotes" + "/" + rest == "remotes/" + rest;
  }

  lemma {:induction false} BeforeFirst(a: string, rest: string)
    requires '/' !in a
    ensures Before(a + "/" + rest, '/') == a
  {
    if a == [] {
      assert (a + "/" + rest)[0] == '/';
    } else {
      assert a[0] in a && forall c :: c in a[1..] ==> c in a;
      assert (a + "/" + rest)[1..] == a[1..] + "/" + rest;
      BeforeFirst(a[1..], rest);
      assert a == [a[0]] + a[1..];
    }
  }

  /** Refs only a forced or unchecked writer moves: none, for imports. */
  function NoneLoose(): string -> bool {
    _ => false
  }

  /** Refs a fetch moves without a fast-forward check. */
  predicate IsLoose(ref: string) {
    HasPrefix(ref, "remotes/") || HasPrefix(ref, "annotations/")
  }

  function FetchLoose(): string -> bool {
    ref => IsLoose(ref)
  }

  lemma ImportAdvances(forks: Forks, objects: set<string>, local: map<string, string>, track: Track,
                       refs: seq<(string, string)>)
    requires AllLand(forks, objects, local, track, refs, false)
    ensures Advances(forks, local, local + Tracking(track, refs), NoneLoose())
  {
    LandingAdvances(forks, objects, local, track, refs);
    AdvancesSame(forks, local, NoneLoose());
  }

  /** What collected updates do, put together. */
  lemma LandFacts(f: Formats, forks: Forks, objects: set<string>, local: map<string, string>, track: Track,
            safe: RefCheck,
                  refs: seq<(string, string)>, present: set<string>, force: bool)
    requires KeepsApart(track) && Untyped(f, track) && Typed(f, safe) && RefsSound(safe, refs, present)
    requires present <= objects && AllLand(forks, objects, local, track, refs, force)
    ensures var rows := Updates(track, refs, local);
            Swappable(f, objects, local, rows) && Applied(local, rows) == local + Tracking(track, refs)
    ensures Updates(track, refs, local) == [] ==> local + Tracking(track, refs) == local
    ensures !force ==> Advances(forks, local, local + Tracking(track, refs), NoneLoose())
  {
    UpdatesApply(safe, track, refs, present, local, forks, objects, force);
    UpdatesSound(f, safe, track, refs, present, local);
    if !force {
      ImportAdvances(forks, objects, local, track, refs);
    }
  }

  /** What landing refs is to do: move all of them or none. */
  ghost predicate Landed(forks: Forks, objects: set<string>, name: string, refs: seq<(string, string)>, force: bool,
                         before: map<string, string>, after: map<string, string>, ok: bool)
  {
    && (ok <==> CanLand(forks, objects, before, name, refs, force))
    && after == (if ok then before + Tracking(TrackUnder(name), refs) else before)
    && (!force ==> Advances(forks, before, after, NoneLoose()))
  }

  /** Each wanted ref is at its tracking place, at its own id, and nothing else has moved. */
  ghost predicate TrackedLanded(name: string, wanted: seq<(string, string)>, before: map<string, string>,
                                after: map<string, string>)
  {
    && (forall i, at :: 0 <= i < |wanted| && TrackedAt(name, wanted[i].0, at) ==>
          at in after && after[at] == wanted[i].1)
    && forall at :: (forall i :: 0 <= i < |wanted| ==> !TrackedAt(name, wanted[i].0, at)) ==>
         Lookup(after, at) == Lookup(before, at)
  }

  lemma LandsTracked(f: Formats, forks: Forks, objects: set<string>, local: map<string, string>, name: string,
                     refs: seq<(string, string)>, present: set<string>, force: bool)
    requires RefsSound(Safe(f), refs, present) && AllLand(forks, objects, local, TrackUnder(name), refs, force)
    ensures TrackedLanded(name, refs, local, local + Tracking(TrackUnder(name), refs))
  {
    hide RefsSound, AllLand, TrackedAt, TrackingRef, TrackingName, Tracking;
    var track := TrackUnder(name);
    TrackingKeepsApart(name);
    forall i, at | 0 <= i < |refs| && TrackedAt(name, refs[i].0, at)
      ensures at in Tracking(track, refs) && Tracking(track, refs)[at] == refs[i].1
    {
      TrackingHolds(Safe(f), track, refs, present, forks, objects, local, force, i);
      TrackingRefIs(name, refs[i].0);
      TrackingNameIs(name, refs[i].0);
    }
    forall at | at in Tracking(track, refs)
      ensures exists i :: 0 <= i < |refs| && TrackedAt(name, refs[i].0, at)
    {
      TrackingKeys(track, refs, at);
      var i :| 0 <= i < |refs| && track(refs[i].0) == Some(at);
      TrackingRefIs(name, refs[i].0);
      TrackingNameIs(name, refs[i].0);
    }
  }

  predicate CanLand(forks: Forks, objects: set<string>, local: map<string, string>, name: string,
                    refs: seq<(string, string)>, force: bool)
  {
    AllLand(forks, objects, local, TrackUnder(name), refs, force) &&
        |Updates(TrackUnder(name), refs, local)| <= MAX_TXN_REFS
  }

  lemma NothingLanded(forks: Forks, objects: set<string>, name: string, refs: seq<(string, string)>, force: bool,
                      local: map<string, string>)
    requires !CanLand(forks, objects, local, name, refs, force)
    ensures Landed(forks, objects, name, refs, force, local, local, false)
  {
    AdvancesSame(forks, local, NoneLoose());
  }

  lemma LandUnder(f: Formats, forks: Forks, objects: set<string>, local: map<string, string>, name: string,
                  refs: seq<(string, string)>, present: set<string>, force: bool, rows: seq<Row>)
    requires RefsSound(Safe(f), refs, present) && present <= objects
    requires AllLand(forks, objects, local, TrackUnder(name), refs, force) &&
        rows == Updates(TrackUnder(name), refs, local)
    ensures Swappable(f, objects, local, rows)
    ensures |rows| <= MAX_TXN_REFS ==> Landed(forks, objects, name, refs, force, local, Applied(local, rows), true)
    ensures |rows| > MAX_TXN_REFS ==> Landed(forks, objects, name, refs, force, local, local, false)
  {
    TrackingKeepsApart(name);
    TrackingUntyped(f, name);
    SafeIsTyped(f);
    LandFacts(f, forks, objects, local, TrackUnder(name), Safe(f), refs, present, force);
    AdvancesSame(forks, local, NoneLoose());
  }

  lemma LooserAdvances(forks: Forks, before: map<string, string>, after: map<string, string>)
    requires Advances(forks, before, after, NoneLoose())
    ensures Advances(forks, before, after, FetchLoose())
  {
  }

  /** Landing without force only moves refs forward along their forks. */
  lemma {:induction false} LandingAdvances(forks: Forks, objects: set<string>, local: map<string, string>, track: Track,
                                           refs: seq<(string, string)>)
    requires AllLand(forks, objects, local, track, refs, false)
    ensures forall ref :: ref in local && ref in Tracking(track, refs) ==>
        OnChain(forks, local[ref], Tracking(track, refs)[ref])
  {
    if refs != [] {
      var last := refs[|refs| - 1];
      var target := track(last.0).value;
      LandingAdvances(forks, objects, local, track, refs[..|refs| - 1]);
      if target in local {
        if local[target] == last.1 {
          OnOwnChain(forks, last.1);
        } else {
          var k :| 0 <= k < MAX_ANCESTRY && Back(forks, last.1, k) == Some(local[target]);
        }
      }
    }
  }

  lemma {:induction false} LandPrefix(forks: Forks, objects: set<string>, local: map<string, string>, track: Track,
                                      refs: seq<(string, string)>, force: bool, n: nat)
    requires n <= |refs|
    ensures AllLand(forks, objects, local, track, refs, force) ==>
        AllLand(forks, objects, local, track, refs[..n], force)
    decreases |refs|
  {
    if n < |refs| {
      var before := refs[..|refs| - 1];
      LandPrefix(forks, objects, local, track, before, force, n);
      assert before[..n] == refs[..n];
    } else {
      assert refs[..n] == refs;
    }
  }

  lemma OneMoreWanted(forks: Forks, objects: set<string>, local: map<string, string>, track: Track,
                      refs: seq<(string, string)>, force: bool, i: nat)
    requires i < |refs|
    ensures AllLand(forks, objects, local, track, refs[..i + 1], force) <==>
              && AllLand(forks, objects, local, track, refs[..i], force)
              && Lands(forks, objects, local, track, refs[i], force)
    ensures Updates(track, refs[..i + 1], local) == Updates(track, refs[..i], local) +
            if track(refs[i].0).Some? && Lookup(local, track(refs[i].0).value) != Some(refs[i].1)
            then [Row(track(refs[i].0).value, refs[i].1, Lookup(local, track(refs[i].0).value))] else []
  {
    assert refs[..i + 1][..i] == refs[..i];
  }

  // ----- detached signatures -----

  type Kept = map<string, seq<Entry>>

  /** The entries a run's sidecar holds. */
  function Held(sidecars: Kept, run: string): seq<Entry> {
    if run in sidecars then sidecars[run] else []
  }

  /** The entries a bundle brings for a run. */
  function Brought(groups: seq<Group>, run: string): seq<Entry> {
    if groups == [] then []
    else
      var last := groups[|groups| - 1];
      Brought(groups[..|groups| - 1], run) + if last.run == run then EntriesFor(last.head, last.blocks) else []
  }

  lemma {:induction false} BroughtCount(groups: seq<Group>, run: string)
    ensures |Brought(groups, run)| == BlockCount(groups, run)
  {
    if groups != [] {
      BroughtCount(groups[..|groups| - 1], run);
    }
  }

  /** The signatures of a manifest pass exactly when each is of a run of the pack and is accepted,
      and no run is brought none or more than a sidecar holds. */
  lemma SignaturesSoundIs(f: Formats, groups: seq<Group>, present: set<string>)
    ensures SignaturesSound(f, groups, present) <==>
            && (forall g :: g in groups ==>
                  g.run in present && f.typeOf(g.run) == Some("run") && |g.blocks| > 0 &&
                  |Brought(groups, g.run)| <= 256)
            && forall g, b :: g in groups && b in g.blocks ==> f.entry(g.run, Entry(g.head, b))
  {
    forall g | g in groups {
      BroughtCount(groups, g.run);
    }
  }

  /** One group merged; a sidecar that would grow too large refuses it. */
  function WithGroup(sidecars: Kept, g: Group): Option<Kept> {
    match Merge(g.run, Held(sidecars, g.run), EntriesFor(g.head, g.blocks))
    case None => None
    case Some(all) => Some(sidecars[g.run := all])
  }

  /** Merging groups in order, up to one that does not fit. */
  function Merged(sidecars: Kept, groups: seq<Group>): Option<Kept> {
    if groups == [] then Some(sidecars)
    else
      match Merged(sidecars, groups[..|groups| - 1])
      case None => None
      case Some(before) => WithGroup(before, groups[|groups| - 1])
  }

  lemma {:induction false} MergeStops(sidecars: Kept, groups: seq<Group>, n: nat)
    requires n <= |groups| && Merged(sidecars, groups[..n]).None?
    ensures Merged(sidecars, groups).None?
    decreases |groups|
  {
    if n < |groups| {
      var before := groups[..|groups| - 1];
      assert before[..n] == groups[..n];
      MergeStops(sidecars, before, n);
    } else {
      assert groups[..n] == groups;
    }
  }

  /** Some run is brought entries it does not hold, and with them its sidecar would have more
      entries, or more bytes, than one may. */
  ghost predicate Overfills(sidecars: Kept, groups: seq<Group>) {
    exists run :: OverfillsRun(sidecars, groups, run)
  }

  predicate OverfillsRun(sidecars: Kept, groups: seq<Group>, run: string) {
    var all := WithEntries(Held(sidecars, run), Brought(groups, run));
    all != Held(sidecars, run) && Overgrown(run, all)
  }

  /** Merging fails exactly when some run's sidecar is overfilled, whatever the order of the
      groups; otherwise every run holds what it held, then what was brought and new. */
  lemma {:induction false} Overfull(sidecars: Kept, groups: seq<Group>)
    ensures Merged(sidecars, groups).None? <==> Overfills(sidecars, groups)
    ensures Merged(sidecars, groups).Some? ==> forall run ::
              Held(Merged(sidecars, groups).value, run) == WithEntries(Held(sidecars, run), Brought(groups, run))
  {
    if groups != [] {
      var before, g := groups[..|groups| - 1], groups[|groups| - 1];
      Overfull(sidecars, before);
      LastApart(groups);
      forall run
        ensures Merge(run, Held(sidecars, run), Brought(before, run)).None? ==>
                  Merge(run, Held(sidecars, run), Brought(groups, run)).None?
      {
        BroughtMore(sidecars, before, g, run);
      }
      if Merged(sidecars, before).None? {
        var run :| OverfillsRun(sidecars, before, run);
        assert OverfillsRun(sidecars, groups, run);
      } else {
        LastGroup(sidecars, before, g);
      }
    }
  }

  /** One group more only adds to what its own run is brought. */
  lemma BroughtMore(sidecars: Kept, before: seq<Group>, g: Group, run: string)
    ensures Brought(before + [g], run) ==
            if run == g.run then Brought(before, run) + EntriesFor(g.head, g.blocks) else Brought(before, run)
    ensures Merge(run, Held(sidecars, run), Brought(before, run)).None? ==>
              Merge(run, Held(sidecars, run), Brought(before + [g], run)).None?
    ensures run == g.run && Merge(run, Held(sidecars, run), Brought(before, run)).Some? ==>
              Merge(run, Held(sidecars, run), Brought(before + [g], run)) ==
              Merge(run, WithEntries(Held(sidecars, run), Brought(before, run)), EntriesFor(g.head, g.blocks))
  {
    hide WithEntries, Overgrown;
    assert (before + [g])[..|before|] == before;
    assert Brought(before, run) + [] == Brought(before, run);
    MergeTwice(run, Held(sidecars, run), Brought(before, run), EntriesFor(g.head, g.blocks));
  }

  /** After a merge that fitted, one group more overfills exactly its own run. */
  lemma OnlyItsRun(sidecars: Kept, before: seq<Group>, g: Group)
    requires !Overfills(sidecars, before)
    ensures Overfills(sidecars, before + [g]) <==> OverfillsRun(sidecars, before + [g], g.run)
    ensures forall run :: run != g.run ==> Brought(before + [g], run) == Brought(before, run)
  {
    hide Brought, WithEntries, Overgrown;
    forall run
      ensures run != g.run ==> !OverfillsRun(sidecars, before + [g], run)
      ensures run != g.run ==> Brought(before + [g], run) == Brought(before, run)
    {
      BroughtMore(sidecars, before, g, run);
      assert !OverfillsRun(sidecars, before, run);
    }
  }

  lemma NotOverfilled(sidecars: Kept, groups: seq<Group>, run: string)
    requires !Overfills(sidecars, groups)
    ensures !OverfillsRun(sidecars, groups, run)
  {
  }

  lemma LastGroup(sidecars: Kept, before: seq<Group>, g: Group)
    requires Merged(sidecars, before).Some? && !Overfills(sidecars, before)
    requires forall run ::
      Held(Merged(sidecars, before).value, run) == WithEntries(Held(sidecars, run), Brought(before, run))
    ensures Merged(sidecars, before + [g]).None? <==> Overfills(sidecars, before + [g])
    ensures Merged(sidecars, before + [g]).Some? ==> forall run ::
              Held(Merged(sidecars, before + [g]).value, run) ==
              WithEntries(Held(sidecars, run), Brought(before + [g], run))
  {
    hide Merged, Brought, WithEntries, Overgrown, Overfills;
    var mid := Merged(sidecars, before).value;
    MergedLast(sidecars, before, g);
    OnlyItsRun(sidecars, before, g);
    NotOverfilled(sidecars, before, g.run);
    BroughtMore(sidecars, before, g, g.run);
    GroupHeld(mid, g);
  }

  lemma GroupHeld(sidecars: Kept, g: Group)
    ensures WithGroup(sidecars, g).None? <==>
              Merge(g.run, Held(sidecars, g.run), EntriesFor(g.head, g.blocks)).None?
    ensures WithGroup(sidecars, g).Some? ==> forall run ::
              Held(WithGroup(sidecars, g).value, run) ==
              if run == g.run then Merge(g.run, Held(sidecars, g.run), EntriesFor(g.head, g.blocks)).value
              else Held(sidecars, run)
  {
  }

  lemma MergedLast(sidecars: Kept, before: seq<Group>, g: Group)
    requires Merged(sidecars, before).Some?
    ensures Merged(sidecars, before + [g]) == WithGroup(Merged(sidecars, before).value, g)
  {
    assert (before + [g])[..|before|] == before;
  }

  // ----- it can happen -----

  function Marked(i: nat): Entry {
    Entry(None, Block("tine-sig/3", seq(i, _ => 'x')))
  }

  lemma MarksDiffer(i: nat, j: nat)
    requires i != j
    ensures Marked(i) != Marked(j)
  {
    assert |Marked(i).block.json| != |Marked(j).block.json|;
  }

  /** As many small entries as a sidecar takes, none of them among the ones brought. */
  lemma OtherEntries(brought: seq<Entry>) returns (full: seq<Entry>)
    requires |brought| <= MAX_SIDECAR_ENTRIES
    ensures |full| == MAX_SIDECAR_ENTRIES && forall e :: e in full ==> e !in brought && EntryBytes(e) <= 600
  {
    full := [];
    var i, hit := 0, {};
    var all := Elements(brought);
    FewElements(brought);
    while |full| < MAX_SIDECAR_ENTRIES
      invariant |full| <= MAX_SIDECAR_ENTRIES && |full| + |hit| == i && hit <= all
      invariant forall e :: e in hit ==> exists j: nat :: j < i && e == Marked(j)
      invariant forall e :: e in full ==> e !in brought && EntryBytes(e) <= 600
      decreases MAX_SIDECAR_ENTRIES - |full| + |all| - |hit|
    {
      var e := Marked(i);
      SubsetSize(hit, all);
      if e in brought {
        forall h | h in hit
          ensures h != e
        {
          var j: nat :| j < i && h == Marked(j);
          MarksDiffer(j, i);
        }
        hit := hit + {e};
        SubsetSize(hit, all);
      } else {
        full := full + [e];
      }
      i := i + 1;
    }
  }

  function Elements(s: seq<Entry>): set<Entry> {
    set e | e in s
  }

  lemma {:induction false} FewElements(s: seq<Entry>)
    ensures |Elements(s)| <= |s|
  {
    if s != [] {
      FewElements(s[..|s| - 1]);
      LastApart(s);
      assert Elements(s) == Elements(s[..|s| - 1]) + {s[|s| - 1]};
    } else {
      assert Elements(s) == {};
    }
  }

  predicate WithinLimits(sidecars: Kept) {
    forall run :: run in sidecars ==> !Overgrown(run, sidecars[run])
  }

  /** Any bundle that brings a signature can meet a sidecar that is within its limits and does
      not take it. */
  lemma FullSidecar(groups: seq<Group>, run: string) returns (sidecars: Kept)
    requires 0 < |Brought(groups, run)| <= MAX_SIDECAR_ENTRIES && |run| <= 1000
    ensures WithinLimits(sidecars) && Overfills(sidecars, groups)
  {
    var brought := Brought(groups, run);
    var full := OtherEntries(brought);
    sidecars := map[run := full];
    BytesAtMost(full, 600);
    HeldFirst(full, brought);
    var e := brought[0];
    assert e in brought && e !in full && e in WithEntries(full, brought);
    assert OverfillsRun(sidecars, groups, run);
  }

  /** A repository: the objects it holds, its refs, and the signature sidecars of its runs. */
  class Repo {
    const forks: Forks
    const formats: Formats
    var objects: set<string>
    var refs: map<string, string>
    var sidecars: Kept

    /** update_refs: every compare-and-swap or none. */
    method UpdateRefs(rows: seq<Row>) returns (r: Result<(), Failure>)
      modifies this`refs
      ensures r.Ok? <==>
              && 1 <= |rows| <= MAX_TXN_REFS && (forall i, j :: 0 <= i < j < |rows| ==> rows[i].ref != rows[j].ref)
              && forall row :: row in rows ==>
                   && row.oid in objects && Allowed(formats, row.ref, row.oid)
                   && row.expected == Lookup(old(refs), row.ref)
      ensures refs == if r.Ok? then Applied(old(refs), rows) else old(refs)
      ensures r.Ok? ==> Swapped(formats, objects, old(refs), rows, refs)
      ensures r.Err? ==> !r.error.SidecarFull?
    {
      hide Allowed, Swapped;
      for i := 0 to |rows|
        invariant forall j :: 0 <= j < i ==> rows[j].oid in objects && Allowed(formats, rows[j].ref, rows[j].oid)
      {
        assert rows[i] in rows;
        if rows[i].oid !in objects || !Allowed(formats, rows[i].ref, rows[i].oid) {
          return Err(MissingObject(rows[i].oid));
        }
      }
      if !(1 <= |rows| <= MAX_TXN_REFS && DistinctRefs(rows)) {
        return Err(BadTransaction);
      }
      for i := 0 to |rows|
        invariant forall j :: 0 <= j < i ==> rows[j].expected == Lookup(refs, rows[j].ref)
      {
        assert rows[i] in rows;
        if Lookup(refs, rows[i].ref) != rows[i].expected {
          return Err(BadTransaction);
        }
      }
      for i := 0 to |rows|
        invariant refs == Applied(old(refs), rows[..i])
      {
        assert rows[..i + 1][..i] == rows[..i];
        refs := refs[rows[i].ref := rows[i].oid];
      }
      assert rows[..|rows|] == rows;
      AppliedSwaps(formats, objects, old(refs), rows);
      return Ok(());
    }

    /** The rows of an import, or the first ref that may not land. */
    method Collect(name: string, wanted: seq<(string, string)>, force: bool) returns (r: Result<seq<Row>, Failure>)
      ensures r.Ok? <==> AllLand(forks, objects, refs, TrackUnder(name), wanted, force)
      ensures r.Ok? ==> r.value == Updates(TrackUnder(name), wanted, refs)
      ensures r.Err? ==> !r.error.SidecarFull?
    {
      var rows: seq<Row> := [];
      for i := 0 to |wanted|
        invariant AllLand(forks, objects, refs, TrackUnder(name), wanted[..i], force) &&
            rows == Updates(TrackUnder(name), wanted[..i], refs)
      {
        hide AllLand, Updates, Ancestor, TrackingRef;
        var (ref, oid) := wanted[i];
        OneMoreWanted(forks, objects, refs, TrackUnder(name), wanted, force, i);
        var target := TrackUnder(name)(ref);
        if target.None? {
          LandPrefix(forks, objects, refs, TrackUnder(name), wanted, force, i + 1);
          return Err(BadTrackingRef(ref));
        }
        var was := Lookup(refs, target.value);
        if was != Some(oid) {
          if was.Some? && !force {
            var forward := IsAncestor(forks, objects, was.value, oid);
            if !forward {
              LandPrefix(forks, objects, refs, TrackUnder(name), wanted, force, i + 1);
              return Err(NotFastForward(target.value));
            }
          }
          rows := rows + [Row(target.value, oid, was)];
        }
      }
      assert wanted[..|wanted|] == wanted;
      return Ok(rows);
    }

    /** Merges the bundle's signature blocks; groups merged before an overfull one stay. */
    method InstallSignatures(groups: seq<Group>) returns (r: Result<(), Failure>)
      modifies this`sidecars
      ensures r.Ok? <==> Merged(old(sidecars), groups).Some?
      ensures r.Ok? ==> Some(sidecars) == Merged(old(sidecars), groups)
      ensures r.Err? ==> r.error.SidecarFull?
    {
      for i := 0 to |groups|
        invariant Merged(old(sidecars), groups[..i]) == Some(sidecars)
      {
        assert groups[..i + 1][..i] == groups[..i];
        var g := groups[i];
        var all := AddSignatures(g.run, Held(sidecars, g.run), EntriesFor(g.head, g.blocks));
        if all.None? {
          MergeStops(old(sidecars), groups, i + 1);
          return Err(SidecarFull(g.run));
        }
        sidecars := sidecars[g.run := all.value];
      }
      assert groups[..|groups|] == groups;
      return Ok(());
    }

    /** Collected rows moved in one transaction, when there are any. */
    method Move(rows: seq<Row>) returns (r: Result<(), Failure>)
      requires Swappable(formats, objects, refs, rows)
      modifies this`refs
      ensures r.Ok? <==> |rows| <= MAX_TXN_REFS
      ensures RefsHeld(formats, objects, old(refs)) ==> RefsHeld(formats, objects, refs)
      ensures refs == if r.Ok? then Applied(old(refs), rows) else old(refs)
      ensures r.Err? ==> !r.error.SidecarFull?
    {
      if rows == [] {
        return Ok(());
      }
      r := UpdateRefs(rows);
    }

    /** The refs of an import: all land and move in one transaction, or none moves. */
    method Land(name: string, wanted: seq<(string, string)>, force: bool, ghost present: set<string>)
      returns (r: Result<(), Failure>)
      requires RefsSound(Safe(formats), wanted, present) && present <= objects
      modifies this`refs
      ensures Landed(forks, objects, name, wanted, force, old(refs), refs, r.Ok?)
      ensures RefsHeld(formats, objects, old(refs)) ==> RefsHeld(formats, objects, refs)
      ensures r.Err? ==> !r.error.SidecarFull?
    {
      var collected := Collect(name, wanted, force);
      if collected.Err? {
        NothingLanded(forks, objects, name, wanted, force, refs);
        return Err(collected.error);
      }
      LandUnder(formats, forks, objects, refs, name, wanted, present, force, collected.value);
      r := Move(collected.value);
    }

    /** unbundle() after verify(): it succeeds exactly when the namespace is valid, every ref
        lands, the transaction takes the changed refs and the sidecars take the signatures;
        then every tracking ref of the bundle is at the bundle's id and no other ref has
        moved. A failure has moved no ref, unless it came from an overfull sidecar. */
    method Import(checked: Verified, name: string, force: bool) returns (r: Result<(), Failure>)
      requires RefsSound(Safe(formats), checked.refs, checked.objects)
      modifies this
      ensures objects == if IsNamespace(name) then old(objects) + checked.objects else old(objects)
      ensures r.Ok? <==> Imports(forks, objects, old(refs), old(sidecars), name, checked, force)
      ensures r.Ok? || r.error.SidecarFull? ==> refs == old(refs) + Tracking(TrackUnder(name), checked.refs)
      ensures r.Ok? || r.error.SidecarFull? ==> TrackedLanded(name, checked.refs, old(refs), refs)
      ensures r.Err? && !r.error.SidecarFull? ==> refs == old(refs)
      ensures r.Err? && r.error.SidecarFull? <==>
        IsNamespace(name) && CanLand(forks, objects, old(refs), name, checked.refs, force) &&
        Overfills(old(sidecars), checked.signatures)
      ensures r.Ok? ==> forall run ::
                Held(sidecars, run) == WithEntries(Held(old(sidecars), run), Brought(checked.signatures, run))
      ensures RefsHeld(formats, old(objects), old(refs)) ==> RefsHeld(formats, objects, refs)
      ensures !force ==> Advances(forks, old(refs), refs, NoneLoose())
    {
      if !IsNamespace(name) {
        AdvancesSame(forks, refs, NoneLoose());
        return Err(BadNamespace);
      }
      hide AllLand, Tracking, TrackedLanded, RefsHeld, RefsSound, Allowed, Overfills, Overgrown;
      if RefsHeld(formats, objects, refs) {
        HeldMore(formats, objects, refs, Fetched(checked.objects, map[]));
      }
      objects := objects + checked.objects;
      r := Land(name, checked.refs, force, checked.objects);
      if r.Ok? {
        LandsTracked(formats, forks, objects, old(refs), name, checked.refs, checked.objects, force);
        Overfull(sidecars, checked.signatures);
        r := InstallSignatures(checked.signatures);
      }
    }

    /** unbundle(): nothing happens for a bundle that does not verify. */
    method Unbundle(data: Bytes, name: string, force: bool) returns (r: Result<(), Failure>)
      modifies this
      ensures r.Ok? <==> Verifies(formats, data) && Imports(forks, old(objects) + Content(formats, data).objects,
                           old(refs), old(sidecars), name, Content(formats, data), force)
      ensures r.Ok? ==> refs == old(refs) + Tracking(TrackUnder(name), Content(formats, data).refs)
      ensures r.Ok? ==> TrackedLanded(name, Content(formats, data).refs, old(refs), refs)
      ensures r.Err? && !r.error.SidecarFull? ==> refs == old(refs)
      ensures FailsMoved(formats, forks, old(objects), old(refs), old(sidecars), data, name, force) ==>
        r.Err? && r.error.SidecarFull? && refs != old(refs)
      ensures r.Err? && refs != old(refs) ==>
        FailsMoved(formats, forks, old(objects), old(refs), old(sidecars), data, name, force)
      ensures !Verifies(formats, data) ==>
        r.Err? && objects == old(objects) && refs == old(refs) && sidecars == old(sidecars)
      ensures RefsHeld(formats, old(objects), old(refs)) ==> RefsHeld(formats, objects, refs)
      ensures !force ==> Advances(forks, old(refs), refs, NoneLoose())
    {
      AdvancesSame(forks, refs, NoneLoose());
      var checked := Verify(formats, data);
      if checked.Err? {
        return Err(Refused(checked.error));
      }
      r := Import(checked.value, name, force);
    }

    /** A ref moved to a present, well-typed run, forward or not at all. */
    method FastForward(ref: string, target: string) returns (r: Result<(), Failure>)
      modifies this`refs
      ensures r.Ok? <==> Forwards(formats, forks, objects, old(refs), ref, target)
      ensures refs == if r.Ok? then old(refs)[ref := target] else old(refs)
      ensures ref in old(refs) && r.Ok? ==> OnChain(forks, old(refs)[ref], target)
      ensures RefsHeld(formats, objects, old(refs)) ==> RefsHeld(formats, objects, refs)
    {
      var local := Lookup(refs, ref);
      if local == Some(target) {
        OnOwnChain(forks, target);
        return Ok(());
      }
      if local.Some? {
        var forward := IsAncestor(forks, objects, local.value, target);
        if !forward {
          return Err(Diverged);
        }
      }
      if target !in objects || !Allowed(formats, ref, target) {
        return Err(MissingObject(target));
      }
      refs := refs[ref := target];
      return Ok(());
    }

    /** pull: a fetch, which may move tracking and annotation refs at will, then a ref moved
        only forward. */
    method Pull(name: string, remote: string, fetched: Fetched) returns (r: Result<(), Failure>)
      requires forall ref :: ref in fetched.refs ==> HasPrefix(ref, "remotes/") || HasPrefix(ref, "annotations/")
      modifies this
      ensures objects == old(objects) + fetched.objects
      ensures r.Ok? <==> Pulls(formats, forks, objects, old(refs) + fetched.refs, name, remote)
      ensures r.Err? ==> refs == old(refs) + fetched.refs
      ensures r.Ok? ==> Pulled(old(refs) + fetched.refs, NormalizeRef(name).value, remote, refs)
      ensures RefsHeld(formats, objects, old(refs) + fetched.refs) ==> RefsHeld(formats, objects, refs)
      ensures Advances(forks, old(refs), refs, FetchLoose())
    {
      objects, refs := objects + fetched.objects, refs + fetched.refs;
      FetchAdvances(forks, old(refs), fetched);
      var normal := NormalizeRef(name);
      if normal.None? {
        return Err(BadTrackingRef(name));
      }
      var target := Lookup(refs, TrackingName(remote, normal.value));
      if target.None? {
        return Err(NoTrackingRef);
      }
      ghost var before := refs;
      r := FastForward(normal.value, target.value);
      if r.Ok? {
        TrackingNameIs(remote, normal.value);
        MoveAdvances(forks, old(refs), before, normal.value, target.value);
      }
    }
  }

  /** The ref is at the target already, or is new or behind it and may name it. */
  predicate Forwards(f: Formats, forks: Forks, objects: set<string>, refs: map<string, string>, ref: string,
                     target: string)
  {
    var local := Lookup(refs, ref);
    || local == Some(target)
    || ((local.None? || Ancestor(forks, objects, local.value, target)) && target in objects && Allowed(f, ref, target))
  }

  /** The name is a ref whose tracking ref is set, and the ref can move forward to it. */
  predicate Pulls(f: Formats, forks: Forks, objects: set<string>, fetched: map<string, string>, name: string,
                  remote: string)
  {
    var normal := NormalizeRef(name);
    normal.Some? &&
    (var target := Lookup(fetched, TrackingName(remote, normal.value));
     target.Some? && Forwards(f, forks, objects, fetched, normal.value, target.value))
  }

  /** The ref stands where the remote's tracking ref does, and no other ref has moved. */
  ghost predicate Pulled(before: map<string, string>, ref: string, remote: string, after: map<string, string>) {
    forall at :: TrackedAt(remote, ref, at) ==> at in before && after == before[ref := before[at]]
  }

  lemma FetchAdvances(forks: Forks, before: map<string, string>, fetched: Fetched)
    requires forall ref :: ref in fetched.refs ==> IsLoose(ref)
    ensures Advances(forks, before, before + fetched.refs, FetchLoose())
  {
    AdvancesSame(forks, before, FetchLoose());
  }

  lemma MoveAdvances(forks: Forks, first: map<string, string>, before: map<string, string>, ref: string, target: string)
    requires Advances(forks, first, before, FetchLoose())
    requires ref in before ==> OnChain(forks, before[ref], target)
    ensures Advances(forks, first, before[ref := target], FetchLoose())
  {
    if ref in first && !FetchLoose()(ref) {
      OnChainTransitive(forks, first[ref], before[ref], target);
    }
  }

  /** What verify() accepts. */
  predicate Verifies(f: Formats, data: Bytes) {
    Opened(f, data).Ok? && ManifestSound(f, Opened(f, data).value.0, Opened(f, data).value.1)
  }

  /** What a bundle that verifies holds. */
  function Content(f: Formats, data: Bytes): Verified {
    if Verifies(f, data) then
      var (raw, pack) := Opened(f, data).value;
      Verified(f.parse(raw).value.refs, f.inspect(pack).value, pack, f.parse(raw).value.signatures)
    else Verified([], {}, [], [])
  }

  /** When an import succeeds. */
  ghost predicate Imports(forks: Forks, objects: set<string>, local: map<string, string>, sidecars: Kept,
                    name: string, checked: Verified, force: bool)
  {
    IsNamespace(name) && CanLand(forks, objects, local, name, checked.refs, force) &&
        !Overfills(sidecars, checked.signatures)
  }

  lemma {:induction false} BlocksCounted(groups: seq<Group>, run: string)
    ensures |Brought(groups, run)| == BlockCount(groups, run)
  {
    if groups != [] {
      BlocksCounted(groups[..|groups| - 1], run);
    }
  }

  /** A bundle that verifies brings a run no more entries than a sidecar takes. */
  lemma BroughtFits(f: Formats, data: Bytes, run: string)
    requires Verifies(f, data)
    ensures |Brought(Content(f, data).signatures, run)| <= MAX_SIDECAR_ENTRIES
  {
    var groups := Content(f, data).signatures;
    BlocksCounted(groups, run);
    if BlockCount(groups, run) > 0 {
      GroupOf(groups, run);
    }
  }

  lemma {:induction false} GroupOf(groups: seq<Group>, run: string)
    requires BlockCount(groups, run) > 0
    ensures exists g :: g in groups && g.run == run
  {
    if groups[|groups| - 1].run != run {
      GroupOf(groups[..|groups| - 1], run);
    }
  }

  /** What is collected to be moved moves something. */
  lemma {:induction false} UpdatesMove(track: Track, refs: seq<(string, string)>, local: map<string, string>)
    requires DistinctRefs(Updates(track, refs, local)) && Updates(track, refs, local) != []
    ensures Applied(local, Updates(track, refs, local)) != local
  {
    var rows := Updates(track, refs, local);
    var last := rows[|rows| - 1];
    UpdatesWithin(track, refs, local);
    UpdatesChange(track, refs, local);
    assert last in rows;
    assert Lookup(Applied(local, rows), last.ref) == Some(last.oid);
  }

  lemma {:induction false} UpdatesChange(track: Track, refs: seq<(string, string)>, local: map<string, string>)
    ensures forall r :: r in Updates(track, refs, local) ==> Lookup(local, r.ref) != Some(r.oid)
  {
    if refs != [] {
      UpdatesChange(track, refs[..|refs| - 1], local);
    }
  }

  /** Whatever the formats and the repository: for every bundle that verifies, lands with some
      ref to move and brings a signature, there are sidecars within their limits with which its
      import fails after the refs have moved. */
  lemma NotAllOrNothing(f: Formats, forks: Forks, objects: set<string>, local: map<string, string>, data: Bytes,
                        name: string, force: bool, run: string)
    returns (sidecars: Kept)
    requires Verifies(f, data) && IsNamespace(name) && |run| <= 1000
    requires CanLand(forks, objects + Content(f, data).objects, local, name, Content(f, data).refs, force)
    requires Updates(TrackUnder(name), Content(f, data).refs, local) != []
    requires Brought(Content(f, data).signatures, run) != []
    ensures WithinLimits(sidecars) && FailsMoved(f, forks, objects, local, sidecars, data, name, force)
  {
    hide Verifies, Content, CanLand, Overfills, Updates, Tracking;
    BroughtFits(f, data, run);
    sidecars := FullSidecar(Content(f, data).signatures, run);
    LandingMoves(f, forks, objects, local, data, name, force);
  }

  lemma LandingMoves(f: Formats, forks: Forks, objects: set<string>, local: map<string, string>, data: Bytes,
                     name: string, force: bool)
    requires Verifies(f, data) && Updates(TrackUnder(name), Content(f, data).refs, local) != []
    requires CanLand(forks, objects + Content(f, data).objects, local, name, Content(f, data).refs, force)
    ensures local + Tracking(TrackUnder(name), Content(f, data).refs) != local
  {
    var checked := Content(f, data);
    TrackingKeepsApart(name);
    UpdatesApply(Safe(f), TrackUnder(name), checked.refs, checked.objects, local, forks, objects + checked.objects,
                 force);
    UpdatesMove(TrackUnder(name), checked.refs, local);
  }

  /** The import fails on a sidecar with its refs moved. */
  ghost predicate FailsMoved(f: Formats, forks: Forks, objects: set<string>, local: map<string, string>,
                             sidecars: Kept, data: Bytes, name: string, force: bool)
  {
    var checked := Content(f, data);
    && Verifies(f, data) && IsNamespace(name) && Overfills(sidecars, checked.signatures)
    && CanLand(forks, objects + checked.objects, local, name, checked.refs, force)
    && local + Tracking(TrackUnder(name), checked.refs) != local
  }

  /** What a fetch brought: objects, and the refs it wrote. */
  datatype Fetched = Fetched(objects: set<string>, refs: map<string, string>)

  datatype Step = PullStep(ref: string, remote: string, fetched: Fetched) | UnbundleStep(data: Bytes, name: string)

  /** A fetch brings what its refs name. */
  ghost predicate AllFetchHeld(f: Formats, steps: seq<Step>) {
    forall s :: s in steps && s.PullStep? ==> RefsHeld(f, s.fetched.objects, s.fetched.refs)
  }

  /** Every earlier value of a ref is on the forked_from chain of every later one; when refs are
      also fetched, of every ref but those fetches write. */
  ghost predicate ForwardOnly(forks: Forks, history: seq<map<string, string>>, fetched: bool) {
    forall i, j, ref ::
      0 <= i <= j < |history| && ref in history[i] &&
      (fetched ==> !HasPrefix(ref, "remotes/") && !HasPrefix(ref, "annotations/")) ==>
        ref in history[j] && OnChain(forks, history[i][ref], history[j][ref])
  }

  lemma OnlyForward(forks: Forks, history: seq<map<string, string>>, fetched: bool, loose: string -> bool)
    requires AllAdvance(forks, history, loose)
    requires forall ref :: loose(ref) ==> fetched && (HasPrefix(ref, "remotes/") || HasPrefix(ref, "annotations/"))
    ensures ForwardOnly(forks, history, fetched)
  {
    forall i, j, ref |
      0 <= i <= j < |history| && ref in history[i] &&
      (fetched ==> !HasPrefix(ref, "remotes/") && !HasPrefix(ref, "annotations/"))
      ensures ref in history[j] && OnChain(forks, history[i][ref], history[j][ref])
    {
      assert Advances(forks, history[i], history[j], loose);
    }
  }

  /** Over any run of pulls and unforced unbundles refs only move forward, and they name what is
      stored, when they did at first and fetches bring what their refs name. */
  method Play(repo: Repo, steps: seq<Step>) returns (ghost history: seq<map<string, string>>)
    requires forall s :: s in steps && s.PullStep? ==> forall ref :: ref in s.fetched.refs ==>
                 HasPrefix(ref, "remotes/") || HasPrefix(ref, "annotations/")
    modifies repo
    ensures |history| == |steps| + 1 && history[0] == old(repo.refs) && history[|steps|] == repo.refs
    ensures ForwardOnly(repo.forks, history, true)
    ensures (forall s :: s in steps ==> s.UnbundleStep?) ==> ForwardOnly(repo.forks, history, false)
    ensures RefsHeld(repo.formats, old(repo.objects), old(repo.refs)) && AllFetchHeld(repo.formats, steps) ==>
      RefsHeld(repo.formats, repo.objects, repo.refs)
  {
    hide RefsHeld;
    history := [repo.refs];
    ghost var imports := forall s :: s in steps ==> s.UnbundleStep?;
    ghost var held := RefsHeld(repo.formats, repo.objects, repo.refs) && AllFetchHeld(repo.formats, steps);
    for n := 0 to |steps|
      invariant |history| == n + 1 && history[0] == old(repo.refs) && history[n] == repo.refs
      invariant StepsAdvance(repo.forks, history, FetchLoose())
      invariant imports ==> StepsAdvance(repo.forks, history, NoneLoose())
      invariant held ==> RefsHeld(repo.formats, repo.objects, repo.refs)
    {
      assert steps[n] in steps;
      ghost var before := repo.refs;
      match steps[n] {
        case PullStep(ref, remote, fetched) =>
          if held {
            HeldMore(repo.formats, repo.objects, repo.refs, fetched);
          }
          var _ := repo.Pull(ref, remote, fetched);
        case UnbundleStep(data, name) =>
          var _ := repo.Unbundle(data, name, false);
          LooserAdvances(repo.forks, before, repo.refs);
          if imports {
            StepAdded(repo.forks, history, repo.refs, NoneLoose());
          }
      }
      StepAdded(repo.forks, history, repo.refs, FetchLoose());
      history := history + [repo.refs];
    }
    StepsAdvanceAll(repo.forks, history, FetchLoose());
    OnlyForward(repo.forks, history, true, FetchLoose());
    if imports {
      StepsAdvanceAll(repo.forks, history, NoneLoose());
      OnlyForward(repo.forks, history, false, NoneLoose());
    }
  }
}
