// opentine/_actions_db.py: the action index kept in step with its sources.
module ActionsDb {
  import opened IndexTables

  /** One run to index; `load` is what its loader and the extractor would give. */
  datatype Source = Source(key: string, stamp: string, load: Load)

  datatype SyncReport = SyncReport(indexed: nat, removed: nat, unreadable: nat, truncatedRuns: nat, sources: nat)

  /** What a load of a key under a stamp gives: the stamp changes whenever the run does. */
  type Loads = (string, string) -> Load

  // ----- what the tables must show -----

  predicate RowFor(row: SourceRow, load: Load) {
    row == match load
           case Readable(runId, _, truncated) => SourceRow(row.stamp, runId, false, truncated)
           case Unreadable => SourceRow(row.stamp, "", true, false)
  }

  function ActionsIn(load: Load): seq<Cells> {
    if load.Readable? then KeptAll(load.actions) else []
  }

  function Expected(sources: map<string, SourceRow>, loads: Loads, key: string): seq<Cells> {
    if key in sources then ActionsIn(loads(key, sources[key].stamp)) else []
  }

  /** Every source row tells how its run loads, and reading any source back gives exactly its
      run's actions: nothing stale, nothing missing, nothing left of a dropped source. */
  ghost predicate Mirror(sources: map<string, SourceRow>, t: Tables, loads: Loads) {
    && Consistent(t)
    && (forall key :: key in sources ==> RowFor(sources[key], loads(key, sources[key].stamp)))
    && (forall key :: ReadsOf(t, key) == Expected(sources, loads, key))
  }

  function InsertedAll(t: Tables, key: string, actions: seq<Action>): Tables {
    if actions == [] then t else Inserted(InsertedAll(t, key, actions[..|actions| - 1]), key, actions[|actions| - 1])
  }

  lemma DropMirror(sources: map<string, SourceRow>, t: Tables, loads: Loads, gone: string)
    requires Mirror(sources, t, loads)
    ensures Mirror(sources - {gone}, Dropped(t, gone), loads)
  {
    forall key
      ensures ReadsOf(Dropped(t, gone), key) == Expected(sources - {gone}, loads, key)
    {
      DropKeeps(t, gone, key);
    }
    DropKeeps(t, gone, gone);
  }

  /** The source's actions read back after those it had; every other source reads as before. */
  predicate Extended(t: Tables, next: Tables, source: string, more: seq<Cells>, key: string) {
    Consistent(next) && ReadsOf(next, key) == if key == source then ReadsOf(t, key) + more else ReadsOf(t, key)
  }

  lemma InsertExtends(t: Tables, mid: Tables, source: string, rest: seq<Action>, last: Action, key: string)
    requires Consistent(mid) && Extended(t, mid, source, KeptAll(rest), key)
    ensures Extended(t, Inserted(mid, source, last), source, KeptAll(rest) + [Kept(last)], key)
  {
    hide ReadsOf, Inserted, KeptAll, Kept, Consistent;
    InsertKeeps(mid, source, last, key);
    Regrouped(ReadsOf(t, key), KeptAll(rest), [Kept(last)]);
  }

  lemma Regrouped<T>(a: seq<T>, b: seq<T>, c: seq<T>)
    ensures a + b + c == a + (b + c) && a + [] == a
  {
  }

  lemma {:induction false} InsertAllKeeps(t: Tables, source: string, actions: seq<Action>, key: string)
    requires Consistent(t)
    ensures Extended(t, InsertedAll(t, source, actions), source, KeptAll(actions), key)
  {
    if actions == [] {
      assert ReadsOf(t, key) + [] == ReadsOf(t, key);
    } else {
      var rest, last := actions[..|actions| - 1], actions[|actions| - 1];
      InsertAllKeeps(t, source, rest, key);
      InsertExtends(t, InsertedAll(t, source, rest), source, rest, last, key);
    }
  }

  lemma InsertMirror(sources: map<string, SourceRow>, t: Tables, loads: Loads, s: Source, row: SourceRow)
    requires Mirror(sources, t, loads) && s.key !in sources
    requires s.load == loads(s.key, s.stamp) && RowFor(row, s.load) && row.stamp == s.stamp
    ensures s.load.Readable? ==> Mirror(sources[s.key := row], InsertedAll(t, s.key, s.load.actions), loads)
    ensures s.load.Unreadable? ==> Mirror(sources[s.key := row], t, loads)
  {
    hide ReadsOf, InsertedAll, Consistent;
    var more := sources[s.key := row];
    assert ReadsOf(t, s.key) == [];
    if s.load.Readable? {
      forall key
        ensures ReadsOf(InsertedAll(t, s.key, s.load.actions), key) == Expected(more, loads, key)
      {
        InsertAllKeeps(t, s.key, s.load.actions, key);
        assert ReadsOf(t, key) == Expected(sources, loads, key);
      }
      InsertAllKeeps(t, s.key, s.load.actions, s.key);
    } else {
      forall key
        ensures ReadsOf(t, key) == Expected(more, loads, key)
      {
        assert ReadsOf(t, key) == Expected(sources, loads, key);
      }
    }
  }

  // ----- what a sync wants -----

  /** {source.key: source for source in sources}: the last of a key wins. */
  function Wanted(sources: seq<Source>): map<string, Source> {
    if sources == [] then map[]
    else Wanted(sources[..|sources| - 1])[sources[|sources| - 1].key := sources[|sources| - 1]]
  }

  predicate FromLoads(sources: seq<Source>, loads: Loads) {
    forall s :: s in sources ==> s.load == loads(s.key, s.stamp)
  }

  predicate Loaded(wanted: map<string, Source>, loads: Loads) {
    forall key :: key in wanted ==> wanted[key].key == key && wanted[key].load == loads(key, wanted[key].stamp)
  }

  lemma {:induction false} WantedFrom(sources: seq<Source>, loads: Loads)
    requires FromLoads(sources, loads)
    ensures Loaded(Wanted(sources), loads)
  {
    if sources != [] {
      assert sources[|sources| - 1] in sources;
      WantedFrom(sources[..|sources| - 1], loads);
    }
  }

  function Stamps(sources: map<string, SourceRow>): (r: map<string, string>)
    ensures r.Keys == sources.Keys
  {
    map key | key in sources :: sources[key].stamp
  }

  predicate Stale(known: map<string, string>, wanted: map<string, Source>, key: string) {
    key !in wanted || (key in known && known[key] != wanted[key].stamp)
  }

  /** The sources a sync indexes: new ones and those whose stamp changed. */
  function Changed(known: map<string, string>, wanted: map<string, Source>): set<string> {
    set key | key in wanted && !(key in known && known[key] == wanted[key].stamp)
  }

  function ReadableIn(keys: set<string>, wanted: map<string, Source>): set<string> {
    set key | key in keys && key in wanted && wanted[key].load.Readable?
  }

  function UnreadableIn(keys: set<string>, wanted: map<string, Source>): set<string> {
    set key | key in keys && key in wanted && wanted[key].load.Unreadable?
  }

  function Truncated(sources: map<string, SourceRow>): set<string> {
    set key | key in sources && sources[key].truncated
  }

  /** What is left of the old sources while those outside `todo` have been looked at. */
  ghost predicate Remaining(was: map<string, SourceRow>, now: map<string, SourceRow>, wanted: map<string, Source>,
            todo: set<string>) {
    && (forall key :: key in now <==> key in was && (key in todo || !Stale(Stamps(was), wanted, key)))
    && (forall key :: key in now ==> now[key] == was[key])
  }

  lemma RemainingStep(was: map<string, SourceRow>, now: map<string, SourceRow>, wanted: map<string, Source>,
                      todo: set<string>, key: string)
    requires Remaining(was, now, wanted, todo) && key in todo && key in was
    ensures key in now
    ensures Remaining(was, if Stale(Stamps(was), wanted, key) then now - {key} else now, wanted, todo - {key})
  {
  }

  /** The keys looked at so far that are no longer wanted. */
  ghost predicate Gone(gone: set<string>, known: map<string, string>, todo: set<string>, wanted: map<string, Source>) {
    forall key :: key in gone <==> key in known && key !in todo && key !in wanted
  }

  lemma AllGone(gone: set<string>, known: map<string, string>, wanted: map<string, Source>)
    requires Gone(gone, known, {}, wanted)
    ensures gone == known.Keys - wanted.Keys
  {
  }

  /** The wanted sources that are indexed while those in `todo` are still to be looked at. */
  ghost predicate Filled(now: map<string, SourceRow>, wanted: map<string, Source>, changed: set<string>,
            todo: set<string>) {
    && (forall key :: key in now <==> key in wanted && (key !in todo || key !in changed))
    && (forall key :: key in now ==> now[key].stamp == wanted[key].stamp)
  }

  lemma ChangedRest(was: map<string, SourceRow>, now: map<string, SourceRow>, wanted: map<string, Source>)
    requires Remaining(was, now, wanted, {})
    ensures Filled(now, wanted, Changed(Stamps(was), wanted), wanted.Keys)
    ensures UpToDate(was, wanted) ==> Changed(Stamps(was), wanted) == {} && now == was
  {
  }

  /** The changed sources looked at so far whose runs load, or do not. */
  ghost predicate Looked(done: set<string>, readable: bool, changed: set<string>, todo: set<string>,
                         wanted: map<string, Source>)
  {
    forall key :: key in done <==>
      key in changed && key !in todo && key in wanted && wanted[key].load.Readable? == readable
  }

  lemma LookedStep(done: set<string>, readable: bool, changed: set<string>, todo: set<string>,
                   wanted: map<string, Source>, key: string)
    requires Looked(done, readable, changed, todo, wanted) && key in todo && key in wanted
    ensures var counts := key in changed && wanted[key].load.Readable? == readable;
            && Looked(if counts then done + {key} else done, readable, changed, todo - {key}, wanted)
            && (counts ==> |done + {key}| == |done| + 1)
  {
    assert key !in done;
  }

  lemma FilledStep(now: map<string, SourceRow>, next: map<string, SourceRow>, wanted: map<string, Source>,
                   changed: set<string>, todo: set<string>, key: string)
    requires Filled(now, wanted, changed, todo) && key in todo && key in wanted
    requires if key in changed then key in next && next == now[key := next[key]] && next[key].stamp == wanted[key].stamp
             else next == now
    ensures Filled(next, wanted, changed, todo - {key})
  {
    assert key in changed ==> forall k :: k in next <==> k == key || k in now;
  }

  lemma AllLooked(done: set<string>, bad: set<string>, changed: set<string>, wanted: map<string, Source>)
    requires Looked(done, true, changed, {}, wanted) && Looked(bad, false, changed, {}, wanted)
    ensures done == ReadableIn(changed, wanted) && bad == UnreadableIn(changed, wanted)
  {
  }

  function CountOne(report: SyncReport, s: Source): SyncReport {
    if s.load.Readable? then report.(indexed := report.indexed + 1) else report.(unreadable := report.unreadable + 1)
  }

  /** Each source is indexed under its wanted stamp and none besides. */
  predicate UpToDate(sources: map<string, SourceRow>, wanted: map<string, Source>) {
    sources.Keys == wanted.Keys && forall key :: key in sources ==> sources[key].stamp == wanted[key].stamp
  }

  /** The counts of a sync: only what was new or changed is counted as indexed or unreadable. */
  function ReportOf(known: map<string, string>, wanted: map<string, Source>, after: map<string,
            SourceRow>): SyncReport {
    var changed := Changed(known, wanted);
    SyncReport(|ReadableIn(changed, wanted)|, |known.Keys - wanted.Keys|, |UnreadableIn(changed, wanted)|,
               |Truncated(after)|, |wanted.Keys|)
  }

  // ----- the same, of the list of sources -----

  /** No source after it has its key. */
  ghost predicate LastUnder(all: seq<Source>, i: int) {
    0 <= i < |all| && forall j :: i < j < |all| ==> all[j].key != all[i].key
  }

  ghost function KeysOf(all: seq<Source>): set<string> {
    set s | s in all :: s.key
  }

  lemma {:induction false} LastWanted(all: seq<Source>, i: nat)
    requires LastUnder(all, i)
    ensures all[i].key in Wanted(all) && Wanted(all)[all[i].key] == all[i]
    decreases |all|
  {
    var n := |all| - 1;
    if i < n {
      assert LastUnder(all[..n], i);
      LastWanted(all[..n], i);
    }
  }

  lemma {:induction false} WantedLast(all: seq<Source>, key: string) returns (i: nat)
    requires key in Wanted(all)
    ensures LastUnder(all, i) && all[i].key == key
  {
    i := |all| - 1;
    if all[i].key != key {
      i := WantedLast(all[..i], key);
    }
  }

  lemma {:induction false} WantedKeys(all: seq<Source>)
    ensures Wanted(all).Keys == KeysOf(all)
  {
    if all != [] {
      var n := |all| - 1;
      WantedKeys(all[..n]);
      assert forall s :: s in all <==> s in all[..n] || s == all[n];
    }
  }

  /** One source row for each key, that of the last source under it, with the actions of its run;
      none where the run cannot be read. */
  ghost predicate Shows(all: seq<Source>, sources: map<string, SourceRow>, t: Tables) {
    && (forall key :: key in sources ==> exists i :: LastUnder(all, i) && all[i].key == key)
    && (forall key :: key !in sources ==> ReadsOf(t, key) == [])
    && forall i :: LastUnder(all, i) ==> ShowsOne(all[i], sources, t)
  }

  ghost predicate ShowsOne(s: Source, sources: map<string, SourceRow>, t: Tables) {
    s.key in sources &&
    match s.load
    case Readable(runId, actions, truncated) =>
      sources[s.key] == SourceRow(s.stamp, runId, false, truncated) && ReadsOf(t, s.key) == KeptAll(actions)
    case Unreadable =>
      sources[s.key] == SourceRow(s.stamp, "", true, false) && ReadsOf(t, s.key) == []
  }

  lemma SyncShows(all: seq<Source>, sources: map<string, SourceRow>, t: Tables, loads: Loads)
    requires Mirror(sources, t, loads) && FromLoads(all, loads) && UpToDate(sources, Wanted(all))
    ensures Shows(all, sources, t)
  {
    hide ReadsOf, Consistent, Wanted;
    forall key | key in sources
      ensures exists i :: LastUnder(all, i) && all[i].key == key
    {
      var i := WantedLast(all, key);
    }
    forall i | LastUnder(all, i)
      ensures ShowsOne(all[i], sources, t)
    {
      var s := all[i];
      LastWanted(all, i);
      assert s in all && RowFor(sources[s.key], loads(s.key, s.stamp));
      assert ReadsOf(t, s.key) == Expected(sources, loads, s.key);
    }
  }

  /** The last source under the key, which had no row or one under another stamp. */
  ghost predicate NewUnder(all: seq<Source>, was: map<string, SourceRow>, key: string, readable: bool) {
    exists i :: LastUnder(all, i) && all[i].key == key && all[i].load.Readable? == readable &&
                (key in was ==> was[key].stamp != all[i].stamp)
  }

  ghost predicate TruncatedUnder(all: seq<Source>, key: string) {
    exists i :: LastUnder(all, i) && all[i].key == key && all[i].load.Readable? && all[i].load.truncated
  }

  ghost function NewKeys(all: seq<Source>, was: map<string, SourceRow>, readable: bool): set<string> {
    set key | key in KeysOf(all) && NewUnder(all, was, key, readable)
  }

  ghost function TruncatedKeys(all: seq<Source>): set<string> {
    set key | key in KeysOf(all) && TruncatedUnder(all, key)
  }

  ghost predicate Reports(all: seq<Source>, was: map<string, SourceRow>, report: SyncReport) {
    && report.indexed == |NewKeys(all, was, true)| && report.unreadable == |NewKeys(all, was, false)|
    && report.removed == |was.Keys - KeysOf(all)| && report.truncatedRuns == |TruncatedKeys(all)|
    && report.sources == |KeysOf(all)|
  }

  /** What a key wants is what the last source under it says. */
  lemma TellsOf(all: seq<Source>, was: map<string, SourceRow>, key: string)
    requires key in Wanted(all)
    ensures var s := Wanted(all)[key];
            && (forall readable :: NewUnder(all, was, key, readable) <==>
                  s.load.Readable? == readable && (key in was ==> was[key].stamp != s.stamp))
            && (TruncatedUnder(all, key) <==> s.load.Readable? && s.load.truncated)
  {
    var i := WantedLast(all, key);
    hide Wanted;
    forall j | LastUnder(all, j)
      ensures all[j].key in Wanted(all) && Wanted(all)[all[j].key] == all[j]
    {
      LastWanted(all, j);
    }
  }

  lemma RowTells(all: seq<Source>, after: map<string, SourceRow>, loads: Loads, key: string)
    requires key in Wanted(all) && key in after && after[key].stamp == Wanted(all)[key].stamp && FromLoads(all, loads)
    requires RowFor(after[key], loads(key, after[key].stamp))
    ensures var s := Wanted(all)[key]; after[key].truncated <==> s.load.Readable? && s.load.truncated
  {
    WantedFrom(all, loads);
  }

  lemma SyncReports(all: seq<Source>, was: map<string, SourceRow>, after: map<string, SourceRow>, loads: Loads)
    requires FromLoads(all, loads) && UpToDate(after, Wanted(all))
    requires forall key :: key in after ==> RowFor(after[key], loads(key, after[key].stamp))
    ensures Reports(all, was, ReportOf(Stamps(was), Wanted(all), after))
  {
    hide Wanted, LastUnder, FromLoads, Loaded, RowFor;
    WantedKeys(all);
    var wanted, now := Wanted(all), Changed(Stamps(was), Wanted(all));
    forall key | key in KeysOf(all)
      ensures wanted[key].load.Readable? && key in now <==> NewUnder(all, was, key, true)
      ensures wanted[key].load.Unreadable? && key in now <==> NewUnder(all, was, key, false)
      ensures after[key].truncated <==> TruncatedUnder(all, key)
    {
      TellsOf(all, was, key);
      RowTells(all, after, loads, key);
    }
    assert ReadableIn(now, wanted) == NewKeys(all, was, true) && UnreadableIn(now, wanted) == NewKeys(all, was, false);
    assert Truncated(after) == TruncatedKeys(all);
  }

  class ActionIndex {
    var sources: map<string, SourceRow>
    var actions: seq<ActionRow>
    var paths: seq<PathRow>
    var hosts: seq<HostRow>

    constructor ()
      ensures sources == map[] && Now() == Tables([], [], [])
      ensures forall loads :: Mirror(sources, Now(), loads)
    {
      sources, actions, paths, hosts := map[], [], [], [];
    }

    function Now(): Tables
      reads this
    {
      Tables(actions, paths, hosts)
    }

    method Drop(key: string)
      modifies this
      ensures Now() == Dropped(old(Now()), key) && sources == old(sources) - {key}
    {
      paths := PathsWithout(paths, IdsOf(actions, key));
      hosts := HostsWithout(hosts, IdsOf(actions, key));
      actions := ActionsWithout(actions, key);
      sources := sources - {key};
    }

    method Insert(key: string, action: Action)
      modifies this
      ensures Now() == Inserted(old(Now()), key, action) && sources == old(sources)
    {
      var id := NextId(actions);
      actions := actions + [RowOf(id, key, action)];
      for i := 0 to |action.paths|
        invariant actions == old(actions) + [RowOf(id, key, action)] && sources == old(sources) && hosts == old(hosts)
        invariant paths == old(paths) + PathRows(id, action.paths[..i], action.written)
      {
        assert action.paths[..i + 1][..i] == action.paths[..i];
        paths := paths + [PathRow(id, action.paths[i], action.paths[i] in action.written)];
      }
      assert action.paths[..|action.paths|] == action.paths;
      for i := 0 to |action.hosts|
        invariant actions == old(actions) + [RowOf(id, key, action)] && sources == old(sources)
        invariant paths == old(paths) + PathRows(id, action.paths, action.written)
        invariant hosts == old(hosts) + HostRows(id, action.hosts[..i])
      {
        assert action.hosts[..i + 1][..i] == action.hosts[..i];
        hosts := hosts + [HostRow(id, action.hosts[i])];
      }
      assert action.hosts[..|action.hosts|] == action.hosts;
    }

    /** The key is not indexed, so the insert cannot conflict with its primary key. */
    method Index(s: Source, report: SyncReport) returns (counted: SyncReport)
      requires s.key !in sources
      modifies this
      ensures sources.Keys == old(sources).Keys + {s.key} && RowFor(sources[s.key], s.load) &&
          sources[s.key].stamp == s.stamp
      ensures sources == old(sources)[s.key := sources[s.key]]
      ensures s.load.Readable? ==>
        Now() == InsertedAll(old(Now()), s.key, s.load.actions) && counted == report.(indexed := report.indexed + 1)
      ensures s.load.Unreadable? ==> Now() == old(Now()) && counted == report.(unreadable := report.unreadable + 1)
    {
      if s.load.Unreadable? {
        sources := sources[s.key := SourceRow(s.stamp, "", true, false)];
        return report.(unreadable := report.unreadable + 1);
      }
      sources := sources[s.key := SourceRow(s.stamp, s.load.runId, false, s.load.truncated)];
      var all := s.load.actions;
      for i := 0 to |all|
        invariant sources == old(sources)[s.key := SourceRow(s.stamp, s.load.runId, false, s.load.truncated)]
        invariant Now() == InsertedAll(old(Now()), s.key, all[..i])
      {
        assert all[..i + 1][..i] == all[..i];
        Insert(s.key, all[i]);
      }
      assert all[..|all|] == all;
      return report.(indexed := report.indexed + 1);
    }

    method DropIfStale(key: string, wanted: map<string, Source>, known: map<string, string>, ghost loads: Loads)
      requires Mirror(sources, Now(), loads) && key in sources && key in known
      modifies this
      ensures Mirror(sources, Now(), loads)
      ensures sources == if Stale(known, wanted, key) then old(sources) - {key} else old(sources)
      ensures sources == old(sources) ==> Now() == old(Now())
    {
      if key !in wanted || wanted[key].stamp != known[key] {
        DropMirror(sources, Now(), loads, key);
        Drop(key);
        assert key !in sources;
      }
    }

    /** Deletes what is gone or changed; keys are taken in any order. */
    method DropStale(wanted: map<string, Source>, ghost loads: Loads) returns (removed: nat)
      requires Mirror(sources, Now(), loads)
      modifies this
      ensures Mirror(sources, Now(), loads)
      ensures removed == |old(sources).Keys - wanted.Keys|
      ensures Remaining(old(sources), sources, wanted, {})
      ensures sources == old(sources) ==> Now() == old(Now())
    {
      var known := Stamps(sources);
      var todo := known.Keys;
      removed := 0;
      ghost var gone: set<string> := {};
      while todo != {}
        invariant todo <= known.Keys && Mirror(sources, Now(), loads)
        invariant Remaining(old(sources), sources, wanted, todo)
        invariant sources == old(sources) ==> Now() == old(Now())
        invariant Gone(gone, known, todo, wanted) && removed == |gone|
        decreases todo
      {
        var key :| key in todo;
        RemainingStep(old(sources), sources, wanted, todo, key);
        todo := todo - {key};
        DropIfStale(key, wanted, known, loads);
        if key !in wanted {
          removed := removed + 1;
          gone := gone + {key};
        }
      }
      AllGone(gone, known, wanted);
    }

    method IndexIfChanged(key: string, wanted: map<string, Source>, known: map<string, string>, report: SyncReport,
                          ghost loads: Loads)
      returns (counted: SyncReport)
      requires Mirror(sources, Now(), loads) && Loaded(wanted, loads) && key in wanted
      requires key in Changed(known, wanted) ==> key !in sources
      modifies this
      ensures Mirror(sources, Now(), loads)
      ensures key !in Changed(known, wanted) ==> sources == old(sources) && Now() == old(Now()) && counted == report
      ensures key in Changed(known, wanted) ==>
        && key in sources && sources == old(sources)[key := sources[key]] && sources[key].stamp == wanted[key].stamp
        && counted == CountOne(report, wanted[key])
    {
      if key in known && known[key] == wanted[key].stamp {
        return report;
      }
      counted := Index(wanted[key], report);
      InsertMirror(old(sources), old(Now()), loads, wanted[key], sources[key]);
    }

    /** Indexes what is new or changed; keys are taken in any order. */
    method IndexChanged(wanted: map<string, Source>, known: map<string, string>, report: SyncReport, ghost loads: Loads)
      returns (counted: SyncReport)
      requires Mirror(sources, Now(), loads) && Loaded(wanted, loads)
      requires Filled(sources, wanted, Changed(known, wanted), wanted.Keys)
      modifies this
      ensures Mirror(sources, Now(), loads)
      ensures UpToDate(sources, wanted)
      ensures counted.indexed == report.indexed + |ReadableIn(Changed(known, wanted), wanted)|
      ensures counted.unreadable == report.unreadable + |UnreadableIn(Changed(known, wanted), wanted)|
      ensures counted.removed == report.removed && counted.sources == report.sources
      ensures Changed(known, wanted) == {} ==> Now() == old(Now()) && sources == old(sources)
    {
      counted := report;
      var todo := wanted.Keys;
      ghost var changed := Changed(known, wanted);
      ghost var done: set<string>, bad: set<string> := {}, {};
      while todo != {}
        invariant todo <= wanted.Keys && Mirror(sources, Now(), loads)
        invariant Filled(sources, wanted, changed, todo)
        invariant Looked(done, true, changed, todo, wanted) && Looked(bad, false, changed, todo, wanted)
        invariant counted.indexed == report.indexed + |done| && counted.unreadable == report.unreadable + |bad|
        invariant counted.removed == report.removed && counted.sources == report.sources
        invariant changed == {} ==> Now() == old(Now()) && sources == old(sources)
        decreases todo
      {
        var key :| key in todo;
        LookedStep(done, true, changed, todo, wanted, key);
        LookedStep(bad, false, changed, todo, wanted, key);
        label Here:
        counted := IndexIfChanged(key, wanted, known, counted, loads);
        FilledStep(old@Here(sources), sources, wanted, changed, todo, key);
        todo := todo - {key};
        if key in changed && wanted[key].load.Readable? {
          done := done + {key};
        } else if key in changed {
          bad := bad + {key};
        }
      }
      AllLooked(done, bad, changed, wanted);
    }

    method Sync(wantedSources: seq<Source>, ghost loads: Loads) returns (report: SyncReport)
      requires Mirror(sources, Now(), loads) && FromLoads(wantedSources, loads)
      modifies this
      ensures Mirror(sources, Now(), loads)
      ensures UpToDate(sources, Wanted(wantedSources))
      ensures Shows(wantedSources, sources, Now())
      ensures report == ReportOf(Stamps(old(sources)), Wanted(wantedSources), sources)
      ensures Reports(wantedSources, old(sources), report)
      ensures UpToDate(old(sources), Wanted(wantedSources)) ==> Now() == old(Now()) && sources == old(sources)
    {
      var wanted := Wanted(wantedSources);
      WantedFrom(wantedSources, loads);
      var known := Stamps(sources);
      var removed := DropStale(wanted, loads);
      ChangedRest(old(sources), sources, wanted);
      report := SyncReport(0, removed, 0, 0, |wanted.Keys|);
      report := IndexChanged(wanted, known, report, loads);
      report := report.(truncatedRuns := |Truncated(sources)|);
      SyncShows(wantedSources, sources, Now(), loads);
      SyncReports(wantedSources, old(sources), sources, loads);
    }
  }
}
