// opentine/_actions_db.py and _actions_query.py: a synced index answers every query as a
// fresh build over the same sources does.
module IndexTheorems {
  import opened Outcomes
  import opened PackedLists
  import opened ActionQuery
  import opened QueryTheorems
  import opened QueryCompiler
  import opened IndexTables
  import opened IndexOrder
  import opened TextOrder
  import opened ActionsDb

  /** Every stored row under its source, in rowid order. */
  function AllRows(actions: seq<ActionRow>, t: Tables): seq<Listed> {
    if actions == [] then []
    else
      var last := actions[|actions| - 1];
      AllRows(actions[..|actions| - 1], t) + [Listed(last.source, CellsAt(last, t.paths, t.hosts))]
  }

  /** SELECT ... FROM actions WHERE ... ORDER BY source, seq */
  function Answer(t: Tables, where: Listed -> bool): seq<Listed> {
    OrderBy(AllRows(t.actions, t), where)
  }

  /** LIMIT ?: none at all when negative. */
  function Limited<T>(r: seq<T>, limit: Option<int>): seq<T> {
    if limit.Some? && 0 <= limit.value < |r| then r[..limit.value] else r
  }

  function RebuiltAll(r: seq<Listed>): seq<Action> {
    if r == [] then [] else RebuiltAll(r[..|r| - 1]) + [Rebuilt(r[|r| - 1].cells)]
  }

  /** The extractor numbers a run's actions by their steps. */
  predicate Numbered(load: Load) {
    load.Readable? ==> forall i, j :: 0 <= i < j < |load.actions| ==> load.actions[i].order < load.actions[j].order
  }

  ghost predicate AllNumbered(loads: Loads) {
    forall key, stamp :: Numbered(loads(key, stamp))
  }

  predicate Rises(cells: seq<Cells>) {
    forall i, j :: 0 <= i < j < |cells| ==> cells[i].order < cells[j].order
  }

  lemma {:induction false} KeptRises(actions: seq<Action>)
    ensures |KeptAll(actions)| == |actions| && forall i :: 0 <= i < |actions| ==>
        KeptAll(actions)[i] == Kept(actions[i])
  {
    if actions != [] {
      KeptRises(actions[..|actions| - 1]);
    }
  }

  lemma {:induction false} RowsBySource(actions: seq<ActionRow>, t: Tables, x: Listed)
    ensures x in AllRows(actions, t) <==> x.cells in CellsOf(actions, t.paths, t.hosts, x.source)
  {
    if actions != [] {
      RowsBySource(actions[..|actions| - 1], t, x);
    }
  }

  lemma {:induction false} RowsDistinct(actions: seq<ActionRow>, t: Tables)
    requires forall key :: Rises(CellsOf(actions, t.paths, t.hosts, key))
    ensures Distinct(AllRows(actions, t))
  {
    if actions != [] {
      var rest, last := actions[..|actions| - 1], actions[|actions| - 1];
      var all, end := AllRows(rest, t), CellsAt(last, t.paths, t.hosts);
      forall key
        ensures Rises(CellsOf(rest, t.paths, t.hosts, key))
      {
        var more := CellsOf(actions, t.paths, t.hosts, key);
        assert Rises(more);
        assert CellsOf(rest, t.paths, t.hosts, key) == more[..|CellsOf(rest, t.paths, t.hosts, key)|];
      }
      RowsDistinct(rest, t);
      forall i | 0 <= i < |all|
        ensures !SameRank(all[i], Listed(last.source, end))
      {
        assert all[i] in all;
        RowsBySource(rest, t, all[i]);
        if all[i].source == last.source {
          var same := CellsOf(rest, t.paths, t.hosts, last.source);
          var j :| 0 <= j < |same| && same[j] == all[i].cells;
          assert CellsOf(actions, t.paths, t.hosts, last.source) == same + [end];
          assert (same + [end])[j].order < (same + [end])[|same|].order;
        }
      }
    }
  }

  lemma MirrorDistinct(sources: map<string, SourceRow>, t: Tables, loads: Loads)
    requires Mirror(sources, t, loads) && AllNumbered(loads)
    ensures Distinct(AllRows(t.actions, t))
  {
    forall key
      ensures Rises(CellsOf(t.actions, t.paths, t.hosts, key))
    {
      assert ReadsOf(t, key) == Expected(sources, loads, key);
      if key in sources {
        var load := loads(key, sources[key].stamp);
        assert Numbered(load);
        if load.Readable? {
          KeptRises(load.actions);
        }
      }
    }
    RowsDistinct(t.actions, t);
  }

  /** The rows of a synced index: exactly the kept actions of the sources' runs. */
  lemma MirrorRows(sources: map<string, SourceRow>, t: Tables, loads: Loads, x: Listed)
    requires Mirror(sources, t, loads)
    ensures x in AllRows(t.actions, t) <==> x.cells in Expected(sources, loads, x.source)
  {
    RowsBySource(t.actions, t, x);
    assert ReadsOf(t, x.source) == Expected(sources, loads, x.source);
  }

  /** Two indexes over the same stamps answer every statement with the same rows in the
      same order, whatever syncs led to each. */
  lemma SameAnswers(s1: map<string, SourceRow>, t1: Tables, s2: map<string, SourceRow>, t2: Tables, loads: Loads,
                    where: Listed -> bool)
    requires Mirror(s1, t1, loads) && Mirror(s2, t2, loads) && AllNumbered(loads)
    requires Stamps(s1) == Stamps(s2)
    ensures Answer(t1, where) == Answer(t2, where)
  {
    MirrorDistinct(s1, t1, loads);
    MirrorDistinct(s2, t2, loads);
    OrderByAnswers(AllRows(t1.actions, t1), where);
    OrderByAnswers(AllRows(t2.actions, t2), where);
    forall x
      ensures x in Answer(t1, where) <==> x in Answer(t2, where)
    {
      MirrorRows(s1, t1, loads, x);
      MirrorRows(s2, t2, loads, x);
      SameExpected(s1, s2, loads, x.source);
    }
    OneAnswer(Answer(t1, where), Answer(t2, where));
  }

  lemma SameExpected(s1: map<string, SourceRow>, s2: map<string, SourceRow>, loads: Loads, key: string)
    requires Stamps(s1) == Stamps(s2)
    ensures Expected(s1, loads, key) == Expected(s2, loads, key)
  {
    assert key in s1 <==> key in Stamps(s1);
    assert key in s2 <==> key in Stamps(s2);
    if key in s1 {
      assert s1[key].stamp == Stamps(s1)[key] == Stamps(s2)[key] == s2[key].stamp;
    }
  }

  lemma UpToDateStamps(s1: map<string, SourceRow>, s2: map<string, SourceRow>, wanted: map<string, Source>)
    requires UpToDate(s1, wanted) && UpToDate(s2, wanted)
    ensures Stamps(s1) == Stamps(s2)
  {
  }

  // ----- rows(), find() and whole runs of syncs -----

  /** rows(): the actions rebuilt from the answer. */
  method Rows(index: ActionIndex, where: Listed -> bool, limit: Option<int>) returns (r: seq<Action>)
    ensures r == RebuiltAll(Limited(Answer(index.Now(), where), limit))
  {
    var records := Limited(Answer(index.Now(), where), limit);
    r := [];
    for i := 0 to |records|
      invariant r == RebuiltAll(records[..i])
    {
      assert records[..i + 1][..i] == records[..i];
      r := r + [Rebuilt(records[i].cells)];
    }
    assert records[..|records|] == records;
  }

  /** After any run of syncs, rows() equals that of an index built from scratch over the
      last sources; a second sync of them indexes, removes and writes nothing. */
  method EqualsFreshBuild(runs: seq<seq<Source>>, last: seq<Source>, where: Listed -> bool, limit: Option<int>,
                          ghost loads: Loads)
    returns (kept: seq<Action>, built: seq<Action>, again: SyncReport)
    requires AllNumbered(loads) && FromLoads(last, loads) && forall s :: s in runs ==> FromLoads(s, loads)
    ensures kept == built
    ensures again.indexed == 0 && again.removed == 0 && again.unreadable == 0
  {
    hide Shows, Reports, Mirror, Answer, Limited, RebuiltAll, FromLoads, AllNumbered;
    var index := new ActionIndex();
    for i := 0 to |runs|
      invariant fresh(index) && Mirror(index.sources, index.Now(), loads)
    {
      assert runs[i] in runs;
      var _ := index.Sync(runs[i], loads);
    }
    var _ := index.Sync(last, loads);
    var rebuilt := new ActionIndex();
    var _ := rebuilt.Sync(last, loads);
    UpToDateStamps(index.sources, rebuilt.sources, Wanted(last));
    SameAnswers(index.sources, index.Now(), rebuilt.sources, rebuilt.Now(), loads, where);
    kept := Rows(index, where, limit);
    built := Rows(rebuilt, where, limit);
    SettledReport(index.sources, Wanted(last));
    again := index.Sync(last, loads);
  }

  lemma SettledReport(sources: map<string, SourceRow>, wanted: map<string, Source>)
    requires UpToDate(sources, wanted)
    ensures Changed(Stamps(sources), wanted) == {}
    ensures ReadableIn({}, wanted) == {} && UnreadableIn({}, wanted) == {}
    ensures Stamps(sources).Keys - wanted.Keys == {}
  {
  }

  // ----- what a query finds -----

  /** The elements a packed column holds. */
  function Elements(column: string): seq<string> {
    if |column| >= 2 then Split(column[1..|column| - 1]) else []
  }

  /** A stored row as the query's conditions read it. */
  function QueryRow(c: Cells): Row {
    var f := c.facts;
    Row(f.tool, f.agent, f.model, f.provider, f.session, f.command, f.agentRef, f.runId, f.mcpServer, f.mcpTool,
        Elements(c.programs), Elements(c.verbs), f.ts, f.error, f.redacted, c.paths, c.hosts)
  }

  /** An action as the filters read it. */
  function ActionRowOf(a: Action): Row {
    var f := a.facts;
    Row(f.tool, f.agent, f.model, f.provider, f.session, f.command, f.agentRef, f.runId, f.mcpServer, f.mcpTool,
        a.programs, a.verbs, f.ts, f.error, f.redacted, Entries(a.paths, a.written), a.hosts)
  }

  lemma ElementsPack(vs: seq<string>)
    ensures Packed(Elements(Packed(vs))) == Packed(vs)
  {
    var inner := Join(NoCommas(vs));
    assert Packed(vs)[1..|Packed(vs)| - 1] == inner;
    JoinSplit(inner);
    var parts := Split(inner);
    assert NoCommas(parts) == parts;
  }

  lemma MemberByColumn(name: string, vs: seq<string>, ws: seq<string>)
    requires Packed(vs) == Packed(ws)
    ensures MemberMatches(name, vs) <==> MemberMatches(name, ws)
  {
    MemberMeans(name, vs);
    MemberMeans(name, ws);
  }

  /** Two rows that differ in nothing but how their packed columns are split. */
  predicate SameButLists(r: Row, s: Row) {
    r.(programs := s.programs, verbs := s.verbs) == s
  }

  lemma SameTargets(env: Env, q: Query, r: Row, s: Row)
    requires SameButLists(r, s)
    ensures TargetMatches(env, q, r) <==> TargetMatches(env, q, s)
    ensures TimeMatches(q, r) <==> TimeMatches(q, s)
  {
  }

  lemma SameDeeds(env: Env, q: Query, r: Row, s: Row)
    requires SameButLists(r, s)
    requires MemberMatches(env.lower(q.program), r.programs) <==> MemberMatches(env.lower(q.program), s.programs)
    requires MemberMatches(env.lower(q.verb), r.verbs) <==> MemberMatches(env.lower(q.verb), s.verbs)
    ensures DeedMatches(env, q, r) <==> DeedMatches(env, q, s)
  {
    assert CommandMatches(env, q.cmd, r) <==> CommandMatches(env, q.cmd, s);
    assert WroteSomething(r) <==> WroteSomething(s);
  }

  /** A filter reads the same in a stored row as in the action it was stored from. */
  lemma StoredMatches(env: Env, q: Query, a: Action)
    ensures Matches(env, q, QueryRow(Kept(a))) <==> Matches(env, q, ActionRowOf(a))
  {
    var stored, was := QueryRow(Kept(a)), ActionRowOf(a);
    ElementsPack(a.programs);
    ElementsPack(a.verbs);
    MemberByColumn(env.lower(q.program), stored.programs, was.programs);
    MemberByColumn(env.lower(q.verb), stored.verbs, was.verbs);
    SameDeeds(env, q, stored, was);
    SameTargets(env, q, stored, was);
  }

  const MAX_RESULTS := 100_000

  /** The filters of a query, as a test on stored rows. */
  function Meets(env: Env, q: Query): Listed -> bool {
    (x: Listed) => Matches(env, q, QueryRow(x.cells))
  }

  /** The rows whose filters hold, in order. */
  function MatchingRows(t: Tables, env: Env, q: Query): seq<Listed> {
    OrderBy(AllRows(t.actions, t), Meets(env, q))
  }

  /** The actions of the first rows: as many as the limit allows, all when it is negative. */
  ghost predicate FirstOf(r: seq<Action>, rows: seq<Listed>, limit: int) {
    && |r| == (if 0 <= limit < |rows| then limit else |rows|)
    && forall i :: 0 <= i < |r| ==> r[i] == Rebuilt(rows[i].cells)
  }

  lemma {:induction false} RebuiltEach(rows: seq<Listed>)
    ensures |RebuiltAll(rows)| == |rows|
    ensures forall i :: 0 <= i < |rows| ==> RebuiltAll(rows)[i] == Rebuilt(rows[i].cells)
  {
    if rows != [] {
      RebuiltEach(rows[..|rows| - 1]);
    }
  }

  lemma LimitedFirst(rows: seq<Listed>, limit: int)
    ensures FirstOf(RebuiltAll(Limited(rows, Some(limit))), rows, limit)
  {
    RebuiltEach(Limited(rows, Some(limit)));
  }

  /** find(): the actions of the first matching rows, as many as the limit and the cap allow. */
  method Find(index: ActionIndex, env: Env, q: Query, limit: int, ghost loads: Loads) returns (r: seq<Action>)
    requires Mirror(index.sources, index.Now(), loads) && AllNumbered(loads)
    ensures r == RebuiltAll(Limited(MatchingRows(index.Now(), env, q),
        Some(if limit < MAX_RESULTS then limit else MAX_RESULTS)))
    ensures FirstOf(r, MatchingRows(index.Now(), env, q), if limit < 100_000 then limit else 100_000)
  {
    var clauses, params := CompileQuery(env, q);
    ghost var any: Row :| true;
    assert Agrees(env, q, clauses, params, any);
    var where := (x: Listed) => Selects(env, clauses, QueryRow(x.cells), params);
    MirrorDistinct(index.sources, index.Now(), loads);
    CompiledRows(index.Now(), env, q, clauses, params, where);
    r := Rows(index, where, Some(if limit < MAX_RESULTS then limit else MAX_RESULTS));
    LimitedFirst(MatchingRows(index.Now(), env, q), if limit < MAX_RESULTS then limit else MAX_RESULTS);
  }

  /** The compiled statement answers with the matching rows. */
  lemma CompiledRows(t: Tables, env: Env, q: Query, clauses: seq<Clause>, params: seq<Param>, where: Listed -> bool)
    requires Compiled(env, q, clauses, params) && Distinct(AllRows(t.actions, t)) && |params| == TotalArity(clauses)
    requires forall x :: where(x) <==> Selects(env, clauses, QueryRow(x.cells), params)
    ensures Answer(t, where) == MatchingRows(t, env, q)
  {
    var matches := Meets(env, q);
    OrderByAnswers(AllRows(t.actions, t), where);
    OrderByAnswers(AllRows(t.actions, t), matches);
    forall x
      ensures where(x) <==> matches(x)
    {
      assert Agrees(env, q, clauses, params, QueryRow(x.cells));
    }
    OneAnswer(OrderBy(AllRows(t.actions, t), where), OrderBy(AllRows(t.actions, t), matches));
  }

  /** On a synced index the matching rows are, in order and without repeats, exactly those
      kept from the actions of the indexed runs that meet every filter. */
  lemma MatchingRowsFound(sources: map<string, SourceRow>, t: Tables, loads: Loads, env: Env, q: Query)
    requires Mirror(sources, t, loads) && AllNumbered(loads)
    ensures var rows := MatchingRows(t, env, q);
            forall i, j :: 0 <= i < j < |rows| ==>
              || Below(rows[i].source, rows[j].source)
              || (rows[i].source == rows[j].source && rows[i].cells.order < rows[j].cells.order)
    ensures forall x :: x in MatchingRows(t, env, q) <==> Finds(sources, loads, env, q, x)
  {
    MirrorDistinct(sources, t, loads);
    OrderByAnswers(AllRows(t.actions, t), Meets(env, q));
    forall x
      ensures x in MatchingRows(t, env, q) <==> Finds(sources, loads, env, q, x)
    {
      MirrorRows(sources, t, loads, x);
      FindsMeans(sources, loads, env, q, x);
    }
  }

  /** A row kept from an action of this run that meets the query. */
  predicate FindsIn(load: Load, env: Env, q: Query, cells: Cells) {
    load.Readable? && exists i :: 0 <= i < |load.actions| && Kept(load.actions[i]) == cells &&
                                  Matches(env, q, ActionRowOf(load.actions[i]))
  }

  /** A row kept from an action of an indexed run that meets the query. */
  predicate Finds(sources: map<string, SourceRow>, loads: Loads, env: Env, q: Query, x: Listed) {
    x.source in sources && FindsIn(loads(x.source, sources[x.source].stamp), env, q, x.cells)
  }

  lemma FindsInMeans(load: Load, env: Env, q: Query, cells: Cells)
    ensures cells in ActionsIn(load) && Matches(env, q, QueryRow(cells)) <==> FindsIn(load, env, q, cells)
  {
    if load.Readable? {
      KeptRises(load.actions);
      if cells in KeptAll(load.actions) {
        var i :| 0 <= i < |load.actions| && KeptAll(load.actions)[i] == cells;
        StoredMatches(env, q, load.actions[i]);
      }
      if FindsIn(load, env, q, cells) {
        var i :| 0 <= i < |load.actions| && Kept(load.actions[i]) == cells &&
                 Matches(env, q, ActionRowOf(load.actions[i]));
        StoredMatches(env, q, load.actions[i]);
      }
    }
  }

  lemma FindsMeans(sources: map<string, SourceRow>, loads: Loads, env: Env, q: Query, x: Listed)
    ensures x.cells in Expected(sources, loads, x.source) && Matches(env, q, QueryRow(x.cells)) <==>
            Finds(sources, loads, env, q, x)
  {
    if x.source in sources {
      FindsInMeans(loads(x.source, sources[x.source].stamp), env, q, x.cells);
    }
  }
}
