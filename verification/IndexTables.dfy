// opentine/_actions_schema.py and _actions_db.py: the four tables, and the actions they
// read back as.
module IndexTables {
  import opened Basics
  import opened PackedLists
  import opened ActionQuery

  /** The columns stored as they are. */
  datatype Facts = Facts(runId: string, stepId: string, tool: string, agent: string, session: string,
                         subagent: string, model: string, provider: string, ts: real, mcpServer: string,
                         mcpTool: string, argv0: string, command: string, error: bool, cost: real, redacted: bool,
                         clipped: bool, agentRef: string, parentRef: string)

  /** An action; `order` is its column seq. */
  datatype Action = Action(facts: Facts, order: nat, verbs: seq<string>, programs: seq<string>,
                           paths: seq<string>, written: seq<string>, hosts: seq<string>)

  /** What loading a run and extracting its actions gives. */
  datatype Load = Readable(runId: string, actions: seq<Action>, truncated: bool) | Unreadable

  datatype SourceRow = SourceRow(stamp: string, runId: string, unreadable: bool, truncated: bool)
  datatype ActionRow = ActionRow(id: nat, source: string, facts: Facts, order: nat, verbs: string, programs: string)
  datatype PathRow = PathRow(actionId: nat, path: string, written: bool)
  datatype HostRow = HostRow(actionId: nat, host: string)

  /** The tables that hold actions, rows in rowid order. */
  datatype Tables = Tables(actions: seq<ActionRow>, paths: seq<PathRow>, hosts: seq<HostRow>)

  /** A stored row as a statement sees it, with the paths and hosts its subqueries find. */
  datatype Cells = Cells(facts: Facts, order: nat, verbs: string, programs: string,
                         paths: seq<PathEntry>, hosts: seq<string>)

  // ----- SELECT ... WHERE action_id = ? ORDER BY rowid -----

  function PathsOf(paths: seq<PathRow>, id: nat): seq<PathEntry> {
    if paths == [] then []
    else
      var last := paths[|paths| - 1];
      PathsOf(paths[..|paths| - 1], id) + (if last.actionId == id then [PathEntry(last.path, last.written)] else [])
  }

  function HostsOf(hosts: seq<HostRow>, id: nat): seq<string> {
    if hosts == [] then []
    else HostsOf(hosts[..|hosts| - 1],
        id) + (if hosts[|hosts| - 1].actionId == id then [hosts[|hosts| - 1].host] else [])
  }

  function CellsAt(row: ActionRow, paths: seq<PathRow>, hosts: seq<HostRow>): Cells {
    Cells(row.facts, row.order, row.verbs, row.programs, PathsOf(paths, row.id), HostsOf(hosts, row.id))
  }

  /** The rows of one source, in rowid order. */
  function CellsOf(actions: seq<ActionRow>, paths: seq<PathRow>, hosts: seq<HostRow>, key: string): seq<Cells> {
    if actions == [] then []
    else
      var last := actions[|actions| - 1];
      CellsOf(actions[..|actions| - 1], paths, hosts, key) +
      (if last.source == key then [CellsAt(last, paths, hosts)] else [])
  }

  function ReadsOf(t: Tables, key: string): seq<Cells> {
    CellsOf(t.actions, t.paths, t.hosts, key)
  }

  // ----- DELETE -----

  function IdsOf(actions: seq<ActionRow>, key: string): set<nat> {
    set i | 0 <= i < |actions| && actions[i].source == key :: actions[i].id
  }

  function PathsWithout(paths: seq<PathRow>, ids: set<nat>): seq<PathRow> {
    if paths == [] then []
    else PathsWithout(paths[..|paths| - 1], ids) +
         (if paths[|paths| - 1].actionId in ids then [] else [paths[|paths| - 1]])
  }

  function HostsWithout(hosts: seq<HostRow>, ids: set<nat>): seq<HostRow> {
    if hosts == [] then []
    else HostsWithout(hosts[..|hosts| - 1], ids) +
         (if hosts[|hosts| - 1].actionId in ids then [] else [hosts[|hosts| - 1]])
  }

  function ActionsWithout(actions: seq<ActionRow>, key: string): seq<ActionRow> {
    if actions == [] then []
    else ActionsWithout(actions[..|actions| - 1], key) +
         (if actions[|actions| - 1].source == key then [] else [actions[|actions| - 1]])
  }

  function Dropped(t: Tables, key: string): Tables {
    var ids := IdsOf(t.actions, key);
    Tables(ActionsWithout(t.actions, key), PathsWithout(t.paths, ids), HostsWithout(t.hosts, ids))
  }

  // ----- INSERT -----

  /** SQLite's next id for an INTEGER PRIMARY KEY: one above the largest in the table, so
      ids of dropped rows come back. */
  function NextId(actions: seq<ActionRow>): nat {
    if actions == [] then 1 else actions[|actions| - 1].id + 1
  }

  function PathRows(id: nat, paths: seq<string>, written: seq<string>): (r: seq<PathRow>)
    ensures |r| == |paths|
  {
    if paths == [] then []
    else PathRows(id, paths[..|paths| - 1], written) +
         [PathRow(id, paths[|paths| - 1], paths[|paths| - 1] in written)]
  }

  function HostRows(id: nat, hosts: seq<string>): seq<HostRow> {
    if hosts == [] then []
    else HostRows(id, hosts[..|hosts| - 1]) + [HostRow(id, hosts[|hosts| - 1])]
  }

  function RowOf(id: nat, key: string, a: Action): ActionRow {
    ActionRow(id, key, a.facts, a.order, Packed(a.verbs), Packed(a.programs))
  }

  function Inserted(t: Tables, key: string, a: Action): Tables {
    var id := NextId(t.actions);
    Tables(t.actions + [RowOf(id, key, a)], t.paths + PathRows(id, a.paths, a.written), t.hosts + HostRows(id, a.hosts))
  }

  // ----- what a stored action holds and reads back as -----

  function Entries(paths: seq<string>, written: seq<string>): seq<PathEntry> {
    if paths == [] then []
    else Entries(paths[..|paths| - 1], written) + [PathEntry(paths[|paths| - 1], paths[|paths| - 1] in written)]
  }

  /** What the tables are to hold for an action. */
  function Kept(a: Action): Cells {
    Cells(a.facts, a.order, Packed(a.verbs), Packed(a.programs), Entries(a.paths, a.written), a.hosts)
  }

  function KeptAll(actions: seq<Action>): seq<Cells> {
    if actions == [] then [] else KeptAll(actions[..|actions| - 1]) + [Kept(actions[|actions| - 1])]
  }

  function PathsIn(entries: seq<PathEntry>): seq<string> {
    if entries == [] then [] else PathsIn(entries[..|entries| - 1]) + [entries[|entries| - 1].path]
  }

  function WrittenIn(entries: seq<PathEntry>): seq<string> {
    if entries == [] then []
    else
      var last := entries[|entries| - 1];
      WrittenIn(entries[..|entries| - 1]) + if last.written then [last.path] else []
  }

  /** The action rows() yields for a stored row. */
  function Rebuilt(c: Cells): Action {
    Action(c.facts, c.order, Unpacked(c.verbs), Unpacked(c.programs), PathsIn(c.paths), WrittenIn(c.paths), c.hosts)
  }

  function Among(paths: seq<string>, written: seq<string>): seq<string> {
    if paths == [] then []
    else Among(paths[..|paths| - 1], written) + (if paths[|paths| - 1] in written then [paths[|paths| - 1]] else [])
  }

  lemma {:induction false} EntriesRead(paths: seq<string>, written: seq<string>)
    ensures PathsIn(Entries(paths, written)) == paths && WrittenIn(Entries(paths, written)) == Among(paths, written)
  {
    if paths != [] {
      var rest := Entries(paths[..|paths| - 1], written);
      EntriesRead(paths[..|paths| - 1], written);
      assert Entries(paths, written)[..|rest|] == rest;
      assert paths == paths[..|paths| - 1] + [paths[|paths| - 1]];
    }
  }

  /** An action reads back with commas in a verb or program as spaces, empty ones gone, and
      the written paths in the order of the paths; everything else is as it was. */
  lemma ReadsBackAs(a: Action)
    ensures Rebuilt(Kept(a)) == a.(verbs := NonEmpty(NoCommas(a.verbs)), programs := NonEmpty(NoCommas(a.programs)),
                                   written := Among(a.paths, a.written))
  {
    EntriesRead(a.paths, a.written);
    UnpackPacked(a.verbs);
    UnpackPacked(a.programs);
  }

  predicate Plain(v: string) {
    v != "" && ',' !in v
  }

  lemma {:induction false} PlainListKept(vs: seq<string>)
    ensures NonEmpty(NoCommas(vs)) == vs <==> forall v :: v in vs ==> Plain(v)
  {
    if vs == [] {
      assert NoCommas(vs) == [];
    } else {
      var v, rest := vs[0], vs[1..];
      assert NoCommas(vs)[1..] == NoCommas(rest);
      assert v in vs && forall x :: x in vs <==> x == v || x in rest;
      PlainListKept(rest);
      NonEmptyShorter(NoCommas(rest));
      if NonEmpty(NoCommas(vs)) == vs {
        assert NoCommas(vs)[0] != "";
        assert vs[0] == NoComma(v) && vs[1..] == NonEmpty(NoCommas(rest));
      }
      assert vs == [v] + rest;
    }
  }

  lemma {:induction false} NonEmptyShorter(vs: seq<string>)
    ensures |NonEmpty(vs)| <= |vs|
  {
    if vs != [] {
      NonEmptyShorter(vs[1..]);
    }
  }

  /** Nothing is lost exactly when every verb and program is plain and the written paths are
      those of the paths, in their order. */
  lemma NothingLost(a: Action)
    ensures Rebuilt(Kept(a)) == a <==>
              && (forall v :: v in a.verbs ==> Plain(v)) && (forall p :: p in a.programs ==> Plain(p))
              && a.written == Among(a.paths, a.written)
  {
    ReadsBackAs(a);
    PlainListKept(a.verbs);
    PlainListKept(a.programs);
  }

  // ----- the invariant -----

  predicate IdsRise(actions: seq<ActionRow>) {
    forall i, j :: 0 <= i < j < |actions| ==> actions[i].id < actions[j].id
  }

  predicate HasId(actions: seq<ActionRow>, id: nat) {
    exists i :: 0 <= i < |actions| && actions[i].id == id
  }

  /** Every path row and every host row belongs to an action of the table. */
  predicate NoOrphans(t: Tables) {
    && (forall p :: p in t.paths ==> HasId(t.actions, p.actionId))
    && (forall h :: h in t.hosts ==> HasId(t.actions, h.actionId))
  }

  predicate Consistent(t: Tables) {
    IdsRise(t.actions) && NoOrphans(t)
  }

  // ----- the path and host tables under DELETE and INSERT -----

  lemma {:induction false} PathsWithoutKeeps(paths: seq<PathRow>, ids: set<nat>, id: nat)
    requires id !in ids
    ensures PathsOf(PathsWithout(paths, ids), id) == PathsOf(paths, id)
  {
    if paths != [] {
      var rest, last := paths[..|paths| - 1], paths[|paths| - 1];
      PathsWithoutKeeps(rest, ids, id);
      if last.actionId !in ids {
        var kept := PathsWithout(rest, ids);
        assert (kept + [last])[..|kept|] == kept;
      } else {
        assert PathsWithout(rest, ids) + [] == PathsWithout(rest, ids);
      }
    }
  }

  lemma {:induction false} HostsWithoutKeeps(hosts: seq<HostRow>, ids: set<nat>, id: nat)
    requires id !in ids
    ensures HostsOf(HostsWithout(hosts, ids), id) == HostsOf(hosts, id)
  {
    if hosts != [] {
      var rest, last := hosts[..|hosts| - 1], hosts[|hosts| - 1];
      HostsWithoutKeeps(rest, ids, id);
      if last.actionId !in ids {
        var kept := HostsWithout(rest, ids);
        assert (kept + [last])[..|kept|] == kept;
      } else {
        assert HostsWithout(rest, ids) + [] == HostsWithout(rest, ids);
      }
    }
  }

  lemma {:induction false} PathsWithoutMembers(paths: seq<PathRow>, ids: set<nat>, p: PathRow)
    ensures p in PathsWithout(paths, ids) <==> p in paths && p.actionId !in ids
  {
    if paths != [] {
      PathsWithoutMembers(paths[..|paths| - 1], ids, p);
      assert paths == paths[..|paths| - 1] + [paths[|paths| - 1]];
    }
  }

  lemma {:induction false} HostsWithoutMembers(hosts: seq<HostRow>, ids: set<nat>, h: HostRow)
    ensures h in HostsWithout(hosts, ids) <==> h in hosts && h.actionId !in ids
  {
    if hosts != [] {
      HostsWithoutMembers(hosts[..|hosts| - 1], ids, h);
      assert hosts == hosts[..|hosts| - 1] + [hosts[|hosts| - 1]];
    }
  }

  lemma {:induction false} ActionsWithoutMembers(actions: seq<ActionRow>, key: string, a: ActionRow)
    ensures a in ActionsWithout(actions, key) <==> a in actions && a.source != key
  {
    if actions != [] {
      ActionsWithoutMembers(actions[..|actions| - 1], key, a);
      assert actions == actions[..|actions| - 1] + [actions[|actions| - 1]];
    }
  }

  /** Deleting keeps the remaining rows in their order. */
  lemma {:induction false} ActionsWithoutRise(actions: seq<ActionRow>, key: string)
    requires IdsRise(actions)
    ensures IdsRise(ActionsWithout(actions, key))
    ensures forall a :: a in ActionsWithout(actions, key) ==> a in actions
  {
    if actions != [] {
      var rest, last := actions[..|actions| - 1], actions[|actions| - 1];
      ActionsWithoutRise(rest, key);
      var kept := ActionsWithout(rest, key);
      forall i | 0 <= i < |kept|
        ensures kept[i].id < last.id
      {
        assert kept[i] in rest;
      }
    }
  }

  lemma {:induction false} PathsAppended(paths: seq<PathRow>, more: seq<PathRow>, id: nat)
    ensures PathsOf(paths + more, id) == PathsOf(paths, id) + PathsOf(more, id)
    decreases |more|
  {
    if more == [] {
      assert paths + more == paths;
    } else {
      assert (paths + more)[..|paths + more| - 1] == paths + more[..|more| - 1];
      PathsAppended(paths, more[..|more| - 1], id);
    }
  }

  lemma {:induction false} HostsAppended(hosts: seq<HostRow>, more: seq<HostRow>, id: nat)
    ensures HostsOf(hosts + more, id) == HostsOf(hosts, id) + HostsOf(more, id)
    decreases |more|
  {
    if more == [] {
      assert hosts + more == hosts;
    } else {
      assert (hosts + more)[..|hosts + more| - 1] == hosts + more[..|more| - 1];
      HostsAppended(hosts, more[..|more| - 1], id);
    }
  }

  lemma {:induction false} NoPathsOf(paths: seq<PathRow>, id: nat)
    requires forall p :: p in paths ==> p.actionId != id
    ensures PathsOf(paths, id) == []
  {
    if paths != [] {
      assert paths[|paths| - 1] in paths;
      NoPathsOf(paths[..|paths| - 1], id);
    }
  }

  lemma {:induction false} NoHostsOf(hosts: seq<HostRow>, id: nat)
    requires forall h :: h in hosts ==> h.actionId != id
    ensures HostsOf(hosts, id) == []
  {
    if hosts != [] {
      assert hosts[|hosts| - 1] in hosts;
      NoHostsOf(hosts[..|hosts| - 1], id);
    }
  }

  lemma {:induction false} PathRowsRead(id: nat, other: nat, paths: seq<string>, written: seq<string>)
    ensures PathsOf(PathRows(id, paths, written), other) == if other == id then Entries(paths, written) else []
    ensures forall p :: p in PathRows(id, paths, written) ==> p.actionId == id
  {
    if paths != [] {
      var rest := PathRows(id, paths[..|paths| - 1], written);
      PathRowsRead(id, other, paths[..|paths| - 1], written);
      assert PathRows(id, paths, written)[..|rest|] == rest;
      LastApart(paths);
    }
  }

  lemma {:induction false} HostRowsRead(id: nat, other: nat, hosts: seq<string>)
    ensures HostsOf(HostRows(id, hosts), other) == if other == id then hosts else []
    ensures forall h :: h in HostRows(id, hosts) ==> h.actionId == id
  {
    if hosts != [] {
      var rest := HostRows(id, hosts[..|hosts| - 1]);
      HostRowsRead(id, other, hosts[..|hosts| - 1]);
      assert HostRows(id, hosts)[..|rest|] == rest;
      LastApart(hosts);
    }
  }

  // ----- one source dropped -----

  lemma CellsOfLast(actions: seq<ActionRow>, a: ActionRow, paths: seq<PathRow>, hosts: seq<HostRow>, key: string)
    ensures CellsOf(actions + [a], paths, hosts, key) ==
            CellsOf(actions, paths, hosts, key) + if a.source == key then [CellsAt(a, paths, hosts)] else []
  {
    assert (actions + [a])[..|actions|] == actions;
  }

  lemma ActionsWithoutLast(actions: seq<ActionRow>, a: ActionRow, gone: string)
    ensures ActionsWithout(actions + [a], gone) ==
            if a.source == gone then ActionsWithout(actions, gone) else ActionsWithout(actions, gone) + [a]
  {
    assert (actions + [a])[..|actions|] == actions;
  }

  lemma {:induction false} CellsOfDropped(actions: seq<ActionRow>, t: Tables, gone: string, key: string)
    requires IdsRise(t.actions) && forall a :: a in actions ==> a in t.actions
    ensures var ids := IdsOf(t.actions, gone);
            CellsOf(ActionsWithout(actions, gone), PathsWithout(t.paths, ids), HostsWithout(t.hosts, ids), key) ==
            if key == gone then [] else CellsOf(actions, t.paths, t.hosts, key)
    decreases |actions|
  {
    if actions != [] {
      hide CellsOf, ActionsWithout, PathsWithout, HostsWithout, IdsOf;
      var rest, last := actions[..|actions| - 1], actions[|actions| - 1];
      var ids := IdsOf(t.actions, gone);
      LastApart(actions);
      CellsOfDropped(rest, t, gone, key);
      ActionsWithoutLast(rest, last, gone);
      CellsOfLast(rest, last, t.paths, t.hosts, key);
      if last.source != gone {
        CellsOfLast(ActionsWithout(rest, gone), last, PathsWithout(t.paths, ids), HostsWithout(t.hosts, ids), key);
        SurvivorUnchanged(t, last, gone);
      }
    }
  }

  lemma NotDropped(actions: seq<ActionRow>, a: ActionRow, gone: string)
    requires IdsRise(actions) && a in actions && a.source != gone
    ensures a.id !in IdsOf(actions, gone)
  {
    var i :| 0 <= i < |actions| && actions[i] == a;
    forall j | 0 <= j < |actions| && actions[j].source == gone
      ensures actions[j].id != a.id
    {
      assert i != j;
    }
  }

  /** An action of another source reads back as before. */
  lemma SurvivorUnchanged(t: Tables, a: ActionRow, gone: string)
    requires IdsRise(t.actions) && a in t.actions && a.source != gone
    ensures var ids := IdsOf(t.actions, gone);
            CellsAt(a, PathsWithout(t.paths, ids), HostsWithout(t.hosts, ids)) == CellsAt(a, t.paths, t.hosts)
  {
    var ids := IdsOf(t.actions, gone);
    NotDropped(t.actions, a, gone);
    PathsWithoutKeeps(t.paths, ids, a.id);
    HostsWithoutKeeps(t.hosts, ids, a.id);
  }

  /** Dropping a source keeps the tables consistent, empties that source and leaves the
      actions of every other source as they read before. */
  lemma DropKeeps(t: Tables, gone: string, key: string)
    requires Consistent(t)
    ensures Consistent(Dropped(t, gone))
    ensures ReadsOf(Dropped(t, gone), key) == if key == gone then [] else ReadsOf(t, key)
  {
    CellsOfDropped(t.actions, t, gone, key);
    ActionsWithoutRise(t.actions, gone);
    var ids, d := IdsOf(t.actions, gone), Dropped(t, gone);
    forall p | p in d.paths
      ensures HasId(d.actions, p.actionId)
    {
      PathsWithoutMembers(t.paths, ids, p);
      SurvivesDrop(t, gone, p.actionId);
    }
    forall h | h in d.hosts
      ensures HasId(d.actions, h.actionId)
    {
      HostsWithoutMembers(t.hosts, ids, h);
      SurvivesDrop(t, gone, h.actionId);
    }
  }

  lemma SurvivesDrop(t: Tables, gone: string, id: nat)
    requires HasId(t.actions, id) && id !in IdsOf(t.actions, gone)
    ensures HasId(ActionsWithout(t.actions, gone), id)
  {
    var i :| 0 <= i < |t.actions| && t.actions[i].id == id;
    ActionsWithoutMembers(t.actions, gone, t.actions[i]);
    var j :| 0 <= j < |ActionsWithout(t.actions, gone)| && ActionsWithout(t.actions, gone)[j] == t.actions[i];
  }

  // ----- one action inserted -----

  lemma {:induction false} CellsOfMore(actions: seq<ActionRow>, t: Tables, paths: seq<PathRow>, hosts: seq<HostRow>,
                                         owner: nat, key: string)
    requires forall a :: a in actions ==> a.id != owner
    requires forall p :: p in paths ==> p.actionId == owner
    requires forall h :: h in hosts ==> h.actionId == owner
    ensures CellsOf(actions, t.paths + paths, t.hosts + hosts, key) == CellsOf(actions, t.paths, t.hosts, key)
    decreases |actions|
  {
    if actions != [] {
      var last := actions[|actions| - 1];
      assert last in actions;
      CellsOfMore(actions[..|actions| - 1], t, paths, hosts, owner, key);
      PathsAppended(t.paths, paths, last.id);
      HostsAppended(t.hosts, hosts, last.id);
      NoPathsOf(paths, last.id);
      NoHostsOf(hosts, last.id);
      assert PathsOf(t.paths, last.id) + [] == PathsOf(t.paths, last.id);
      assert HostsOf(t.hosts, last.id) + [] == HostsOf(t.hosts, last.id);
    }
  }

  lemma NextIdIsFresh(t: Tables)
    requires Consistent(t)
    ensures forall a :: a in t.actions ==> a.id < NextId(t.actions)
    ensures forall p :: p in t.paths ==> p.actionId != NextId(t.actions)
    ensures forall h :: h in t.hosts ==> h.actionId != NextId(t.actions)
  {
  }

  /** Inserting an action keeps the tables consistent, and it reads back after the others of
      its source: no row left by an earlier owner of its id is picked up. */
  lemma InsertKeeps(t: Tables, source: string, a: Action, key: string)
    requires Consistent(t)
    ensures Consistent(Inserted(t, source, a))
    ensures ReadsOf(Inserted(t, source, a), key) == ReadsOf(t, key) + if key == source then [Kept(a)] else []
  {
    var id := NextId(t.actions);
    var row, paths, hosts := RowOf(id, source, a), PathRows(id, a.paths, a.written), HostRows(id, a.hosts);
    var n := Inserted(t, source, a);
    NextIdIsFresh(t);
    PathRowsRead(id, id, a.paths, a.written);
    HostRowsRead(id, id, a.hosts);
    CellsOfMore(t.actions, t, paths, hosts, id, key);
    assert n.actions[..|n.actions| - 1] == t.actions;
    RowReadsBack(t, source, a);
    InsertConsistent(t, source, a);
  }

  lemma RowReadsBack(t: Tables, source: string, a: Action)
    requires Consistent(t)
    ensures var id := NextId(t.actions);
            CellsAt(RowOf(id, source, a), t.paths + PathRows(id, a.paths, a.written), t.hosts + HostRows(id,
                a.hosts)) == Kept(a)
  {
    var id := NextId(t.actions);
    NextIdIsFresh(t);
    PathRowsRead(id, id, a.paths, a.written);
    HostRowsRead(id, id, a.hosts);
    PathsAppended(t.paths, PathRows(id, a.paths, a.written), id);
    HostsAppended(t.hosts, HostRows(id, a.hosts), id);
    NoPathsOf(t.paths, id);
    NoHostsOf(t.hosts, id);
  }

  lemma InsertConsistent(t: Tables, source: string, a: Action)
    requires Consistent(t)
    ensures Consistent(Inserted(t, source, a))
  {
    var id, n := NextId(t.actions), Inserted(t, source, a);
    NextIdIsFresh(t);
    PathRowsRead(id, id, a.paths, a.written);
    HostRowsRead(id, id, a.hosts);
    assert n.actions[|t.actions|].id == id;
    forall other | HasId(t.actions, other)
      ensures HasId(n.actions, other)
    {
      var i :| 0 <= i < |t.actions| && t.actions[i].id == other;
      assert n.actions[i].id == other;
    }
  }
}
