// opentine/_actions_query.py: compile_query appending to its shared lists, and
// redacted_misses counting with two compiled queries.
module QueryCompiler {
  import opened LikePattern
  import opened ActionQuery
  import opened QueryTheorems

  lemma {:induction false} ClausesOfMore(bs: seq<Bound>, b: Bound)
    ensures ClausesOf(bs + [b]) == ClausesOf(bs) + [b.clause]
  {
    if bs == [] {
      assert [b][1..] == [] && [] + [b] == [b];
    } else {
      assert (bs + [b])[0] == bs[0] && (bs + [b])[1..] == bs[1..] + [b];
      ClausesOfMore(bs[1..], b);
    }
  }

  lemma {:induction false} ParamsOfMore(bs: seq<Bound>, b: Bound)
    ensures ParamsOf(bs + [b]) == ParamsOf(bs) + b.args
  {
    if bs == [] {
      assert [b][1..] == [] && [] + [b] == [b];
    } else {
      assert (bs + [b])[0] == bs[0] && (bs + [b])[1..] == bs[1..] + [b];
      ParamsOfMore(bs[1..], b);
    }
  }

  lemma Grouped<T>(a: seq<T>, b: seq<T>, c: seq<T>, d: seq<T>, e: seq<T>)
    ensures a + b + c + d + e == a + (b + c + d + e)
    ensures a + b + c + d == a + (b + c + d)
    ensures a + b + c == a + (b + c)
  {
  }

  /** The two lists compile_query and its helpers append to, and the conditions they spell. */
  class Statement {
    var clauses: seq<Clause>
    var params: seq<Param>
    ghost var bounds: seq<Bound>

    ghost predicate Valid()
      reads this
    {
      clauses == ClausesOf(bounds) && params == ParamsOf(bounds)
    }

    constructor ()
      ensures Valid() && bounds == []
    {
      clauses, params, bounds := [], [], [];
    }

    method Append(clause: Clause, args: seq<Param>)
      requires Valid()
      modifies this
      ensures Valid() && bounds == old(bounds) + [Bound(clause, args)]
    {
      ClausesOfMore(bounds, Bound(clause, args));
      ParamsOfMore(bounds, Bound(clause, args));
      params := params + args;
      clauses := clauses + [clause];
      bounds := bounds + [Bound(clause, args)];
    }

    method AppendText(env: Env, column: Column, pattern: string)
      requires Valid()
      modifies this
      ensures Valid() && bounds == old(bounds) + [TextBound(env, column, pattern)]
    {
      if HasGlob(pattern) {
        Append(ColumnGlob(column), [Text(env.lower(pattern))]);
      } else {
        Append(ColumnLike(column), [Text(LikeOf(pattern))]);
      }
    }

    method AppendMember(env: Env, clause: Clause, value: string)
      requires Valid()
      modifies this
      ensures Valid() && bounds == old(bounds) + When(value != "", Member(env, clause, value))
    {
      if value != "" {
        Append(clause, [Text(LikeOf("," + env.lower(value) + ","))]);
      }
    }

    method AddColumns(env: Env, q: Query)
      requires Valid()
      modifies this
      ensures Valid() && bounds == old(bounds) + ColumnBounds(env, Columns(q))
    {
      AddEach(env, Columns(q));
    }

    method AddEach(env: Env, cs: seq<(Column, string)>)
      requires Valid()
      modifies this
      ensures Valid() && bounds == old(bounds) + ColumnBounds(env, cs)
    {
      for i := 0 to |cs|
        invariant Valid() && bounds == old(bounds) + ColumnBounds(env, cs[..i])
      {
        var column, value := cs[i].0, cs[i].1;
        assert cs[..i + 1][..i] == cs[..i];
        Grouped(old(bounds), ColumnBounds(env, cs[..i]), When(value != "", TextBound(env, column, value)), [], []);
        if value != "" {
          AppendText(env, column, value);
        }
      }
      assert cs[..|cs|] == cs;
    }

    method AddCommands(env: Env, terms: seq<string>)
      requires Valid()
      modifies this
      ensures Valid() && bounds == old(bounds) + Commands(env, terms)
    {
      for i := 0 to |terms|
        invariant Valid() && bounds == old(bounds) + Commands(env, terms[..i])
      {
        var b := TextBound(env, Command, terms[i]);
        assert Commands(env, terms[..i + 1]) == Commands(env, terms[..i]) + [b];
        Grouped(old(bounds), Commands(env, terms[..i]), [b], [], []);
        AppendText(env, Command, terms[i]);
      }
      assert terms[..|terms|] == terms;
    }

    method AddRefs(refs: seq<string>)
      requires Valid()
      modifies this
      ensures Valid() && bounds == old(bounds) + When(refs != [], Bound(RefIn(|refs|), Texts(refs)))
    {
      if refs != [] {
        Append(RefIn(|refs|), Texts(refs));
      }
    }

    method AddWrites(q: Query)
      requires Valid()
      modifies this
      ensures Valid() && bounds == old(bounds) + When(q.writes && q.path == "", Bound(WroteSome, []))
    {
      if q.writes && q.path == "" {
        Append(WroteSome, []);
      }
    }

    method AddDeeds(env: Env, q: Query)
      requires Valid()
      modifies this
      ensures Valid() && bounds == old(bounds) + DeedBounds(env, q)
    {
      var commands := Commands(env, q.cmd);
      var refs := When(q.agentRefs != [], Bound(RefIn(|q.agentRefs|), Texts(q.agentRefs)));
      var program := When(q.program != "", Member(env, ProgramsLike, q.program));
      var verb := When(q.verb != "", Member(env, VerbsLike, q.verb));
      var wrote := When(q.writes && q.path == "", Bound(WroteSome, []));
      Grouped(old(bounds), commands, refs, program, verb);
      Grouped(old(bounds), commands + refs + program + verb, wrote, [], []);
      AddCommands(env, q.cmd);
      AddRefs(q.agentRefs);
      AppendMember(env, ProgramsLike, q.program);
      AppendMember(env, VerbsLike, q.verb);
      AddWrites(q);
    }

    method AddRun(run: string)
      requires Valid()
      modifies this
      ensures Valid() && bounds == old(bounds) + When(run != "", Bound(RunLike, [Text(LikeOf(run)[1..])]))
    {
      if run != "" {
        Append(RunLike, [Text(LikeOf(run)[1..])]);
      }
    }

    method AddSpan(q: Query)
      requires Valid()
      modifies this
      ensures Valid()
      ensures bounds == old(bounds) + When(q.since.Some?, Bound(SinceTs, [Time(q.since.GetOr(0.0))])) +
                        When(q.until.Some?, Bound(UntilTs, [Time(q.until.GetOr(0.0))])) +
                        When(q.errors, Bound(IsError, []))
    {
      if q.since.Some? {
        Append(SinceTs, [Time(q.since.value)]);
      }
      if q.until.Some? {
        Append(UntilTs, [Time(q.until.value)]);
      }
      if q.errors {
        Append(IsError, []);
      }
    }

    method AddTimes(q: Query)
      requires Valid()
      modifies this
      ensures Valid() && bounds == old(bounds) + TimeBounds(q)
    {
      var run := When(q.run != "", Bound(RunLike, [Text(LikeOf(q.run)[1..])]));
      var since := When(q.since.Some?, Bound(SinceTs, [Time(q.since.GetOr(0.0))]));
      var until := When(q.until.Some?, Bound(UntilTs, [Time(q.until.GetOr(0.0))]));
      Grouped(old(bounds), run, since, until, When(q.errors, Bound(IsError, [])));
      AddRun(q.run);
      AddSpan(q);
    }

    method AddPath(env: Env, path: string, writes: bool)
      requires Valid()
      modifies this
      ensures Valid() && bounds == old(bounds) + When(path != "", PathBound(env, path, writes))
    {
      if path != "" {
        if HasGlob(path) {
          Append(PathGlob(writes), [Text(env.lower(path))]);
        } else {
          Append(PathLike(writes), [Text(LikeOf(path))]);
        }
      }
    }

    method AddHost(env: Env, host: string)
      requires Valid()
      modifies this
      ensures Valid() && bounds == old(bounds) + When(host != "", HostBound(env, host))
    {
      if host != "" {
        var name := StripDots(env.lower(host));
        if HasGlob(name) {
          Append(HostGlob, [Text(name)]);
        } else {
          var like := LikeOf("." + name);
          Append(HostLike, [Text(name), Text(like[..|like| - 1])]);
        }
      }
    }

    method AddServer(env: Env, mcp: string)
      requires Valid()
      modifies this
      ensures Valid() && bounds == old(bounds) + if mcp != "" then McpBounds(env, mcp) else []
    {
      if mcp != "" {
        var server, tool := BeforeSlash(mcp), AfterSlash(mcp);
        Grouped(old(bounds), [if server != "" then TextBound(env, McpServer, server) else Bound(McpAny, [])],
                When(tool != "", TextBound(env, McpTool, tool)), [], []);
        if server != "" {
          AppendText(env, McpServer, server);
        } else {
          Append(McpAny, []);
        }
        if tool != "" {
          AppendText(env, McpTool, tool);
        }
      }
    }

    method AddTargets(env: Env, q: Query)
      requires Valid()
      modifies this
      ensures Valid() && bounds == old(bounds) + TargetBounds(env, q)
    {
      Grouped(old(bounds), When(q.path != "", PathBound(env, q.path, q.writes)),
              When(q.host != "", HostBound(env, q.host)), if q.mcp != "" then McpBounds(env, q.mcp) else [], []);
      AddPath(env, q.path, q.writes);
      AddHost(env, q.host);
      AddServer(env, q.mcp);
    }
  }

  /** The statement and its parameters, in the order the compiler appends them; it selects
      an action exactly when every filter holds of it. */
  method CompileQuery(env: Env, q: Query) returns (clauses: seq<Clause>, params: seq<Param>)
    ensures Compiled(env, q, clauses, params)
  {
    var statement := new Statement();
    statement.AddColumns(env, q);
    assert [] + ColumnBounds(env, Columns(q)) == ColumnBounds(env, Columns(q));
    statement.AddDeeds(env, q);
    statement.AddTimes(q);
    statement.AddTargets(env, q);
    clauses, params := statement.clauses, statement.params;
    CompiledMeans(env, q, statement.bounds, clauses, params);
  }

  // ----- redacted_misses -----

  /** SELECT count(*) over the actions. */
  function CountSelected(env: Env, clauses: seq<Clause>, params: seq<Param>, rows: seq<Row>): nat
    requires |params| == TotalArity(clauses)
  {
    if rows == [] then 0
    else CountSelected(env, clauses, params, rows[..|rows| - 1]) +
         (if Selects(env, clauses, rows[|rows| - 1], params) then 1 else 0)
  }

  /** A partly redacted action every other filter keeps but some command term drops. */
  predicate Missed(env: Env, q: Query, row: Row) {
    row.redacted && Matches(env, q.(cmd := []), row) && !CommandMatches(env, q.cmd, row)
  }

  function CountMissed(env: Env, q: Query, rows: seq<Row>): nat {
    if rows == [] then 0
    else CountMissed(env, q, rows[..|rows| - 1]) + (if Missed(env, q, rows[|rows| - 1]) then 1 else 0)
  }

  lemma AlsoRedacted(env: Env, clauses: seq<Clause>, params: seq<Param>, row: Row)
    requires |params| == TotalArity(clauses)
    ensures |params| == TotalArity(clauses + [IsRedacted])
    ensures Selects(env, clauses + [IsRedacted], row, params) <==> Selects(env, clauses, row, params) && row.redacted
    decreases |clauses|
  {
    if clauses == [] {
      assert clauses + [IsRedacted] == [IsRedacted] && [IsRedacted][1..] == [];
    } else {
      var all := clauses + [IsRedacted];
      assert all[0] == clauses[0] && all[1..] == clauses[1..] + [IsRedacted];
      AlsoRedacted(env, clauses[1..], params[Arity(clauses[0])..], row);
    }
  }

  lemma SplitByTerms(env: Env, q: Query, row: Row)
    ensures Matches(env, q, row) <==> Matches(env, q.(cmd := []), row) && CommandMatches(env, q.cmd, row)
  {
  }

  lemma OneMiss(env: Env, q: Query, all: seq<Clause>, allArgs: seq<Param>, some: seq<Clause>, someArgs: seq<Param>,
            row: Row)
    requires Compiled(env, q, all, allArgs) && Compiled(env, q.(cmd := []), some, someArgs)
    ensures |allArgs| == TotalArity(all + [IsRedacted]) && |someArgs| == TotalArity(some + [IsRedacted])
    ensures Selects(env, all + [IsRedacted], row, allArgs) <==>
              Selects(env, some + [IsRedacted], row, someArgs) && !Missed(env, q, row)
    ensures Missed(env, q, row) ==> Selects(env, some + [IsRedacted], row, someArgs)
  {
    assert Agrees(env, q, all, allArgs, row) && Agrees(env, q.(cmd := []), some, someArgs, row);
    AlsoRedacted(env, all, allArgs, row);
    AlsoRedacted(env, some, someArgs, row);
    SplitByTerms(env, q, row);
  }

  lemma {:induction false} MissesCounted(env: Env, q: Query, all: seq<Clause>, allArgs: seq<Param>,
                                         some: seq<Clause>, someArgs: seq<Param>, rows: seq<Row>)
    requires |allArgs| == TotalArity(all + [IsRedacted]) && |someArgs| == TotalArity(some + [IsRedacted])
    requires Compiled(env, q, all, allArgs) && Compiled(env, q.(cmd := []), some, someArgs)
    ensures CountSelected(env, some + [IsRedacted], someArgs, rows) ==
            CountSelected(env, all + [IsRedacted], allArgs, rows) + CountMissed(env, q, rows)
    decreases |rows|
  {
    if rows != [] {
      var before, row := rows[..|rows| - 1], rows[|rows| - 1];
      MissesCounted(env, q, all, allArgs, some, someArgs, before);
      OneMiss(env, q, all, allArgs, some, someArgs, row);
    }
  }

  method RedactedMisses(env: Env, q: Query, rows: seq<Row>) returns (misses: int)
    ensures misses == CountMissed(env, q, rows)
  {
    if q.cmd == [] {
      NoTermsNoMisses(env, q, rows);
      return 0;
    }
    var some, someArgs := CompileQuery(env, q.(cmd := []));
    var all, allArgs := CompileQuery(env, q);
    var any: Row :| true;
    OneMiss(env, q, all, allArgs, some, someArgs, any);
    MissesCounted(env, q, all, allArgs, some, someArgs, rows);
    misses := CountSelected(env, some + [IsRedacted], someArgs, rows) -
              CountSelected(env, all + [IsRedacted], allArgs, rows);
  }

  lemma {:induction false} NoTermsNoMisses(env: Env, q: Query, rows: seq<Row>)
    requires q.cmd == []
    ensures CountMissed(env, q, rows) == 0
    decreases |rows|
  {
    if rows != [] {
      NoTermsNoMisses(env, q, rows[..|rows| - 1]);
    }
  }

  /** Coverage is honest: an action whose command, before redaction, met the query is either
      found or counted among the misses. */
  lemma FoundOrCounted(env: Env, q: Query, row: Row, command: string)
    requires command != row.command ==> row.redacted
    requires Matches(env, q, row.(command := command))
    ensures Matches(env, q, row) || Missed(env, q, row)
  {
    var was := row.(command := command);
    SplitByTerms(env, q, row);
    SplitByTerms(env, q, was);
    if command != row.command {
      assert Matches(env, q.(cmd := []), row);
    }
  }
}
