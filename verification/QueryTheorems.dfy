// opentine/_actions_query.py: the compiled statement selects exactly the actions the
// filters name, with its parameters bound left to right.
module QueryTheorems {
  import opened Basics
  import opened Outcomes
  import opened LikePattern
  import opened PackedLists
  import opened ActionQuery

  function ClausesOf(bs: seq<Bound>): (r: seq<Clause>)
    ensures |r| == |bs|
  {
    if bs == [] then [] else [bs[0].clause] + ClausesOf(bs[1..])
  }

  function ParamsOf(bs: seq<Bound>): seq<Param> {
    if bs == [] then [] else bs[0].args + ParamsOf(bs[1..])
  }

  predicate Bindable(bs: seq<Bound>) {
    forall b :: b in bs ==> |b.args| == Arity(b.clause)
  }

  predicate BoundHolds(env: Env, b: Bound, row: Row)
    requires |b.args| == Arity(b.clause)
  {
    Holds(env, b.clause, row, b.args)
  }

  /** All the conditions hold, each on its own parameters. */
  predicate AllHold(env: Env, bs: seq<Bound>, row: Row)
    requires Bindable(bs)
  {
    forall b :: b in bs ==> BoundHolds(env, b, row)
  }

  /** No parameter is missing, left over or bound to a neighbour's placeholder. */
  lemma {:induction false} SelectsAll(env: Env, bs: seq<Bound>, row: Row)
    requires Bindable(bs)
    ensures |ParamsOf(bs)| == TotalArity(ClausesOf(bs))
    ensures Selects(env, ClausesOf(bs), row, ParamsOf(bs)) <==> AllHold(env, bs, row)
  {
    if bs != [] {
      var b, rest := bs[0], bs[1..];
      assert b in bs && forall x :: x in bs <==> x == b || x in rest;
      SelectsAll(env, rest, row);
      var clauses, params := ClausesOf(bs), ParamsOf(bs);
      assert clauses[1..] == ClausesOf(rest);
      assert params[..|b.args|] == b.args && params[|b.args|..] == ParamsOf(rest);
    }
  }

  // ----- what each condition means -----

  lemma TextMeans(env: Env, column: Column, pattern: string, row: Row)
    ensures var b := TextBound(env, column, pattern);
            |b.args| == Arity(b.clause) &&
            (BoundHolds(env, b, row) <==> TextMatches(env, pattern, Value(column, row)))
  {
    GlobMarks(pattern);
    hide HasGlob, Like, LikeOf, Lower, Contains;
    LikeIsSubstring(pattern, Value(column, row));
  }

  lemma PathMeans(env: Env, pattern: string, written: bool, row: Row)
    ensures var b := PathBound(env, pattern, written);
            |b.args| == Arity(b.clause) && (BoundHolds(env, b, row) <==> PathMatches(env, row, pattern, written))
  {
    GlobMarks(pattern);
    hide HasGlob, Like, LikeOf, Lower, Contains;
    forall i | 0 <= i < |row.paths|
      ensures Like(LikeOf(pattern), row.paths[i].path) <==> Contains(Lower(row.paths[i].path), Lower(pattern))
    {
      LikeIsSubstring(pattern, row.paths[i].path);
    }
  }

  lemma GlobMarks(pattern: string)
    ensures HasGlob(pattern) <==> '*' in pattern || '?' in pattern || '[' in pattern
  {
  }

  lemma HostMeans(env: Env, host: string, row: Row)
    ensures var b := HostBound(env, host);
            |b.args| == Arity(b.clause) &&
            (BoundHolds(env, b, row) <==> SomeHostMatches(env, host, row))
  {
    var name := StripDots(env.lower(host));
    GlobMarks(name);
    hide HasGlob, StripDots, Like, LikeOf, Lower, HasSuffix;
    forall i | 0 <= i < |row.hosts|
      ensures var like := LikeOf("." + name);
              |like| > 0 &&
              (Like(like[..|like| - 1], row.hosts[i]) <==> HasSuffix(Lower(row.hosts[i]), Lower("." + name)))
    {
      LikeIsSuffix("." + name, row.hosts[i]);
    }
  }

  lemma MemberMeans(name: string, vs: seq<string>)
    ensures Like(LikeOf("," + name + ","), Lower(Packed(vs))) <==> MemberMatches(name, vs)
  {
    if name != [] && ',' !in name {
      PackedMembership(vs, name);
    } else {
      LikeIsSubstring("," + name + ",", Lower(Packed(vs)));
      LowerTwice(Packed(vs));
    }
  }

  lemma RefsMean(env: Env, refs: seq<string>, row: Row)
    ensures BoundHolds(env, Bound(RefIn(|refs|), Texts(refs)), row) <==> row.agentRef in refs
  {
    if row.agentRef in refs {
      var i :| 0 <= i < |refs| && refs[i] == row.agentRef;
      assert Texts(refs)[i] == Text(row.agentRef);
    }
  }

  lemma RunMeans(env: Env, run: string, row: Row)
    ensures BoundHolds(env, Bound(RunLike, [Text(LikeOf(run)[1..])]), row) <==> HasPrefix(Lower(row.runId), Lower(run))
  {
    LikeIsPrefix(run, row.runId);
  }

  lemma CommandsMean(env: Env, terms: seq<string>, row: Row)
    ensures Bindable(Commands(env, terms))
    ensures AllHold(env, Commands(env, terms), row) <==> CommandMatches(env, terms, row)
  {
    var bs := Commands(env, terms);
    forall i | 0 <= i < |terms|
      ensures |bs[i].args| == Arity(bs[i].clause)
      ensures BoundHolds(env, bs[i], row) <==> TextMatches(env, terms[i], row.command)
    {
      TextMeans(env, Command, terms[i], row);
    }
    if AllHold(env, bs, row) {
      forall t | t in terms
        ensures TextMatches(env, t, row.command)
      {
        var i :| 0 <= i < |terms| && terms[i] == t;
        assert bs[i] in bs;
      }
    }
    if CommandMatches(env, terms, row) {
      forall b | b in bs
        ensures BoundHolds(env, b, row)
      {
        var i :| 0 <= i < |bs| && bs[i] == b;
        assert terms[i] in terms;
      }
    }
  }

  // ----- conditions together -----

  /** These conditions hold of the row exactly when the filter does. */
  ghost predicate Mean(env: Env, bs: seq<Bound>, row: Row, filter: bool) {
    Bindable(bs) && (AllHold(env, bs, row) <==> filter)
  }

  lemma Both(env: Env, a: seq<Bound>, b: seq<Bound>, row: Row, p: bool, q: bool)
    requires Mean(env, a, row, p) && Mean(env, b, row, q)
    ensures Mean(env, a + b, row, p && q)
  {
    assert forall x :: x in a + b <==> x in a || x in b;
  }

  lemma WhenMeans(env: Env, present: bool, b: Bound, row: Row, filter: bool)
    requires present ==> |b.args| == Arity(b.clause) && (BoundHolds(env, b, row) <==> filter)
    ensures Mean(env, When(present, b), row, present ==> filter)
  {
    if present {
      assert b in When(present, b);
    }
  }

  /** One more condition, appended when its filter is present. */
  lemma AddMeans(env: Env, bs: seq<Bound>, before: bool, present: bool, b: Bound, row: Row, filter: bool)
    requires Mean(env, bs, row, before)
    requires present ==> |b.args| == Arity(b.clause) && (BoundHolds(env, b, row) <==> filter)
    ensures Mean(env, bs + When(present, b), row, before && (present ==> filter))
  {
    WhenMeans(env, present, b, row, filter);
    Both(env, bs, When(present, b), row, before, present ==> filter);
  }

  lemma ColumnAdded(env: Env, cs: seq<(Column, string)>, row: Row, before: bool, column: Column, pattern: string)
    requires Mean(env, ColumnBounds(env, cs), row, before)
    ensures Mean(env, ColumnBounds(env, cs + [(column, pattern)]), row,
                 before && (pattern != "" ==> TextMatches(env, pattern, Value(column, row))))
  {
    assert (cs + [(column, pattern)])[..|cs|] == cs;
    TextMeans(env, column, pattern, row);
    AddMeans(env, ColumnBounds(env, cs), before, pattern != "", TextBound(env, column, pattern), row,
             TextMatches(env, pattern, Value(column, row)));
  }

  /** Each column filter asks about its own column. */
  lemma ActorMeans(env: Env, q: Query, row: Row)
    ensures Mean(env, ColumnBounds(env, Columns(q)), row, ActorMatches(env, q, row))
  {
    hide Mean, ColumnBounds, TextMatches;
    var c1 := [(Tool, q.tool)];
    var c2 := c1 + [(Agent, q.agent)];
    var c3 := c2 + [(Model, q.model)];
    var c4 := c3 + [(Provider, q.provider)];
    NoColumns(env, row);
    assert [] + c1 == c1;
    ColumnAdded(env, [], row, true, Tool, q.tool);
    var p1 := q.tool != "" ==> TextMatches(env, q.tool, row.tool);
    ColumnAdded(env, c1, row, p1, Agent, q.agent);
    var p2 := p1 && (q.agent != "" ==> TextMatches(env, q.agent, row.agent));
    ColumnAdded(env, c2, row, p2, Model, q.model);
    var p3 := p2 && (q.model != "" ==> TextMatches(env, q.model, row.model));
    ColumnAdded(env, c3, row, p3, Provider, q.provider);
    var p4 := p3 && (q.provider != "" ==> TextMatches(env, q.provider, row.provider));
    ColumnAdded(env, c4, row, p4, Session, q.session);
    assert c4 + [(Session, q.session)] == Columns(q);
  }

  lemma NoColumns(env: Env, row: Row)
    ensures Mean(env, ColumnBounds(env, []), row, true)
  {
  }

  lemma MembersMean(env: Env, q: Query, row: Row, bs: seq<Bound>, before: bool)
    requires Mean(env, bs, row, before)
    ensures Mean(env, bs + When(q.program != "", Member(env, ProgramsLike, q.program)) +
                          When(q.verb != "", Member(env, VerbsLike, q.verb)), row,
                 before && (q.program != "" ==> MemberMatches(env.lower(q.program), row.programs)) &&
                 (q.verb != "" ==> MemberMatches(env.lower(q.verb), row.verbs)))
  {
    var program, verb := Member(env, ProgramsLike, q.program), Member(env, VerbsLike, q.verb);
    var byProgram := MemberMatches(env.lower(q.program), row.programs);
    var byVerb := MemberMatches(env.lower(q.verb), row.verbs);
    MemberMeans(env.lower(q.program), row.programs);
    assert BoundHolds(env, program, row) <==> byProgram;
    AddMeans(env, bs, before, q.program != "", program, row, byProgram);
    MemberMeans(env.lower(q.verb), row.verbs);
    assert BoundHolds(env, verb, row) <==> byVerb;
    AddMeans(env, bs + When(q.program != "", program), before && (q.program != "" ==>
        byProgram), q.verb != "", verb, row,
        byVerb);
  }

  lemma DeedMeans(env: Env, q: Query, row: Row)
    ensures Mean(env, DeedBounds(env, q), row, DeedMatches(env, q, row))
  {
    CommandsMean(env, q.cmd, row);
    RefsMean(env, q.agentRefs, row);
    var p1 := CommandMatches(env, q.cmd, row);
    var p2 := q.agentRefs != [] ==> row.agentRef in q.agentRefs;
    var refs := Bound(RefIn(|q.agentRefs|), Texts(q.agentRefs));
    AddMeans(env, Commands(env, q.cmd), p1, q.agentRefs != [], refs, row, row.agentRef in q.agentRefs);
    var bs := Commands(env, q.cmd) + When(q.agentRefs != [], refs);
    MembersMean(env, q, row, bs, p1 && p2);
    WroteMeans(env, q, row, bs, p1 && p2);
  }

  lemma WroteMeans(env: Env, q: Query, row: Row, bs: seq<Bound>, before: bool)
    requires Mean(env, bs, row, before)
    ensures Mean(env, bs + When(q.program != "", Member(env, ProgramsLike, q.program)) +
                          When(q.verb != "", Member(env, VerbsLike, q.verb)) +
                          When(q.writes && q.path == "", Bound(WroteSome, [])), row,
                 before && (q.program != "" ==> MemberMatches(env.lower(q.program), row.programs)) &&
                 (q.verb != "" ==> MemberMatches(env.lower(q.verb), row.verbs)) &&
                 (q.writes && q.path == "" ==> WroteSomething(row)))
  {
    MembersMean(env, q, row, bs, before);
    AddMeans(env, bs + When(q.program != "", Member(env, ProgramsLike, q.program)) +
             When(q.verb != "", Member(env, VerbsLike, q.verb)),
        before && (q.program != "" ==> MemberMatches(env.lower(q.program), row.programs)) &&
        (q.verb != "" ==> MemberMatches(env.lower(q.verb), row.verbs)),
        q.writes && q.path == "", Bound(WroteSome, []), row, WroteSomething(row));
  }

  lemma TimeMeans(env: Env, q: Query, row: Row)
    ensures Mean(env, TimeBounds(q), row, TimeMatches(q, row))
  {
    var run := Bound(RunLike, [Text(LikeOf(q.run)[1..])]);
    var byRun := HasPrefix(Lower(row.runId), Lower(q.run));
    RunMeans(env, q.run, row);
    WhenMeans(env, q.run != "", run, row, byRun);
    SpanMeans(env, q, row, When(q.run != "", run), q.run != "" ==> byRun);
  }

  lemma SpanMeans(env: Env, q: Query, row: Row, bs: seq<Bound>, before: bool)
    requires Mean(env, bs, row, before)
    ensures Mean(env, bs + When(q.since.Some?, Bound(SinceTs, [Time(q.since.GetOr(0.0))])) +
                          When(q.until.Some?, Bound(UntilTs, [Time(q.until.GetOr(0.0))])) +
                          When(q.errors, Bound(IsError, [])), row,
                 before && (q.since.Some? ==> row.ts >= q.since.value) && (q.until.Some? ==> row.ts <= q.until.value) &&
                 (q.errors ==> row.error))
  {
    var since, until := Bound(SinceTs, [Time(q.since.GetOr(0.0))]), Bound(UntilTs, [Time(q.until.GetOr(0.0))]);
    var after := q.since.Some? ==> row.ts >= q.since.value;
    var between := after && (q.until.Some? ==> row.ts <= q.until.value);
    AddMeans(env, bs, before, q.since.Some?, since, row, row.ts >= q.since.GetOr(0.0));
    var one := bs + When(q.since.Some?, since);
    AddMeans(env, one, before && after, q.until.Some?, until, row, row.ts <= q.until.GetOr(0.0));
    AddMeans(env, one + When(q.until.Some?, until), before && between, q.errors, Bound(IsError, []), row, row.error);
  }

  lemma ServerMeans(env: Env, server: string, row: Row)
    ensures Mean(env, [if server != "" then TextBound(env, McpServer, server) else Bound(McpAny, [])], row,
                 if server != "" then TextMatches(env, server, row.mcpServer) else row.mcpServer != "")
  {
    hide TextMatches, TextBound, Mean;
    if server != "" {
      TextMeans(env, McpServer, server, row);
      WhenMeans(env, true, TextBound(env, McpServer, server), row, TextMatches(env, server, row.mcpServer));
    } else {
      WhenMeans(env, true, Bound(McpAny, []), row, row.mcpServer != "");
    }
  }

  lemma McpMeans(env: Env, mcp: string, row: Row)
    ensures Mean(env, McpBounds(env, mcp), row, McpMatches(env, mcp, row))
  {
    hide TextMatches, HasGlob, LikeOf;
    var server, tool := BeforeSlash(mcp), AfterSlash(mcp);
    ServerMeans(env, server, row);
    TextMeans(env, McpTool, tool, row);
    AddMeans(env, [if server != "" then TextBound(env, McpServer, server) else Bound(McpAny, [])],
        if server != "" then TextMatches(env, server, row.mcpServer) else row.mcpServer != "",
        tool != "", TextBound(env, McpTool, tool), row, TextMatches(env, tool, row.mcpTool));
  }

  lemma TargetMeans(env: Env, q: Query, row: Row)
    ensures Mean(env, TargetBounds(env, q), row, TargetMatches(env, q, row))
  {
    PathMeans(env, q.path, q.writes, row);
    HostMeans(env, q.host, row);
    WhenMeans(env, q.path != "", PathBound(env, q.path, q.writes), row, PathMatches(env, row, q.path, q.writes));
    var p1 := q.path != "" ==> PathMatches(env, row, q.path, q.writes);
    var b1 := When(q.path != "", PathBound(env, q.path, q.writes));
    AddMeans(env, b1, p1, q.host != "", HostBound(env, q.host), row, SomeHostMatches(env, q.host, row));
    if q.mcp != "" {
      McpMeans(env, q.mcp, row);
      Both(env, b1 + When(q.host != "", HostBound(env, q.host)), McpBounds(env, q.mcp), row,
           p1 && (q.host != "" ==> SomeHostMatches(env, q.host, row)), McpMatches(env, q.mcp, row));
    }
  }

  /** The conditions compiled from a query hold of an action exactly when every filter does. */
  lemma BoundsMean(env: Env, q: Query, row: Row)
    ensures Mean(env, Bounds(env, q), row, Matches(env, q, row))
  {
    ActorMeans(env, q, row);
    DeedMeans(env, q, row);
    TimeMeans(env, q, row);
    TargetMeans(env, q, row);
    var p1, p2, p3 := ActorMatches(env, q, row), DeedMatches(env, q, row), TimeMatches(q, row);
    var b1, b2, b3 := ColumnBounds(env, Columns(q)), DeedBounds(env, q), TimeBounds(q);
    Both(env, b1, b2, row, p1, p2);
    Both(env, b1 + b2, b3, row, p1 && p2, p3);
    Both(env, b1 + b2 + b3, TargetBounds(env, q), row, p1 && p2 && p3, TargetMatches(env, q, row));
  }

  /** On this action the statement and its parameters say what every filter says. */
  predicate Agrees(env: Env, q: Query, clauses: seq<Clause>, params: seq<Param>, row: Row) {
    |params| == TotalArity(clauses) && (Selects(env, clauses, row, params) <==> Matches(env, q, row))
  }

  /** A compiled query selects an action exactly when every filter of the query holds of it. */
  ghost predicate Compiled(env: Env, q: Query, clauses: seq<Clause>, params: seq<Param>) {
    forall row :: Agrees(env, q, clauses, params, row)
  }

  lemma RowMeans(env: Env, q: Query, bs: seq<Bound>, clauses: seq<Clause>, params: seq<Param>, row: Row)
    requires bs == Bounds(env, q) && clauses == ClausesOf(bs) && params == ParamsOf(bs)
    ensures Agrees(env, q, clauses, params, row)
  {
    BoundsMean(env, q, row);
    SelectsAll(env, bs, row);
  }

  lemma CompiledMeans(env: Env, q: Query, bs: seq<Bound>, clauses: seq<Clause>, params: seq<Param>)
    requires bs == Bounds(env, q) && clauses == ClausesOf(bs) && params == ParamsOf(bs)
    ensures Compiled(env, q, clauses, params)
  {
    forall row
      ensures Agrees(env, q, clauses, params, row)
    {
      RowMeans(env, q, bs, clauses, params, row);
    }
  }

  // ----- an action's own program and verb -----

  const NO_FILTER := Query("", [], "", "", "", "", "", "", "", "", "", "", None, None, false, false, [])

  /** A name that is empty or has a comma is never found on its own. */
  lemma AloneNotFound(p: string, l: string)
    requires ',' !in p && p != [] && (l == [] || ',' in l)
    ensures !MemberMatches(l, [p])
  {
    var text, needle := Lower(Packed([p])), Lower("," + l + ",");
    assert NoCommas([p]) == [p] && Packed([p]) == "," + p + ",";
    var c := if l == [] then 0 else CommaAt(l);
    assert |text| == |p| + 2 && needle[0] == ',' && needle[1 + c] == ',';
    assert forall i :: 0 <= i < |text| ==> (text[i] == ',' <==> i == 0 || i == |p| + 1);
    forall k: nat
      ensures !ContainsAt(text, needle, k)
    {
      if ContainsAt(text, needle, k) {
        CharAt(text, needle, k, 0);
        CharAt(text, needle, k, 1 + c);
      }
    }
  }

  lemma CharAt(text: string, needle: string, k: nat, j: nat)
    requires ContainsAt(text, needle, k) && j < |needle|
    ensures k + j < |text| && text[k + j] == needle[j]
  {
    assert text[k..k + |needle|][j] == text[k + j];
  }

  function CommaAt(l: string): (c: nat)
    requires ',' in l
    ensures c < |l| && l[c] == ','
  {
    if l[0] == ',' then 0 else 1 + CommaAt(l[1..])
  }

  lemma FoldedAlike(p: string, l: string)
    requires ',' !in p && p != [] && Lower(l) == Lower(p)
    ensures ',' !in l && l != [] && forall vs :: p in vs ==> MemberMatches(l, vs)
  {
    assert |Lower(p)| == |p| && |Lower(l)| == |l|;
    LowerComma(l);
    LowerComma(p);
    forall vs | p in vs
      ensures MemberMatches(l, vs)
    {
      var i :| 0 <= i < |vs| && vs[i] == p;
      assert NoCommas(vs)[i] == p;
    }
  }

  lemma MemberAlone(p: string, l: string)
    requires ',' !in p && p != [] && MemberMatches(l, [p])
    ensures Lower(l) == Lower(p)
  {
    if l == [] || ',' in l {
      AloneNotFound(p, l);
    } else {
      assert NoCommas([p]) == [p];
    }
  }

  /** Filtering by a program, or by a verb, finds every action that has it exactly when
      str.lower and ASCII folding agree on its name: only the latter folds the column. */
  lemma OwnNameFound(env: Env, name: string)
    requires ',' !in name && name != []
    ensures (forall row: Row :: name in row.programs ==> Matches(env, NO_FILTER.(program := name), row)) <==>
            Lower(env.lower(name)) == Lower(name)
    ensures (forall row: Row :: name in row.verbs ==> Matches(env, NO_FILTER.(verb := name), row)) <==>
            Lower(env.lower(name)) == Lower(name)
  {
    var l := env.lower(name);
    var row := Row("", "", "", "", "", "", "", "", "", "", [name], [name], 0.0, false, false, [], []);
    forall r
      ensures Matches(env, NO_FILTER.(program := name), r) <==> MemberMatches(l, r.programs)
      ensures Matches(env, NO_FILTER.(verb := name), r) <==> MemberMatches(l, r.verbs)
    {
      OneFilter(env, name, r);
    }
    if Lower(l) == Lower(name) {
      FoldedAlike(name, l);
    } else {
      if MemberMatches(l, [name]) {
        MemberAlone(name, l);
      }
      assert name in row.programs && name in row.verbs;
      assert !Matches(env, NO_FILTER.(program := name), row) && !Matches(env, NO_FILTER.(verb := name), row);
    }
  }

  lemma OneFilter(env: Env, name: string, row: Row)
    requires name != []
    ensures Matches(env, NO_FILTER.(program := name), row) <==> MemberMatches(env.lower(name), row.programs)
    ensures Matches(env, NO_FILTER.(verb := name), row) <==> MemberMatches(env.lower(name), row.verbs)
  {
    hide MemberMatches;
  }

  /** What is left of a host has no dot at its ends, and nothing but dots was around it. */
  lemma {:induction false} DotsStripped(s: string) returns (i: nat, j: nat)
    ensures i <= j <= |s| && StripDots(s) == s[i..j]
    ensures forall k :: 0 <= k < i || j <= k < |s| ==> s[k] == '.'
    ensures i < j ==> s[i] != '.' && s[j - 1] != '.'
    decreases |s|
  {
    if s != [] && s[0] == '.' {
      i, j := DotsStripped(s[1..]);
      i, j := i + 1, j + 1;
    } else if s != [] && s[|s| - 1] == '.' {
      i, j := DotsStripped(s[..|s| - 1]);
    } else {
      i, j := 0, |s|;
    }
  }
}
