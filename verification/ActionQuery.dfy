// opentine/_actions_query.py: filters compiled to a WHERE clause with positional
// parameters, and the filters themselves.
module ActionQuery {
  import opened Basics
  import opened Outcomes
  import opened LikePattern
  import opened PackedLists

  /** What the compiler leaves to Python and SQLite: str.lower, and GLOB of a pattern on a text. */
  datatype Env = Env(lower: string -> string, glob: (string, string) -> bool)

  datatype PathEntry = PathEntry(path: string, written: bool)

  /** One action as the index holds it; `programs` and `verbs` are stored packed. */
  datatype Row = Row(tool: string, agent: string, model: string, provider: string, session: string,
                     command: string, agentRef: string, runId: string, mcpServer: string, mcpTool: string,
                     programs: seq<string>, verbs: seq<string>, ts: real, error: bool, redacted: bool,
                     paths: seq<PathEntry>, hosts: seq<string>)

  /** An absent filter and an empty one are both "". */
  datatype Query = Query(tool: string, cmd: seq<string>, program: string, path: string, host: string, mcp: string,
                         verb: string, agent: string, model: string, provider: string, session: string, run: string,
                         since: Option<real>, until: Option<real>, errors: bool, writes: bool,
                         agentRefs: seq<string>)

  // ----- the statement -----

  datatype Column = Tool | Agent | Model | Provider | Session | Command | McpServer | McpTool

  function Value(c: Column, row: Row): string {
    match c
    case Tool => row.tool
    case Agent => row.agent
    case Model => row.model
    case Provider => row.provider
    case Session => row.session
    case Command => row.command
    case McpServer => row.mcpServer
    case McpTool => row.mcpTool
  }

  /** One condition of the WHERE clause, by its placeholders. */
  datatype Clause =
    | ColumnLike(column: Column)        // column LIKE ? ESCAPE '\'
    | ColumnGlob(column: Column)        // lower(column) GLOB ?
    | RefIn(count: nat)                 // agent_ref IN (?, ..., ?)
    | ProgramsLike                      // lower(programs) LIKE ? ESCAPE '\'
    | VerbsLike                         // lower(verbs) LIKE ? ESCAPE '\'
    | WroteSome                         // EXISTS (... written = 1)
    | RunLike                           // run_id LIKE ? ESCAPE '\'
    | SinceTs                           // ts >= ?
    | UntilTs                           // ts <= ?
    | IsError                           // error = 1
    | IsRedacted                        // redacted = 1
    | PathLike(written: bool)           // EXISTS (... path LIKE ? [AND written = 1])
    | PathGlob(written: bool)           // EXISTS (... lower(path) GLOB ? [AND written = 1])
    | HostGlob                          // EXISTS (... host GLOB ?)
    | HostLike                          // EXISTS (... (host = ? OR host LIKE ?))
    | McpAny                            // mcp_server != ''

  datatype Param = Text(s: string) | Time(t: real)

  function Arity(c: Clause): nat {
    match c
    case RefIn(n) => n
    case WroteSome => 0
    case IsError => 0
    case IsRedacted => 0
    case McpAny => 0
    case HostLike => 2
    case _ => 1
  }

  /** The text bound to a placeholder. */
  function TextOf(p: Param): string {
    if p.Text? then p.s else ""
  }

  /** One condition on a row with its own parameters bound in order. */
  predicate Holds(env: Env, c: Clause, row: Row, args: seq<Param>)
    requires |args| == Arity(c)
  {
    match c
    case ColumnLike(column) => Like(TextOf(args[0]), Value(column, row))
    case ColumnGlob(column) => env.glob(TextOf(args[0]), Lower(Value(column, row)))
    case RefIn(n) => exists i :: 0 <= i < n && args[i] == Text(row.agentRef)
    case ProgramsLike => Like(TextOf(args[0]), Lower(Packed(row.programs)))
    case VerbsLike => Like(TextOf(args[0]), Lower(Packed(row.verbs)))
    case WroteSome => exists i :: 0 <= i < |row.paths| && row.paths[i].written
    case RunLike => Like(TextOf(args[0]), row.runId)
    case SinceTs => args[0].Time? && row.ts >= args[0].t
    case UntilTs => args[0].Time? && row.ts <= args[0].t
    case IsError => row.error
    case IsRedacted => row.redacted
    case PathLike(written) =>
      exists i :: 0 <= i < |row.paths| && Like(TextOf(args[0]), row.paths[i].path) && (written ==> row.paths[i].written)
    case PathGlob(written) =>
      exists i :: 0 <= i < |row.paths| && env.glob(TextOf(args[0]), Lower(row.paths[i].path)) &&
                  (written ==> row.paths[i].written)
    case HostGlob => exists i :: 0 <= i < |row.hosts| && env.glob(TextOf(args[0]), row.hosts[i])
    case HostLike =>
      exists i :: 0 <= i < |row.hosts| && (row.hosts[i] == TextOf(args[0]) || Like(TextOf(args[1]), row.hosts[i]))
    case McpAny => row.mcpServer != ""
  }

  function TotalArity(clauses: seq<Clause>): nat {
    if clauses == [] then 0 else Arity(clauses[0]) + TotalArity(clauses[1..])
  }

  /** The statement: conditions joined by AND, placeholders bound left to right. */
  predicate Selects(env: Env, clauses: seq<Clause>, row: Row, params: seq<Param>)
    requires |params| == TotalArity(clauses)
  {
    clauses == [] ||
    (&& Holds(env, clauses[0], row, params[..Arity(clauses[0])])
     && Selects(env, clauses[1..], row, params[Arity(clauses[0])..]))
  }

  // ----- the filters -----

  /** _GLOB.search */
  predicate HasGlob(pattern: string) {
    exists i :: 0 <= i < |pattern| && pattern[i] in "*?["
  }

  /** A glob on the lower-cased text when the pattern has a *, a ? or a [, else a
      case-insensitive substring. */
  predicate TextMatches(env: Env, pattern: string, text: string) {
    if '*' in pattern || '?' in pattern || '[' in pattern then env.glob(env.lower(pattern), Lower(text))
    else Contains(Lower(text), Lower(pattern))
  }

  /** Membership in any case; a name with a comma may span neighbouring elements. */
  predicate MemberMatches(name: string, vs: seq<string>) {
    if name != [] && ',' !in name then HasElement(NoCommas(vs), name)
    else Contains(Lower(Packed(vs)), Lower("," + name + ","))
  }

  /** str.strip(".") */
  function StripDots(s: string): string
    decreases |s|
  {
    if s != [] && s[0] == '.' then StripDots(s[1..])
    else if s != [] && s[|s| - 1] == '.' then StripDots(s[..|s| - 1])
    else s
  }

  /** A host is the name itself or one of its subdomains. */
  predicate HostMatches(env: Env, host: string, name: string) {
    if '*' in name || '?' in name || '[' in name then env.glob(name, host)
    else host == name || HasSuffix(Lower(host), Lower("." + name))
  }

  /** str.partition("/") */
  function BeforeSlash(s: string): (r: string)
    ensures '/' !in r && r <= s && (r == s <==> '/' !in s)
    ensures '/' in s ==> r + "/" <= s
  {
    if s == [] || s[0] == '/' then [] else [s[0]] + BeforeSlash(s[1..])
  }

  function AfterSlash(s: string): (r: string)
    ensures if '/' in s then s == BeforeSlash(s) + "/" + r else r == ""
  {
    if |BeforeSlash(s)| < |s| then s[|BeforeSlash(s)| + 1..] else []
  }

  predicate PathMatches(env: Env, row: Row, pattern: string, written: bool) {
    exists i :: 0 <= i < |row.paths| && TextMatches(env, pattern, row.paths[i].path) &&
                (written ==> row.paths[i].written)
  }

  /** The column filters in the order the compiler takes them. */
  function Columns(q: Query): seq<(Column, string)> {
    [(Tool, q.tool), (Agent, q.agent), (Model, q.model), (Provider, q.provider), (Session, q.session)]
  }

  /** Who acted: every filter that is present matches its own column. */
  predicate ActorMatches(env: Env, q: Query, row: Row) {
    && (q.tool != "" ==> TextMatches(env, q.tool, row.tool))
    && (q.agent != "" ==> TextMatches(env, q.agent, row.agent))
    && (q.model != "" ==> TextMatches(env, q.model, row.model))
    && (q.provider != "" ==> TextMatches(env, q.provider, row.provider))
    && (q.session != "" ==> TextMatches(env, q.session, row.session))
  }

  /** What the action did. */
  predicate DeedMatches(env: Env, q: Query, row: Row) {
    && CommandMatches(env, q.cmd, row)
    && (q.agentRefs != [] ==> row.agentRef in q.agentRefs)
    && (q.program != "" ==> MemberMatches(env.lower(q.program), row.programs))
    && (q.verb != "" ==> MemberMatches(env.lower(q.verb), row.verbs))
    && (q.writes && q.path == "" ==> WroteSomething(row))
  }

  predicate WroteSomething(row: Row) {
    exists i :: 0 <= i < |row.paths| && row.paths[i].written
  }

  /** In which run, when, and with what outcome. */
  predicate TimeMatches(q: Query, row: Row) {
    && (q.run != "" ==> HasPrefix(Lower(row.runId), Lower(q.run)))
    && (q.since.Some? ==> row.ts >= q.since.value)
    && (q.until.Some? ==> row.ts <= q.until.value)
    && (q.errors ==> row.error)
  }

  /** On which path, host or server. */
  predicate TargetMatches(env: Env, q: Query, row: Row) {
    && (q.path != "" ==> PathMatches(env, row, q.path, q.writes))
    && (q.host != "" ==> SomeHostMatches(env, q.host, row))
    && (q.mcp != "" ==> McpMatches(env, q.mcp, row))
  }

  predicate SomeHostMatches(env: Env, host: string, row: Row) {
    exists i :: 0 <= i < |row.hosts| && HostMatches(env, row.hosts[i], StripDots(env.lower(host)))
  }

  /** Every filter of the query, read directly. */
  predicate Matches(env: Env, q: Query, row: Row) {
    ActorMatches(env, q, row) && DeedMatches(env, q, row) && TimeMatches(q, row) && TargetMatches(env, q, row)
  }

  predicate CommandMatches(env: Env, terms: seq<string>, row: Row) {
    forall t :: t in terms ==> TextMatches(env, t, row.command)
  }

  predicate McpMatches(env: Env, mcp: string, row: Row) {
    var server, tool := BeforeSlash(mcp), AfterSlash(mcp);
    && (if server != "" then TextMatches(env, server, row.mcpServer) else row.mcpServer != "")
    && (tool != "" ==> TextMatches(env, tool, row.mcpTool))
  }

  // ----- the compiler -----

  /** A condition and the parameters it appends. */
  datatype Bound = Bound(clause: Clause, args: seq<Param>)

  function TextBound(env: Env, column: Column, pattern: string): Bound {
    if HasGlob(pattern) then Bound(ColumnGlob(column), [Text(env.lower(pattern))])
    else Bound(ColumnLike(column), [Text(LikeOf(pattern))])
  }

  function Member(env: Env, clause: Clause, value: string): Bound {
    Bound(clause, [Text(LikeOf("," + env.lower(value) + ","))])
  }

  function HostBound(env: Env, host: string): Bound {
    var name := StripDots(env.lower(host));
    if HasGlob(name) then Bound(HostGlob, [Text(name)])
    else
      var like := LikeOf("." + name);
      Bound(HostLike, [Text(name), Text(like[..|like| - 1])])
  }

  function PathBound(env: Env, pattern: string, written: bool): Bound {
    if HasGlob(pattern) then Bound(PathGlob(written), [Text(env.lower(pattern))])
    else Bound(PathLike(written), [Text(LikeOf(pattern))])
  }

  function McpBounds(env: Env, mcp: string): seq<Bound> {
    var server, tool := BeforeSlash(mcp), AfterSlash(mcp);
    [if server != "" then TextBound(env, McpServer, server) else Bound(McpAny, [])] +
    When(tool != "", TextBound(env, McpTool, tool))
  }

  function Commands(env: Env, terms: seq<string>): (r: seq<Bound>)
    ensures |r| == |terms| && forall i :: 0 <= i < |r| ==> r[i] == TextBound(env, Command, terms[i])
  {
    seq(|terms|, i requires 0 <= i < |terms| => TextBound(env, Command, terms[i]))
  }

  function Texts(refs: seq<string>): (r: seq<Param>)
    ensures |r| == |refs| && forall i :: 0 <= i < |r| ==> r[i] == Text(refs[i])
  {
    seq(|refs|, i requires 0 <= i < |refs| => Text(refs[i]))
  }

  function When(present: bool, b: Bound): seq<Bound> {
    if present then [b] else []
  }

  function ColumnBounds(env: Env, cs: seq<(Column, string)>): seq<Bound> {
    if cs == [] then []
    else
      var c := cs[|cs| - 1];
      ColumnBounds(env, cs[..|cs| - 1]) + When(c.1 != "", TextBound(env, c.0, c.1))
  }

  function DeedBounds(env: Env, q: Query): seq<Bound> {
    Commands(env, q.cmd) +
    When(q.agentRefs != [], Bound(RefIn(|q.agentRefs|), Texts(q.agentRefs))) +
    When(q.program != "", Member(env, ProgramsLike, q.program)) +
    When(q.verb != "", Member(env, VerbsLike, q.verb)) +
    When(q.writes && q.path == "", Bound(WroteSome, []))
  }

  function TimeBounds(q: Query): seq<Bound> {
    When(q.run != "", Bound(RunLike, [Text(LikeOf(q.run)[1..])])) +
    When(q.since.Some?, Bound(SinceTs, [Time(q.since.GetOr(0.0))])) +
    When(q.until.Some?, Bound(UntilTs, [Time(q.until.GetOr(0.0))])) +
    When(q.errors, Bound(IsError, []))
  }

  function TargetBounds(env: Env, q: Query): seq<Bound> {
    When(q.path != "", PathBound(env, q.path, q.writes)) +
    When(q.host != "", HostBound(env, q.host)) +
    (if q.mcp != "" then McpBounds(env, q.mcp) else [])
  }

  /** The conditions in the order the compiler appends them. */
  function Bounds(env: Env, q: Query): seq<Bound> {
    ColumnBounds(env, Columns(q)) + DeedBounds(env, q) + TimeBounds(q) + TargetBounds(env, q)
  }
}
