// opentine/_atif_export.py and trace/_transcript_usage.py: a step's usage written the way ATIF
// counts it, and read back into the run's own buckets.
module AtifUsage {
  import opened Outcomes

  const MAX_SAFE_INTEGER := 9007199254740991

  datatype Kind = Human | ToolCall | Subagent | Other

  /** Recorded usage: the run's own buckets, each token in one of them, and whatever was
      recorded under other names. A bucket without a record holds 0. */
  datatype Usage = Usage(input: int, output: int, cacheRead: int, write5m: int, write1h: int, reasoning: int,
                         others: map<string, int>)

  /** What ATIF records: totals that include their parts. */
  datatype Metrics = Metrics(prompt: int, completion: int, cached: int, reasoning: int, cacheCreation: int)

  /** _metrics() */
  function Exported(u: Usage): Metrics {
    var write := u.write5m + u.write1h;
    Metrics(u.input + u.cacheRead + write, u.output + u.reasoning, u.cacheRead, u.reasoning, write)
  }

  /** count(): a plain count, or nothing. */
  function Count(n: int): Option<int> {
    if 0 <= n <= MAX_SAFE_INTEGER then Some(n) else None
  }

  /** A total without its parts; one smaller than its parts is kept, a missing one is 0. */
  function Exclusive(total: int, parts: int): int {
    match Count(total)
    case None => 0
    case Some(n) => if n >= parts then n - parts else n
  }

  /** inclusive_usage() */
  function Imported(m: Metrics): Usage {
    var read, write, thought := Count(m.cached).GetOr(0), Count(m.cacheCreation).GetOr(0), Count(m.reasoning).GetOr(0);
    Usage(Exclusive(m.prompt, read + write), Exclusive(m.completion, thought), read, write, 0, thought, map[])
  }

  /** A count that is read: none that is negative or too large to be exact. */
  ghost predicate Exact(n: int) {
    0 <= n <= 0x1F_FFFF_FFFF_FFFF
  }

  /** What stands for a total of which some part is counted elsewhere. */
  ghost predicate Apart(total: int, part: int, rest: int) {
    if !Exact(total) then rest == 0
    else rest >= 0 && (rest + part == total || (total < part && rest == total))
  }

  /** Each bucket of an imported usage: parts as recorded, or none; totals without their parts;
      every cache write a five-minute one. */
  lemma ImportedIs(m: Metrics)
    ensures var u := Imported(m);
            && u.cacheRead == (if Exact(m.cached) then m.cached else 0)
            && u.write5m == (if Exact(m.cacheCreation) then m.cacheCreation else 0)
            && u.reasoning == (if Exact(m.reasoning) then m.reasoning else 0)
            && Apart(m.prompt, u.cacheRead + u.write5m, u.input) && Apart(m.completion, u.reasoning, u.output)
            && u.write1h == 0 && u.others == map[]
  {
  }

  // ----- a step, out and in again -----

  const NOTHING := Usage(0, 0, 0, 0, 0, 0, map[])

  /** The metrics a step's item carries: a human step's has none, and a subagent step has no
      item but a trajectory in its place. */
  function ItemMetrics(kind: Kind, u: Usage): Option<Metrics> {
    if kind == Human || kind == Subagent then None else Some(Exported(u))
  }

  /** The usage read back for a step. */
  function Reimported(kind: Kind, u: Usage): Usage {
    match ItemMetrics(kind, u)
    case None => NOTHING
    case Some(m) => Imported(m)
  }

  function Amount(u: Usage, name: string): int {
    if name in u.others then u.others[name] else 0
  }

  /** The same amount under every name. */
  ghost predicate SameUsage(u: Usage, v: Usage) {
    u.(others := v.others) == v && forall name :: Amount(u, name) == Amount(v, name)
  }

  predicate NoOthers(u: Usage) {
    forall name :: name in u.others ==> u.others[name] == 0
  }

  predicate Unused(u: Usage) {
    u == NOTHING.(others := u.others) && NoOthers(u)
  }

  predicate Counts(u: Usage) {
    u.input >= 0 && u.output >= 0 && u.cacheRead >= 0 && u.write5m >= 0 && u.write1h >= 0 && u.reasoning >= 0
  }

  /** Every number ATIF would hold can be read back, or stands for nothing. */
  predicate Readable(u: Usage) {
    && u.cacheRead <= MAX_SAFE_INTEGER && u.write5m + u.write1h <= MAX_SAFE_INTEGER && u.reasoning <= MAX_SAFE_INTEGER
    && (u.input > 0 ==> u.input + u.cacheRead + u.write5m + u.write1h <= MAX_SAFE_INTEGER)
    && (u.output > 0 ==> u.output + u.reasoning <= MAX_SAFE_INTEGER)
  }

  /** What ATIF can carry of a step: nothing of a human or subagent step, and otherwise the six
      buckets without one-hour cache writes, in numbers that can be read. */
  predicate Carried(kind: Kind, u: Usage) {
    if kind == Human || kind == Subagent then Unused(u) else u.write1h == 0 && NoOthers(u) && Readable(u)
  }

  lemma OthersGone(u: Usage, v: Usage)
    requires u.others == map[]
    ensures SameUsage(u, v) <==> u.(others := v.others) == v && NoOthers(v)
  {
    if NoOthers(v) {
      assert forall name :: Amount(v, name) == 0;
    }
    forall name | SameUsage(u, v) && name in v.others
      ensures v.others[name] == 0
    {
      assert Amount(u, name) == Amount(v, name);
    }
  }

  /** The metrics of an item read back to the buckets they came from, one-hour writes as
      five-minute ones. */
  lemma BucketsRestored(u: Usage)
    requires Counts(u)
    ensures Imported(Exported(u)) == u.(others := map[]) <==> u.write1h == 0 && Readable(u)
    ensures Readable(u) ==>
              Imported(Exported(u)) == u.(write5m := u.write5m + u.write1h, write1h := 0, others := map[])
  {
    var m := Exported(u);
    assert m.prompt >= m.cached + m.cacheCreation && m.completion >= m.reasoning;
  }

  /** The usage read back from a step that is imported is its own exactly when ATIF can carry it. */
  lemma UsageRestored(kind: Kind, u: Usage)
    requires Counts(u)
    ensures SameUsage(Reimported(kind, u), u) <==> Carried(kind, u)
  {
    OthersGone(Reimported(kind, u), u);
    BucketsRestored(u);
  }
}
