// opentine/_actions_manifest.py: the hash chain over a run's actions, and what its head binds.
// Nothing is assumed of the hash but the shape of its output, so a theorem either concludes
// or exhibits two texts with one hash.
module HashChain {
  import opened Basics

  predicate HexChar(c: char) {
    '0' <= c <= '9' || 'a' <= c <= 'f'
  }

  predicate Hex64(s: string) {
    |s| == 64 && forall i :: 0 <= i < 64 ==> HexChar(s[i])
  }

  /** 64 hex digits, as hashlib.sha256(...).hexdigest() gives them. */
  type Digest = s: string | Hex64(s) witness seq(64, _ => '0')

  type Hash = string -> Digest

  function SeedInput(runId: string): string {
    "tine-actions/1\0" + runId
  }

  function LinkInput(link: Digest, digest: string): string {
    link + ":" + digest
  }

  /** The last link of the chain over the digests, the seed when there are none. */
  function Head(sha: Hash, runId: string, digests: seq<string>): Digest {
    if digests == [] then sha(SeedInput(runId))
    else sha(LinkInput(Head(sha, runId, digests[..|digests| - 1]), digests[|digests| - 1]))
  }

  /** chain(): every link, first to last. */
  method Chain(sha: Hash, runId: string, digests: seq<string>) returns (links: seq<string>)
    ensures |links| == |digests| && forall i :: 0 <= i < |links| ==> links[i] == Head(sha, runId, digests[..i + 1])
  {
    var link := sha(SeedInput(runId));
    links := [];
    for i := 0 to |digests|
      invariant |links| == i && link == Head(sha, runId, digests[..i])
      invariant forall j :: 0 <= j < i ==> links[j] == Head(sha, runId, digests[..j + 1])
    {
      assert digests[..i + 1][..i] == digests[..i];
      link := sha(LinkInput(link, digests[i]));
      links := links + [link];
    }
  }

  predicate Collides(sha: Hash, pair: (string, string)) {
    pair.0 != pair.1 && sha(pair.0) == sha(pair.1)
  }

  /** The text hashed last for a head. */
  function LastInput(sha: Hash, runId: string, digests: seq<string>): string {
    if digests == [] then SeedInput(runId)
    else LinkInput(Head(sha, runId, digests[..|digests| - 1]), digests[|digests| - 1])
  }

  /** Walking both chains back from equal heads to where the hashed texts part. */
  function Clash(sha: Hash, r: string, ds: seq<string>, s: string, es: seq<string>): (string, string)
    decreases |ds|
  {
    if LastInput(sha, r, ds) != LastInput(sha, s, es) || ds == [] || es == []
    then (LastInput(sha, r, ds), LastInput(sha, s, es))
    else Clash(sha, r, ds[..|ds| - 1], s, es[..|es| - 1])
  }

  lemma SeedInjective(r: string, s: string)
    requires SeedInput(r) == SeedInput(s)
    ensures r == s
  {
    assert SeedInput(r)[15..] == r && SeedInput(s)[15..] == s;
  }

  lemma LinkInjective(a: Digest, d: string, b: Digest, e: string)
    requires LinkInput(a, d) == LinkInput(b, e)
    ensures a == b && d == e
  {
    var n := |a|;
    assert LinkInput(a, d)[..n] == a && LinkInput(b, e)[..n] == b;
    assert LinkInput(a, d)[n + 1..] == d && LinkInput(b, e)[n + 1..] == e;
  }

  /** A seed is never read as a link: it starts with a letter no hex digest has. */
  lemma SeedIsNoLink(r: string, link: Digest, digest: string)
    ensures SeedInput(r) != LinkInput(link, digest)
  {
    assert SeedInput(r)[0] == 't' && LinkInput(link, digest)[0] == link[0] && HexChar(link[0]);
  }

  /** Equal heads mean equal run ids and equal digest lists, of whatever lengths, or give
      away a collision. */
  lemma {:induction false} HeadBinds(sha: Hash, r: string, ds: seq<string>, s: string, es: seq<string>)
    requires Head(sha, r, ds) == Head(sha, s, es)
    ensures (r == s && ds == es) || Collides(sha, Clash(sha, r, ds, s, es))
    decreases |ds|
  {
    if LastInput(sha, r, ds) == LastInput(sha, s, es) {
      if ds == [] && es == [] {
        SeedInjective(r, s);
      } else if ds == [] {
        SeedIsNoLink(r, Head(sha, s, es[..|es| - 1]), es[|es| - 1]);
      } else if es == [] {
        SeedIsNoLink(s, Head(sha, r, ds[..|ds| - 1]), ds[|ds| - 1]);
      } else {
        var d, e := ds[..|ds| - 1], es[..|es| - 1];
        LinkInjective(Head(sha, r, d), ds[|ds| - 1], Head(sha, s, e), es[|es| - 1]);
        HeadBinds(sha, r, d, s, e);
        if d == e {
          SameParts(ds, es);
        }
      }
    }
  }

  // ----- the manifest body -----

  /** An action as the manifest takes it: its record, meters zeroed, in canonical JSON; and
      the fields shown beside its digest. */
  datatype Entry = Entry(record: string, order: nat, stepId: string, tool: string, verbs: seq<string>)

  datatype Line = Line(chain: string, digest: string, order: nat, stepId: string, tool: string, verbs: seq<string>)

  function Digests(sha: Hash, entries: seq<Entry>): (r: seq<string>)
    ensures |r| == |entries| && forall i :: 0 <= i < |r| ==> r[i] == sha(entries[i].record)
  {
    if entries == [] then [] else Digests(sha, entries[..|entries| - 1]) + [sha(entries[|entries| - 1].record)]
  }

  /** The line an entry gets, given the links of the chain. */
  predicate IsLine(sha: Hash, e: Entry, link: string, line: Line) {
    line == Line(link, sha(e.record), e.order, e.stepId, e.tool, e.verbs)
  }

  /** The links are those of the chain over the digests. */
  predicate AreLinks(sha: Hash, runId: string, digests: seq<string>, links: seq<string>) {
    |links| == |digests| && forall i :: 0 <= i < |links| ==> links[i] == Head(sha, runId, digests[..i + 1])
  }

  lemma LastLink(sha: Hash, runId: string, digests: seq<string>, links: seq<string>)
    requires AreLinks(sha, runId, digests, links) && links != []
    ensures links[|links| - 1] == Head(sha, runId, digests)
  {
    assert digests[..|digests|] == digests;
  }

  method Lines(sha: Hash, entries: seq<Entry>, links: seq<string>) returns (lines: seq<Line>)
    requires |links| == |entries|
    ensures |lines| == |entries| && forall i :: 0 <= i < |lines| ==> IsLine(sha, entries[i], links[i], lines[i])
  {
    lines := [];
    for i := 0 to |entries|
      invariant |lines| == i && forall j :: 0 <= j < i ==> IsLine(sha, entries[j], links[j], lines[j])
    {
      var e := entries[i];
      lines := lines + [Line(links[i], sha(e.record), e.order, e.stepId, e.tool, e.verbs)];
    }
  }

  /** Anyone can follow the chain along the lines: each link is the hash of the one before, a colon
      and the line's digest, the first starts from the run's id, and the head is the last. */
  ghost predicate Follows(sha: Hash, runId: string, lines: seq<Line>, head: string) {
    var seed := sha("tine-actions/1\0" + runId);
    && (forall i :: 0 <= i < |lines| ==>
          lines[i].chain == sha((if i == 0 then seed else lines[i - 1].chain) + ":" + lines[i].digest))
    && head == if lines == [] then seed else lines[|lines| - 1].chain
  }

  lemma LinkAt(sha: Hash, runId: string, digests: seq<string>, i: nat)
    requires i < |digests|
    ensures Head(sha, runId, digests[..i + 1]) ==
            sha((if i == 0 then sha("tine-actions/1\0" + runId) else Head(sha, runId, digests[..i])) + ":" + digests[i])
  {
    assert digests[..i + 1][..i] == digests[..i];
  }

  lemma LinesFollow(sha: Hash, runId: string, entries: seq<Entry>, lines: seq<Line>, head: string)
    requires |lines| == |entries| && head == Head(sha, runId, Digests(sha, entries))
    requires forall i :: 0 <= i < |lines| ==>
      IsLine(sha, entries[i], Head(sha, runId, Digests(sha, entries)[..i + 1]), lines[i])
    ensures Follows(sha, runId, lines, head)
  {
    hide Digests;
    var digests := Digests(sha, entries);
    forall i | 0 <= i < |lines|
      ensures lines[i].chain ==
              sha((if i == 0 then sha("tine-actions/1\0" + runId) else lines[i - 1].chain) + ":" + lines[i].digest)
    {
      hide Head;
      LinkAt(sha, runId, digests, i);
      assert i > 0 ==> IsLine(sha, entries[i - 1], Head(sha, runId, digests[..i - 1 + 1]), lines[i - 1]);
    }
    assert digests[..|digests|] == digests;
  }

  /** build_body: a line for each action, bearing its digest and the chain's link so far, and
      the chain's head. */
  method BuildBody(sha: Hash, runId: string, entries: seq<Entry>) returns (lines: seq<Line>, head: string)
    ensures head == Head(sha, runId, Digests(sha, entries))
    ensures |lines| == |entries|
    ensures forall i :: 0 <= i < |lines| ==>
      IsLine(sha, entries[i], Head(sha, runId, Digests(sha, entries)[..i + 1]), lines[i])
    ensures forall i :: 0 <= i < |lines| ==>
      && lines[i].digest == sha(entries[i].record) && lines[i].stepId == entries[i].stepId
      && lines[i].order == entries[i].order && lines[i].tool == entries[i].tool && lines[i].verbs == entries[i].verbs
    ensures Follows(sha, runId, lines, head)
  {
    var digests := Digests(sha, entries);
    var chain := Chain(sha, runId, digests);
    lines := Lines(sha, entries, chain);
    head := sha(SeedInput(runId));
    if chain != [] {
      LastLink(sha, runId, digests, chain);
      head := chain[|chain| - 1];
    }
    LinesFollow(sha, runId, entries, lines, head);
  }

  /** The first records whose digests agree though they differ. */
  function RecordClash(sha: Hash, a: seq<Entry>, b: seq<Entry>): (string, string)
    requires |a| == |b|
  {
    if a == [] then ("", "")
    else if a[0].record != b[0].record then (a[0].record, b[0].record)
    else RecordClash(sha, a[1..], b[1..])
  }

  predicate SameRecords(a: seq<Entry>, b: seq<Entry>) {
    |a| == |b| && forall i :: 0 <= i < |a| ==> a[i].record == b[i].record
  }

  lemma {:induction false} DigestsBind(sha: Hash, a: seq<Entry>, b: seq<Entry>)
    requires |a| == |b| && forall i :: 0 <= i < |a| ==> sha(a[i].record) == sha(b[i].record)
    ensures SameRecords(a, b) || Collides(sha, RecordClash(sha, a, b))
  {
    if a != [] && a[0].record == b[0].record {
      DigestsBind(sha, a[1..], b[1..]);
      if SameRecords(a[1..], b[1..]) {
        forall i | 0 <= i < |a|
          ensures a[i].record == b[i].record
        {
          if i > 0 {
            assert a[1..][i - 1] == a[i] && b[1..][i - 1] == b[i];
          }
        }
      }
    }
  }

  /** The head fits one run and one list of actions: no action dropped, added, edited or moved,
      no manifest carried over to another run, without a collision coming to light. */
  lemma ManifestBinds(sha: Hash, r: string, a: seq<Entry>, s: string, b: seq<Entry>)
    requires Head(sha, r, Digests(sha, a)) == Head(sha, s, Digests(sha, b))
    ensures || (r == s && SameRecords(a, b))
            || Collides(sha, Clash(sha, r, Digests(sha, a), s, Digests(sha, b)))
            || (|a| == |b| && Collides(sha, RecordClash(sha, a, b)))
  {
    HeadBinds(sha, r, Digests(sha, a), s, Digests(sha, b));
    if r == s && Digests(sha, a) == Digests(sha, b) {
      assert |a| == |Digests(sha, a)| == |b|;
      forall i | 0 <= i < |a|
        ensures sha(a[i].record) == sha(b[i].record)
      {
        assert Digests(sha, a)[i] == Digests(sha, b)[i];
      }
      DigestsBind(sha, a, b);
    }
  }
}
