// opentine/repository/_sig_sidecar.py: the detached signatures kept beside a run.
module Sidecars {
  import opened Basics
  import opened Outcomes

  const MAX_SIDECAR_ENTRIES := 256
  const MAX_SIDECAR_BYTES := 4 * 1024 * 1024

  /** A signature block: its scheme, and its canonical JSON byte by byte. */
  datatype Block = Block(scheme: string, json: string)

  /** A kept block and the annotation head it signs its run with. */
  datatype Entry = Entry(head: Option<string>, block: Block)

  // ----- how large a sidecar is -----

  /** {"annotations_head":null,"block":{...}} */
  function EntryBytes(e: Entry): nat {
    20 + (if e.head.Some? then |e.head.value| + 2 else 4) + 9 + |e.block.json| + 1
  }

  function EntriesBytes(entries: seq<Entry>): nat {
    if entries == [] then 0
    else EntriesBytes(entries[..|entries| - 1]) + EntryBytes(entries[|entries| - 1]) + if |entries| > 1 then 1 else 0
  }

  /** {"entries":[...],"kind":"tine-sig-sidecar/1","root":"..."} and a newline */
  function SidecarBytes(root: string, entries: seq<Entry>): nat {
    12 + EntriesBytes(entries) + 1 + 28 + 8 + |root| + 2 + 1 + 1
  }

  function EntryText(e: Entry): string {
    "{\"annotations_head\":" + (if e.head.Some? then "\"" + e.head.value + "\"" else "null") +
    ",\"block\":" + e.block.json + "}"
  }

  function EntriesText(entries: seq<Entry>): string {
    if entries == [] then ""
    else
      EntriesText(entries[..|entries| - 1]) + (if |entries| > 1 then "," else "") +
      EntryText(entries[|entries| - 1])
  }

  /** A sidecar as it is written: canonical JSON and a newline. */
  function SidecarText(root: string, entries: seq<Entry>): string {
    "{\"entries\":[" + EntriesText(entries) + "],\"kind\":\"tine-sig-sidecar/1\",\"root\":\"" + root + "\"}\n"
  }

  lemma {:induction false} SidecarLength(root: string, entries: seq<Entry>)
    ensures |EntriesText(entries)| == EntriesBytes(entries)
    ensures |SidecarText(root, entries)| == SidecarBytes(root, entries)
  {
    if entries != [] {
      SidecarLength(root, entries[..|entries| - 1]);
      assert |EntryText(entries[|entries| - 1])| == EntryBytes(entries[|entries| - 1]);
    }
  }

  /** What add_signatures refuses to write. */
  predicate Overgrown(root: string, entries: seq<Entry>) {
    |entries| > MAX_SIDECAR_ENTRIES || SidecarBytes(root, entries) > MAX_SIDECAR_BYTES
  }

  lemma {:induction false} PrefixIsSmaller(root: string, a: seq<Entry>, b: seq<Entry>)
    requires a <= b && Overgrown(root, a)
    ensures Overgrown(root, b)
    decreases |b|
  {
    if |a| < |b| {
      PrefixIsSmaller(root, a, b[..|b| - 1]);
    } else {
      assert a == b;
    }
  }

  /** At most n entries, none larger than m. */
  lemma {:induction false} BytesAtMost(entries: seq<Entry>, m: nat)
    requires forall e :: e in entries ==> EntryBytes(e) <= m
    ensures EntriesBytes(entries) <= |entries| * (m + 1)
    decreases |entries|
  {
    if entries != [] {
      BytesAtMost(entries[..|entries| - 1], m);
      assert |entries| * (m + 1) == (|entries| - 1) * (m + 1) + (m + 1);
    }
  }

  // ----- add_signatures -----

  function EntriesFor(head: Option<string>, blocks: seq<Block>): (entries: seq<Entry>)
    ensures |entries| == |blocks| && forall i :: 0 <= i < |blocks| ==> entries[i] == Entry(head, blocks[i])
  {
    seq(|blocks|, i requires 0 <= i < |blocks| => Entry(head, blocks[i]))
  }

  /** What is held, and after it what is brought and was not there, each once. */
  function WithEntries<T(==)>(held: seq<T>, brought: seq<T>): seq<T> {
    if brought == [] then held
    else
      var all, last := WithEntries(held, brought[..|brought| - 1]), brought[|brought| - 1];
      if last in all then all else all + [last]
  }

  /** What a sidecar holds after the entries are added, or nothing when it would be too large;
      entries that are all there already are never refused. */
  function Merge(root: string, held: seq<Entry>, brought: seq<Entry>): Option<seq<Entry>> {
    var all := WithEntries(held, brought);
    if all != held && Overgrown(root, all) then None else Some(all)
  }

  lemma {:induction false} HeldFirst<T>(held: seq<T>, brought: seq<T>)
    ensures held <= WithEntries(held, brought)
    ensures forall e :: e in WithEntries(held, brought) <==> e in held || e in brought
    decreases |brought|
  {
    if brought != [] {
      HeldFirst(held, brought[..|brought| - 1]);
      LastApart(brought);
    }
  }

  lemma {:induction false} WithMore<T>(held: seq<T>, a: seq<T>, b: seq<T>)
    ensures WithEntries(held, a + b) == WithEntries(WithEntries(held, a), b)
    decreases |b|
  {
    if b == [] {
      assert a + b == a;
    } else {
      assert (a + b)[..|a + b| - 1] == a + b[..|b| - 1];
      WithMore(held, a, b[..|b| - 1]);
    }
  }

  /** Adding in two steps fails exactly when adding at once does. */
  lemma MergeTwice(root: string, held: seq<Entry>, a: seq<Entry>, b: seq<Entry>)
    ensures Merge(root, held, a).None? ==> Merge(root, held, a + b).None?
    ensures Merge(root, held, a).Some? ==> Merge(root, held, a + b) == Merge(root, Merge(root, held, a).value, b)
  {
    var mid := WithEntries(held, a);
    WithMore(held, a, b);
    HeldFirst(held, a);
    HeldFirst(mid, b);
    if mid != held && Overgrown(root, mid) {
      PrefixIsSmaller(root, mid, WithEntries(mid, b));
      assert |WithEntries(mid, b)| > |held|;
    }
  }

  /** add_signatures: the new entries appended, or nothing written. */
  method AddSignatures(root: string, held: seq<Entry>, brought: seq<Entry>) returns (r: Option<seq<Entry>>)
    ensures r == Merge(root, held, brought)
  {
    var entries, added := held, 0;
    for i := 0 to |brought|
      invariant entries == WithEntries(held, brought[..i]) && |entries| == |held| + added
    {
      assert brought[..i + 1][..i] == brought[..i];
      if brought[i] !in entries {
        entries := entries + [brought[i]];
        added := added + 1;
      }
    }
    assert brought[..|brought|] == brought;
    HeldFirst(held, brought);
    assert added == 0 ==> entries == held;
    if added > 0 && Overgrown(root, entries) {
      return None;
    }
    return Some(entries);
  }

  // ----- signatures_for -----

  /** The blocks kept for one annotation head, in order. */
  function BlocksAt(entries: seq<Entry>, head: Option<string>): seq<Block> {
    if entries == [] then []
    else
      BlocksAt(entries[..|entries| - 1], head) +
      if entries[|entries| - 1].head == head then [entries[|entries| - 1].block] else []
  }

  predicate Distinct<T(==)>(items: seq<T>) {
    forall i, j :: 0 <= i < j < |items| ==> items[i] != items[j]
  }

  lemma {:induction false} AllNew<T>(items: seq<T>)
    requires Distinct(items)
    ensures WithEntries([], items) == items
  {
    if items != [] {
      var front := items[..|items| - 1];
      AllNew(front);
      assert items[|items| - 1] !in front;
      LastApart(items);
    }
  }

  lemma {:induction false} KeptAt(entries: seq<Entry>, head: Option<string>, block: Block)
    ensures block in BlocksAt(entries, head) <==> Entry(head, block) in entries
  {
    if entries != [] {
      KeptAt(entries[..|entries| - 1], head, block);
      LastApart(entries);
    }
  }

  /** Adding blocks for a head adds to what stands there the ones that did not, and changes
      nothing at any other head. */
  lemma {:induction false} BlocksAdded(held: seq<Entry>, head: Option<string>, blocks: seq<Block>,
                                       other: Option<string>)
    ensures BlocksAt(WithEntries(held, EntriesFor(head, blocks)), head) == WithEntries(BlocksAt(held, head), blocks)
    ensures other != head ==>
              BlocksAt(WithEntries(held, EntriesFor(head, blocks)), other) == BlocksAt(held, other)
    decreases |blocks|
  {
    if blocks != [] {
      var front, last := blocks[..|blocks| - 1], Entry(head, blocks[|blocks| - 1]);
      BlocksAdded(held, head, front, other);
      assert EntriesFor(head, blocks)[..|blocks| - 1] == EntriesFor(head, front);
      var all := WithEntries(held, EntriesFor(head, front));
      KeptAt(all, head, last.block);
      assert (all + [last])[..|all|] == all;
    }
  }
}
