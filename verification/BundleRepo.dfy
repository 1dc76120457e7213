// opentine/_artifact_v4_read.py and _artifact_v4_repo.py: reading a v4 artifact,
// installing it into a repository, and exporting it again.
module BundleRepo {
  import opened Basics
  import opened Outcomes
  import opened ObjectGraph
  import opened Sidecars

  const MAX_V4_OBJECTS := 1_000_000
  const MAX_V4_ANNOTATIONS := 1024
  const MAX_V4_SIGNATURES := 16
  const SCHEME := "tine-sig/3"

  /** A parsed artifact: each envelope beside the id it is filed under, and the detached
      signatures. */
  datatype Document = Document(root: Oid, objects: Store, annotations: seq<(Oid, Envelope)>, signatures: seq<Block>)

  /** What else load_run asks of a run's objects and its newest annotation, besides the links
      of that annotation. It is any test of these: an id fixes what it names. */
  const LOADS: (Oid, Store, Option<Envelope>) -> bool

  /** What read_v4_data keeps of an accepted artifact. */
  datatype Origin = Origin(root: Oid, objects: Store, chain: seq<Envelope>)

  datatype RepoError =
    | TooLarge | NotBundled | OidMismatch | BadRoot | NotReached | BadAnnotation | BadSignatures | NotLoadable
    | Missing(oid: Oid) | BadChain | BadObject(oid: Oid) | CasMismatch | NotARun | SidecarFull

  datatype Adoption = NoChain | Unchanged | KeptRepository | Installed

  // ----- annotation chains -----

  /** Entry i annotates the root and names the entry before it. */
  predicate Follows(chain: seq<Envelope>, i: nat, root: Oid)
    requires i < |chain|
  {
    && chain[i].oid.kind == Annotation && chain[i].target == Some(root)
    && chain[i].previous == HeadOf(chain[..i])
  }

  ghost predicate ChainOf(chain: seq<Envelope>, root: Oid) {
    forall i :: 0 <= i < |chain| ==> Follows(chain, i, root)
  }

  lemma ChainPrefix(chain: seq<Envelope>, n: nat, root: Oid)
    requires n <= |chain| && ChainOf(chain, root)
    ensures ChainOf(chain[..n], root)
  {
    forall i | 0 <= i < n
      ensures Follows(chain[..n], i, root)
    {
      assert Follows(chain, i, root) && chain[..n][..i] == chain[..i];
    }
  }

  lemma ChainExtended(chain: seq<Envelope>, e: Envelope, root: Oid)
    requires ChainOf(chain, root)
    requires e.oid.kind == Annotation && e.target == Some(root) && e.previous == HeadOf(chain)
    ensures ChainOf(chain + [e], root)
  {
    forall i | 0 <= i < |chain + [e]|
      ensures Follows(chain + [e], i, root)
    {
      if i < |chain| {
        assert Follows(chain, i, root) && (chain + [e])[..i] == chain[..i];
      } else {
        assert (chain + [e])[..i] == chain;
      }
    }
  }

  function ChainOids(chain: seq<Envelope>): (oids: seq<Oid>)
    ensures |oids| == |chain| && forall i :: 0 <= i < |chain| ==> oids[i] == chain[i].oid
  {
    seq(|chain|, i requires 0 <= i < |chain| => chain[i].oid)
  }

  /** chain, oldest first, is what walking back from head through previous ids collects. */
  ghost predicate StoredChain(store: Store, head: Option<Oid>, chain: seq<Envelope>)
    decreases |chain|
  {
    if chain == [] then head.None?
    else
      var last := chain[|chain| - 1];
      && head.Some? && head.value in store && last == store[head.value]
      && StoredChain(store, last.previous, chain[..|chain| - 1])
  }

  function HeadOf(chain: seq<Envelope>): Option<Oid> {
    if chain == [] then None else Some(chain[|chain| - 1].oid)
  }

  lemma {:induction false} StoredChainUnique(store: Store, head: Option<Oid>, a: seq<Envelope>, b: seq<Envelope>)
    requires StoredChain(store, head, a) && StoredChain(store, head, b)
    ensures a == b
    decreases |a|
  {
    if a != [] && b != [] {
      var m, n := |a| - 1, |b| - 1;
      StoredChainUnique(store, a[m].previous, a[..m], b[..n]);
      assert a == a[..m] + [a[m]] && b == b[..n] + [b[n]];
    }
  }

  /** Walking a stored chain back from its newest entry inverts the reader's oldest-first
      check. */
  lemma {:induction false} ChainIsStored(store: Store, root: Oid, chain: seq<Envelope>)
    requires ChainOf(chain, root)
    requires forall e :: e in chain ==> e.oid in store && store[e.oid] == e
    ensures StoredChain(store, HeadOf(chain), chain)
    decreases |chain|
  {
    if chain != [] {
      var n := |chain| - 1;
      var last, front := chain[n], chain[..n];
      assert last in chain && Follows(chain, n, root);
      ChainPrefix(chain, n, root);
      ChainIsStored(store, root, front);
    }
  }

  // ----- reading -----

  ghost predicate ReadableObjects(doc: Document) {
    && |doc.objects| <= MAX_V4_OBJECTS
    && (forall o :: o in doc.objects ==> o.kind in {Blob, Event, Run} && doc.objects[o].oid == o)
    && doc.root.kind == Run && doc.root in doc.objects
    && IsClosure(doc.objects, doc.root, doc.objects)
  }

  ghost predicate ReadableChain(doc: Document, chain: seq<Envelope>) {
    && |chain| == |doc.annotations| <= MAX_V4_ANNOTATIONS
    && (forall i :: 0 <= i < |chain| ==> doc.annotations[i] == (chain[i].oid, chain[i]))
    && ChainOf(chain, doc.root)
  }

  predicate ReadableSignatures(signatures: seq<Block>) {
    |signatures| <= MAX_V4_SIGNATURES && forall b :: b in signatures ==> b.scheme == SCHEME
  }

  function Newest(chain: seq<Envelope>): Option<Envelope> {
    if chain == [] then None else Some(chain[|chain| - 1])
  }

  /** The newest annotation links only to what the artifact carries. */
  predicate NewestLinked(objects: Store, chain: seq<Envelope>) {
    chain != [] ==>
      forall l :: l in chain[|chain| - 1].links ==> l in objects || l in ChainOids(chain)
  }

  /** load_run takes the run with its newest annotation. */
  predicate Loadable(root: Oid, objects: Store, chain: seq<Envelope>) {
    NewestLinked(objects, chain) && LOADS(root, objects, Newest(chain))
  }

  /** The file's annotations, oldest first. */
  function Annotations(doc: Document): (chain: seq<Envelope>)
    ensures |chain| == |doc.annotations|
  {
    seq(|doc.annotations|, i requires 0 <= i < |doc.annotations| => doc.annotations[i].1)
  }

  ghost predicate Readable(doc: Document) {
    && ReadableObjects(doc) && ReadableChain(doc, Annotations(doc))
    && ReadableSignatures(doc.signatures) && Loadable(doc.root, doc.objects, Annotations(doc))
  }

  /** A run without annotations loads as it is; one with them, with the newest, each link of which is
      an object of the file or one of its annotations. */
  lemma LoadableIs(doc: Document)
    ensures Loadable(doc.root, doc.objects, Annotations(doc)) <==>
            if doc.annotations == [] then LOADS(doc.root, doc.objects, None)
            else
              var newest := doc.annotations[|doc.annotations| - 1].1;
              && LOADS(doc.root, doc.objects, Some(newest))
              && forall l :: l in newest.links ==>
                   l in doc.objects || exists i :: 0 <= i < |doc.annotations| && doc.annotations[i].1.oid == l
  {
    var chain := Annotations(doc);
    forall l
      ensures l in ChainOids(chain) <==> exists i :: 0 <= i < |doc.annotations| && doc.annotations[i].1.oid == l
    {
      if i :| 0 <= i < |doc.annotations| && doc.annotations[i].1.oid == l {
        assert ChainOids(chain)[i] == l;
      }
      if l in ChainOids(chain) {
        var i :| 0 <= i < |chain| && ChainOids(chain)[i] == l;
        assert doc.annotations[i].1.oid == l;
      }
    }
  }

  lemma ReadableIffRead(doc: Document, chain: seq<Envelope>)
    requires ReadableChain(doc, chain)
    ensures chain == Annotations(doc)
  {
  }

  /** What the reader accepts: the objects are precisely the root's closure, every id is the
      one its bytes derive, the annotations form one chain on the root, oldest first, at most
      16 blocks sign it, and the run loads with its newest annotation. */
  method ReadV4(doc: Document) returns (r: Result<Origin, RepoError>)
    ensures r.Ok? <==> Readable(doc)
    ensures r.Ok? ==> r.value == Origin(doc.root, doc.objects, Annotations(doc))
  {
    if !ReadableSignatures(doc.signatures) {
      return Err(BadSignatures);
    }
    var objects := ReadObjects(doc);
    if objects.Some? {
      return Err(objects.value);
    }
    var chain := ReadChain(doc);
    if chain.Err? {
      return Err(chain.error);
    }
    ReadableIffRead(doc, chain.value);
    var newest := LoadAnnotation(doc.objects, chain.value);
    if newest.Err? {
      return Err(newest.error);
    }
    if !LOADS(doc.root, doc.objects, newest.value) {
      return Err(NotLoadable);
    }
    r := Ok(Origin(doc.root, doc.objects, chain.value));
  }

  /** load_run_annotation: only the newest annotation is read back, with its links. */
  method LoadAnnotation(objects: Store, chain: seq<Envelope>) returns (r: Result<Option<Envelope>, RepoError>)
    ensures r.Ok? <==> NewestLinked(objects, chain)
    ensures r.Ok? ==> r.value == Newest(chain)
  {
    if chain == [] {
      return Ok(None);
    }
    var newest := chain[|chain| - 1];
    for i := 0 to |newest.links|
      invariant forall j :: 0 <= j < i ==> newest.links[j] in objects || newest.links[j] in ChainOids(chain)
    {
      if newest.links[i] !in objects && newest.links[i] !in ChainOids(chain) {
        assert newest.links[i] in newest.links;
        return Err(Missing(newest.links[i]));
      }
    }
    return Ok(Some(newest));
  }

  method ReadObjects(doc: Document) returns (refusal: Option<RepoError>)
    ensures refusal.None? <==> ReadableObjects(doc)
  {
    if |doc.objects| > MAX_V4_OBJECTS {
      return Some(TooLarge);
    }
    if o :| o in doc.objects && o.kind !in {Blob, Event, Run} {
      return Some(NotBundled);
    }
    if o :| o in doc.objects && doc.objects[o].oid != o {
      return Some(OidMismatch);
    }
    if doc.root.kind != Run || doc.root !in doc.objects {
      return Some(BadRoot);
    }
    var closure := Closure(doc.objects, doc.root);
    if closure.Err? {
      return Some(Missing(closure.error.oid));
    }
    SameSize(closure.value, doc.objects, doc.root);
    refusal := if |closure.value| != |doc.objects| then Some(NotReached) else None;
  }

  method ReadChain(doc: Document) returns (r: Result<seq<Envelope>, RepoError>)
    ensures r.Ok? <==> ReadableChain(doc, Annotations(doc))
    ensures r.Ok? ==> r.value == Annotations(doc)
  {
    if |doc.annotations| > MAX_V4_ANNOTATIONS {
      return Err(TooLarge);
    }
    var chain: seq<Envelope> := [];
    for i := 0 to |doc.annotations|
      invariant |chain| == i
      invariant forall j :: 0 <= j < i ==> doc.annotations[j] == (chain[j].oid, chain[j])
      invariant ChainOf(chain, doc.root)
    {
      var (id, envelope) := doc.annotations[i];
      if envelope.oid != id {
        NoOtherChain(doc, i, chain);
        return Err(OidMismatch);
      }
      if envelope.oid.kind != Annotation || envelope.target != Some(doc.root) || envelope.previous != HeadOf(chain) {
        NoOtherChain(doc, i, chain);
        return Err(BadAnnotation);
      }
      ChainExtended(chain, envelope, doc.root);
      chain := chain + [envelope];
    }
    ReadableIffRead(doc, chain);
    r := Ok(chain);
  }

  /** A closure as large as the map it was taken from is the map. */
  lemma SameSize(closure: Store, objects: Store, root: Oid)
    requires IsClosure(objects, root, closure)
    ensures |closure| == |objects| <==> closure == objects
    ensures IsClosure(objects, root, objects) ==> closure == objects
  {
    assert closure.Keys <= objects.Keys;
    if |closure| == |objects| {
      SubsetSize(closure.Keys, objects.Keys);
      assert |closure.Keys| == |closure| && |objects.Keys| == |objects|;
      assert closure.Keys == objects.Keys;
    }
    if IsClosure(objects, root, objects) {
      ClosureUnique(objects, root, closure, objects);
    }
  }

  lemma NoOtherChain(doc: Document, i: nat, chain: seq<Envelope>)
    requires i < |doc.annotations| && |chain| == i
    requires forall j :: 0 <= j < i ==> doc.annotations[j] == (chain[j].oid, chain[j])
    requires var (id, envelope) := doc.annotations[i];
             envelope.oid != id || envelope.oid.kind != Annotation || envelope.target != Some(doc.root) ||
             envelope.previous != HeadOf(chain)
    ensures !ReadableChain(doc, Annotations(doc))
  {
    var other := Annotations(doc);
    assert forall j :: 0 <= j < i ==> other[j] == chain[j];
    assert other[..i] == chain;
    assert ReadableChain(doc, other) ==>
      doc.annotations[i] == (other[i].oid, other[i]) && Follows(other, i, doc.root);
  }
}
