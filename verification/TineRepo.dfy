// opentine/_artifact_v4_repo.py: the repository as install_v4 and export_v4 change
// and read it.
module TineRepo {
  import opened Basics
  import opened Outcomes
  import opened ObjectGraph
  import opened BundleRepo
  import opened Repository
  import opened Sidecars

  datatype Summary = Summary(root: Oid, adoption: Adoption, objects: nat, written: nat, signatures: nat)

  type Refs = map<RefName, Oid>

  type Kept = map<Oid, seq<Entry>>

  /** A repository: its objects, its refs, and the signatures kept beside its runs. */
  datatype State = State(store: Store, refs: Refs, sidecars: Kept)

  /** Whether an artifact's canonical JSON is within the limits on the size and shape of one. */
  const FITS: Document -> bool

  function KindText(kind: Kind): string {
    match kind
    case Blob => "blob"
    case Event => "event"
    case Run => "run"
    case Annotation => "annotation"
    case Attestation => "attestation"
  }

  function OidText(o: Oid): string {
    KindText(o.kind) + ":sha256:" + o.digest
  }

  lemma OidTextIs(digest: string)
    ensures OidText(Oid(Blob, digest)) == "blob:sha256:" + digest
    ensures OidText(Oid(Event, digest)) == "event:sha256:" + digest
    ensures OidText(Oid(Run, digest)) == "run:sha256:" + digest
    ensures OidText(Oid(Annotation, digest)) == "annotation:sha256:" + digest
    ensures OidText(Oid(Attestation, digest)) == "attestation:sha256:" + digest
  {
  }

  lemma KindTextApart(a: Kind, b: Kind)
    ensures a != b ==> KindText(a)[..2] != KindText(b)[..2]
  {
    assert a != b ==> KindText(a)[..2][0] != KindText(b)[..2][0] || KindText(a)[..2][1] != KindText(b)[..2][1];
  }

  /** An id can be told from its text. */
  lemma OidTextInjective(a: Oid, b: Oid)
    requires OidText(a) == OidText(b)
    ensures a == b
  {
    KindTextApart(a.kind, b.kind);
    assert KindText(a.kind)[..2] == OidText(a)[..2] == OidText(b)[..2] == KindText(b.kind)[..2];
    var n := |KindText(a.kind) + ":sha256:"|;
    assert a.digest == OidText(a)[n..] && b.digest == OidText(b)[n..];
  }

  /** The annotation head a signature names. */
  function HeadText(head: Option<Oid>): Option<string> {
    if head.Some? then Some(OidText(head.value)) else None
  }

  function KeptFor(kept: Kept, root: Oid): seq<Entry> {
    if root in kept then kept[root] else []
  }

  /** The sidecar of the run after the file's blocks, which sign it with the file's newest
      annotation, are added; or nothing when it would be too large. */
  function Signed(kept: Kept, doc: Document): Option<seq<Entry>> {
    Merge(OidText(doc.root), KeptFor(kept, doc.root),
          EntriesFor(HeadText(HeadOf(Annotations(doc))), doc.signatures))
  }

  predicate SchemesFit(entries: seq<Entry>) {
    forall e :: e in entries ==> e.block.scheme == SCHEME
  }

  ghost predicate SidecarsFit(sidecars: Kept) {
    forall root :: root in sidecars ==> SchemesFit(sidecars[root])
  }

  lemma SignedFits(kept: Kept, doc: Document)
    requires SchemesFit(KeptFor(kept, doc.root)) && ReadableSignatures(doc.signatures) && Signed(kept, doc).Some?
    ensures SchemesFit(Signed(kept, doc).value) && |KeptFor(kept, doc.root)| <= |Signed(kept, doc).value|
  {
    HeldFirst(KeptFor(kept, doc.root), EntriesFor(HeadText(HeadOf(Annotations(doc))), doc.signatures));
  }

  lemma {:induction false} BlocksFit(entries: seq<Entry>, head: Option<string>)
    requires SchemesFit(entries)
    ensures forall b :: b in BlocksAt(entries, head) ==> b.scheme == SCHEME
  {
    if entries != [] {
      assert entries[|entries| - 1] in entries;
      BlocksFit(entries[..|entries| - 1], head);
    }
  }

  /** validate_ref_target: what a ref of this name may point at. */
  predicate RefFits(store: Store, name: RefName, oid: Oid) {
    && oid in store
    && (RequiredKind(name.namespace).Some? ==> oid.kind == RequiredKind(name.namespace).value)
    && (name.namespace == "annotations" ==> store[oid].target == Some(Oid(Run, name.path)))
  }

  /** heads, experiments and promotions name runs, annotations and coord name annotations, and an
      annotation head targets the run its ref is named after. */
  lemma RefFitsIs(store: Store, space: string, path: string, oid: Oid)
    ensures RefFits(store, RefName(space, path), oid) <==>
            && oid in store
            && (space in {"heads", "experiments", "promotions"} ==> oid.kind == Run)
            && (space in {"annotations", "coord"} ==> oid.kind == Annotation)
            && (space == "annotations" ==> store[oid].target == Some(Oid(Run, path)))
  {
  }

  ghost predicate RefsFit(store: Store, refs: Refs) {
    forall name :: name in refs ==> RefFits(store, name, refs[name])
  }

  /** What _adopt_chain decides from the ref and the file's chain. */
  function Decide(current: Option<Oid>, chain: seq<Envelope>): Adoption {
    if chain == [] then NoChain
    else if current == HeadOf(chain) then Unchanged
    else if current.Some? && current.value !in ChainOids(chain) then KeptRepository
    else Installed
  }

  ghost predicate ObjectsIn(store: Store, objects: Store) {
    forall o :: o in objects ==> o in store && store[o] == objects[o]
  }

  /** No digest collision between the artifact and the repository. */
  ghost predicate NoCollision(store: Store, doc: Document) {
    Agree(store, doc.objects) && Genuine(store, Annotations(doc))
  }

  class Repo {
    var store: Store
    var refs: Refs
    var sidecars: Kept

    function Now(): State
      reads this
    {
      State(store, refs, sidecars)
    }

    ghost predicate Valid()
      reads this
    {
      Sound(store) && RefsFit(store, refs) && SidecarsFit(sidecars)
    }

    constructor ()
      ensures Valid() && Now() == State(map[], map[], map[])
    {
      store, refs, sidecars := map[], map[], map[];
    }

    method Install(e: Envelope) returns (r: Result<bool, RepoError>)
      requires Valid()
      modifies this`store
      ensures r == InstallOutcome(old(store), e) && store == AfterInstall(old(store), e)
      ensures Valid()
    {
      InstallKeepsSound(store, e);
      if e.oid in store {
        return Ok(false);
      }
      for i := 0 to |e.links|
        invariant FirstMissing(e.links, store) == FirstMissing(e.links[i..], store)
      {
        if e.links[i] !in store {
          return Err(Missing(e.links[i]));
        }
      }
      if e.oid.kind == Annotation && !PreviousFits(store, e) {
        return Err(BadChain);
      }
      if !Sane(e) {
        return Err(BadObject(e.oid));
      }
      store := store[e.oid := e];
      r := Ok(true);
    }

    /** Installs a sequence, stopping at the first refusal; the repository is valid after
        every envelope. */
    method InstallEach(es: seq<Envelope>) returns (r: Result<nat, RepoError>)
      requires Valid()
      modifies this`store
      ensures Valid() && Extends(old(store), store)
      ensures var all := InstallAll(old(store), es);
              if all.Ok? then r == Ok(all.value.1) && store == all.value.0 else r == Err(all.error)
    {
      var written := 0;
      for i := 0 to |es|
        invariant Valid() && Extends(old(store), store)
        invariant InstallAll(old(store), es[..i]) == Ok((store, written))
      {
        InstallPrefix(old(store), es, i);
        InstallKeepsSound(store, es[i]);
        var wrote :- Install(es[i]);
        written := if wrote then written + 1 else written;
      }
      assert es[..|es|] == es;
      r := Ok(written);
    }

    /** A compare-and-swap: nothing moves unless the ref still reads as expected. */
    method UpdateRef(name: RefName, oid: Oid, expected: Option<Oid>) returns (r: Result<(), RepoError>)
      requires Valid()
      modifies this`refs
      ensures r.Ok? <==> RefFits(store, name, oid) && Lookup(old(refs), name) == expected
      ensures refs == if r.Ok? then old(refs)[name := oid] else old(refs)
      ensures Valid()
    {
      if !RefFits(store, name, oid) {
        return Err(BadRoot);
      }
      if Lookup(refs, name) != expected {
        return Err(CasMismatch);
      }
      refs := refs[name := oid];
      r := Ok(());
    }

    /** The chain is taken when it equals or extends the repository's; the ref moves to its
        newest annotation only then. */
    method AdoptChain(root: Oid, chain: seq<Envelope>) returns (r: Result<Adoption, RepoError>)
      requires Valid() && root.kind == Run && ChainOf(chain, root) && Genuine(store, chain)
      modifies this`store, this`refs
      ensures Valid() && Extends(old(store), store)
      ensures Adopted(old(store), old(refs), root, chain, store, refs, r)
      ensures r.Ok? ==> ChainDecided(old(store), old(refs), root, chain, store, refs, r.value)
    {
      hide Genuine, ChainInstalledSoFar, Supported, ChainOf, Sound, RefFits, ChainDecided;
      if chain == [] {
        r := Ok(NoChain);
        AdoptedDecides(old(store), old(refs), root, chain, store, refs, r);
        return;
      }
      var name := AnnotationRef(root);
      var current := Lookup(refs, name);
      var oids := ChainOids(chain);
      if current == Some(oids[|oids| - 1]) {
        r := Ok(Unchanged);
        AdoptedDecides(old(store), old(refs), root, chain, store, refs, r);
        return;
      }
      if current.Some? && current.value !in oids {
        r := Ok(KeptRepository);
        AdoptedDecides(old(store), old(refs), root, chain, store, refs, r);
        return;
      }
      ChainInstalls(store, root, chain, |chain|);
      assert chain[..|chain|] == chain;
      var installed := InstallEach(chain);
      if installed.Err? {
        return Err(installed.error);
      }
      HeadFitsRef(old(store), root, chain, store);
      var moved := UpdateRef(name, oids[|oids| - 1], current);
      assert moved.Ok?;
      r := Ok(Installed);
      AdoptedDecides(old(store), old(refs), root, chain, store, refs, r);
    }

    /** The file's objects, links first: all of them, or up to one whose content fails. */
    method InstallObjects(root: Oid, objects: Store, ghost rank: Oid -> nat) returns (r: Result<nat, RepoError>)
      requires Valid() && Ranked(objects, rank) && Agree(store, objects)
      requires root in objects && Addressed(objects) && IsClosure(objects, root, objects)
      requires forall o :: o in objects ==> o.kind != Annotation
      modifies this`store
      ensures Valid() && Extends(old(store), store)
      ensures r.Ok? <==> ObjectsPass(old(store), objects)
      ensures r.Ok? ==> store == old(store) + objects && ObjectsIn(store, objects)
      ensures r.Ok? ==> r.value == |objects.Keys - old(store).Keys|
    {
      ClosureLinked(objects, root);
      var order := PostOrder(objects, root, rank);
      OrderInstalls(store, objects, root, order);
      r := InstallEach(order);
    }

    /** add_signatures for a run. */
    method Sign(doc: Document) returns (r: Result<nat, RepoError>)
      requires Valid() && ReadableSignatures(doc.signatures)
      modifies this`sidecars
      ensures Valid()
      ensures r.Ok? <==> Signed(old(sidecars), doc).Some?
      ensures r.Ok? ==> sidecars == old(sidecars)[doc.root := Signed(old(sidecars), doc).value]
      ensures r.Ok? ==> r.value == |Signed(old(sidecars), doc).value| - |KeptFor(old(sidecars), doc.root)|
      ensures r.Err? ==> sidecars == old(sidecars)
    {
      var held := KeptFor(sidecars, doc.root);
      var head := HeadText(HeadOf(Annotations(doc)));
      var all := AddSignatures(OidText(doc.root), held, EntriesFor(head, doc.signatures));
      if all.None? {
        return Err(SidecarFull);
      }
      SignedFits(sidecars, doc);
      sidecars := sidecars[doc.root := all.value];
      return Ok(|all.value| - |held|);
    }

    /** Import: the verified file's objects, then its chain, its signatures, and the caller's
        ref. */
    method InstallV4(doc: Document, ref: Option<RefName>, ghost rank: Oid -> nat)
      returns (r: Result<Summary, RepoError>)
      requires Valid() && Ranked(doc.objects, rank) && NoCollision(store, doc)
      modifies this
      ensures Valid() && Extends(old(store), store)
      ensures !Readable(doc) ==> r.Err? && Now() == old(Now())
      ensures Readable(doc) ==> Imported(old(Now()), doc, ref, Now(), r)
      ensures r.Ok? ==> HeadDecided(old(Now()), doc, ref, Now(), r.value.adoption)
    {
      hide Sound, RefsFit, SidecarsFit, ImportedVia, Readable, Genuine, Ranked, IsClosure, Addressed, ObjectsPass;
      var read := ReadV4(doc);
      if read.Err? {
        return Err(read.error);
      }
      var Origin(root, objects, chain) := read.value;
      ReadableParts(doc);
      var written := InstallObjects(root, objects, rank);
      if written.Err? {
        return Err(written.error);
      }
      GenuineAfter(old(store), objects, root, chain);
      r := InstallRest(State(old(store), refs, sidecars), doc, ref, written.value);
      if r.Ok? {
        ImportDecides(old(Now()), doc, ref, Now(), r);
      }
    }

    /** The caller's ref, if there is one, at the run. */
    method MoveRef(ref: Option<RefName>, root: Oid) returns (r: Result<(), RepoError>)
      requires Valid()
      modifies this`refs
      ensures Valid()
      ensures r.Err? <==> ref.Some? && !RefFits(store, ref.value, root)
      ensures refs == if r.Ok? && ref.Some? then old(refs)[ref.value := root] else old(refs)
    {
      if ref.None? {
        return Ok(());
      }
      r := UpdateRef(ref.value, root, Lookup(refs, ref.value));
    }

    /** The signatures, and then the caller's ref. */
    method SignAndMove(doc: Document, ref: Option<RefName>) returns (r: Result<nat, RepoError>)
      requires Valid() && ReadableSignatures(doc.signatures)
      modifies this`sidecars, this`refs
      ensures Valid()
      ensures SignedAndMoved(State(store, old(refs), old(sidecars)), doc, ref, Now(), r)
    {
      hide Sound, RefsFit, SidecarsFit, Signed, KeptFor, RefFits, ReadableSignatures;
      r := Sign(doc);
      if r.Err? {
        return;
      }
      var moved := MoveRef(ref, doc.root);
      if moved.Err? {
        return Err(moved.error);
      }
    }

    /** What follows the objects: the chain, the signatures, the caller's ref. */
    method InstallRest(ghost before: State, doc: Document, ref: Option<RefName>, written: nat)
      returns (r: Result<Summary, RepoError>)
      requires Valid() && Readable(doc) && Genuine(store, Annotations(doc)) && ObjectsPass(before.store, doc.objects)
      requires Now() == before.(store := before.store + doc.objects) && ObjectsIn(store, doc.objects)
      requires written == |doc.objects.Keys - before.store.Keys|
      modifies this
      ensures Valid() && Extends(old(store), store)
      ensures Imported(before, doc, ref, Now(), r)
    {
      hide Sound, RefsFit, Genuine, ObjectsPass, Readable, Adopted, Signed, KeptFor, RefFits, SidecarsFit, Imported;
      hide ImportedVia, ObjectsIn, SummaryOf, Extends, ChainOf, ReadableSignatures, Annotations, SignedAndMoved;
      assert ChainOf(Annotations(doc), doc.root) && doc.root.kind == Run && ReadableSignatures(doc.signatures) by {
        ReadableParts(doc);
      }
      ghost var start := store;
      var adopted := AdoptChain(doc.root, Annotations(doc));
      ghost var refsMid := refs;
      if adopted.Err? {
        r := Err(adopted.error);
        ImportedParts(before, doc, ref, Now(), r, start, refsMid, adopted, Err(SidecarFull));
        return;
      }
      var signed := SignAndMove(doc, ref);
      r := if signed.Err? then Err(signed.error)
      else Ok(Summary(doc.root, adopted.value, |doc.objects|, written, signed.value));
      ImportedParts(before, doc, ref, Now(), r, start, refsMid, adopted, signed);
    }

    /** Export: the stored closure of a run, its annotation chain and the signatures kept for
        the newest annotation, refused if too large or if the reader would refuse it. `legacy`
        is the head found when no annotation ref is set. */
    method ExportV4(root: Oid, legacy: Option<Oid>) returns (r: Result<Document, RepoError>)
      requires Valid()
      requires legacy.Some? ==> RefFits(store, AnnotationRef(root), legacy.value)
      ensures r.Ok? ==> Exported(Now(), legacy, root, r.value)
      ensures r.Ok? <==> exists doc :: Exported(Now(), legacy, root, doc)
    {
      if root.kind != Run {
        return Err(NotARun);
      }
      var head := Lookup(refs, AnnotationRef(root));
      var objects := StoredClosure(store, root);
      if objects.Err? {
        return Err(objects.error);
      }
      var chain := ChainFrom(store, if head.Some? then head else legacy);
      if chain.Err? {
        return Err(chain.error);
      }
      var signatures := BlocksAt(KeptFor(sidecars, root), HeadText(HeadOf(chain.value)));
      var doc := Document(root, objects.value, WithIds(chain.value), signatures);
      ExportedUnique(Now(), legacy, root, doc, chain.value);
      if !FITS(doc) {
        return Err(TooLarge);
      }
      var read := ReadV4(doc);
      if read.Err? {
        return Err(read.error);
      }
      r := Ok(doc);
    }
  }

  function WithIds(chain: seq<Envelope>): (entries: seq<(Oid, Envelope)>)
    ensures |entries| == |chain|
  {
    seq(|chain|, i requires 0 <= i < |chain| => (chain[i].oid, chain[i]))
  }

  /** The head an export walks back from: the annotation ref, or what stands in for it. */
  function HeadFor(s: State, root: Oid, legacy: Option<Oid>): Option<Oid> {
    var head := Lookup(s.refs, AnnotationRef(root));
    if head.Some? then head else legacy
  }

  /** doc is the artifact of a stored run: exactly its closure, its annotation chain and the
      signatures kept for the newest annotation, in a form that fits and the reader accepts. */
  ghost predicate Exported(s: State, legacy: Option<Oid>, root: Oid, doc: Document) {
    && doc.root == root
    && IsClosure(s.store, root, doc.objects)
    && StoredChain(s.store, HeadFor(s, root, legacy), Annotations(doc))
    && doc.signatures == BlocksAt(KeptFor(s.sidecars, root), HeadText(HeadOf(Annotations(doc))))
    && FITS(doc) && Readable(doc)
  }

  lemma ExportedUnique(s: State, legacy: Option<Oid>, root: Oid, doc: Document, chain: seq<Envelope>)
    requires doc.root == root && IsClosure(s.store, root, doc.objects) && doc.annotations == WithIds(chain)
    requires StoredChain(s.store, HeadFor(s, root, legacy), chain)
    requires doc.signatures == BlocksAt(KeptFor(s.sidecars, root), HeadText(HeadOf(chain)))
    ensures Annotations(doc) == chain
    ensures forall other :: Exported(s, legacy, root, other) ==> other == doc
    ensures Exported(s, legacy, root, doc) <==> FITS(doc) && Readable(doc)
  {
    assert Annotations(doc) == chain;
    forall other | Exported(s, legacy, root, other)
      ensures other == doc
    {
      ClosureUnique(s.store, root, other.objects, doc.objects);
      StoredChainUnique(s.store, HeadFor(s, root, legacy), Annotations(other), chain);
      assert other.annotations == WithIds(Annotations(other));
    }
  }

  /** Everything a stored run reaches, unless there are too many objects. */
  method StoredClosure(store: Store, root: Oid) returns (r: Result<Store, RepoError>)
    requires LinkClosed(store)
    ensures r.Ok? ==> IsClosure(store, root, r.value)
    ensures r.Err? ==> root !in store || TooBig(store, root)
  {
    if root !in store {
      return Err(Missing(root));
    }
    ReachesSelf(store, root);
    var seen := map[root := store[root]];
    var stack := [root];
    while stack != []
      invariant Found(store, root, seen) && Expanded(seen, stack, {})
      decreases store.Keys - seen.Keys, |stack|
    {
      var top := stack[|stack| - 1];
      ghost var before, height := seen.Keys, |stack|;
      assert stack == stack[..|stack| - 1] + [top];
      stack := stack[..|stack| - 1];
      var links := seen[top].links;
      for i := 0 to |links|
        invariant Found(store, root, seen) && Expanded(seen, stack, {top})
        invariant top in seen && links == seen[top].links && before <= seen.Keys
        invariant seen.Keys == before ==> |stack| < height
        invariant forall j :: 0 <= j < i ==> links[j] in seen
      {
        var link := links[i];
        if link in seen {
          continue;
        }
        if |seen| >= MAX_V4_OBJECTS {
          TooMany(store, root, seen, top, link);
          return Err(TooLarge);
        }
        FoundMore(store, root, seen, stack, top, link);
        seen := seen[link := store[link]];
        stack := stack + [link];
        assert link in seen.Keys && link !in before;
      }
      Shrinks(store, before, seen.Keys);
    }
    ReachesWithin(store, seen.Keys, root);
    r := Ok(seen);
  }

  /** The annotations from the head back, oldest first, unless there are too many. */
  method ChainFrom(store: Store, start: Option<Oid>) returns (r: Result<seq<Envelope>, RepoError>)
    requires ChainSound(store) && (start.Some? ==> start.value in store && start.value.kind == Annotation)
    ensures r.Ok? ==> StoredChain(store, start, r.value) && |r.value| <= MAX_V4_ANNOTATIONS
    ensures r.Err? ==> forall c :: StoredChain(store, start, c) ==> |c| > MAX_V4_ANNOTATIONS
  {
    var chain: seq<Envelope> := [];
    var head := start;
    EmptyTail(store, start);
    while head.Some?
      invariant |chain| <= MAX_V4_ANNOTATIONS && Tail(store, start, head, chain)
      invariant head.Some? ==> head.value in store && head.value.kind == Annotation
      decreases MAX_V4_ANNOTATIONS - |chain|, head.Some?
    {
      LongerTail(store, start, head.value, chain);
      if |chain| >= MAX_V4_ANNOTATIONS {
        return Err(TooLarge);
      }
      var envelope := store[head.value];
      chain := [envelope] + chain;
      head := envelope.previous;
    }
    assert StoredChain(store, None, []);
    assert [] + chain == chain;
    r := Ok(chain);
  }

  /** What has been walked is the end of every chain stored from start, and head is where
      the rest of it hangs. */
  ghost predicate Tail(store: Store, start: Option<Oid>, head: Option<Oid>, chain: seq<Envelope>) {
    && (forall c :: StoredChain(store, head, c) ==> StoredChain(store, start, c + chain))
    && (forall c :: StoredChain(store, start, c) ==>
          |c| >= |chain| && StoredChain(store, head, c[..|c| - |chain|]))
  }

  lemma EmptyTail(store: Store, start: Option<Oid>)
    ensures Tail(store, start, start, [])
  {
    assert forall c: seq<Envelope> :: c + [] == c && c[..|c|] == c;
  }

  lemma HeadFitsRef(before: Store, root: Oid, chain: seq<Envelope>, after: Store)
    requires root.kind == Run && chain != [] && ChainOf(chain, root) && ChainInstalledSoFar(before, chain, after)
    ensures HeadOf(chain) == Some(ChainOids(chain)[|chain| - 1])
    ensures RefFits(after, AnnotationRef(root), ChainOids(chain)[|chain| - 1])
  {
    assert chain[|chain| - 1] in chain && Follows(chain, |chain| - 1, root);
  }

  /** How the repository stands after adopting a chain: it fails only when an annotation it
      must install links to something missing, and then no ref has moved. */
  ghost predicate Adopted(before: Store, refsBefore: Refs, root: Oid, chain: seq<Envelope>, after: Store,
                          refsAfter: Refs, r: Result<Adoption, RepoError>)
  {
    var decision := Decide(Lookup(refsBefore, AnnotationRef(root)), chain);
    if decision != Installed then r == Ok(decision) && after == before && refsAfter == refsBefore
    else if !Supported(before, chain) then r.Err? && refsAfter == refsBefore
    else
      && r == Ok(Installed) && ChainInstalledSoFar(before, chain, after)
      && chain != [] && refsAfter == refsBefore[AnnotationRef(root) := HeadOf(chain).value]
  }

  // ----- what becomes of an annotation head -----

  /** older is newer or on its chain of previous ids. */
  ghost predicate OnChain(store: Store, older: Oid, newer: Oid) {
    exists p :: ChainWalk(store, p, older, newer)
  }

  ghost predicate ChainWalk(store: Store, p: seq<Oid>, older: Oid, newer: Oid) {
    && |p| > 0 && p[0] == older && p[|p| - 1] == newer
    && forall i :: 0 < i < |p| ==> p[i] in store && store[p[i]].previous == Some(p[i - 1])
  }

  /** A file's annotations by their ids. */
  function ChainStore(chain: seq<Envelope>): Store {
    if chain == [] then map[] else ChainStore(chain[..|chain| - 1])[chain[|chain| - 1].oid := chain[|chain| - 1]]
  }

  lemma {:induction false} ChainStoreHolds(chain: seq<Envelope>, o: Oid)
    ensures o in ChainStore(chain) <==> exists e :: e in chain && e.oid == o
    ensures o in ChainStore(chain) ==> ChainStore(chain)[o] in chain && ChainStore(chain)[o].oid == o
  {
    if chain != [] {
      ChainStoreHolds(chain[..|chain| - 1], o);
      assert chain == chain[..|chain| - 1] + [chain[|chain| - 1]];
    }
  }

  /** The ids on a file's chain are those one walks back to from its newest annotation. */
  lemma OnFileChain(store: Store, root: Oid, chain: seq<Envelope>, o: Oid)
    requires chain != [] && ChainOf(chain, root) && Genuine(store, chain)
    ensures OnChain(ChainStore(chain), o, chain[|chain| - 1].oid) <==> o in ChainOids(chain)
  {
    var all, oids := ChainStore(chain), ChainOids(chain);
    if o in oids {
      var k :| 0 <= k < |oids| && oids[k] == o;
      WalkFrom(store, root, chain, k);
    }
    if OnChain(all, o, chain[|chain| - 1].oid) {
      var p :| ChainWalk(all, p, o, chain[|chain| - 1].oid);
      assert oids[|oids| - 1] in oids;
      WalkStays(root, chain, p, 0);
    }
  }

  lemma ChainStoreAt(store: Store, root: Oid, chain: seq<Envelope>, j: nat)
    requires 0 < j < |chain| && ChainOf(chain, root) && Genuine(store, chain)
    ensures chain[j].oid in ChainStore(chain)
    ensures ChainStore(chain)[chain[j].oid].previous == Some(chain[j - 1].oid)
  {
    hide ChainStore, ChainOf, Genuine;
    assert chain[j] in chain;
    ChainStoreHolds(chain, chain[j].oid);
    OneEach(store, chain, ChainStore(chain)[chain[j].oid], chain[j]);
    FollowsAt(root, chain, j);
  }

  lemma OneEach(store: Store, chain: seq<Envelope>, e: Envelope, f: Envelope)
    requires Genuine(store, chain) && e in chain && f in chain && e.oid == f.oid
    ensures e == f
  {
  }

  lemma FollowsAt(root: Oid, chain: seq<Envelope>, j: nat)
    requires 0 < j < |chain| && ChainOf(chain, root)
    ensures chain[j].previous == Some(chain[j - 1].oid)
  {
    assert Follows(chain, j, root);
  }

  lemma WalkFrom(store: Store, root: Oid, chain: seq<Envelope>, k: nat)
    requires k < |chain| && ChainOf(chain, root) && Genuine(store, chain)
    ensures OnChain(ChainStore(chain), chain[k].oid, chain[|chain| - 1].oid)
  {
    hide ChainStore, ChainOf, Genuine;
    var p := ChainOids(chain)[k..];
    forall i | 0 < i < |p|
      ensures p[i] in ChainStore(chain) && ChainStore(chain)[p[i]].previous == Some(p[i - 1])
    {
      ChainStoreAt(store, root, chain, k + i);
    }
    assert ChainWalk(ChainStore(chain), p, chain[k].oid, chain[|chain| - 1].oid);
  }

  lemma {:induction false} WalkStays(root: Oid, chain: seq<Envelope>, p: seq<Oid>, i: nat)
    requires chain != [] && ChainOf(chain, root) && i < |p|
    requires p[|p| - 1] in ChainOids(chain) && ChainWalk(ChainStore(chain), p, p[0], p[|p| - 1])
    ensures p[i] in ChainOids(chain)
    decreases |p| - i
  {
    if i < |p| - 1 {
      WalkStays(root, chain, p, i + 1);
      ChainStoreHolds(chain, p[i + 1]);
      var e := ChainStore(chain)[p[i + 1]];
      var j :| 0 <= j < |chain| && chain[j] == e;
      assert Follows(chain, j, root) && HeadOf(chain[..j]) == Some(p[i]);
      assert j > 0 && p[i] == ChainOids(chain)[j - 1];
    }
  }

  /** A chain whose newest entry is stored is stored whole, and walking back finds it. */
  lemma {:induction false} StoredBack(store: Store, root: Oid, chain: seq<Envelope>)
    requires ChainSound(store) && ChainOf(chain, root) && Genuine(store, chain)
    requires chain != [] ==> chain[|chain| - 1].oid in store
    ensures StoredChain(store, HeadOf(chain), chain)
    decreases |chain|
  {
    if chain != [] {
      var n := |chain| - 1;
      var last, front := chain[n], chain[..n];
      assert last in chain && Follows(chain, n, root);
      assert store[last.oid] == last && PreviousFits(store, last);
      ChainPrefix(chain, n, root);
      assert Genuine(store, front) by {
        assert forall e :: e in front ==> e in chain;
      }
      StoredBack(store, root, front);
    }
  }

  /** How a chain that could be taken was decided: no head, or one on the file's chain, gives way
      to the file's newest annotation, with the whole chain stored; any other head is kept, and
      nothing is written. */
  ghost predicate ChainDecided(before: Store, refsBefore: Refs, root: Oid, chain: seq<Envelope>, after: Store,
                               refsAfter: Refs, adoption: Adoption)
  {
    var name := AnnotationRef(root);
    if chain == [] then adoption == NoChain && after == before && refsAfter == refsBefore
    else
      var newest := chain[|chain| - 1].oid;
      if name in refsBefore && !OnChain(ChainStore(chain), refsBefore[name], newest) then
        adoption == KeptRepository && after == before && refsAfter == refsBefore
      else
        && adoption == (if name in refsBefore && refsBefore[name] == newest then Unchanged else Installed)
        && refsAfter == refsBefore[name := newest] && StoredChain(after, Some(newest), chain)
        && (adoption == Unchanged ==> after == before)
  }

  lemma AdoptedDecides(before: Store, refsBefore: Refs, root: Oid, chain: seq<Envelope>, after: Store,
                       refsAfter: Refs, r: Result<Adoption, RepoError>)
    requires ChainOf(chain, root) && Genuine(before, chain) && RefsFit(before, refsBefore)
    requires Sound(before) && Sound(after) && Adopted(before, refsBefore, root, chain, after, refsAfter, r) && r.Ok?
    ensures ChainDecided(before, refsBefore, root, chain, after, refsAfter, r.value)
  {
    if chain != [] {
      var name, newest := AnnotationRef(root), chain[|chain| - 1].oid;
      assert chain[|chain| - 1] in chain;
      if name in refsBefore {
        OnFileChain(before, root, chain, refsBefore[name]);
      }
      if r.value in {Installed, Unchanged} {
        assert name in refsBefore ==> RefFits(before, name, refsBefore[name]);
        StoredBack(after, root, chain);
      }
    }
  }

  /** What is new among a file's objects passes the checks of its own content. */
  predicate ObjectsPass(store: Store, objects: Store) {
    forall o :: o in objects ==> o in store || Sane(objects[o])
  }

  /** How the repository stands after importing a readable artifact: every object is there,
      the chain is adopted as decided, the signatures are kept, and the caller's ref names the
      run; or it stopped at an object whose content fails. */
  ghost predicate Imported(before: State, doc: Document, ref: Option<RefName>, after: State,
                           r: Result<Summary, RepoError>)
  {
    if ObjectsPass(before.store, doc.objects) then
      exists refsMid, adopted :: ImportedVia(before, doc, ref, after, r, refsMid, adopted)
    else
      r.Err? && after.refs == before.refs && after.sidecars == before.sidecars
  }

  /** The same, with the refs and the decision between adopting the chain and moving the
      caller's ref. */
  ghost predicate ImportedVia(before: State, doc: Document, ref: Option<RefName>, after: State,
                              r: Result<Summary, RepoError>, refsMid: Refs, adopted: Result<Adoption, RepoError>)
  {
    var signed := Signed(before.sidecars, doc);
    && ObjectsIn(after.store, doc.objects)
    && Adopted(before.store + doc.objects, before.refs, doc.root, Annotations(doc), after.store, refsMid, adopted)
    && (r.Err? <==>
          adopted.Err? || signed.None? || (ref.Some? && !RefFits(after.store, ref.value, doc.root)))
    && after.refs == (if r.Ok? && ref.Some? then refsMid[ref.value := doc.root] else refsMid)
    && after.sidecars ==
         (if adopted.Ok? && signed.Some? then before.sidecars[doc.root := signed.value] else before.sidecars)
    && (r.Ok? ==> SummaryOf(before, doc, r.value, adopted.value))
  }

  predicate SummaryOf(before: State, doc: Document, summary: Summary, adoption: Adoption) {
    && summary.root == doc.root && summary.adoption == adoption
    && summary.objects == |doc.objects| && summary.written == |doc.objects.Keys - before.store.Keys|
    && Signed(before.sidecars, doc).Some?
    && summary.signatures == |Signed(before.sidecars, doc).value| - |KeptFor(before.sidecars, doc.root)|
  }

  /** How the repository stands after the signatures are added and then the ref is moved: the
      signatures stay even when the ref cannot be moved. */
  predicate SignedAndMoved(before: State, doc: Document, ref: Option<RefName>, after: State,
                           r: Result<nat, RepoError>)
  {
    var signed := Signed(before.sidecars, doc);
    && (r.Err? <==> signed.None? || (ref.Some? && !RefFits(before.store, ref.value, doc.root)))
    && after.refs == (if r.Ok? && ref.Some? then before.refs[ref.value := doc.root] else before.refs)
    && after.sidecars == (if signed.Some? then before.sidecars[doc.root := signed.value] else before.sidecars)
    && (r.Ok? ==> r.value == |signed.value| - |KeptFor(before.sidecars, doc.root)|)
  }

  lemma ImportedParts(before: State, doc: Document, ref: Option<RefName>, after: State, r: Result<Summary, RepoError>,
                      start: Store, refsMid: Refs, adopted: Result<Adoption, RepoError>,
                      signed: Result<nat, RepoError>)
    requires ObjectsPass(before.store, doc.objects) && ObjectsIn(start, doc.objects) && Extends(start, after.store)
    requires start == before.store + doc.objects
    requires Adopted(start, before.refs, doc.root, Annotations(doc), after.store, refsMid, adopted)
    requires adopted.Ok? ==>
               SignedAndMoved(State(after.store, refsMid, before.sidecars), doc, ref, after, signed)
    requires adopted.Err? ==> after.refs == refsMid && after.sidecars == before.sidecars
    requires r == if adopted.Err? then Err(adopted.error)
                  else if signed.Err? then Err(signed.error)
                  else Ok(Summary(doc.root, adopted.value, |doc.objects|, |doc.objects.Keys - before.store.Keys|,
                                  signed.value))
    ensures Imported(before, doc, ref, after, r)
  {
    hide ObjectsPass, Adopted, Signed, KeptFor, RefFits;
    assert ImportedVia(before, doc, ref, after, r, refsMid, adopted);
  }

  /** Where a successful import leaves the annotation head, next to the caller's ref. */
  ghost predicate HeadDecided(before: State, doc: Document, ref: Option<RefName>, after: State, adoption: Adoption) {
    exists refsMid ::
      && ChainDecided(before.store + doc.objects, before.refs, doc.root, Annotations(doc), after.store, refsMid,
                      adoption)
      && after.refs == if ref.Some? then refsMid[ref.value := doc.root] else refsMid
  }

  lemma ImportDecides(before: State, doc: Document, ref: Option<RefName>, after: State,
                      r: Result<Summary, RepoError>)
    requires Sound(before.store) && RefsFit(before.store, before.refs) && Sound(after.store)
    requires Readable(doc) && NoCollision(before.store, doc) && Imported(before, doc, ref, after, r) && r.Ok?
    ensures HeadDecided(before, doc, ref, after, r.value.adoption)
  {
    hide Sound, RefsFit, Readable, Adopted, ObjectsIn, Signed, RefFits, ChainDecided, Genuine, Agree;
    ReadableParts(doc);
    var refsMid, adopted :| ImportedVia(before, doc, ref, after, r, refsMid, adopted);
    GrownSound(before.store, before.refs, doc);
    GenuineAfter(before.store, doc.objects, doc.root, Annotations(doc));
    AdoptedDecides(before.store + doc.objects, before.refs, doc.root, Annotations(doc), after.store, refsMid, adopted);
  }

  lemma GrownSound(store: Store, refs: Refs, doc: Document)
    requires Sound(store) && RefsFit(store, refs) && Readable(doc) && Agree(store, doc.objects)
    ensures Sound(store + doc.objects) && RefsFit(store + doc.objects, refs)
  {
    hide Sound, Readable, IsClosure, Addressed, LinkClosed;
    ReadableParts(doc);
    ClosureLinked(doc.objects, doc.root);
    StoresJoin(store, doc.objects);
    forall name | name in refs
      ensures RefFits(store + doc.objects, name, refs[name])
    {
      assert RefFits(store, name, refs[name]);
    }
  }

  lemma StoresJoin(store: Store, objects: Store)
    requires Sound(store) && Agree(store, objects) && Addressed(objects) && LinkClosed(objects)
    requires forall o :: o in objects ==> o.kind != Annotation
    ensures Sound(store + objects)
  {
  }

  lemma ClosureLinked(g: Store, root: Oid)
    requires IsClosure(g, root, g)
    ensures LinkClosed(g)
  {
    forall o, l | o in g && l in g[o].links
      ensures l in g
    {
      ReachesLink(g, root, o, l);
    }
  }

  lemma ReadableParts(doc: Document)
    requires Readable(doc)
    ensures doc.root.kind == Run && doc.root in doc.objects && Addressed(doc.objects)
    ensures IsClosure(doc.objects, doc.root, doc.objects) && forall o :: o in doc.objects ==> o.kind != Annotation
    ensures ChainOf(Annotations(doc), doc.root) && ReadableSignatures(doc.signatures)
  {
  }

  lemma OrderInstalls(store: Store, objects: Store, root: Oid, order: seq<Envelope>)
    requires Sound(store) && Agree(store, objects) && IsPostOrder(objects, root, order)
    requires IsClosure(objects, root, objects) && forall o :: o in objects ==> o.kind != Annotation
    ensures InstallAll(store, order).Ok? <==> ObjectsPass(store, objects)
    ensures InstallAll(store, order).Ok? ==>
              InstallAll(store, order) == Ok((store + objects, |objects.Keys - store.Keys|))
    ensures ObjectsIn(store + objects, objects)
  {
    assert order[..|order|] == order && Oids(order) == objects.Keys;
    PostOrderInstalls(store, objects, root, order, |order|);
    OrderPasses(store, objects, root, order);
    if InstallAll(store, order).Ok? {
      GrownWhole(store, objects, InstallAll(store, order).value.0);
    }
  }

  lemma OrderPasses(store: Store, objects: Store, root: Oid, order: seq<Envelope>)
    requires IsPostOrder(objects, root, order) && Oids(order) == objects.Keys
    ensures Passes(store, order) <==> ObjectsPass(store, objects)
  {
    forall e | e in order
      ensures e.oid in objects && objects[e.oid] == e
    {
      var k :| 0 <= k < |order| && order[k] == e;
      NextInOrder(objects, root, order, k);
    }
    forall o | o in objects
      ensures objects[o] in order
    {
      var e :| e in order && e.oid == o;
    }
  }

  lemma GrownWhole(store: Store, objects: Store, s: Store)
    requires Grown(store, objects, objects.Keys, s)
    ensures s == store + objects
  {
  }

  lemma GenuineAfter(store: Store, objects: Store, root: Oid, chain: seq<Envelope>)
    requires Genuine(store, chain) && (forall o :: o in objects ==> o.kind != Annotation) && ChainOf(chain, root)
    ensures Genuine(store + objects, chain)
  {
    forall e | e in chain
      ensures e.oid.kind == Annotation
    {
      var i :| 0 <= i < |chain| && chain[i] == e;
      assert Follows(chain, i, root);
    }
  }

  ghost predicate TooBig(store: Store, root: Oid) {
    forall c: Store :: IsClosure(store, root, c) ==> |c| > MAX_V4_OBJECTS
  }

  lemma TooMany(store: Store, root: Oid, seen: Store, top: Oid, link: Oid)
    requires Found(store, root, seen) && top in seen && link in seen[top].links && link !in seen
    requires |seen| >= MAX_V4_OBJECTS
    ensures TooBig(store, root)
  {
    ReachesLink(store, root, top, link);
    forall c: Store | IsClosure(store, root, c)
      ensures |c| > |seen|
    {
      assert seen.Keys + {link} <= c.Keys;
      var rest := c.Keys - (seen.Keys + {link});
      assert c.Keys == (seen.Keys + {link}) + rest;
      assert |c.Keys| == |seen.Keys + {link}| + |rest|;
      assert |c.Keys| == |c| && |seen.Keys| == |seen|;
    }
  }

  lemma LongerTail(store: Store, start: Option<Oid>, head: Oid, chain: seq<Envelope>)
    requires head in store && Tail(store, start, Some(head), chain)
    ensures Tail(store, start, store[head].previous, [store[head]] + chain)
    ensures forall c :: StoredChain(store, start, c) ==> |c| > |chain|
  {
    var e := store[head];
    forall c | StoredChain(store, e.previous, c)
      ensures StoredChain(store, start, c + ([e] + chain))
    {
      PushEntry(store, head, c);
      assert c + [e] + chain == c + ([e] + chain);
    }
    forall c | StoredChain(store, start, c)
      ensures |c| > |chain| && StoredChain(store, e.previous, c[..|c| - |[e] + chain|])
    {
      PopEntry(store, head, c[..|c| - |chain|]);
      assert c[..|c| - |chain|][..|c| - |chain| - 1] == c[..|c| - |chain| - 1];
    }
  }

  lemma PushEntry(store: Store, head: Oid, c: seq<Envelope>)
    requires head in store && StoredChain(store, store[head].previous, c)
    ensures StoredChain(store, Some(head), c + [store[head]])
  {
    assert (c + [store[head]])[..|c|] == c;
  }

  lemma PopEntry(store: Store, head: Oid, c: seq<Envelope>)
    requires head in store && StoredChain(store, Some(head), c)
    ensures c != [] && StoredChain(store, store[head].previous, c[..|c| - 1])
  {
  }

  lemma InstallPrefix(store: Store, es: seq<Envelope>, i: nat)
    requires i < |es|
    ensures var before := InstallAll(store, es[..i]);
            before.Err? ==> InstallAll(store, es) == Err(before.error)
    ensures var before := InstallAll(store, es[..i]);
            before.Ok? ==>
              var one := InstallOutcome(before.value.0, es[i]);
              if one.Err? then InstallAll(store, es) == Err(one.error)
              else InstallAll(store, es[..i + 1]) ==
                     Ok((AfterInstall(before.value.0, es[i]), before.value.1 + if one.value then 1 else 0))
    decreases |es| - i
  {
    assert es[..i + 1][..i] == es[..i] && es[..i + 1][i] == es[i];
    if i + 1 < |es| {
      InstallPrefix(store, es, i + 1);
    } else {
      assert es[..i + 1] == es;
    }
  }
}
