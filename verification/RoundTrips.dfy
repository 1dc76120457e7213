// opentine/_artifact_v4_repo.py: what import and then export gives back, and over any
// sequence of imports an annotation head only moves forward.
module RoundTrips {
  import opened Basics
  import opened Outcomes
  import opened ObjectGraph
  import opened BundleRepo
  import opened Repository
  import opened Sidecars
  import opened TineRepo

  // ----- import, then export -----

  /** A chain stored back from an annotation of the root is one the reader accepts. */
  lemma {:induction false} StoredIsChain(store: Store, root: Oid, head: Option<Oid>, chain: seq<Envelope>)
    requires Sound(store) && StoredChain(store, head, chain)
    requires head.Some? ==>
      head.value in store && head.value.kind == Annotation && store[head.value].target == Some(root)
    ensures ChainOf(chain, root) && HeadOf(chain) == head
    decreases |chain|
  {
    if chain != [] {
      var n := |chain| - 1;
      var last, front := chain[n], chain[..n];
      assert last.previous.Some? ==> PreviousFits(store, last);
      StoredIsChain(store, root, last.previous, front);
      ChainExtended(front, last, root);
      assert chain == front + [last];
    }
  }

  /** The artifact of a run's objects with a chain and the signatures kept for it. */
  function StoredForm(s: State, doc: Document, chain: seq<Envelope>): Document {
    Document(doc.root, doc.objects, WithIds(chain), KeptBlocks(s, doc.root, HeadOf(chain)))
  }

  function KeptBlocks(s: State, root: Oid, head: Option<Oid>): seq<Block> {
    BlocksAt(KeptFor(s.sidecars, root), HeadText(head))
  }

  lemma FormReads(s: State, doc: Document, chain: seq<Envelope>)
    requires Readable(doc) && ChainOf(chain, doc.root) && |chain| <= MAX_V4_ANNOTATIONS
    requires SidecarsFit(s.sidecars)
    ensures Annotations(StoredForm(s, doc, chain)) == chain
    ensures Readable(StoredForm(s, doc, chain)) <==>
              |StoredForm(s, doc, chain).signatures| <= MAX_V4_SIGNATURES && Loadable(doc.root, doc.objects, chain)
  {
    assert Annotations(StoredForm(s, doc, chain)) == chain;
    BlocksFit(KeptFor(s.sidecars, doc.root), HeadText(HeadOf(chain)));
  }

  /** A chain the run can be exported with: it is stored from the run's head, no longer than
      1,024, signed by at most 16 kept blocks, its newest annotation loads, and all of it fits
      the size limit. */
  ghost predicate Exportable(s: State, legacy: Option<Oid>, doc: Document, chain: seq<Envelope>) {
    && StoredChain(s.store, HeadFor(s, doc.root, legacy), chain)
    && |chain| <= MAX_V4_ANNOTATIONS && |StoredForm(s, doc, chain).signatures| <= MAX_V4_SIGNATURES
    && Loadable(doc.root, doc.objects, chain) && FITS(StoredForm(s, doc, chain))
  }

  /** The exports of a run are its objects with such chains. */
  ghost predicate ExportsStoredChain(s: State, legacy: Option<Oid>, doc: Document) {
    forall out :: Exported(s, legacy, doc.root, out) <==>
      exists chain :: Exportable(s, legacy, doc, chain) && out == StoredForm(s, doc, chain)
  }

  /** A stored annotation ref, or the head that stands in for it, is on the run. */
  ghost predicate HeadStored(s: State, root: Oid, legacy: Option<Oid>) {
    HeadFor(s, root, legacy).Some? ==> RefFits(s.store, AnnotationRef(root), HeadFor(s, root, legacy).value)
  }

  lemma HeadIsStored(s: State, root: Oid, legacy: Option<Oid>)
    requires RefsFit(s.store, s.refs) && (legacy.Some? ==> RefFits(s.store, AnnotationRef(root), legacy.value))
    ensures HeadStored(s, root, legacy)
  {
    if AnnotationRef(root) in s.refs {
      assert RefFits(s.store, AnnotationRef(root), s.refs[AnnotationRef(root)]);
    }
  }

  lemma ExportsStored(s: State, legacy: Option<Oid>, doc: Document)
    requires Sound(s.store) && SidecarsFit(s.sidecars) && HeadStored(s, doc.root, legacy)
    requires Readable(doc) && ObjectsIn(s.store, doc.objects)
    ensures ExportsStoredChain(s, legacy, doc)
  {
    hide Exportable, Exported, Sound, Readable, ObjectsIn, SidecarsFit, HeadStored, IsClosure, StoredForm;
    ClosureStored(s.store, doc);
    forall out
      ensures Exported(s, legacy, doc.root, out) <==>
              exists chain :: Exportable(s, legacy, doc, chain) && out == StoredForm(s, doc, chain)
    {
      if Exported(s, legacy, doc.root, out) {
        ExportIsStored(s, legacy, doc, out);
      }
      forall chain | Exportable(s, legacy, doc, chain) && out == StoredForm(s, doc, chain)
        ensures Exported(s, legacy, doc.root, out)
      {
        ExportableExports(s, legacy, doc, chain);
      }
    }
  }

  lemma ClosureStored(store: Store, doc: Document)
    requires Readable(doc) && ObjectsIn(store, doc.objects)
    ensures IsClosure(store, doc.root, doc.objects)
  {
    ClosureTransfers(doc.objects, store, doc.root, doc.objects);
  }

  lemma ExportIsStored(s: State, legacy: Option<Oid>, doc: Document, out: Document)
    requires IsClosure(s.store, doc.root, doc.objects) && Exported(s, legacy, doc.root, out)
    ensures Exportable(s, legacy, doc, Annotations(out)) && out == StoredForm(s, doc, Annotations(out))
  {
    ClosureUnique(s.store, doc.root, out.objects, doc.objects);
    assert out.annotations == WithIds(Annotations(out));
  }

  lemma ExportableExports(s: State, legacy: Option<Oid>, doc: Document, chain: seq<Envelope>)
    requires Sound(s.store) && SidecarsFit(s.sidecars) && HeadStored(s, doc.root, legacy)
    requires Readable(doc) && IsClosure(s.store, doc.root, doc.objects) && Exportable(s, legacy, doc, chain)
    ensures Exported(s, legacy, doc.root, StoredForm(s, doc, chain))
  {
    RootOfRef(doc.root);
    StoredIsChain(s.store, doc.root, HeadFor(s, doc.root, legacy), chain);
    FormReads(s, doc, chain);
  }

  lemma RootOfRef(root: Oid)
    requires root.kind == Run
    ensures Oid(Run, AnnotationRef(root).path) == root
  {
  }

  // ----- what an import leaves to be exported -----

  /** What adopting a chain leaves behind it when it was taken or was there already: the
      whole chain is stored, newest entry at the ref. */
  lemma ChainThere(before: Store, refsBefore: Refs, root: Oid, chain: seq<Envelope>, after: Store, refsAfter: Refs,
                   r: Result<Adoption, RepoError>)
    requires ChainOf(chain, root) && Genuine(before, chain) && Sound(after) && RefsFit(before, refsBefore)
    requires Adopted(before, refsBefore, root, chain, after, refsAfter, r) && r.Ok?
    requires r.value in {Installed, Unchanged}
    ensures Lookup(refsAfter, AnnotationRef(root)) == HeadOf(chain) != None
    ensures StoredChain(after, HeadOf(chain), chain)
  {
    assert chain != [];
    if r.value == Installed {
      assert chain[|chain| - 1] in chain;
    } else {
      assert RefFits(before, AnnotationRef(root), refsBefore[AnnotationRef(root)]);
    }
    StoredBack(after, root, chain);
  }

  /** What adopting a chain says of it and of the repository's own when it was not taken. */
  lemma ChainNotTaken(before: Store, refsBefore: Refs, root: Oid, chain: seq<Envelope>, after: Store, refsAfter: Refs,
                      r: Result<Adoption, RepoError>)
    requires Adopted(before, refsBefore, root, chain, after, refsAfter, r) && r.Ok?
    requires r.value in {KeptRepository, NoChain}
    ensures after == before && refsAfter == refsBefore
    ensures r.value == NoChain <==> chain == []
    ensures r.value == KeptRepository ==>
              Lookup(refsBefore, AnnotationRef(root)).Some? && Lookup(refsBefore, AnnotationRef(root)) != HeadOf(chain)
  {
  }

  /** The refs and the decision between adopting the chain and moving the caller's ref. */
  lemma ImportSteps(before: State, doc: Document, ref: Option<RefName>, after: State, r: Result<Summary, RepoError>)
    returns (refsMid: Refs, adopted: Result<Adoption, RepoError>)
    requires Imported(before, doc, ref, after, r) && ObjectsPass(before.store, doc.objects)
    ensures ImportedVia(before, doc, ref, after, r, refsMid, adopted)
    ensures Adopted(before.store + doc.objects, before.refs, doc.root, Annotations(doc), after.store, refsMid, adopted)
    ensures r.Ok? ==> adopted == Ok(r.value.adoption)
    ensures doc.root.kind == Run ==> forall path ::
              Lookup(after.refs, RefName("annotations", path)) == Lookup(refsMid, RefName("annotations", path))
  {
    hide Adopted, ObjectsIn, Signed, RefFits;
    refsMid, adopted :| ImportedVia(before, doc, ref, after, r, refsMid, adopted);
    if r.Ok? && ref.Some? {
      RunIsNoAnnotation(after.store, ref.value, doc.root);
    }
  }

  lemma RunIsNoAnnotation(store: Store, name: RefName, root: Oid)
    requires RefFits(store, name, root)
    ensures root.kind == Run ==> name.namespace != "annotations"
  {
    assert RequiredKind("annotations") == Some(Annotation);
  }

  lemma OkPasses(before: State, doc: Document, ref: Option<RefName>, after: State, r: Result<Summary, RepoError>)
    requires Imported(before, doc, ref, after, r) && r.Ok?
    ensures ObjectsPass(before.store, doc.objects)
  {
  }

  /** Where the annotation head stands after a successful import: at the file's chain, or
      where it stood. */
  ghost predicate HeadPlaced(doc: Document, adoption: Adoption, before: State, after: State) {
    var name := AnnotationRef(doc.root);
    if adoption in {Installed, Unchanged} then
      && Lookup(after.refs, name) == HeadOf(Annotations(doc)) != None
      && StoredChain(after.store, HeadOf(Annotations(doc)), Annotations(doc))
    else
      && Lookup(after.refs, name) == Lookup(before.refs, name)
      && (adoption == NoChain ==> Annotations(doc) == [])
      && (adoption == KeptRepository ==>
            Lookup(before.refs, name).Some? && Lookup(before.refs, name) != HeadOf(Annotations(doc)))
  }

  lemma HeadAfterImport(before: State, doc: Document, ref: Option<RefName>, after: State,
                        r: Result<Summary, RepoError>)
    requires RefsFit(before.store, before.refs) && Sound(after.store) && r.Ok?
    requires Genuine(before.store + doc.objects, Annotations(doc)) && Agree(before.store, doc.objects)
    requires doc.root.kind == Run && ChainOf(Annotations(doc), doc.root)
    requires Imported(before, doc, ref, after, r)
    ensures ObjectsIn(after.store, doc.objects)
    ensures Signed(before.sidecars, doc).Some? &&
            after.sidecars == before.sidecars[doc.root := Signed(before.sidecars, doc).value]
    ensures HeadPlaced(doc, r.value.adoption, before, after)
  {
    hide Sound, RefsFit, Genuine, Agree, ChainOf, Adopted, Signed;
    OkPasses(before, doc, ref, after, r);
    var refsMid, adopted := ImportSteps(before, doc, ref, after, r);
    hide Imported;
    if r.value.adoption in {Installed, Unchanged} {
      RefsStillFit(before.store, doc.objects, before.refs);
      ChainThere(before.store + doc.objects, before.refs, doc.root, Annotations(doc), after.store, refsMid, adopted);
    } else {
      ChainNotTaken(before.store + doc.objects, before.refs, doc.root, Annotations(doc), after.store, refsMid, adopted);
    }
  }

  lemma RefsStillFit(before: Store, objects: Store, refs: Refs)
    requires RefsFit(before, refs) && Agree(before, objects)
    ensures RefsFit(before + objects, refs)
  {
    forall name | name in refs
      ensures RefFits(before + objects, name, refs[name])
    {
      assert RefFits(before, name, refs[name]);
    }
  }

  lemma {:induction false} StoredChainStays(before: Store, after: Store, head: Option<Oid>, chain: seq<Envelope>)
    requires Extends(before, after) && StoredChain(before, head, chain)
    ensures StoredChain(after, head, chain)
    decreases |chain|
  {
    if chain != [] {
      StoredChainStays(before, after, chain[|chain| - 1].previous, chain[..|chain| - 1]);
    }
  }

  /** What is not adopted leaves the repository's own head, its chain and the blocks kept for
      it as they were. */
  ghost predicate OwnChainKept(before: State, root: Oid, legacy: Option<Oid>, after: State) {
    && HeadFor(after, root, legacy) == HeadFor(before, root, legacy)
    && (HeadFor(before, root, legacy).Some? ==>
          var own := HeadFor(before, root, legacy);
          KeptBlocks(after, root, own) == KeptBlocks(before, root, own))
    && forall chain :: StoredChain(before.store, HeadFor(before, root, legacy), chain) ==>
                         StoredChain(after.store, HeadFor(before, root, legacy), chain)
  }

  lemma KeptByImport(before: State, doc: Document, adoption: Adoption, legacy: Option<Oid>, after: State)
    requires Extends(before.store, after.store) && HeadPlaced(doc, adoption, before, after)
    requires ChainOf(Annotations(doc), doc.root) && HeadStored(after, doc.root, legacy)
    requires adoption in {KeptRepository, NoChain} && Signed(before.sidecars, doc).Some?
    requires after.sidecars == before.sidecars[doc.root := Signed(before.sidecars, doc).value]
    ensures OwnChainKept(before, doc.root, legacy, after)
  {
    hide Extends, ChainOf, Signed, RefFits, Annotations;
    var own := HeadFor(before, doc.root, legacy);
    forall c | StoredChain(before.store, own, c)
      ensures StoredChain(after.store, own, c)
    {
      StoredChainStays(before.store, after.store, own, c);
    }
    if own.Some? {
      OtherHead(after.store, doc, own.value);
      OwnBlocksKept(before, doc, own, after);
    }
  }

  lemma OwnBlocksKept(before: State, doc: Document, own: Option<Oid>, after: State)
    requires Signed(before.sidecars, doc).Some? && HeadText(own) != HeadText(HeadOf(Annotations(doc)))
    requires after.sidecars == before.sidecars[doc.root := Signed(before.sidecars, doc).value]
    ensures KeptBlocks(after, doc.root, own) == KeptBlocks(before, doc.root, own)
  {
    var head := HeadText(HeadOf(Annotations(doc)));
    BlocksAdded(KeptFor(before.sidecars, doc.root), head, doc.signatures, HeadText(own));
  }

  /** A stored annotation that is not the file's newest is not named like it. */
  lemma OtherHead(store: Store, doc: Document, own: Oid)
    requires RefFits(store, AnnotationRef(doc.root), own) && ChainOf(Annotations(doc), doc.root)
    requires Annotations(doc) == [] || Some(own) != HeadOf(Annotations(doc))
    ensures HeadText(Some(own)) != HeadText(HeadOf(Annotations(doc)))
  {
    var chain := Annotations(doc);
    if chain != [] {
      assert Follows(chain, |chain| - 1, doc.root);
      assert RequiredKind("annotations") == Some(Annotation);
      if OidText(own) == OidText(HeadOf(chain).value) {
        OidTextInjective(own, HeadOf(chain).value);
      }
    }
  }

  /** The file with the blocks that stand at its head once its own are added to those kept. */
  function Resigned(s: State, doc: Document): Document {
    doc.(signatures := WithEntries(KeptBlocks(s, doc.root, HeadOf(Annotations(doc))), doc.signatures))
  }

  /** The chain the run has after the import is the file's own: it was installed or was there
      already, or neither the file nor the repository has one. */
  predicate TookChain(before: State, doc: Document, legacy: Option<Oid>, adoption: Adoption) {
    adoption in {Installed, Unchanged} || (adoption == NoChain && HeadFor(before, doc.root, legacy).None?)
  }

  lemma OwnForm(before: State, doc: Document, adoption: Adoption, legacy: Option<Oid>, after: State)
    requires Readable(doc) && HeadPlaced(doc, adoption, before, after) && TookChain(before, doc, legacy, adoption)
    requires Signed(before.sidecars, doc).Some?
    requires after.sidecars == before.sidecars[doc.root := Signed(before.sidecars, doc).value]
    ensures StoredChain(after.store, HeadFor(after, doc.root, legacy), Annotations(doc))
    ensures StoredForm(after, doc, Annotations(doc)) == Resigned(before, doc)
    ensures |Annotations(doc)| <= MAX_V4_ANNOTATIONS && Loadable(doc.root, doc.objects, Annotations(doc))
  {
    var chain := Annotations(doc);
    assert doc.annotations == WithIds(chain);
    BlocksAdded(KeptFor(before.sidecars, doc.root), HeadText(HeadOf(chain)), doc.signatures, None);
  }

  /** After a successful import the run exports exactly as its objects with the chain then
      stored for it and the blocks kept for that; and a chain that was not taken leaves the
      repository's own as it was. */
  lemma ExportAfterImport(before: State, doc: Document, ref: Option<RefName>, after: State,
                          r: Result<Summary, RepoError>, legacy: Option<Oid>)
    requires RefsFit(before.store, before.refs) && Extends(before.store, after.store)
    requires Sound(after.store) && RefsFit(after.store, after.refs) && SidecarsFit(after.sidecars)
    requires legacy.Some? ==> RefFits(after.store, AnnotationRef(doc.root), legacy.value)
    requires Readable(doc) && NoCollision(before.store, doc) && r.Ok? && Imported(before, doc, ref, after, r)
    ensures ExportsStoredChain(after, legacy, doc)
    ensures TookChain(before, doc, legacy, r.value.adoption) ==>
              forall out :: Exported(after, legacy, doc.root, out) <==>
                out == Resigned(before, doc) && |out.signatures| <= MAX_V4_SIGNATURES && FITS(out)
    ensures r.value.adoption in {KeptRepository, NoChain} ==> OwnChainKept(before, doc.root, legacy, after)
  {
    hide ExportsStoredChain, OwnChainKept, Imported, Exportable, Sound, RefsFit, Readable, Extends, Agree, Genuine;
    hide SidecarsFit, HeadStored, HeadPlaced, ObjectsIn, Resigned, StoredForm, RefFits, Signed, ChainOf;
    ReadableParts(doc);
    GenuineAfter(before.store, doc.objects, doc.root, Annotations(doc));
    HeadAfterImport(before, doc, ref, after, r);
    HeadIsStored(after, doc.root, legacy);
    ExportsStored(after, legacy, doc);
    if TookChain(before, doc, legacy, r.value.adoption) {
      OwnForm(before, doc, r.value.adoption, legacy, after);
      OwnExport(after, legacy, doc, Resigned(before, doc));
    }
    if r.value.adoption in {KeptRepository, NoChain} {
      KeptByImport(before, doc, r.value.adoption, legacy, after);
    }
  }

  lemma OwnExport(s: State, legacy: Option<Oid>, doc: Document, form: Document)
    requires ExportsStoredChain(s, legacy, doc) && form == StoredForm(s, doc, Annotations(doc))
    requires StoredChain(s.store, HeadFor(s, doc.root, legacy), Annotations(doc))
    requires |Annotations(doc)| <= MAX_V4_ANNOTATIONS && Loadable(doc.root, doc.objects, Annotations(doc))
    ensures forall out :: Exported(s, legacy, doc.root, out) <==>
              out == form && |out.signatures| <= MAX_V4_SIGNATURES && FITS(out)
  {
    hide Exported, Loadable;
    forall out
      ensures Exported(s, legacy, doc.root, out) <==>
              out == form && |out.signatures| <= MAX_V4_SIGNATURES && FITS(out)
    {
      forall c | Exportable(s, legacy, doc, c)
        ensures c == Annotations(doc)
      {
        StoredChainUnique(s.store, HeadFor(s, doc.root, legacy), c, Annotations(doc));
      }
    }
  }

  /** Import, then export, on the repository itself: it gives the file's root and objects with
      the chain then stored for the run and the blocks kept for that chain, and fails exactly
      when there are more than 1,024 annotations or 16 blocks, when the newest annotation does
      not load with this run, or when the whole is over the size limit. When the chain is the
      file's own, the export is the file itself with the blocks already kept for its head put
      before its own, each once; so it is the very file when none were kept and it fits. */
  method ImportThenExport(repo: Repo, doc: Document, ref: Option<RefName>, legacy: Option<Oid>, ghost rank: Oid -> nat)
    returns (imported: Result<Summary, RepoError>, exported: Result<Document, RepoError>)
    requires repo.Valid() && Ranked(doc.objects, rank) && NoCollision(repo.store, doc)
    requires legacy.Some? ==> RefFits(repo.store, AnnotationRef(doc.root), legacy.value)
    modifies repo
    ensures repo.Valid()
    ensures imported.Ok? ==>
              (exported.Ok? <==> exists chain :: Exportable(repo.Now(), legacy, doc, chain))
    ensures imported.Ok? && exported.Ok? ==>
              exists chain :: Exportable(repo.Now(), legacy, doc, chain) &&
                              exported.value == StoredForm(repo.Now(), doc, chain)
    ensures imported.Ok? && imported.value.adoption in {KeptRepository, NoChain} ==>
              OwnChainKept(old(repo.Now()), doc.root, legacy, repo.Now())
    ensures imported.Ok? && TookChain(old(repo.Now()), doc, legacy, imported.value.adoption) ==>
              GivesBack(Resigned(old(repo.Now()), doc), exported)
    ensures imported.Ok? && TookChain(old(repo.Now()), doc, legacy, imported.value.adoption) ==>
              KeptBlocks(old(repo.Now()), doc.root, HeadOf(Annotations(doc))) == [] && Distinct(doc.signatures) ==>
              GivesBack(doc, exported)
  {
    hide ExportsStoredChain, Imported, Exportable, Exported, Sound, RefsFit, SidecarsFit, OwnChainKept, RefFits;
    hide Resigned, StoredForm, Readable, TookChain, Extends, Agree, Genuine, Ranked;
    ghost var before := repo.Now();
    imported := repo.InstallV4(doc, ref, rank);
    if imported.Err? {
      return imported, Err(imported.error);
    }
    LegacyStays(before.store, repo.store, doc.root, legacy);
    ExportAfterImport(before, doc, ref, repo.Now(), imported, legacy);
    exported := repo.ExportV4(doc.root, legacy);
    ExportedWith(repo.Now(), legacy, doc, exported);
    if TookChain(before, doc, legacy, imported.value.adoption) {
      ExportedIs(repo.Now(), legacy, doc, Resigned(before, doc), exported);
      if KeptBlocks(before, doc.root, HeadOf(Annotations(doc))) == [] && Distinct(doc.signatures) {
        FirstResigned(before, doc);
      }
    }
  }

  /** The export is this document, unless it has too many signatures or is too large. */
  predicate GivesBack(doc: Document, r: Result<Document, RepoError>) {
    && (r.Ok? <==> |doc.signatures| <= MAX_V4_SIGNATURES && FITS(doc))
    && (r.Ok? ==> r.value == doc)
  }

  lemma LegacyStays(before: Store, after: Store, root: Oid, legacy: Option<Oid>)
    requires Extends(before, after) && (legacy.Some? ==> RefFits(before, AnnotationRef(root), legacy.value))
    ensures legacy.Some? ==> RefFits(after, AnnotationRef(root), legacy.value)
  {
  }

  lemma FirstResigned(s: State, doc: Document)
    requires KeptBlocks(s, doc.root, HeadOf(Annotations(doc))) == [] && Distinct(doc.signatures)
    ensures Resigned(s, doc) == doc
  {
    AllNew(doc.signatures);
  }

  lemma ExportedWith(s: State, legacy: Option<Oid>, doc: Document, r: Result<Document, RepoError>)
    requires ExportsStoredChain(s, legacy, doc)
    requires r.Ok? ==> Exported(s, legacy, doc.root, r.value)
    requires r.Ok? <==> exists out :: Exported(s, legacy, doc.root, out)
    ensures r.Ok? <==> exists chain :: Exportable(s, legacy, doc, chain)
    ensures r.Ok? ==> exists chain :: Exportable(s, legacy, doc, chain) && r.value == StoredForm(s, doc, chain)
  {
    hide Exported, Exportable, StoredForm;
    if chain :| Exportable(s, legacy, doc, chain) {
      assert Exported(s, legacy, doc.root, StoredForm(s, doc, chain));
    }
  }

  lemma ExportedIs(s: State, legacy: Option<Oid>, doc: Document, form: Document, r: Result<Document, RepoError>)
    requires forall out :: Exported(s, legacy, doc.root, out) <==>
               out == form && |out.signatures| <= MAX_V4_SIGNATURES && FITS(out)
    requires r.Ok? ==> Exported(s, legacy, doc.root, r.value)
    requires r.Ok? <==> exists out :: Exported(s, legacy, doc.root, out)
    ensures GivesBack(form, r)
  {
    hide Exported;
    assert Exported(s, legacy, doc.root, form) <==> |form.signatures| <= MAX_V4_SIGNATURES && FITS(form);
  }

  // ----- annotation heads only advance -----

  /** A head, once set, is still the head or on the chain of the present one. */
  ghost predicate Advanced(s: State, t: State, name: RefName) {
    HeadAdvanced(s.refs, t.store, t.refs, name)
  }

  ghost predicate HeadAdvanced(before: Refs, after: Store, refs: Refs, name: RefName) {
    name in before ==> name in refs && OnChain(after, before[name], refs[name])
  }

  lemma OnChainSelf(store: Store, o: Oid)
    ensures OnChain(store, o, o)
  {
    assert ChainWalk(store, [o], o, o);
  }

  lemma OnChainTransitive(s: Store, t: Store, a: Oid, b: Oid, c: Oid)
    requires Extends(s, t) && OnChain(s, a, b) && OnChain(t, b, c)
    ensures OnChain(t, a, c)
  {
    var p :| ChainWalk(s, p, a, b);
    var q :| ChainWalk(t, q, b, c);
    var w := p + q[1..];
    forall i | 0 < i < |w|
      ensures w[i] in t && t[w[i]].previous == Some(w[i - 1])
    {
      if i >= |p| {
        assert w[i] == q[i - |p| + 1] && w[i - 1] == q[i - |p|];
      }
    }
    assert ChainWalk(t, w, a, c);
  }

  /** An import of an accepted artifact, successful or not, or a refused file that changes
      nothing: what InstallV4 does to the repository. */
  ghost predicate Step(s: State, t: State) {
    Extends(s.store, t.store) &&
    (s == t || exists doc: Document, ref, r ::
       doc.root.kind == Run && ChainOf(Annotations(doc), doc.root) && Imported(s, doc, ref, t, r))
  }

  lemma AdoptionAdvances(before: Store, refsBefore: Refs, root: Oid, chain: seq<Envelope>, after: Store,
                         refsAfter: Refs, r: Result<Adoption, RepoError>, name: RefName)
    requires ChainOf(chain, root) && Adopted(before, refsBefore, root, chain, after, refsAfter, r)
    ensures HeadAdvanced(refsBefore, after, refsAfter, name)
  {
    if name in refsBefore {
      OnChainSelf(after, refsBefore[name]);
      if r == Ok(Installed) && name == AnnotationRef(root) {
        var oids := ChainOids(chain);
        var k :| 0 <= k < |oids| && oids[k] == refsBefore[name];
        HeadReaches(before, root, chain, after, k);
      }
    }
  }

  /** From the head of an installed chain one walks back to each of its entries. */
  lemma HeadReaches(before: Store, root: Oid, chain: seq<Envelope>, after: Store, k: nat)
    requires ChainOf(chain, root) && k < |chain| && ChainInstalledSoFar(before, chain, after)
    ensures OnChain(after, ChainOids(chain)[k], HeadOf(chain).value)
  {
    var oids := ChainOids(chain);
    var p := oids[k..];
    forall i | 0 < i < |p|
      ensures p[i] in after && after[p[i]].previous == Some(p[i - 1])
    {
      assert chain[k + i] in chain && Follows(chain, k + i, root);
    }
    assert ChainWalk(after, p, oids[k], HeadOf(chain).value);
  }

  lemma ImportAdvances(s: State, t: State, doc: Document, ref: Option<RefName>, r: Result<Summary, RepoError>,
                       root: Oid)
    requires doc.root.kind == Run && ChainOf(Annotations(doc), doc.root) && Imported(s, doc, ref, t, r)
    ensures Advanced(s, t, AnnotationRef(root))
  {
    hide ImportedVia, Adopted, ObjectsPass, ChainOf, OnChain;
    if ObjectsPass(s.store, doc.objects) {
      var refsMid, adopted := ImportSteps(s, doc, ref, t, r);
      AdoptionAdvances(s.store + doc.objects, s.refs, doc.root, Annotations(doc), t.store, refsMid, adopted,
                       AnnotationRef(root));
      assert Lookup(t.refs, AnnotationRef(root)) == Lookup(refsMid, AnnotationRef(root));
    } else if AnnotationRef(root) in s.refs {
      OnChainSelf(t.store, s.refs[AnnotationRef(root)]);
    }
  }

  lemma StepAdvances(s: State, t: State, root: Oid)
    requires Step(s, t)
    ensures Extends(s.store, t.store) && Advanced(s, t, AnnotationRef(root))
  {
    if s == t {
      StaysAdvanced(s, AnnotationRef(root));
    } else {
      var doc: Document, ref, r :|
        doc.root.kind == Run && ChainOf(Annotations(doc), doc.root) && Imported(s, doc, ref, t, r);
      ImportAdvances(s, t, doc, ref, r, root);
    }
  }

  lemma StaysAdvanced(s: State, name: RefName)
    ensures Advanced(s, s, name)
  {
    if name in s.refs {
      OnChainSelf(s.store, s.refs[name]);
    }
  }

  lemma AdvancedTransitive(s: State, t: State, u: State, name: RefName)
    requires Extends(t.store, u.store) && Advanced(s, t, name) && Advanced(t, u, name)
    ensures Advanced(s, u, name)
  {
    if name in s.refs {
      OnChainTransitive(t.store, u.store, s.refs[name], t.refs[name], u.refs[name]);
    }
  }

  lemma {:induction false} AdvancesCompose(trace: seq<State>, i: nat, j: nat, name: RefName)
    requires i <= j < |trace|
    requires forall k :: 0 <= k < |trace| - 1 ==>
               Extends(trace[k].store, trace[k + 1].store) && Advanced(trace[k], trace[k + 1], name)
    ensures Extends(trace[i].store, trace[j].store) && Advanced(trace[i], trace[j], name)
    decreases j
  {
    if i == j {
      StaysAdvanced(trace[i], name);
    } else {
      AdvancesCompose(trace, i, j - 1, name);
      assert Advanced(trace[j - 1], trace[j - 1 + 1], name);
      AdvancedTransitive(trace[i], trace[j - 1], trace[j], name);
    }
  }

  /** Over any run of imports, of this run or of others, successful or not, every earlier
      annotation head of a run lies on the chain of every later one. */
  lemma HeadsOnlyAdvance(trace: seq<State>, i: nat, j: nat, root: Oid)
    requires i <= j < |trace|
    requires forall k :: 0 <= k < |trace| - 1 ==> Step(trace[k], trace[k + 1])
    ensures Extends(trace[i].store, trace[j].store) && Advanced(trace[i], trace[j], AnnotationRef(root))
  {
    forall k | 0 <= k < |trace| - 1
      ensures Extends(trace[k].store, trace[k + 1].store)
      ensures Advanced(trace[k], trace[k + 1], AnnotationRef(root))
    {
      StepAdvances(trace[k], trace[k + 1], root);
    }
    AdvancesCompose(trace, i, j, AnnotationRef(root));
  }
}
