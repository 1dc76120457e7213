// opentine/_artifact_v4_repo.py: installing an accepted artifact, adopting its
// annotation chain, and exporting a stored run.
module Repository {
  import opened Outcomes
  import opened ObjectGraph
  import opened BundleRepo

  /** A ref name split at its first slash. */
  datatype RefName = RefName(namespace: string, path: string)

  function AnnotationRef(root: Oid): RefName {
    RefName("annotations", root.digest)
  }

  /** The kind of object a namespace may name (TYPED_REF_NAMESPACES). */
  function RequiredKind(namespace: string): Option<Kind> {
    if namespace in ["annotations", "coord"] then Some(Annotation)
    else if namespace in ["experiments", "heads", "promotions"] then Some(Run)
    else None
  }

  // ----- what a store always satisfies -----

  /** A stored annotation's previous version is a stored annotation of the same object. */
  ghost predicate ChainSound(store: Store) {
    forall o :: o in store && o.kind == Annotation && store[o].previous.Some? ==>
      PreviousFits(store, store[o])
  }

  predicate PreviousFits(store: Store, e: Envelope) {
    e.previous.Some? ==>
      var p := e.previous.value;
      p in store && p.kind == Annotation && store[p].target == e.target
  }

  ghost predicate Sound(store: Store) {
    Addressed(store) && LinkClosed(store) && ChainSound(store)
  }

  /** No two different stored forms share an id: the digest did not collide. */
  ghost predicate Agree(a: Store, b: Store) {
    forall o :: o in a && o in b ==> a[o] == b[o]
  }

  ghost predicate Extends(a: Store, b: Store) {
    forall o :: o in a ==> o in b && b[o] == a[o]
  }

  /** s is store with these objects added, none replaced. */
  ghost predicate Grown(store: Store, objects: Store, added: set<Oid>, s: Store) {
    && s.Keys == store.Keys + added
    && Extends(store, s)
    && forall o :: o in added ==> o in objects && s[o] == objects[o]
  }

  // ----- _install -----

  /** What validate_event_metrics and validate_run_graph say of an envelope, whose id fixes the
      events it is checked against. */
  const SANE: Envelope -> bool

  predicate Sane(e: Envelope) {
    e.oid.kind in {Event, Run} ==> SANE(e)
  }

  function FirstMissing(links: seq<Oid>, store: Store): (m: Option<Oid>)
    ensures m.None? <==> forall l :: l in links ==> l in store
    ensures m.Some? ==> m.value in links && m.value !in store
  {
    if links == [] then None
    else if links[0] !in store then Some(links[0])
    else FirstMissing(links[1..], store)
  }

  /** Whether the envelope was written, or why it is refused. */
  function InstallOutcome(store: Store, e: Envelope): Result<bool, RepoError> {
    if e.oid in store then Ok(false)
    else if FirstMissing(e.links, store).Some? then Err(Missing(FirstMissing(e.links, store).value))
    else if e.oid.kind == Annotation && !PreviousFits(store, e) then Err(BadChain)
    else if !Sane(e) then Err(BadObject(e.oid))
    else Ok(true)
  }

  function AfterInstall(store: Store, e: Envelope): Store {
    if InstallOutcome(store, e) == Ok(true) then store[e.oid := e] else store
  }

  lemma InstallKeepsSound(store: Store, e: Envelope)
    requires Sound(store)
    ensures Sound(AfterInstall(store, e)) && Extends(store, AfterInstall(store, e))
  {
  }

  /** The stores a sequence of installs passes through, and the envelopes it wrote. */
  function InstallAll(store: Store, es: seq<Envelope>): Result<(Store, nat), RepoError>
    decreases |es|
  {
    if es == [] then Ok((store, 0))
    else
      var n := |es| - 1;
      var (s, written) :- InstallAll(store, es[..n]);
      var wrote :- InstallOutcome(s, es[n]);
      Ok((AfterInstall(s, es[n]), if wrote then written + 1 else written))
  }

  lemma NewKeys(store: set<Oid>, added: set<Oid>, oid: Oid)
    requires oid !in added
    ensures |(added + {oid}) - store| == |added - store| + if oid !in store then 1 else 0
  {
    if oid in store {
      assert (added + {oid}) - store == added - store;
    } else {
      assert (added + {oid}) - store == (added - store) + {oid};
    }
  }

  lemma InstallOne(store: Store, objects: Store, added: set<Oid>, s: Store, e: Envelope)
    requires Grown(store, objects, added, s) && Agree(store, objects)
    requires e.oid in objects && objects[e.oid] == e && e.oid !in added && e.oid.kind != Annotation
    requires forall l :: l in e.links ==> l in s
    ensures InstallOutcome(s, e) == if e.oid in store || Sane(e) then Ok(e.oid !in store) else Err(BadObject(e.oid))
    ensures InstallOutcome(s, e).Ok? ==> Grown(store, objects, added + {e.oid}, AfterInstall(s, e))
  {
    assert e.oid in s <==> e.oid in store;
    if e.oid in store {
      assert store.Keys + (added + {e.oid}) == store.Keys + added;
    } else if Sane(e) {
      assert AfterInstall(s, e).Keys == s.Keys + {e.oid};
    }
  }

  /** The k-th entry of a post-order is new, and its links are among the earlier ones. */
  lemma NextInOrder(objects: Store, root: Oid, order: seq<Envelope>, k: nat)
    requires IsPostOrder(objects, root, order) && k < |order|
    ensures order[k].oid in objects && objects[order[k].oid] == order[k]
    ensures order[..k + 1] == order[..k] + [order[k]]
    ensures Oids(order[..k + 1]) == Oids(order[..k]) + {order[k].oid}
    ensures order[k].oid !in Oids(order[..k])
    ensures forall l :: l in order[k].links ==> l in Oids(order[..k])
  {
    assert order[k] in order;
    assert order[..k + 1] == order[..k] + [order[k]];
  }

  /** What installing the first k objects of a post-order has done. */
  ghost predicate InstalledSoFar(store: Store, objects: Store, done: set<Oid>, r: Result<(Store, nat), RepoError>) {
    r.Ok? && Sound(r.value.0) && Grown(store, objects, done, r.value.0) && r.value.1 == |done - store.Keys|
  }

  /** What is new among these passes the checks of its own content. */
  predicate Passes(store: Store, es: seq<Envelope>) {
    forall e :: e in es ==> e.oid in store || Sane(e)
  }

  /** All installed, or stopped at an object whose content fails its checks. */
  ghost predicate InstallsSane(store: Store, objects: Store, es: seq<Envelope>, r: Result<(Store, nat), RepoError>) {
    if Passes(store, es) then InstalledSoFar(store, objects, Oids(es), r) else r.Err? && r.error.BadObject?
  }

  /** Links first: no object of the file fails to install on a missing link, all install when
      their content passes, and the store is sound after every single one. */
  lemma {:induction false} PostOrderInstalls(store: Store, objects: Store, root: Oid, order: seq<Envelope>, k: nat)
    requires Sound(store) && Agree(store, objects) && IsPostOrder(objects, root, order) && k <= |order|
    requires forall o :: o in objects ==> o.kind != Annotation
    ensures InstallsSane(store, objects, order[..k], InstallAll(store, order[..k]))
    decreases k
  {
    if k == 0 {
      NothingInstalled(store, objects, order);
    } else {
      hide InstallsSane, IsPostOrder, InstallAll;
      PostOrderInstalls(store, objects, root, order, k - 1);
      InstallStep(store, objects, root, order, k - 1);
    }
  }

  lemma NothingInstalled(store: Store, objects: Store, order: seq<Envelope>)
    requires Sound(store)
    ensures InstallsSane(store, objects, order[..0], InstallAll(store, order[..0]))
  {
    assert Oids(order[..0]) - store.Keys == {};
  }

  lemma InstallOneMore(store: Store, es: seq<Envelope>, e: Envelope)
    requires InstallAll(store, es).Ok? && InstallOutcome(InstallAll(store, es).value.0, e).Ok?
    ensures var (s, written) := InstallAll(store, es).value;
            InstallAll(store, es + [e]) ==
              Ok((AfterInstall(s, e), written + if InstallOutcome(s, e).value then 1 else 0))
  {
    hide InstallOutcome, AfterInstall;
    var all := es + [e];
    assert all[..|all| - 1] == es && all[|all| - 1] == e;
    var (s, written) := InstallAll(store, es).value;
    assert InstallAll(store, all[..|all| - 1]) == Ok((s, written));
  }

  lemma InstallStep(store: Store, objects: Store, root: Oid, order: seq<Envelope>, k: nat)
    requires Agree(store, objects) && IsPostOrder(objects, root, order) && k < |order|
    requires forall o :: o in objects ==> o.kind != Annotation
    requires InstallsSane(store, objects, order[..k], InstallAll(store, order[..k]))
    ensures InstallsSane(store, objects, order[..k + 1], InstallAll(store, order[..k + 1]))
  {
    var e, before := order[k], order[..k];
    NextInOrder(objects, root, order, k);
    PassesMore(store, before, e);
    if InstallAll(store, before).Ok? {
      SaneStep(store, objects, before, e);
    } else {
      InstallStops(store, before, e);
    }
  }

  lemma PassesMore(store: Store, before: seq<Envelope>, e: Envelope)
    ensures Passes(store, before + [e]) <==> Passes(store, before) && (e.oid in store || Sane(e))
  {
    assert e in before + [e];
    assert forall x :: x in before + [e] <==> x in before || x == e;
  }

  lemma InstallStops(store: Store, before: seq<Envelope>, e: Envelope)
    requires InstallAll(store, before).Err?
    ensures InstallAll(store, before + [e]) == Err(InstallAll(store, before).error)
  {
    assert (before + [e])[..|before|] == before;
  }

  lemma InstallFails(store: Store, es: seq<Envelope>, e: Envelope)
    requires InstallAll(store, es).Ok? && InstallOutcome(InstallAll(store, es).value.0, e).Err?
    ensures InstallAll(store, es + [e]) == Err(InstallOutcome(InstallAll(store, es).value.0, e).error)
  {
    hide InstallOutcome, AfterInstall;
    assert (es + [e])[..|es|] == es;
  }

  lemma DoneIsHeld(store: Store, objects: Store, done: seq<Envelope>, s: Store)
    requires Grown(store, objects, Oids(done), s)
    ensures forall l :: l in Oids(done) ==> l in s
  {
  }

  /** One object more after those that installed. */
  lemma SaneStep(store: Store, objects: Store, before: seq<Envelope>, e: Envelope)
    requires Agree(store, objects) && InstallsSane(store, objects, before, InstallAll(store, before))
    requires InstallAll(store, before).Ok? && e.oid in objects && objects[e.oid] == e && e.oid.kind != Annotation
    requires e.oid !in Oids(before) && Oids(before + [e]) == Oids(before) + {e.oid}
    requires forall l :: l in e.links ==> l in Oids(before)
    ensures InstallsSane(store, objects, before + [e], InstallAll(store, before + [e]))
  {
    hide Sound, Grown, Sane, Passes, InstallAll, Agree, InstallOutcome, AfterInstall;
    var s, added := InstallAll(store, before).value.0, Oids(before);
    PassesMore(store, before, e);
    DoneIsHeld(store, objects, before, s);
    InstallOne(store, objects, added, s, e);
    if InstallOutcome(s, e).Ok? {
      InstallOneMore(store, before, e);
      InstallKeepsSound(s, e);
      NewKeys(store.Keys, added, e.oid);
    } else {
      InstallFails(store, before, e);
    }
  }

  // ----- _adopt_chain -----

  /** Ids name one envelope each, within the chain and against the store. */
  ghost predicate Genuine(store: Store, chain: seq<Envelope>) {
    && (forall e :: e in chain && e.oid in store ==> store[e.oid] == e)
    && (forall e, f :: e in chain && f in chain && e.oid == f.oid ==> e == f)
  }

  /** Each annotation is stored, or links only to what is stored or earlier in the chain. Of a
      file's annotations the reader checks only the newest one's links. */
  ghost predicate Supported(store: Store, chain: seq<Envelope>) {
    forall i, l :: 0 <= i < |chain| && chain[i].oid !in store && l in chain[i].links ==>
      l in store || l in Oids(chain[..i])
  }

  ghost predicate ChainInstalledSoFar(store: Store, done: seq<Envelope>, s: Store) {
    && Sound(s) && Extends(store, s) && s.Keys == store.Keys + Oids(done)
    && forall e :: e in done ==> s[e.oid] == e
  }

  lemma NextAnnotation(store: Store, root: Oid, chain: seq<Envelope>, k: nat, s: Store)
    requires ChainOf(chain, root) && Genuine(store, chain) && k < |chain|
    requires ChainInstalledSoFar(store, chain[..k], s)
    ensures chain[..k + 1] == chain[..k] + [chain[k]]
    ensures InstallOutcome(s, chain[k]).Ok? <==>
              chain[k].oid in store || forall l :: l in chain[k].links ==> l in store || l in Oids(chain[..k])
    ensures InstallOutcome(s, chain[k]).Ok? ==> ChainInstalledSoFar(store, chain[..k + 1], AfterInstall(s, chain[k]))
  {
    var e, before := chain[k], chain[..k];
    assert chain[..k + 1] == before + [e] && e in chain;
    PreviousInstalled(store, root, chain, k, s);
    hide ChainOf, ChainInstalledSoFar, Genuine, PreviousFits;
    NewAnnotation(store, chain, before, s, e);
  }

  lemma PreviousInstalled(store: Store, root: Oid, chain: seq<Envelope>, k: nat, s: Store)
    requires ChainOf(chain, root) && k < |chain| && ChainInstalledSoFar(store, chain[..k], s)
    ensures PreviousFits(s, chain[k]) && chain[k].oid.kind == Annotation
  {
    assert Follows(chain, k, root);
    if k > 0 {
      assert Follows(chain, k - 1, root) && chain[..k][k - 1] in chain[..k];
    }
  }

  lemma NewAnnotation(store: Store, chain: seq<Envelope>, before: seq<Envelope>, s: Store, e: Envelope)
    requires Genuine(store, chain) && e in chain && forall x :: x in before ==> x in chain
    requires ChainInstalledSoFar(store, before, s) && PreviousFits(s, e) && e.oid.kind == Annotation
    ensures InstallOutcome(s, e).Ok? <==>
              e.oid in store || forall l :: l in e.links ==> l in store || l in Oids(before)
    ensures InstallOutcome(s, e).Ok? ==> ChainInstalledSoFar(store, before + [e], AfterInstall(s, e))
  {
    AnnotationOutcome(store, chain, before, s, e);
    if InstallOutcome(s, e).Ok? {
      AnnotationInstalled(store, chain, before, s, e);
    }
  }

  lemma AnnotationOutcome(store: Store, chain: seq<Envelope>, before: seq<Envelope>, s: Store, e: Envelope)
    requires Genuine(store, chain) && e in chain && forall x :: x in before ==> x in chain
    requires ChainInstalledSoFar(store, before, s) && PreviousFits(s, e) && e.oid.kind == Annotation
    ensures InstallOutcome(s, e).Ok? <==>
              e.oid in store || forall l :: l in e.links ==> l in store || l in Oids(before)
  {
    if e.oid in Oids(before) {
      var x :| x in before && x.oid == e.oid;
      assert x == e && forall l :: l in e.links ==> l in s;
    }
  }

  lemma AfterOk(s: Store, e: Envelope)
    requires InstallOutcome(s, e).Ok?
    ensures AfterInstall(s, e) == if e.oid in s then s else s[e.oid := e]
  {
  }

  lemma AnnotationInstalled(store: Store, chain: seq<Envelope>, before: seq<Envelope>, s: Store, e: Envelope)
    requires Genuine(store, chain) && e in chain && forall x :: x in before ==> x in chain
    requires ChainInstalledSoFar(store, before, s) && InstallOutcome(s, e).Ok?
    ensures ChainInstalledSoFar(store, before + [e], AfterInstall(s, e))
  {
    InstallKeepsSound(s, e);
    AfterOk(s, e);
    hide Sound, InstallOutcome, AfterInstall;
    assert Oids(before + [e]) == Oids(before) + {e.oid};
    if e.oid in Oids(before) {
      var x :| x in before && x.oid == e.oid;
      assert x == e;
    }
  }

  /** Installing these annotations succeeds exactly when their links are there. */
  ghost predicate InstallsSupported(store: Store, chain: seq<Envelope>, r: Result<(Store, nat), RepoError>) {
    && (r.Ok? <==> Supported(store, chain))
    && (r.Ok? ==> ChainInstalledSoFar(store, chain, r.value.0))
  }

  lemma ChainStep(store: Store, root: Oid, chain: seq<Envelope>, k: nat)
    requires ChainOf(chain, root) && Genuine(store, chain) && k < |chain|
    requires InstallsSupported(store, chain[..k], InstallAll(store, chain[..k]))
    ensures InstallsSupported(store, chain[..k + 1], InstallAll(store, chain[..k + 1]))
  {
    SupportedStep(store, chain, k);
    var r := InstallAll(store, chain[..k]);
    if r.Ok? {
      NextAnnotation(store, root, chain, k, r.value.0);
    }
    assert chain[..k + 1][..k] == chain[..k];
  }

  /** The chain installs exactly when its annotations' links are there. */
  lemma {:induction false} ChainInstalls(store: Store, root: Oid, chain: seq<Envelope>, k: nat)
    requires Sound(store) && ChainOf(chain, root) && Genuine(store, chain) && k <= |chain|
    ensures InstallsSupported(store, chain[..k], InstallAll(store, chain[..k]))
    decreases k
  {
    if k > 0 {
      hide InstallsSupported, InstallAll;
      ChainInstalls(store, root, chain, k - 1);
      ChainStep(store, root, chain, k - 1);
    }
  }

  lemma SupportedStep(store: Store, chain: seq<Envelope>, k: nat)
    requires k < |chain|
    ensures Supported(store, chain[..k + 1]) <==>
              && Supported(store, chain[..k])
              && (chain[k].oid in store || forall l :: l in chain[k].links ==> l in store || l in Oids(chain[..k]))
  {
    var longer, shorter := chain[..k + 1], chain[..k];
    assert forall i :: 0 <= i <= k ==> longer[..i] == chain[..i];
    assert forall i :: 0 <= i < k ==> shorter[..i] == chain[..i];
    assert longer[k] == chain[k];
    assert forall i :: 0 <= i < k ==> longer[i] == shorter[i];
  }

  // ----- an accepted artifact whose chain does not install -----

  /** Two annotations of the root: the first also links to something else, the second only to
      the first. */
  function LooseChain(root: Oid, other: Oid, first: string, second: string): seq<Envelope> {
    var a := Oid(Annotation, first);
    [Envelope(a, [root, other], Some(root), None, ""),
     Envelope(Oid(Annotation, second), [root, a], Some(root), Some(a), "")]
  }

  /** An artifact read without annotations is read with these too when the run loads with the
      second, whatever the first links to; and no store without that takes the chain. */
  lemma LooseChainRefused(doc: Document, other: Oid, first: string, second: string, store: Store)
    requires Readable(doc) && first != second
    requires var chain := LooseChain(doc.root, other, first, second);
             && LOADS(doc.root, doc.objects, Some(chain[1]))
             && Sound(store) && Genuine(store, chain) && other !in store && chain[0].oid !in store
             && other != chain[0].oid
    ensures var chain := LooseChain(doc.root, other, first, second);
            && Readable(doc.(annotations := [(chain[0].oid, chain[0]), (chain[1].oid, chain[1])]))
            && InstallAll(store, chain).Err?
  {
    hide Supported, Readable, Genuine, Sound, ChainOf, InstallAll, Annotations;
    var chain := LooseChain(doc.root, other, first, second);
    LooseChainReads(doc, other, first, second);
    Unsupported(store, chain, other);
    ChainInstalls(store, doc.root, chain, 2);
    assert chain[..2] == chain;
  }

  lemma Unsupported(store: Store, chain: seq<Envelope>, other: Oid)
    requires chain != [] && other in chain[0].links && other !in store && chain[0].oid !in store
    ensures !Supported(store, chain)
  {
    assert Oids(chain[..0]) == {};
  }

  lemma LooseChainReads(doc: Document, other: Oid, first: string, second: string)
    requires Readable(doc)
    requires LOADS(doc.root, doc.objects, Some(LooseChain(doc.root, other, first, second)[1]))
    ensures var chain := LooseChain(doc.root, other, first, second);
            var longer := doc.(annotations := [(chain[0].oid, chain[0]), (chain[1].oid, chain[1])]);
            ChainOf(chain, doc.root) && Annotations(longer) == chain && Readable(longer)
  {
    var chain := LooseChain(doc.root, other, first, second);
    var longer := doc.(annotations := [(chain[0].oid, chain[0]), (chain[1].oid, chain[1])]);
    assert Annotations(longer) == chain;
    assert chain[..0] == [] && chain[..1] == [chain[0]];
    assert Follows(chain, 0, doc.root) && Follows(chain, 1, doc.root);
    assert ChainOids(chain)[0] == chain[0].oid;
  }
}
