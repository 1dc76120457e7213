// opentine/_bundle.py and repository/_refs.py: the bundle container, its checks, and the
// tracking refs its refs land on.
module BundleFile {
  import opened Basics
  import opened Outcomes
  import opened ByteOrder
  import opened RefNames
  import opened Sidecars

  type Bytes = seq<Byte>

  // ----- tracking refs -----

  /** heads/x and x land on one tracking ref. */
  function TrackedName(ref: string): string {
    RemovePrefix(ref, "heads/")
  }

  /** remotes/<name>/<tracked name> */
  function TrackingName(name: string, ref: string): string {
    "remotes/" + (name + "/" + TrackedName(ref))
  }

  function TrackingRef(name: string, ref: string): Option<string> {
    NormalizeRef(TrackingName(name, ref))
  }

  lemma NormalizedIs(full: string, rest: string)
    requires full == "remotes/" + rest
    ensures NormalizeRef(full) == if IsRef(full) then Some(full) else None
  {
    assert full[2] == 'm' && full[..5][2] == full[2] && "refs/"[2] == 'f';
  }

  lemma TrackingRefIs(name: string, ref: string)
    ensures TrackingRef(name, ref).Some? ==> TrackingRef(name, ref).value == TrackingName(name, ref)
  {
    NormalizedIs(TrackingName(name, ref), name + "/" + TrackedName(ref));
  }

  type Track = string -> Option<string>

  /** The tracking refs under one namespace. */
  function TrackUnder(name: string): Track {
    ref => TrackingRef(name, ref)
  }

  ghost predicate KeepsApart(track: Track) {
    forall a, b :: track(a).Some? && track(a) == track(b) ==> TrackedName(a) == TrackedName(b)
  }

  /** Where a ref of a remote or a bundle is tracked: heads/x at remotes/<name>/x, and any other
      ref under remotes/<name>/ by its whole name. */
  ghost predicate TrackedAt(name: string, ref: string, at: string) {
    if exists x :: ref == "heads/" + x then exists x :: ref == "heads/" + x && at == "remotes/" + name + "/" + x
    else at == "remotes/" + name + "/" + ref
  }

  lemma TrackingNameIs(name: string, ref: string)
    ensures forall at :: TrackedAt(name, ref, at) <==> at == TrackingName(name, ref)
  {
    PrefixRemoved(ref, "heads/");
    forall x: string
      ensures "remotes/" + (name + "/" + x) == "remotes/" + name + "/" + x
    {
    }
  }

  lemma TrackingNameInjective(name: string, a: string, b: string)
    requires TrackingName(name, a) == TrackingName(name, b)
    ensures TrackedName(a) == TrackedName(b)
  {
    var n := |"remotes/"| + |name| + 1;
    assert TrackingName(name, a)[n..] == TrackedName(a);
    assert TrackingName(name, b)[n..] == TrackedName(b);
  }

  /** Tracking is injective on tracked names, so refs that do not collide keep apart. */
  lemma TrackingInjective(name: string, a: string, b: string)
    requires TrackingRef(name, a).Some? && TrackingRef(name, a) == TrackingRef(name, b)
    ensures TrackedName(a) == TrackedName(b)
  {
    TrackingRefIs(name, a);
    TrackingRefIs(name, b);
    TrackingNameInjective(name, a, b);
  }

  lemma TrackingKeepsApart(name: string)
    ensures KeepsApart(TrackUnder(name))
  {
    forall a, b | TrackUnder(name)(a).Some? && TrackUnder(name)(a) == TrackUnder(name)(b)
      ensures TrackedName(a) == TrackedName(b)
    {
      TrackingInjective(name, a, b);
    }
  }

  // ----- the container -----

  const MAGIC: Bytes := [84, 73, 78, 69, 66, 85, 78, 68, 76, 69, 49, 10]
  const MAX_MANIFEST_BYTES := 4 * 1024 * 1024
  const MAX_REFS := 10_000

  /** A SHA-256 sum: 32 bytes. */
  type Sum = b: Bytes | |b| == 32 witness seq(32, _ => 0)

  /** What the container is built on: SHA-256, canonical JSON, the pack format, the object
      type an id names, the checks of a run's signature entry, and the size limit on packs. */
  datatype Formats = Formats(
    sha256: Bytes -> Sum,
    hex: Bytes -> string,
    parse: Bytes -> Option<Manifest>,
    canonical: Manifest -> Bytes,
    inspect: Bytes -> Option<set<string>>,
    typeOf: string -> Option<string>,
    entry: (string, Entry) -> bool,
    maxPack: nat)

  /** The blocks of a run for one annotation head, in manifest order. */
  datatype Group = Group(run: string, head: Option<string>, blocks: seq<Block>)

  datatype Manifest = Manifest(format: string, pack: string, packBytes: nat, refs: seq<(string, string)>,
                               signatures: seq<Group>)

  const FORMAT := "opentine-bundle/1"

  datatype Verified = Verified(refs: seq<(string, string)>, objects: set<string>, pack: Bytes, signatures: seq<Group>)

  datatype Problem = TooLarge | BadMagic | BadChecksum | BadLength | BadManifest | PackLength | PackDigest | BadPack
                   | BadSignatures | BadRef(name: string) | Outside(name: string) | Collision(name: string)

  lemma FourBytes()
    ensures Pow256(4) == 0x1_0000_0000
  {
    assert Pow256(1) == 256 && Pow256(2) == 0x1_0000 && Pow256(3) == 0x100_0000;
  }

  function Laid(f: Formats, manifest: Bytes, pack: Bytes): Bytes
    requires |manifest| < 0x1_0000_0000
  {
    var body := BigEndian(|manifest|, 4) + manifest + pack;
    MAGIC + f.sha256(body) + body
  }

  /** The manifest and pack bytes of a container whose magic, digest and length hold. */
  function Opened(f: Formats, data: Bytes): (r: Result<(Bytes, Bytes), Problem>)
    ensures r.Ok? ==> |r.value.0| <= MAX_MANIFEST_BYTES
  {
    if |data| > 12 + 32 + 4 + MAX_MANIFEST_BYTES + f.maxPack then Err(TooLarge)
    else if |data| < 48 || data[..12] != MAGIC then Err(BadMagic)
    else
      var digest, body := data[12..44], data[44..];
      if f.sha256(body) != digest then Err(BadChecksum)
      else
        var size := FromBigEndian(body[..4]);
        if size > MAX_MANIFEST_BYTES || 4 + size > |body| then Err(BadLength)
        else Ok((body[4..4 + size], body[4 + size..]))
  }

  /** Opening undoes laying out. */
  lemma OpenedLaid(f: Formats, manifest: Bytes, pack: Bytes)
    requires |manifest| <= MAX_MANIFEST_BYTES && |manifest| + |pack| <= MAX_MANIFEST_BYTES + f.maxPack
    ensures Opened(f, Laid(f, manifest, pack)) == Ok((manifest, pack))
  {
    var body := BigEndian(|manifest|, 4) + manifest + pack;
    var data := Laid(f, manifest, pack);
    assert |f.sha256(body)| == 32;
    assert data[..12] == MAGIC && data[12..44] == f.sha256(body) && data[44..] == body;
    assert body[..4] == BigEndian(|manifest|, 4);
    FourBytes();
    BigEndianRoundTrip(|manifest|, 4);
    assert body[4..4 + |manifest|] == manifest && body[4 + |manifest|..] == pack;
  }

  /** And a container that opens is the only one that opens to that content. */
  lemma OpenedUniquely(f: Formats, data: Bytes)
    requires Opened(f, data).Ok?
    ensures data == Laid(f, Opened(f, data).value.0, Opened(f, data).value.1)
  {
    var body := data[44..];
    var size := FromBigEndian(body[..4]);
    FromBigEndianRoundTrip(body[..4]);
    FourBytes();
    assert body == body[..4] + body[4..4 + size] + body[4 + size..];
    assert data == data[..12] + data[12..44] + body;
  }

  /** What opens is exactly what can be laid out within the size limits. */
  lemma OpensIff(f: Formats, data: Bytes)
    ensures Opened(f, data).Ok? <==>
            exists manifest: Bytes, pack: Bytes ::
              && |manifest| <= MAX_MANIFEST_BYTES && |manifest| + |pack| <= MAX_MANIFEST_BYTES + f.maxPack
              && data == Laid(f, manifest, pack)
  {
    if Opened(f, data).Ok? {
      OpenedUniquely(f, data);
    }
    if manifest: Bytes, pack: Bytes :|
      && |manifest| <= MAX_MANIFEST_BYTES && |manifest| + |pack| <= MAX_MANIFEST_BYTES + f.maxPack
      && data == Laid(f, manifest, pack)
    {
      OpenedLaid(f, manifest, pack);
    }
  }

  // ----- verify -----

  /** The object type a ref namespace is restricted to, if any. */
  function ExpectedType(space: string): Option<string> {
    if space == "annotations" || space == "coord" then Some("annotation")
    else if space == "heads" || space == "experiments" || space == "promotions" then Some("run")
    else None
  }

  predicate Allowed(f: Formats, name: string, oid: string) {
    var expected := ExpectedType(Before(name, '/'));
    f.typeOf(oid).Some? && (expected.Some? ==> f.typeOf(oid) == expected)
  }

  /** Under these namespaces a ref names a run, under these two an annotation. */
  lemma AllowedIs(f: Formats, name: string, oid: string)
    requires IsRef(name)
    ensures Allowed(f, name, oid) <==>
            && f.typeOf(oid).Some?
            && (HasPrefix(name, "heads/") || HasPrefix(name, "experiments/") || HasPrefix(name, "promotions/") ==>
                  f.typeOf(oid) == Some("run"))
            && (HasPrefix(name, "annotations/") || HasPrefix(name, "coord/") ==> f.typeOf(oid) == Some("annotation"))
  {
    hide IsRef, Before;
    SpaceIs(name, "heads");
    SpaceIs(name, "experiments");
    SpaceIs(name, "promotions");
    SpaceIs(name, "annotations");
    SpaceIs(name, "coord");
  }

  /** How many entries a manifest carries for one run. */
  function BlockCount(groups: seq<Group>, run: string): nat {
    if groups == [] then 0
    else BlockCount(groups[..|groups| - 1], run) +
         if groups[|groups| - 1].run == run then |groups[|groups| - 1].blocks| else 0
  }

  predicate SignaturesSound(f: Formats, groups: seq<Group>, present: set<string>) {
    forall g :: g in groups ==>
      && f.typeOf(g.run) == Some("run") && g.run in present && g.blocks != []
      && BlockCount(groups, g.run) <= MAX_SIDECAR_ENTRIES
      && forall b :: b in g.blocks ==> f.entry(g.run, Entry(g.head, b))
  }

  /** A ref that may be imported: its name is normal and local, its target well typed. */
  predicate SafeRef(f: Formats, ref: (string, string)) {
    IsRef(ref.0) && !HasPrefix(ref.0, "refs/") && !HasPrefix(ref.0, "remotes/") && Allowed(f, ref.0, ref.1)
  }

  type RefCheck = ((string, string)) -> bool

  function Safe(f: Formats): RefCheck {
    ref => SafeRef(f, ref)
  }

  /** Every ref is safe, its target is in the pack, and no two land on one tracking ref. */
  predicate RefsSound(safe: RefCheck, refs: seq<(string, string)>, present: set<string>) {
    refs == [] ||
    var before, last := refs[..|refs| - 1], refs[|refs| - 1];
    && RefsSound(safe, before, present) && safe(last) && last.1 in present
    && forall i :: 0 <= i < |before| ==> TrackedName(before[i].0) != TrackedName(last.0)
  }

  lemma {:induction false} SoundRefs(safe: RefCheck, refs: seq<(string, string)>, present: set<string>)
    requires RefsSound(safe, refs, present)
    ensures forall i :: 0 <= i < |refs| ==> safe(refs[i]) && refs[i].1 in present
    ensures forall i, j :: 0 <= i < j < |refs| ==> TrackedName(refs[i].0) != TrackedName(refs[j].0)
  {
    if refs != [] {
      SoundRefs(safe, refs[..|refs| - 1], present);
    }
  }

  /** No two refs of a sound bundle are tracked at one place. */
  lemma TrackedApart(name: string, safe: RefCheck, refs: seq<(string, string)>, present: set<string>, i: nat, j: nat,
                     at: string)
    requires RefsSound(safe, refs, present) && i < |refs| && j < |refs|
    requires TrackedAt(name, refs[i].0, at) && TrackedAt(name, refs[j].0, at)
    ensures i == j
  {
    SoundRefs(safe, refs, present);
    TrackingNameIs(name, refs[i].0);
    TrackingNameIs(name, refs[j].0);
    TrackingNameInjective(name, refs[i].0, refs[j].0);
  }

  /** What a bundle's refs must be: local refs by their names, of the types those allow, to objects
      of its pack, and no two of them tracked at one place under any name. */
  ghost predicate Importable(f: Formats, refs: seq<(string, string)>, present: set<string>) {
    && (forall i :: 0 <= i < |refs| ==>
          && NamesRef(refs[i].0) && (forall x :: refs[i].0 != "remotes/" + x)
          && Allowed(f, refs[i].0, refs[i].1) && refs[i].1 in present)
    && forall i, j, name, at ::
         0 <= i < j < |refs| && TrackedAt(name, refs[i].0, at) ==> !TrackedAt(name, refs[j].0, at)
  }

  lemma {:induction false} AllSafe(safe: RefCheck, refs: seq<(string, string)>, present: set<string>)
    requires forall i :: 0 <= i < |refs| ==> safe(refs[i]) && refs[i].1 in present
    requires forall i, j :: 0 <= i < j < |refs| ==> TrackedName(refs[i].0) != TrackedName(refs[j].0)
    ensures RefsSound(safe, refs, present)
  {
    if refs != [] {
      AllSafe(safe, refs[..|refs| - 1], present);
    }
  }

  lemma SafeRefIs(f: Formats, ref: (string, string))
    ensures SafeRef(f, ref) <==> NamesRef(ref.0) && (forall x :: ref.0 != "remotes/" + x) && Allowed(f, ref.0, ref.1)
  {
    hide NamesRef, Allowed;
    RefIff(ref.0);
    PrefixRemoved(ref.0, "remotes/");
    if IsRef(ref.0) && HasPrefix(ref.0, "refs/") {
      NoRefsSpace(ref.0);
    }
  }

  lemma TrackedOnce(a: string, b: string)
    ensures TrackedName(a) != TrackedName(b) <==> forall name, at :: TrackedAt(name, a, at) ==> !TrackedAt(name, b, at)
  {
    hide TrackedAt, TrackedName;
    forall name, at
      ensures TrackedAt(name, a, at) <==> at == "remotes/" + (name + "/" + TrackedName(a))
      ensures TrackedAt(name, b, at) <==> at == "remotes/" + (name + "/" + TrackedName(b))
    {
      TrackingNameIs(name, a);
      TrackingNameIs(name, b);
    }
    if TrackedName(a) != TrackedName(b) {
      forall name, at | TrackedAt(name, a, at) && TrackedAt(name, b, at)
        ensures false
      {
        TrackingNameInjective(name, a, b);
      }
    } else {
      assert TrackedAt("", a, "remotes/" + ("" + "/" + TrackedName(a)));
    }
  }

  /** The refs of a bundle pass exactly when they may be imported. */
  lemma RefsSoundIff(f: Formats, refs: seq<(string, string)>, present: set<string>)
    ensures RefsSound(Safe(f), refs, present) <==> Importable(f, refs, present)
  {
    hide NamesRef, Allowed, TrackedAt, TrackedName, SafeRef, RefsSound;
    forall i | 0 <= i < |refs| {
      SafeRefIs(f, refs[i]);
    }
    forall i, j | 0 <= i < j < |refs|
      ensures TrackedName(refs[i].0) != TrackedName(refs[j].0) <==>
              forall name, at :: TrackedAt(name, refs[i].0, at) ==> !TrackedAt(name, refs[j].0, at)
    {
      TrackedOnce(refs[i].0, refs[j].0);
    }
    if RefsSound(Safe(f), refs, present) {
      SoundRefs(Safe(f), refs, present);
    }
    if Importable(f, refs, present) {
      AllSafe(Safe(f), refs, present);
    }
  }

  /** The manifest a container must hold, byte for byte. */
  predicate ManifestSound(f: Formats, raw: Bytes, pack: Bytes) {
    && f.parse(raw).Some? && f.canonical(f.parse(raw).value) == raw
    && var m := f.parse(raw).value;
       && m.format == FORMAT && |m.refs| <= MAX_REFS && m.packBytes == |pack|
       && m.pack == "sha256:" + f.hex(f.sha256(pack)) && f.inspect(pack).Some?
       && RefsSound(Safe(f), m.refs, f.inspect(pack).value) && SignaturesSound(f, m.signatures, f.inspect(pack).value)
  }

  /** These tracked names are exactly those of the refs. */
  ghost predicate Tracks(tracked: set<string>, refs: seq<(string, string)>) {
    && (forall i :: 0 <= i < |refs| ==> TrackedName(refs[i].0) in tracked)
    && (forall t :: t in tracked ==> exists i :: 0 <= i < |refs| && TrackedName(refs[i].0) == t)
  }

  lemma TracksMore(refs: seq<(string, string)>, ref: (string, string), tracked: set<string>)
    requires Tracks(tracked, refs)
    ensures Tracks(tracked + {TrackedName(ref.0)}, refs + [ref])
    ensures TrackedName(ref.0) !in tracked <==>
            forall i :: 0 <= i < |refs| ==> TrackedName(refs[i].0) != TrackedName(ref.0)
  {
    var more := refs + [ref];
    assert more[|refs|] == ref;
    forall t | t in tracked + {TrackedName(ref.0)}
      ensures exists i :: 0 <= i < |more| && TrackedName(more[i].0) == t
    {
      if t in tracked {
        var i :| 0 <= i < |refs| && TrackedName(refs[i].0) == t;
        assert more[i] == refs[i];
      }
    }
  }

  lemma {:induction false} SoundPrefix(safe: RefCheck, refs: seq<(string, string)>, present: set<string>, n: nat)
    requires n <= |refs|
    ensures RefsSound(safe, refs, present) ==> RefsSound(safe, refs[..n], present)
    decreases |refs|
  {
    if n < |refs| {
      var before := refs[..|refs| - 1];
      SoundPrefix(safe, before, present, n);
      assert before[..n] == refs[..n];
    } else {
      assert refs[..n] == refs;
    }
  }

  lemma RefsSoundMore(safe: RefCheck, refs: seq<(string, string)>, ref: (string, string), present: set<string>)
    ensures RefsSound(safe, refs + [ref], present) <==>
              && RefsSound(safe, refs, present) && safe(ref) && ref.1 in present
              && forall i :: 0 <= i < |refs| ==> TrackedName(refs[i].0) != TrackedName(ref.0)
  {
    assert (refs + [ref])[..|refs|] == refs;
  }

  lemma OneLonger<T>(s: seq<T>, i: nat)
    requires i < |s|
    ensures s[..i + 1] == s[..i] + [s[i]]
  {
  }

  /** One ref is refused or passes, given those before it. */
  method CheckRef(f: Formats, refs: seq<(string, string)>, ref: (string, string), present: set<string>,
            tracked: set<string>)
    returns (r: Result<(), Problem>)
    requires RefsSound(Safe(f), refs, present) && Tracks(tracked, refs)
    ensures r.Ok? <==> RefsSound(Safe(f), refs + [ref], present)
  {
    hide RefsSound, IsRef, NormalizeRef, Allowed, Tracks, TrackedName;
    var (name, oid) := ref;
    RefsSoundMore(Safe(f), refs, ref, present);
    TracksMore(refs, ref, tracked);
    NormalIsRef(name);
    if NormalizeRef(name) != Some(name) || HasPrefix(name, "remotes/") || !Allowed(f, name, oid) {
      return Err(BadRef(name));
    }
    if oid !in present {
      return Err(Outside(name));
    }
    if TrackedName(name) in tracked {
      return Err(Collision(name));
    }
    return Ok(());
  }

  method CheckRefs(f: Formats, refs: seq<(string, string)>, present: set<string>) returns (r: Result<(), Problem>)
    ensures r.Ok? <==> RefsSound(Safe(f), refs, present)
  {
    var tracked: set<string> := {};
    for i := 0 to |refs|
      invariant RefsSound(Safe(f), refs[..i], present) && Tracks(tracked, refs[..i])
    {
      OneLonger(refs, i);
      r := CheckRef(f, refs[..i], refs[i], present, tracked);
      if r.Err? {
        SoundPrefix(Safe(f), refs, present, i + 1);
        return;
      }
      TracksMore(refs[..i], refs[i], tracked);
      tracked := tracked + {TrackedName(refs[i].0)};
    }
    assert refs[..|refs|] == refs;
    r := Ok(());
  }

  lemma NormalIsRef(name: string)
    ensures NormalizeRef(name) == Some(name) <==> IsRef(name) && !HasPrefix(name, "refs/")
  {
    if HasPrefix(name, "refs/") {
      assert |name[5..]| < |name|;
    }
  }

  /** verify(): a bundle passes exactly when it is the one layout of a sound manifest and its
      pack; nothing is written. */
  method Verify(f: Formats, data: Bytes) returns (r: Result<Verified, Problem>)
    ensures r.Ok? <==> Opened(f, data).Ok? && ManifestSound(f, Opened(f, data).value.0, Opened(f, data).value.1)
    ensures r.Ok? ==>
      && var (raw, pack) := Opened(f, data).value;
         && r.value.refs == f.parse(raw).value.refs && r.value.pack == pack &&
             r.value.signatures == f.parse(raw).value.signatures
         && r.value.objects == f.inspect(pack).value && RefsSound(Safe(f), r.value.refs, r.value.objects)
  {
    var layout := Opened(f, data);
    if layout.Err? {
      return Err(layout.error);
    }
    var (raw, pack) := layout.value;
    var parsed := f.parse(raw);
    if parsed.None? || f.canonical(parsed.value) != raw {
      return Err(BadManifest);
    }
    var m := parsed.value;
    if m.format != FORMAT || |m.refs| > MAX_REFS {
      return Err(BadManifest);
    }
    if m.packBytes != |pack| {
      return Err(PackLength);
    }
    if m.pack != "sha256:" + f.hex(f.sha256(pack)) {
      return Err(PackDigest);
    }
    var objects := f.inspect(pack);
    if objects.None? {
      return Err(BadPack);
    }
    var checked := CheckRefs(f, m.refs, objects.value);
    if checked.Err? {
      return Err(checked.error);
    }
    if !SignaturesSound(f, m.signatures, objects.value) {
      return Err(BadSignatures);
    }
    return Ok(Verified(m.refs, objects.value, pack, m.signatures));
  }

  // ----- create -----

  function ManifestFor(f: Formats, refs: seq<(string, string)>, pack: Bytes, signatures: seq<Group>): Manifest {
    Manifest(FORMAT, "sha256:" + f.hex(f.sha256(pack)), |pack|, refs, signatures)
  }

  /** create_refs: the container of the chosen refs and their pack. */
  function Created(f: Formats, refs: seq<(string, string)>, pack: Bytes, signatures: seq<Group>): Bytes
    requires |f.canonical(ManifestFor(f, refs, pack, signatures))| < 0x1_0000_0000
  {
    Laid(f, f.canonical(ManifestFor(f, refs, pack, signatures)), pack)
  }

  /** A created bundle passes, with the refs that went in, exactly when those refs are sound
      and the sizes and the pack are accepted. */
  lemma CreatedOpens(f: Formats, refs: seq<(string, string)>, pack: Bytes, signatures: seq<Group>)
    requires |pack| <= f.maxPack
    requires |f.canonical(ManifestFor(f, refs, pack, signatures))| <= MAX_MANIFEST_BYTES
    requires f.parse(f.canonical(ManifestFor(f, refs, pack, signatures))) == Some(ManifestFor(f, refs, pack,
        signatures))
    ensures var data, raw := Created(f, refs, pack, signatures), f.canonical(ManifestFor(f, refs, pack, signatures));
            && Opened(f, data) == Ok((raw, pack))
            && (ManifestSound(f, raw, pack) <==>
                  |refs| <= MAX_REFS && f.inspect(pack).Some? && RefsSound(Safe(f), refs, f.inspect(pack).value) &&
                  SignaturesSound(f, signatures, f.inspect(pack).value))
  {
    OpenedLaid(f, f.canonical(ManifestFor(f, refs, pack, signatures)), pack);
  }
}
