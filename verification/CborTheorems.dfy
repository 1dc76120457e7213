// opentine/_cbor.py: the encoder and the decoder are inverse to one another.
module CborTheorems {
  import opened Outcomes
  import opened ByteOrder
  import opened CborSyntax
  import opened CborDecoder

  // ----- heads -----

  lemma InitialByte(major: nat, info: nat)
    requires major < 8 && info < 32
    ensures (major * 32 + info) / 32 == major && (major * 32 + info) % 32 == info
  {
  }

  /** The bytes after the initial one, when there are any. */
  lemma HeadTail(value: nat, size: nat, data: seq<Byte>, pos: nat, first: Byte)
    requires pos <= |data| && [first] + BigEndian(value, size) <= data[pos..]
    ensures pos + 1 + size <= |data| && data[pos..pos + 1] == [first]
    ensures data[pos + 1..pos + 1 + size] == BigEndian(value, size)
  {
    var head := [first] + BigEndian(value, size);
    assert data[pos..pos + 1] == data[pos..][..1] == head[..1];
    assert data[pos + 1..pos + 1 + size] == data[pos..][..1 + size][1..] == head[1..];
  }

  lemma HeadRoundTrip(major: nat, value: nat, data: seq<Byte>, pos: nat)
    requires major < 8 && value < TWO_64
    requires pos <= |data| && HeadBytes(major, value) <= data[pos..]
    ensures var next := pos + |HeadBytes(major, value)|;
            ReadHead(data, pos) == Ok(Head(major, ShortestInfo(value), value, next)) && next <= |data|
  {
    var info := ShortestInfo(value);
    var size := ArgumentSize(info);
    HeadTail(value, size, data, pos, major * 32 + info);
    InitialByte(major, info);
    if info >= 24 {
      Pow256Values();
      BigEndianRoundTrip(value, size);
    }
  }

  /** An argument held in the bytes that info announces has a shortest form no wider, and
      the same form when it is as wide. */
  lemma ShortestIsLeast(argument: nat, info: nat)
    requires 24 <= info < 28 && argument < Pow256(ArgumentSize(info))
    ensures argument < TWO_64 && ArgumentSize(ShortestInfo(argument)) <= ArgumentSize(info)
    ensures ArgumentSize(ShortestInfo(argument)) == ArgumentSize(info) ==> ShortestInfo(argument) == info
  {
    Pow256Values();
  }

  /** Whatever head is read, the shortest head for its argument is no longer, and
      only the shortest one has its length. */
  lemma HeadPreferred(data: seq<Byte>, pos: nat)
    requires ReadHead(data, pos).Ok?
    ensures var h := ReadHead(data, pos).value;
            |HeadBytes(h.major, h.argument)| <= h.next - pos
    ensures var h := ReadHead(data, pos).value;
            |HeadBytes(h.major, h.argument)| == h.next - pos ==>
              data[pos..h.next] == HeadBytes(h.major, h.argument)
  {
    var h := ReadHead(data, pos).value;
    assert data[pos..pos + 1] == [data[pos]];
    if h.info >= 24 {
      var raw := data[pos + 1..h.next];
      FromBigEndianRoundTrip(raw);
      ShortestIsLeast(h.argument, h.info);
      hide Pow256;
      assert data[pos..h.next] == [data[pos]] + raw;
    } else {
      assert data[pos..h.next] == HeadBytes(h.major, h.argument);
    }
  }

  // ----- decoding what was encoded -----

  /** v fits the decoder's limits when it starts at this depth and item count. */
  predicate Fits(v: Value, items: nat, depth: nat) {
    depth + Nesting(v) <= MAX_DEPTH && items + Count(v) <= MAX_ITEMS && KeysReadable(v)
  }

  predicate FitsAll(vs: seq<Value>, items: nat, depth: nat) {
    depth + NestingAll(vs) <= MAX_DEPTH + 1 && items + CountAll(vs) <= MAX_ITEMS && KeysReadableAll(vs)
  }

  predicate FitsEntries(es: seq<Entry>, items: nat, depth: nat) {
    depth + NestingEntries(es) <= MAX_DEPTH + 1 && items + CountEntries(es) <= MAX_ITEMS && KeysReadableEntries(es)
  }

  predicate FitsEntry(e: Entry, items: nat, depth: nat) {
    depth + NestingEntry(e) <= MAX_DEPTH + 1 && items + CountEntry(e) <= MAX_ITEMS && KeysReadableEntry(e)
  }

  lemma FitsSplit(vs: seq<Value>, items: nat, depth: nat)
    requires vs != []
    ensures FitsAll(vs, items, depth) <==>
              Fits(vs[0], items, depth) && FitsAll(vs[1..], items + Count(vs[0]), depth)
  {
  }

  lemma FitsSplitEntries(es: seq<Entry>, items: nat, depth: nat)
    requires es != []
    ensures FitsEntries(es, items, depth) <==>
              FitsEntry(es[0], items, depth) && FitsEntries(es[1..], items + CountEntry(es[0]), depth)
  {
  }

  lemma FitsSplitEntry(e: Entry, items: nat, depth: nat)
    ensures FitsEntry(e, items, depth) <==>
              KeyKind(e.key) && Fits(e.key, items, depth) && Fits(e.value, items + Count(e.key), depth)
  {
  }

  ghost predicate Storable(v: Value) {
    Encodable(v) && WellFormed(v)
  }

  /** Decoding at an encoded value accepts exactly when the value fits, and then
      yields the value and stops exactly where its bytes end. */
  lemma {:induction false} ItemRoundTrip(v: Value, data: seq<Byte>, pos: nat, items: nat, depth: nat)
    requires Storable(v) && items <= MAX_ITEMS && depth <= MAX_DEPTH + 1
    requires pos <= |data| && Encode(v) <= data[pos..]
    ensures Yields(ReadItem(data, pos, items, depth), Fits(v, items, depth),
                   Parsed(v, pos + |Encode(v)|, items + Count(v)))
    decreases v, 1
  {
    if depth <= MAX_DEPTH && items + 1 <= MAX_ITEMS {
      var (major, argument) := HeadOf(v);
      EncodeSplit(v);
      HeadFirst(major, argument, BodyOf(v), data, pos);
      BodyRoundTrip(v, data, ReadHead(data, pos).value, items + 1, depth);
    }
  }

  lemma {:induction false} BodyRoundTrip(v: Value, data: seq<Byte>, h: Head, count: nat, depth: nat)
    requires Storable(v) && 0 < count <= MAX_ITEMS && depth <= MAX_DEPTH
    requires h.next <= |data| && (h.major, h.argument) == HeadOf(v) && (h.major == 7 ==> h.info == h.argument)
    requires BodyOf(v) <= data[h.next..]
    ensures Yields(ReadBody(data, h, count, depth), Fits(v, count - 1, depth),
                   Parsed(v, h.next + |BodyOf(v)|, count - 1 + Count(v)))
    decreases v, 0
  {
    hide Yields, ReadBody;
    match v {
      case Array(vs) =>
        ItemsRoundTrip(vs, data, h.next, count, depth + 1, []);
        ArrayBody(vs, data, h, count, depth);
      case Map(es) =>
        NewKeysFromNone(es);
        EntriesRoundTrip(es, data, h.next, count, depth + 1, []);
        MapBody(es, data, h, count, depth);
      case Tag(_, content) =>
        ItemRoundTrip(content, data, h.next, count, depth + 1);
        TagBody(v, data, h, count, depth);
      case _ => PlainBody(v, data, h, count, depth);
    }
  }

  lemma PlainBody(v: Value, data: seq<Byte>, h: Head, count: nat, depth: nat)
    requires Storable(v) && 0 < count <= MAX_ITEMS && depth <= MAX_DEPTH && !v.Array? && !v.Map? && !v.Tag?
    requires h.next <= |data| && (h.major, h.argument) == HeadOf(v) && (h.major == 7 ==> h.info == h.argument)
    requires BodyOf(v) <= data[h.next..]
    ensures Yields(ReadBody(data, h, count, depth), Fits(v, count - 1, depth),
                   Parsed(v, h.next + |BodyOf(v)|, count - 1 + Count(v)))
  {
    if v.Bytes? || v.Text? {
      TakePrefix(BodyOf(v), data, h.next);
    }
  }

  lemma ArrayBody(vs: seq<Value>, data: seq<Byte>, h: Head, count: nat, depth: nat)
    requires 0 < count <= MAX_ITEMS && depth <= MAX_DEPTH && h.next <= |data|
    requires EncodableAll(vs) && h.major == 4 && h.argument == |vs| && h.next + |EncodeAll(vs)| <= |data|
    requires Yields(ReadItems(data, h.next, count, depth + 1, |vs|, []), FitsAll(vs, count, depth + 1),
                    Parsed([] + vs, h.next + |EncodeAll(vs)|, count + CountAll(vs)))
    ensures Yields(ReadBody(data, h, count, depth), Fits(Array(vs), count - 1, depth),
                   Parsed(Array(vs), h.next + |EncodeAll(vs)|, count - 1 + Count(Array(vs))))
  {
    assert [] + vs == vs;
  }

  lemma MapBody(es: seq<Entry>, data: seq<Byte>, h: Head, count: nat, depth: nat)
    requires 0 < count <= MAX_ITEMS && depth <= MAX_DEPTH && h.next <= |data|
    requires EncodableEntries(es) && h.major == 5 && h.argument == |es|
    requires h.next + |EncodeEntries(es)| <= |data|
    requires Yields(ReadEntries(data, h.next, count, depth + 1, |es|, []), FitsEntries(es, count, depth + 1),
                    Parsed([] + es, h.next + |EncodeEntries(es)|, count + CountEntries(es)))
    ensures Yields(ReadBody(data, h, count, depth), Fits(Map(es), count - 1, depth),
                   Parsed(Map(es), h.next + |EncodeEntries(es)|, count - 1 + Count(Map(es))))
  {
    assert [] + es == es;
  }

  lemma TagBody(v: Value, data: seq<Byte>, h: Head, count: nat, depth: nat)
    requires 0 < count <= MAX_ITEMS && depth <= MAX_DEPTH && h.next <= |data|
    requires v.Tag? && Encodable(v) && h.major == 6 && h.argument == v.tag
    requires Yields(ReadItem(data, h.next, count, depth + 1), Fits(v.content, count, depth + 1),
                    Parsed(v.content, h.next + |Encode(v.content)|, count + Count(v.content)))
    ensures Yields(ReadBody(data, h, count, depth), Fits(v, count - 1, depth),
                   Parsed(v, h.next + |BodyOf(v)|, count - 1 + Count(v)))
  {
  }

  lemma TakePrefix(raw: seq<Byte>, data: seq<Byte>, pos: nat)
    requires pos <= |data| && raw <= data[pos..]
    ensures TakeAt(data, pos, |raw|) == Ok(raw)
  {
    assert pos + |raw| <= |data|;
    assert data[pos..pos + |raw|] == data[pos..][..|raw|] == raw;
  }

  lemma NewKeysFromNone(es: seq<Entry>)
    requires DistinctKeys(es)
    ensures NewKeys(es, [])
  {
  }

  lemma HeadFirst(major: nat, value: nat, body: seq<Byte>, data: seq<Byte>, pos: nat)
    requires major < 8 && value < TWO_64
    requires pos <= |data| && HeadBytes(major, value) + body <= data[pos..]
    ensures var next := pos + |HeadBytes(major, value)|;
            && next + |body| <= |data| && body <= data[next..]
            && ReadHead(data, pos) == Ok(Head(major, ShortestInfo(value), value, next))
  {
    var head := HeadBytes(major, value);
    assert head <= data[pos..] by {
      assert forall i :: 0 <= i < |head| ==> data[pos..][i] == (head + body)[i];
    }
    HeadRoundTrip(major, value, data, pos);
    assert data[pos + |head|..] == data[pos..][|head|..];
  }

  /** r accepts exactly when fits, and then with p. */
  ghost predicate Yields<T>(r: Outcome<Parsed<T>>, fits: bool, p: Parsed<T>) {
    (r.Ok? <==> fits) && (r.Ok? ==> r.value == p)
  }

  /** The first item, then the others: what the loop does with both. */
  lemma ItemsStep(vs: seq<Value>, data: seq<Byte>, pos: nat, items: nat, depth: nat, read: seq<Value>,
                  next: nat, count: nat, end: nat, total: nat)
    requires depth <= MAX_DEPTH + 1 && pos <= |data| && items <= MAX_ITEMS && vs != []
    requires Yields(ReadItem(data, pos, items, depth), Fits(vs[0], items, depth), Parsed(vs[0], next, count))
    requires count == items + Count(vs[0])
    requires Fits(vs[0], items, depth) ==> next <= |data| && count <= MAX_ITEMS
    requires Fits(vs[0], items, depth) ==>
      Yields(ReadItems(data, next, count, depth, |vs| - 1, read + [vs[0]]), FitsAll(vs[1..], count, depth),
             Parsed(read + [vs[0]] + vs[1..], end, total))
    ensures Yields(ReadItems(data, pos, items, depth, |vs|, read), FitsAll(vs, items, depth),
                   Parsed(read + vs, end, total))
  {
    FitsSplit(vs, items, depth);
    assert read + [vs[0]] + vs[1..] == read + vs;
  }

  lemma EntriesStep(es: seq<Entry>, data: seq<Byte>, pos: nat, items: nat, depth: nat, read: seq<Entry>,
                    next: nat, count: nat, end: nat, total: nat)
    requires depth <= MAX_DEPTH + 1 && pos <= |data| && items <= MAX_ITEMS && es != []
    requires Yields(ReadEntry(data, pos, items, depth, read), FitsEntry(es[0], items, depth),
                    Parsed(es[0], next, count))
    requires count == items + CountEntry(es[0])
    requires FitsEntry(es[0], items, depth) ==> next <= |data| && count <= MAX_ITEMS
    requires FitsEntry(es[0], items, depth) ==>
      Yields(ReadEntries(data, next, count, depth, |es| - 1, read + [es[0]]), FitsEntries(es[1..], count, depth),
             Parsed(read + [es[0]] + es[1..], end, total))
    ensures Yields(ReadEntries(data, pos, items, depth, |es|, read), FitsEntries(es, items, depth),
                   Parsed(read + es, end, total))
  {
    FitsSplitEntries(es, items, depth);
    assert read + [es[0]] + es[1..] == read + es;
  }

  lemma {:induction false} ItemsRoundTrip(vs: seq<Value>, data: seq<Byte>, pos: nat, items: nat, depth: nat,
                                          read: seq<Value>)
    requires EncodableAll(vs) && WellFormedAll(vs)
    requires items <= MAX_ITEMS && depth <= MAX_DEPTH + 1
    requires pos <= |data| && EncodeAll(vs) <= data[pos..]
    ensures Yields(ReadItems(data, pos, items, depth, |vs|, read), FitsAll(vs, items, depth),
                   Parsed(read + vs, pos + |EncodeAll(vs)|, items + CountAll(vs)))
    decreases vs, 2
  {
    if vs == [] {
      assert read + vs == read;
    } else {
      var first, rest := Encode(vs[0]), EncodeAll(vs[1..]);
      PrefixSplit(first, rest, data, pos);
      ItemRoundTrip(vs[0], data, pos, items, depth);
      var next, count := pos + |first|, items + Count(vs[0]);
      if Fits(vs[0], items, depth) {
        ItemsRoundTrip(vs[1..], data, next, count, depth, read + [vs[0]]);
      }
      ItemsStep(vs, data, pos, items, depth, read, next, count, next + |rest|, count + CountAll(vs[1..]));
    }
  }

  lemma PrefixSplit(a: seq<Byte>, b: seq<Byte>, data: seq<Byte>, pos: nat)
    requires pos <= |data| && a + b <= data[pos..]
    ensures pos + |a| <= |data| && a <= data[pos..] && b <= data[pos + |a|..]
  {
    assert forall i :: 0 <= i < |a| ==> data[pos..][i] == (a + b)[i];
    assert data[pos + |a|..] == data[pos..][|a|..];
  }

  predicate NewKeys(es: seq<Entry>, read: seq<Entry>) {
    && DistinctKeys(es)
    && (forall e | e in es :: !HasKey(read, e.key))
  }

  lemma {:induction false} EntriesRoundTrip(es: seq<Entry>, data: seq<Byte>, pos: nat, items: nat, depth: nat,
                                            read: seq<Entry>)
    requires EncodableEntries(es) && WellFormedEntries(es) && NewKeys(es, read)
    requires items <= MAX_ITEMS && depth <= MAX_DEPTH + 1
    requires pos <= |data| && EncodeEntries(es) <= data[pos..]
    ensures Yields(ReadEntries(data, pos, items, depth, |es|, read), FitsEntries(es, items, depth),
                   Parsed(read + es, pos + |EncodeEntries(es)|, items + CountEntries(es)))
    decreases es, 3
  {
    if es == [] {
      assert read + es == read;
    } else {
      var first, rest := EncodeEntry(es[0]), EncodeEntries(es[1..]);
      PrefixSplit(first, rest, data, pos);
      EntryRoundTrip(es[0], data, pos, items, depth, read);
      var next, count := pos + |first|, items + CountEntry(es[0]);
      if FitsEntry(es[0], items, depth) {
        NewKeysAfter(es, read);
        EntriesRoundTrip(es[1..], data, next, count, depth, read + [es[0]]);
      }
      EntriesStep(es, data, pos, items, depth, read, next, count, next + |rest|, count + CountEntries(es[1..]));
    }
  }

  lemma NewKeysAfter(es: seq<Entry>, read: seq<Entry>)
    requires es != [] && NewKeys(es, read)
    ensures NewKeys(es[1..], read + [es[0]])
  {
    forall e | e in es[1..]
      ensures !HasKey(read + [es[0]], e.key)
    {
      var j :| 0 <= j < |es[1..]| && es[1..][j] == e;
      assert es[j + 1] == e && es[0].key != e.key;
      if i: nat :| i < |read + [es[0]]| && (read + [es[0]])[i].key == e.key {
        assert i < |read| && read[i].key == e.key;
      }
    }
  }

  lemma {:induction false} EntryRoundTrip(e: Entry, data: seq<Byte>, pos: nat, items: nat, depth: nat,
                                          read: seq<Entry>)
    requires EncodableEntry(e) && WellFormedEntry(e) && !HasKey(read, e.key)
    requires items <= MAX_ITEMS && depth <= MAX_DEPTH + 1
    requires pos <= |data| && EncodeEntry(e) <= data[pos..]
    ensures Yields(ReadEntry(data, pos, items, depth, read), FitsEntry(e, items, depth),
                   Parsed(e, pos + |EncodeEntry(e)|, items + CountEntry(e)))
    decreases e, 2
  {
    PrefixSplit(Encode(e.key), Encode(e.value), data, pos);
    ItemRoundTrip(e.key, data, pos, items, depth);
    var next, count := pos + |Encode(e.key)|, items + Count(e.key);
    if Fits(e.key, items, depth) {
      ItemRoundTrip(e.value, data, next, count, depth);
    }
    EntryStep(e, data, pos, items, depth, read, next, count);
  }

  /** The key, then the value: what is done with both. */
  lemma EntryStep(e: Entry, data: seq<Byte>, pos: nat, items: nat, depth: nat, read: seq<Entry>, next: nat, count: nat)
    requires EncodableEntry(e) && !HasKey(read, e.key)
    requires items <= MAX_ITEMS && depth <= MAX_DEPTH + 1 && pos <= |data|
    requires next == pos + |Encode(e.key)| <= |data| && count == items + Count(e.key)
    requires Yields(ReadItem(data, pos, items, depth), Fits(e.key, items, depth), Parsed(e.key, next, count))
    requires Fits(e.key, items, depth) ==> count <= MAX_ITEMS
    requires Fits(e.key, items, depth) ==>
      Yields(ReadItem(data, next, count, depth), Fits(e.value, count, depth),
             Parsed(e.value, next + |Encode(e.value)|, count + Count(e.value)))
    ensures Yields(ReadEntry(data, pos, items, depth, read), FitsEntry(e, items, depth),
                   Parsed(e, pos + |EncodeEntry(e)|, items + CountEntry(e)))
  {
    FitsSplitEntry(e, items, depth);
  }

  /** loads(dumps(v)) is v exactly for the values within the decoder's limits;
      every other encodable value is refused, never decoded to something else. */
  lemma LoadsDumps(v: Value)
    requires Storable(v)
    ensures var fits := |Encode(v)| <= MAX_BYTES && Fits(v, 0, 0);
            && (fits ==> Loads(Encode(v)) == Ok(v))
            && (!fits ==> Loads(Encode(v)).Err?)
  {
    ItemRoundTrip(v, Encode(v), 0, 0, 0);
  }

  /** No byte may follow an encoded value. */
  lemma TrailingRefused(v: Value, rest: seq<Byte>)
    requires Storable(v) && rest != []
    ensures Loads(Encode(v) + rest).Err?
  {
    ItemRoundTrip(v, Encode(v) + rest, 0, 0, 0);
  }

  // ----- the encoding is a prefix code -----

  lemma HeadPrefixFree(m: nat, a: nat, n: nat, b: nat, r: seq<Byte>, s: seq<Byte>)
    requires m < 8 && n < 8 && a < TWO_64 && b < TWO_64
    requires HeadBytes(m, a) + r == HeadBytes(n, b) + s
    ensures m == n && a == b && r == s
  {
    var data := HeadBytes(m, a) + r;
    HeadRoundTrip(m, a, data, 0);
    HeadRoundTrip(n, b, data, 0);
    assert r == data[|HeadBytes(m, a)|..];
    assert s == data[|HeadBytes(n, b)|..];
  }

  /** The head an encoding starts with, and the bytes after it. */
  function HeadOf(v: Value): (h: (nat, nat))
    requires Encodable(v)
    ensures h.0 < 8 && h.1 < TWO_64
  {
    match v
    case Null => (7, 22)
    case Bool(b) => (7, if b then 21 else 20)
    case Int(n) => if n >= 0 then (0, n) else (1, -1 - n)
    case Bytes(raw) => (2, |raw|)
    case Text(utf8) => (3, |utf8|)
    case Array(items) => (4, |items|)
    case Map(entries) => (5, |entries|)
    case Tag(tag, _) => (6, tag)
  }

  function BodyOf(v: Value): seq<Byte>
    requires Encodable(v)
  {
    match v
    case Bytes(raw) => raw
    case Text(utf8) => utf8
    case Array(items) => EncodeAll(items)
    case Map(entries) => EncodeEntries(entries)
    case Tag(_, content) => Encode(content)
    case _ => []
  }

  lemma EncodeSplit(v: Value)
    requires Encodable(v)
    ensures Encode(v) == HeadBytes(HeadOf(v).0, HeadOf(v).1) + BodyOf(v)
  {
  }

  /** No encoding is a prefix of another, whatever the values' size, depth or keys. */
  lemma {:induction false} PrefixFree(v: Value, w: Value, r: seq<Byte>, s: seq<Byte>)
    requires Encodable(v) && Encodable(w) && Encode(v) + r == Encode(w) + s
    ensures v == w && r == s
    decreases v, 1
  {
    EncodeSplit(v);
    EncodeSplit(w);
    var hv, hw := HeadOf(v), HeadOf(w);
    Grouped(HeadBytes(hv.0, hv.1), BodyOf(v), r);
    Grouped(HeadBytes(hw.0, hw.1), BodyOf(w), s);
    HeadPrefixFree(hv.0, hv.1, hw.0, hw.1, BodyOf(v) + r, BodyOf(w) + s);
    PrefixFreeBody(v, w, r, s);
  }

  lemma {:induction false} PrefixFreeBody(v: Value, w: Value, r: seq<Byte>, s: seq<Byte>)
    requires Encodable(v) && Encodable(w) && HeadOf(v) == HeadOf(w) && BodyOf(v) + r == BodyOf(w) + s
    ensures v == w && r == s
    decreases v, 0
  {
    match v {
      case Bytes(raw) => EqualSplit(raw, r, w.raw, s);
      case Text(utf8) => EqualSplit(utf8, r, w.utf8, s);
      case Array(items) => PrefixFreeAll(items, w.items, r, s);
      case Map(entries) => PrefixFreeEntries(entries, w.entries, r, s);
      case Tag(_, content) => PrefixFree(content, w.content, r, s);
      case _ => EqualSplit([], r, [], s);
    }
  }

  lemma EqualSplit(a: seq<Byte>, r: seq<Byte>, b: seq<Byte>, s: seq<Byte>)
    requires |a| == |b| && a + r == b + s
    ensures a == b && r == s
  {
    assert a == (a + r)[..|a|] && b == (b + s)[..|b|];
    assert r == (a + r)[|a|..] && s == (b + s)[|b|..];
  }

  lemma {:induction false} PrefixFreeAll(vs: seq<Value>, ws: seq<Value>, r: seq<Byte>, s: seq<Byte>)
    requires EncodableAll(vs) && EncodableAll(ws)
    requires |vs| == |ws| && EncodeAll(vs) + r == EncodeAll(ws) + s
    ensures vs == ws && r == s
    decreases vs, 1
  {
    if vs == [] {
      EqualSplit([], r, [], s);
    } else {
      var a, b := EncodeAll(vs[1..]) + r, EncodeAll(ws[1..]) + s;
      Grouped(Encode(vs[0]), EncodeAll(vs[1..]), r);
      Grouped(Encode(ws[0]), EncodeAll(ws[1..]), s);
      PrefixFree(vs[0], ws[0], a, b);
      PrefixFreeAll(vs[1..], ws[1..], r, s);
      assert vs == [vs[0]] + vs[1..] && ws == [ws[0]] + ws[1..];
    }
  }

  lemma {:induction false} PrefixFreeEntries(es: seq<Entry>, fs: seq<Entry>, r: seq<Byte>, s: seq<Byte>)
    requires EncodableEntries(es) && EncodableEntries(fs)
    requires |es| == |fs| && EncodeEntries(es) + r == EncodeEntries(fs) + s
    ensures es == fs && r == s
    decreases es, 2
  {
    if es == [] {
      EqualSplit([], r, [], s);
    } else {
      var a, b := EncodeEntries(es[1..]) + r, EncodeEntries(fs[1..]) + s;
      Grouped(EncodeEntry(es[0]), EncodeEntries(es[1..]), r);
      Grouped(EncodeEntry(fs[0]), EncodeEntries(fs[1..]), s);
      PrefixFreeEntry(es[0], fs[0], a, b);
      PrefixFreeEntries(es[1..], fs[1..], r, s);
      assert es == [es[0]] + es[1..] && fs == [fs[0]] + fs[1..];
    }
  }

  lemma EntrySplit(e: Entry, r: seq<Byte>)
    requires EncodableEntry(e)
    ensures EncodeEntry(e) + r == Encode(e.key) + (Encode(e.value) + r)
  {
    Grouped(Encode(e.key), Encode(e.value), r);
  }

  lemma Grouped<T>(a: seq<T>, b: seq<T>, c: seq<T>)
    ensures a + b + c == a + (b + c)
  {
  }

  lemma {:induction false} PrefixFreeEntry(e: Entry, f: Entry, r: seq<Byte>, s: seq<Byte>)
    requires EncodableEntry(e) && EncodableEntry(f)
    requires EncodeEntry(e) + r == EncodeEntry(f) + s
    ensures e == f && r == s
    decreases e, 1
  {
    EntrySplit(e, r);
    EntrySplit(f, s);
    PrefixFree(e.key, f.key, Encode(e.value) + r, Encode(f.value) + s);
    PrefixFree(e.value, f.value, r, s);
  }

  // ----- encoding what was decoded: preferred serialization -----

  ghost predicate Canonical(v: Value, chunk: seq<Byte>) {
    && Encodable(v)
    && |Encode(v)| <= |chunk|
    && (|Encode(v)| == |chunk| ==> Encode(v) == chunk)
  }

  /** What was read fits the limits, and unless it holds a float it encodes, to the
      very bytes read or to fewer. */
  ghost predicate ReadBack(v: Value, chunk: seq<Byte>, items: nat, depth: nat) {
    WellFormed(v) && Fits(v, items, depth) && (FloatFree(v) ==> Canonical(v, chunk))
  }

  lemma {:induction false} ItemReadBack(data: seq<Byte>, pos: nat, items: nat, depth: nat)
    requires |data| < TWO_64 && depth <= MAX_DEPTH + 1 && ReadItem(data, pos, items, depth).Ok?
    ensures var p := ReadItem(data, pos, items, depth).value;
            p.items == items + Count(p.value) && ReadBack(p.value, data[pos..p.pos], items, depth)
    decreases MAX_DEPTH + 1 - depth, 1, 0
  {
    var p := ReadItem(data, pos, items, depth).value;
    var h := ReadHead(data, pos).value;
    HeadPreferred(data, pos);
    BodyReadBack(data, h, items + 1, depth);
    if FloatFree(p.value) {
      EncodeSplit(p.value);
      assert data[pos..p.pos] == data[pos..h.next] + data[h.next..p.pos];
    }
  }

  ghost predicate CanonicalBody(v: Value, h: Head, chunk: seq<Byte>) {
    && Encodable(v)
    && HeadOf(v) == (h.major, h.argument)
    && |BodyOf(v)| <= |chunk|
    && (|BodyOf(v)| == |chunk| ==> BodyOf(v) == chunk)
  }

  lemma {:induction false} BodyReadBack(data: seq<Byte>, h: Head, count: nat, depth: nat)
    requires |data| < TWO_64 && depth <= MAX_DEPTH && 0 < count <= MAX_ITEMS && h.next <= |data|
    requires h.major < 8 && h.argument < TWO_64 && ReadBody(data, h, count, depth).Ok?
    ensures var p := ReadBody(data, h, count, depth).value;
            BodyRead(p, data, h, count, depth)
    decreases MAX_DEPTH + 1 - depth, 0, 1
  {
    hide BodyRead, ReadBody;
    match h.major {
      case 4 => ArrayReadBack(data, h, count, depth);
      case 5 => MapReadBack(data, h, count, depth);
      case 6 => TagReadBack(data, h, count, depth);
      case _ => LeafReadBack(data, h, count, depth);
    }
  }

  /** What was read inside a body that was read. */
  lemma BodyParts(data: seq<Byte>, h: Head, count: nat, depth: nat)
    requires depth <= MAX_DEPTH && 0 < count <= MAX_ITEMS && h.next <= |data| && ReadBody(data, h, count, depth).Ok?
    ensures h.major == 4 ==> ReadItems(data, h.next, count, depth + 1, h.argument, []).Ok?
    ensures h.major == 5 ==> ReadEntries(data, h.next, count, depth + 1, h.argument, []).Ok?
    ensures h.major == 6 ==> ReadItem(data, h.next, count, depth + 1).Ok?
  {
  }

  /** What BodyReadBack promises of one body. */
  ghost predicate BodyRead(p: Parsed<Value>, data: seq<Byte>, h: Head, count: nat, depth: nat)
    requires 0 < count && h.next <= p.pos <= |data|
  {
    && p.items == count - 1 + Count(p.value)
    && WellFormed(p.value) && Fits(p.value, count - 1, depth)
    && (FloatFree(p.value) ==> CanonicalBody(p.value, h, data[h.next..p.pos]))
  }

  lemma {:induction false} ArrayReadBack(data: seq<Byte>, h: Head, count: nat, depth: nat)
    requires |data| < TWO_64 && depth <= MAX_DEPTH && 0 < count <= MAX_ITEMS && h.next <= |data|
    requires h.major == 4 && h.argument < TWO_64 && ReadBody(data, h, count, depth).Ok?
    ensures BodyRead(ReadBody(data, h, count, depth).value, data, h, count, depth)
    decreases MAX_DEPTH + 1 - depth, 0, 0
  {
    BodyParts(data, h, count, depth);
    hide BodyRead, ItemsRead, EntriesRead, ReadBack, ReadBody;
    ItemsReadBack(data, h.next, count, depth + 1, h.argument, []);
    ArrayRead(data, h, count, depth);
  }

  lemma ArrayRead(data: seq<Byte>, h: Head, count: nat, depth: nat)
    requires depth <= MAX_DEPTH && 0 < count <= MAX_ITEMS && h.next <= |data|
    requires h.major == 4 && h.argument < TWO_64 && ReadBody(data, h, count, depth).Ok?
    requires var p := ReadItems(data, h.next, count, depth + 1, h.argument, []).value;
             ItemsRead(p, p.value[0..], h.argument, data, h.next, count, depth + 1)
    ensures BodyRead(ReadBody(data, h, count, depth).value, data, h, count, depth)
  {
    var p := ReadItems(data, h.next, count, depth + 1, h.argument, []).value;
    assert p.value[0..] == p.value;
  }

  lemma {:induction false} MapReadBack(data: seq<Byte>, h: Head, count: nat, depth: nat)
    requires |data| < TWO_64 && depth <= MAX_DEPTH && 0 < count <= MAX_ITEMS && h.next <= |data|
    requires h.major == 5 && h.argument < TWO_64 && ReadBody(data, h, count, depth).Ok?
    ensures BodyRead(ReadBody(data, h, count, depth).value, data, h, count, depth)
    decreases MAX_DEPTH + 1 - depth, 0, 0
  {
    BodyParts(data, h, count, depth);
    hide BodyRead, ItemsRead, EntriesRead, ReadBack, ReadBody;
    EntriesReadBack(data, h.next, count, depth + 1, h.argument, []);
    MapRead(data, h, count, depth);
  }

  lemma MapRead(data: seq<Byte>, h: Head, count: nat, depth: nat)
    requires depth <= MAX_DEPTH && 0 < count <= MAX_ITEMS && h.next <= |data|
    requires h.major == 5 && h.argument < TWO_64 && ReadBody(data, h, count, depth).Ok?
    requires var p := ReadEntries(data, h.next, count, depth + 1, h.argument, []).value;
             EntriesRead(p, p.value[0..], h.argument, [], data, h.next, count, depth + 1)
    ensures BodyRead(ReadBody(data, h, count, depth).value, data, h, count, depth)
  {
    var p := ReadEntries(data, h.next, count, depth + 1, h.argument, []).value;
    assert p.value[0..] == p.value;
  }

  lemma {:induction false} TagReadBack(data: seq<Byte>, h: Head, count: nat, depth: nat)
    requires |data| < TWO_64 && depth <= MAX_DEPTH && 0 < count <= MAX_ITEMS && h.next <= |data|
    requires h.major == 6 && h.argument < TWO_64 && ReadBody(data, h, count, depth).Ok?
    ensures BodyRead(ReadBody(data, h, count, depth).value, data, h, count, depth)
    decreases MAX_DEPTH + 1 - depth, 0, 0
  {
    BodyParts(data, h, count, depth);
    hide BodyRead, ItemsRead, EntriesRead, ReadBack, ReadBody;
    ItemReadBack(data, h.next, count, depth + 1);
    TagRead(data, h, count, depth);
  }

  lemma TagRead(data: seq<Byte>, h: Head, count: nat, depth: nat)
    requires depth <= MAX_DEPTH && 0 < count <= MAX_ITEMS && h.next <= |data|
    requires h.major == 6 && h.argument < TWO_64 && ReadBody(data, h, count, depth).Ok?
    requires var p := ReadItem(data, h.next, count, depth + 1).value;
             p.items == count + Count(p.value) && ReadBack(p.value, data[h.next..p.pos], count, depth + 1)
    ensures BodyRead(ReadBody(data, h, count, depth).value, data, h, count, depth)
  {
  }

  lemma LeafReadBack(data: seq<Byte>, h: Head, count: nat, depth: nat)
    requires |data| < TWO_64 && depth <= MAX_DEPTH && 0 < count <= MAX_ITEMS && h.next <= |data|
    requires (h.major <= 3 || h.major == 7) && h.argument < TWO_64 && ReadBody(data, h, count, depth).Ok?
    ensures BodyRead(ReadBody(data, h, count, depth).value, data, h, count, depth)
  {
  }

  /** What ItemsReadBack promises of the n items vs it read from pos on. */
  ghost predicate ItemsRead(p: Parsed<seq<Value>>, vs: seq<Value>, n: nat, data: seq<Byte>, pos: nat, items: nat,
                            depth: nat)
  {
    && |vs| == n && pos <= p.pos <= |data|
    && p.items == items + CountAll(vs) && FitsAll(vs, items, depth) && WellFormedAll(vs)
    && (FloatFreeAll(vs) ==> CanonicalAll(vs, data[pos..p.pos]))
  }

  ghost predicate EntriesRead(p: Parsed<seq<Entry>>, es: seq<Entry>, n: nat, read: seq<Entry>, data: seq<Byte>,
                              pos: nat, items: nat, depth: nat)
  {
    && |es| == n && pos <= p.pos <= |data|
    && p.items == items + CountEntries(es) && FitsEntries(es, items, depth) && WellFormedEntries(es)
    && NewKeys(es, read)
    && (FloatFreeEntries(es) ==> CanonicalEntries(es, data[pos..p.pos]))
  }

  ghost predicate CanonicalAll(vs: seq<Value>, chunk: seq<Byte>) {
    && EncodableAll(vs)
    && |EncodeAll(vs)| <= |chunk|
    && (|EncodeAll(vs)| == |chunk| ==> EncodeAll(vs) == chunk)
  }

  lemma {:induction false} ItemsReadBack(data: seq<Byte>, pos: nat, items: nat, depth: nat, n: nat,
                                         read: seq<Value>)
    requires |data| < TWO_64 && depth <= MAX_DEPTH + 1 && pos <= |data| && items <= MAX_ITEMS
    requires ReadItems(data, pos, items, depth, n, read).Ok?
    ensures var p := ReadItems(data, pos, items, depth, n, read).value;
            && |p.value| == |read| + n && p.value[..|read|] == read
            && ItemsRead(p, p.value[|read|..], n, data, pos, items, depth)
    decreases MAX_DEPTH + 1 - depth, 3, n
  {
    var p := ReadItems(data, pos, items, depth, n, read).value;
    if n == 0 {
      assert p.value[|read|..] == [];
    } else {
      var q := ReadItem(data, pos, items, depth).value;
      ItemReadBack(data, pos, items, depth);
      ItemsReadBack(data, q.pos, q.items, depth, n - 1, read + [q.value]);
      OneFromRest(p.value, read, q.value);
      assert data[pos..p.pos] == data[pos..q.pos] + data[q.pos..p.pos];
    }
  }

  /** One element more than had been read, then the rest. */
  lemma OneFromRest<T>(all: seq<T>, read: seq<T>, x: T)
    requires |read| + 1 <= |all| && all[..|read + [x]|] == read + [x]
    ensures all[..|read|] == read
    ensures all[|read|..] == [x] + all[|read| + 1..] && all[|read|..][0] == x && all[|read|..][1..] == all[|read| + 1..]
  {
    assert forall i :: 0 <= i < |read + [x]| ==> all[i] == (read + [x])[i];
  }

  ghost predicate CanonicalEntries(es: seq<Entry>, chunk: seq<Byte>) {
    && EncodableEntries(es)
    && |EncodeEntries(es)| <= |chunk|
    && (|EncodeEntries(es)| == |chunk| ==> EncodeEntries(es) == chunk)
  }

  ghost predicate CanonicalEntry(e: Entry, chunk: seq<Byte>) {
    && EncodableEntry(e)
    && |EncodeEntry(e)| <= |chunk|
    && (|EncodeEntry(e)| == |chunk| ==> EncodeEntry(e) == chunk)
  }

  lemma {:induction false} EntriesReadBack(data: seq<Byte>, pos: nat, items: nat, depth: nat, n: nat,
                                           read: seq<Entry>)
    requires |data| < TWO_64 && depth <= MAX_DEPTH + 1 && pos <= |data| && items <= MAX_ITEMS
    requires ReadEntries(data, pos, items, depth, n, read).Ok?
    ensures var p := ReadEntries(data, pos, items, depth, n, read).value;
            && |p.value| == |read| + n && p.value[..|read|] == read
            && EntriesRead(p, p.value[|read|..], n, read, data, pos, items, depth)
    decreases MAX_DEPTH + 1 - depth, 3, n
  {
    var p := ReadEntries(data, pos, items, depth, n, read).value;
    if n == 0 {
      assert p.value[|read|..] == [];
    } else {
      var q := ReadEntry(data, pos, items, depth, read).value;
      EntryReadBack(data, pos, items, depth, read);
      EntriesReadBack(data, q.pos, q.items, depth, n - 1, read + [q.value]);
      OneFromRest(p.value, read, q.value);
      NewKeysBefore(p.value[|read|..], read);
      assert data[pos..p.pos] == data[pos..q.pos] + data[q.pos..p.pos];
    }
  }

  lemma NewKeysBefore(es: seq<Entry>, read: seq<Entry>)
    requires es != [] && NewKeys(es[1..], read + [es[0]]) && !HasKey(read, es[0].key)
    ensures NewKeys(es, read)
  {
    var more := read + [es[0]];
    forall e | e in es[1..]
      ensures !HasKey(read, e.key) && e.key != es[0].key
    {
      assert !HasKey(more, e.key) && more[|read|] == es[0];
      assert forall i :: 0 <= i < |read| ==> more[i] == read[i];
    }
    forall i, j | 0 <= i < j < |es|
      ensures es[i].key != es[j].key
    {
      assert es[j] == es[1..][j - 1];
      if i > 0 {
        assert es[i] == es[1..][i - 1];
      }
    }
  }

  lemma {:induction false} EntryReadBack(data: seq<Byte>, pos: nat, items: nat, depth: nat, read: seq<Entry>)
    requires |data| < TWO_64 && depth <= MAX_DEPTH + 1 && ReadEntry(data, pos, items, depth, read).Ok?
    ensures var p := ReadEntry(data, pos, items, depth, read).value;
            var e := p.value;
            && p.items == items + CountEntry(e) && FitsEntry(e, items, depth) && !HasKey(read, e.key)
            && WellFormedEntry(e) && (FloatFreeEntry(e) ==> CanonicalEntry(e, data[pos..p.pos]))
    decreases MAX_DEPTH + 1 - depth, 2, 0
  {
    var k := ReadItem(data, pos, items, depth).value;
    ItemReadBack(data, pos, items, depth);
    ItemReadBack(data, k.pos, k.items, depth);
    var p := ReadEntry(data, pos, items, depth, read).value;
    assert data[pos..p.pos] == data[pos..k.pos] + data[k.pos..p.pos];
  }

  /** Whatever float-free value a byte string decodes to, dumps spells it in no
      more bytes, those bytes decode to it again, and they are the only spelling
      of that length: the encoder writes the unique shortest one. */
  lemma DumpsLoads(data: seq<Byte>)
    requires Loads(data).Ok? && FloatFree(Loads(data).value)
    ensures var v := Loads(data).value;
            && Storable(v) && Loads(Encode(v)) == Ok(v)
            && |Encode(v)| <= |data|
            && (|Encode(v)| == |data| <==> Encode(v) == data)
  {
    ItemReadBack(data, 0, 0, 0);
    assert data[0..|data|] == data;
    LoadsDumps(Loads(data).value);
  }
}
