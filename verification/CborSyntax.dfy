// opentine/_cbor.py: the values of the codec, the head of an item, and the
// encoder's meaning (RFC 8949 sections 3 and 4.1).
module CborSyntax {
  import opened Basics
  import opened ByteOrder

  const MAX_DEPTH := 16
  const MAX_ITEMS := 100_000
  const MAX_BYTES := 0x100_0000
  const TWO_64 := 0x1_0000_0000_0000_0000

  datatype Entry = Entry(key: Value, value: Value)

  /** What the codec decodes to. Text is held as its UTF-8 bytes, a dict as its
      entries in insertion order, a float as its IEEE 754 width and bits. */
  datatype Value =
    | Null
    | Bool(b: bool)
    | Int(n: int)
    | Bytes(raw: seq<Byte>)
    | Text(utf8: seq<Byte>)
    | Array(items: seq<Value>)
    | Map(entries: seq<Entry>)
    | Tag(tag: int, content: Value)
    | Float(width: nat, bits: nat)

  datatype CborError =
    | PastInput | ReservedHead | TooDeep | TooManyItems | NotUtf8 | ArrayTooLong | MapTooLong
    | BadKey | BadSimple | InputTooLarge | TrailingBytes | IntTooLarge | NotEncodable

  // ----- UTF-8, as the strict decoder accepts it (Unicode table 3-7) -----

  predicate Continuation(s: seq<Byte>, i: nat) {
    i < |s| && 0x80 <= s[i] < 0xC0
  }

  /** The length of the well-formed sequence at the front of s, or 0. */
  function Utf8Width(s: seq<Byte>): (n: nat)
    ensures n <= |s|
  {
    if |s| == 0 then 0
    else if s[0] < 0x80 then 1
    else if 0xC2 <= s[0] < 0xE0 && Continuation(s, 1) then 2
    else if 0xE0 <= s[0] < 0xF0 && Continuation(s, 1) && Continuation(s, 2) &&
            (s[0] == 0xE0 ==> 0xA0 <= s[1]) && (s[0] == 0xED ==> s[1] < 0xA0) then 3
    else if 0xF0 <= s[0] < 0xF5 && Continuation(s, 1) && Continuation(s, 2) && Continuation(s, 3) &&
            (s[0] == 0xF0 ==> 0x90 <= s[1]) && (s[0] == 0xF4 ==> s[1] < 0x90) then 4
    else 0
  }

  predicate Utf8(s: seq<Byte>) {
    s == [] || (Utf8Width(s) > 0 && Utf8(s[Utf8Width(s)..]))
  }

  // ----- heads -----

  /** The additional information of the shortest head holding value, and its size. */
  function ShortestInfo(value: nat): (info: nat)
    requires value < TWO_64
    ensures info < 28
  {
    if value < 24 then value
    else if value < 0x100 then 24
    else if value < 0x1_0000 then 25
    else if value < 0x1_0000_0000 then 26
    else 27
  }

  /** How many argument bytes follow an initial byte with this additional information. */
  function ArgumentSize(info: nat): nat {
    if info < 24 then 0 else if info == 24 then 1 else if info == 25 then 2 else if info == 26 then 4 else 8
  }

  function HeadBytes(major: nat, value: nat): (s: seq<Byte>)
    requires major < 8 && value < TWO_64
    ensures |s| == 1 + ArgumentSize(ShortestInfo(value))
  {
    var info := ShortestInfo(value);
    [major * 32 + info] + BigEndian(value, ArgumentSize(info))
  }

  // ----- the encoder's meaning -----

  /** The values dumps accepts: no float, integers and lengths within 64 bits. */
  predicate Encodable(v: Value)
    decreases v, 0
  {
    match v
    case Null => true
    case Bool(_) => true
    case Int(n) => -TWO_64 <= n < TWO_64
    case Bytes(raw) => |raw| < TWO_64
    case Text(utf8) => |utf8| < TWO_64
    case Array(items) => |items| < TWO_64 && EncodableAll(items)
    case Map(entries) => |entries| < TWO_64 && EncodableEntries(entries)
    case Tag(tag, content) => 0 <= tag < TWO_64 && Encodable(content)
    case Float(_, _) => false
  }

  predicate EncodableAll(vs: seq<Value>)
    decreases vs, 1
  {
    vs == [] || (Encodable(vs[0]) && EncodableAll(vs[1..]))
  }

  predicate EncodableEntries(es: seq<Entry>)
    decreases es, 2
  {
    es == [] || (EncodableEntry(es[0]) && EncodableEntries(es[1..]))
  }

  predicate EncodableEntry(e: Entry)
    decreases e, 1
  {
    Encodable(e.key) && Encodable(e.value)
  }

  function Encode(v: Value): (s: seq<Byte>)
    requires Encodable(v)
    ensures |s| > 0
    decreases v, 0
  {
    match v
    case Null => HeadBytes(7, 22)
    case Bool(b) => HeadBytes(7, if b then 21 else 20)
    case Int(n) => if n >= 0 then HeadBytes(0, n) else HeadBytes(1, -1 - n)
    case Bytes(raw) => HeadBytes(2, |raw|) + raw
    case Text(utf8) => HeadBytes(3, |utf8|) + utf8
    case Array(items) => HeadBytes(4, |items|) + EncodeAll(items)
    case Map(entries) => HeadBytes(5, |entries|) + EncodeEntries(entries)
    case Tag(tag, content) => HeadBytes(6, tag) + Encode(content)
  }

  function EncodeAll(vs: seq<Value>): (s: seq<Byte>)
    requires EncodableAll(vs)
    ensures |vs| <= |s|
    decreases vs, 1
  {
    if vs == [] then [] else Encode(vs[0]) + EncodeAll(vs[1..])
  }

  function EncodeEntries(es: seq<Entry>): (s: seq<Byte>)
    requires EncodableEntries(es)
    ensures |es| <= |s|
    decreases es, 2
  {
    if es == [] then [] else EncodeEntry(es[0]) + EncodeEntries(es[1..])
  }

  function EncodeEntry(e: Entry): (s: seq<Byte>)
    requires EncodableEntry(e)
    ensures |s| > 1
    decreases e, 1
  {
    Encode(e.key) + Encode(e.value)
  }

  // ----- the decoder's domain -----

  predicate KeyKind(v: Value) {
    v.Int? || v.Text?
  }

  predicate HasKey(es: seq<Entry>, k: Value) {
    exists i :: 0 <= i < |es| && es[i].key == k
  }

  predicate DistinctKeys(es: seq<Entry>) {
    forall i, j :: 0 <= i < j < |es| ==> es[i].key != es[j].key
  }

  /** No two entries of a dict share a key, at any level; text is UTF-8. */
  predicate WellFormed(v: Value)
    decreases v, 0
  {
    match v
    case Text(utf8) => Utf8(utf8)
    case Array(items) => WellFormedAll(items)
    case Map(entries) => DistinctKeys(entries) && WellFormedEntries(entries)
    case Tag(_, content) => WellFormed(content)
    case _ => true
  }

  predicate WellFormedAll(vs: seq<Value>)
    decreases vs, 1
  {
    vs == [] || (WellFormed(vs[0]) && WellFormedAll(vs[1..]))
  }

  predicate WellFormedEntries(es: seq<Entry>)
    decreases es, 2
  {
    es == [] || (WellFormedEntry(es[0]) && WellFormedEntries(es[1..]))
  }

  predicate WellFormedEntry(e: Entry)
    decreases e, 1
  {
    WellFormed(e.key) && WellFormed(e.value)
  }

  /** Every dict key, at every level, is an integer or text. */
  predicate KeysReadable(v: Value)
    decreases v, 0
  {
    match v
    case Array(items) => KeysReadableAll(items)
    case Map(entries) => KeysReadableEntries(entries)
    case Tag(_, content) => KeysReadable(content)
    case _ => true
  }

  predicate KeysReadableAll(vs: seq<Value>)
    decreases vs, 1
  {
    vs == [] || (KeysReadable(vs[0]) && KeysReadableAll(vs[1..]))
  }

  predicate KeysReadableEntries(es: seq<Entry>)
    decreases es, 2
  {
    es == [] || (KeysReadableEntry(es[0]) && KeysReadableEntries(es[1..]))
  }

  predicate KeysReadableEntry(e: Entry)
    decreases e, 1
  {
    KeyKind(e.key) && KeysReadable(e.value)
  }

  predicate FloatFree(v: Value)
    decreases v, 0
  {
    match v
    case Array(items) => FloatFreeAll(items)
    case Map(entries) => FloatFreeEntries(entries)
    case Tag(_, content) => FloatFree(content)
    case Float(_, _) => false
    case _ => true
  }

  predicate FloatFreeAll(vs: seq<Value>)
    decreases vs, 1
  {
    vs == [] || (FloatFree(vs[0]) && FloatFreeAll(vs[1..]))
  }

  predicate FloatFreeEntries(es: seq<Entry>)
    decreases es, 2
  {
    es == [] || (FloatFreeEntry(es[0]) && FloatFreeEntries(es[1..]))
  }

  predicate FloatFreeEntry(e: Entry)
    decreases e, 1
  {
    FloatFree(e.key) && FloatFree(e.value)
  }

  /** The number of data items in v: itself and everything nested in it. */
  function Count(v: Value): (n: nat)
    ensures n >= 1
    decreases v, 0
  {
    match v
    case Array(items) => 1 + CountAll(items)
    case Map(entries) => 1 + CountEntries(entries)
    case Tag(_, content) => 1 + Count(content)
    case _ => 1
  }

  function CountAll(vs: seq<Value>): nat
    decreases vs, 1
  {
    if vs == [] then 0 else Count(vs[0]) + CountAll(vs[1..])
  }

  function CountEntries(es: seq<Entry>): nat
    decreases es, 2
  {
    if es == [] then 0 else CountEntry(es[0]) + CountEntries(es[1..])
  }

  function CountEntry(e: Entry): nat
    decreases e, 1
  {
    Count(e.key) + Count(e.value)
  }

  /** How many levels of items v holds below itself. */
  function Nesting(v: Value): nat
    decreases v, 0
  {
    match v
    case Array(items) => NestingAll(items)
    case Map(entries) => NestingEntries(entries)
    case Tag(_, content) => 1 + Nesting(content)
    case _ => 0
  }

  function NestingAll(vs: seq<Value>): nat
    decreases vs, 1
  {
    if vs == [] then 0 else Max(1 + Nesting(vs[0]), NestingAll(vs[1..]))
  }

  function NestingEntries(es: seq<Entry>): nat
    decreases es, 2
  {
    if es == [] then 0
    else Max(NestingEntry(es[0]), NestingEntries(es[1..]))
  }

  function NestingEntry(e: Entry): nat
    decreases e, 1
  {
    1 + Max(Nesting(e.key), Nesting(e.value))
  }
}
