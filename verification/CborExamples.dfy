// opentine/_cbor.py against examples of RFC 8949, appendix A, and its simple values.
module CborExamples {
  import opened Outcomes
  import opened ByteOrder
  import opened CborSyntax
  import opened CborDecoder
  import opened CborTheorems

  // ----- written -----

  lemma SmallHead(major: nat, n: nat)
    requires major < 8 && n < 24
    ensures HeadBytes(major, n) == [major * 32 + n]
  {
  }

  lemma OneByteHead(major: nat, n: nat)
    requires major < 8 && 24 <= n < 0x100
    ensures HeadBytes(major, n) == [major * 32 + 24, n]
  {
    assert BigEndian(n, 1) == BigEndian(n / 256, 0) + [n % 256];
  }

  lemma TwoByteHead(major: nat, n: nat)
    requires major < 8 && 0x100 <= n < 0x1_0000
    ensures HeadBytes(major, n) == [major * 32 + 25, n / 256, n % 256]
  {
    assert BigEndian(n, 2) == BigEndian(n / 256, 1) + [n % 256];
    assert BigEndian(n / 256, 1) == BigEndian(n / 256 / 256, 0) + [n / 256 % 256];
  }

  lemma Heads()
    ensures HeadBytes(0, 0) == [0x00] && HeadBytes(0, 23) == [0x17] && HeadBytes(0, 24) == [0x18, 0x18]
    ensures HeadBytes(0, 1000) == [0x19, 0x03, 0xE8] && HeadBytes(1, 999) == [0x39, 0x03, 0xE7]
    ensures HeadBytes(7, 20) == [0xF4] && HeadBytes(7, 21) == [0xF5] && HeadBytes(7, 22) == [0xF6]
    ensures HeadBytes(2, 4) == [0x44] && HeadBytes(3, 1) == [0x61] && HeadBytes(4, 2) == [0x82]
    ensures HeadBytes(5, 1) == [0xA1] && HeadBytes(6, 32) == [0xD8, 0x20]
  {
    hide HeadBytes;
    SmallHead(0, 0);
    SmallHead(0, 23);
    OneByteHead(0, 24);
    TwoByteHead(0, 1000);
    TwoByteHead(1, 999);
    SmallHead(7, 20);
    SmallHead(7, 21);
    SmallHead(7, 22);
    SmallHead(2, 4);
    SmallHead(3, 1);
    SmallHead(4, 2);
    SmallHead(5, 1);
    OneByteHead(6, 32);
  }

  lemma ScalarsWritten()
    ensures Encode(Int(0)) == [0x00] && Encode(Int(23)) == [0x17] && Encode(Int(24)) == [0x18, 0x18]
    ensures Encode(Int(1000)) == [0x19, 0x03, 0xE8]
    ensures Encode(Int(-1)) == [0x20] && Encode(Int(-1000)) == [0x39, 0x03, 0xE7]
    ensures Encode(Bool(false)) == [0xF4] && Encode(Bool(true)) == [0xF5] && Encode(Null) == [0xF6]
    ensures Encode(Bytes([1, 2, 3, 4])) == [0x44, 1, 2, 3, 4] && Encode(Text([0x61])) == [0x61, 0x61]
  {
    hide HeadBytes;
    Heads();
    SmallHead(1, 0);
  }

  lemma CollectionsWritten()
    ensures var v := Array([Int(1), Int(2)]); Encodable(v) && Encode(v) == [0x82, 1, 2]
    ensures var v := Map([Entry(Int(1), Int(2))]); Encodable(v) && Encode(v) == [0xA1, 1, 2]
    ensures var v := Tag(32, Text([0x61])); Encodable(v) && Encode(v) == [0xD8, 0x20, 0x61, 0x61]
  {
    hide HeadBytes;
    Heads();
    SmallHead(0, 1);
    SmallHead(0, 2);
    assert EncodeAll([Int(2)]) == [2];
  }

  // ----- read -----

  lemma MajorOf(data: seq<Byte>)
    requires data != [] && ReadHead(data, 0).Ok?
    ensures var h := ReadHead(data, 0).value; h.major == data[0] / 32 && h.info == data[0] % 32
  {
  }

  lemma ShortHeads(data: seq<Byte>)
    requires data != []
    ensures data[0] % 32 < 24 ==> ReadHead(data, 0) == Ok(Head(data[0] / 32, data[0] % 32, data[0] % 32, 1))
    ensures data[0] == 0xF8 && |data| >= 2 ==> ReadHead(data, 0) == Ok(Head(7, 24, data[1], 2))
    ensures data[0] == 0xF8 && |data| < 2 ==> ReadHead(data, 0).Err?
  {
    assert data[0..1] == [data[0]];
    if |data| >= 2 {
      assert data[1..2] == [data[1]];
      assert FromBigEndian([data[1]]) == data[1];
    }
  }

  /** false, true and null each have two forms, of one and of two bytes, and no other. */
  lemma SimpleLoads(data: seq<Byte>, v: Value, code: nat)
    requires (v, code) in {(Bool(false), 20), (Bool(true), 21), (Null, 22)}
    ensures Loads(data) == Ok(v) <==> data == [0xE0 + code] || data == [0xF8, code]
  {
    hide ReadItems, ReadEntries, Utf8, ReadHead;
    if data != [] {
      ShortHeads(data);
      assert |data| == 1 ==> data == [data[0]];
      assert |data| == 2 ==> data == [data[0], data[1]];
      if ReadHead(data, 0).Ok? {
        MajorOf(data);
        assert Loads(data) == Ok(v) ==> ReadHead(data, 0).value.major == 7;
      }
    }
  }

  // ----- limits -----

  /** An array in an array, and so on, n deep. */
  function Boxes(n: nat): Value {
    if n == 0 then Null else Array([Boxes(n - 1)])
  }

  lemma {:induction false} BoxesFit(n: nat)
    ensures Storable(Boxes(n)) && |Encode(Boxes(n))| == n + 1
    ensures Nesting(Boxes(n)) == n && Count(Boxes(n)) == n + 1 && KeysReadable(Boxes(n))
  {
    if n > 0 {
      BoxesFit(n - 1);
      var v := Boxes(n - 1);
      assert [v][1..] == [];
      SmallHead(4, 1);
    }
  }

  /** Sixteen levels are read and no more. */
  lemma DepthLimit(n: nat)
    ensures Storable(Boxes(n)) && (Loads(Encode(Boxes(n))).Ok? <==> n <= 16)
  {
    BoxesFit(n);
    LoadsDumps(Boxes(n));
  }

  function Nulls(n: nat): (vs: seq<Value>)
    ensures |vs| == n
  {
    if n == 0 then [] else [Null] + Nulls(n - 1)
  }

  lemma {:induction false} NullsFit(n: nat)
    ensures EncodableAll(Nulls(n)) && WellFormedAll(Nulls(n)) && |EncodeAll(Nulls(n))| == n
    ensures NestingAll(Nulls(n)) <= 1 && CountAll(Nulls(n)) == n && KeysReadableAll(Nulls(n))
  {
    if n > 0 {
      NullsFit(n - 1);
      assert Nulls(n)[1..] == Nulls(n - 1);
      SmallHead(7, 22);
    }
  }

  /** An array is one item and each of its elements another; 100,000 are read and no more. */
  lemma ItemLimit(n: nat)
    requires n < 0x100_0000 - 9
    ensures var v := Array(Nulls(n)); Storable(v) && (Loads(Encode(v)).Ok? <==> n < 100_000)
  {
    var v := Array(Nulls(n));
    NullsFit(n);
    assert |HeadBytes(4, n)| <= 9;
    LoadsDumps(v);
  }

  /** A key is an int or a text. */
  lemma KeysAre(k: Value, v: Value)
    ensures KeysReadable(Map([Entry(k, v)])) <==> (k.Int? || k.Text?) && KeysReadable(v)
  {
    var es := [Entry(k, v)];
    assert es[1..] == [] && KeysReadableEntries(es) == KeysReadableEntry(es[0]);
  }

  /** What can be written holds no float. */
  lemma {:induction false} EncodableFloatFree(v: Value)
    requires Encodable(v)
    ensures FloatFree(v)
    decreases v, 0
  {
    match v
    case Array(items) => AllFloatFree(items);
    case Map(entries) => EntriesFloatFree(entries);
    case Tag(_, content) => EncodableFloatFree(content);
    case _ =>
  }

  lemma {:induction false} AllFloatFree(vs: seq<Value>)
    requires EncodableAll(vs)
    ensures FloatFreeAll(vs)
    decreases vs, 1
  {
    if vs != [] {
      EncodableFloatFree(vs[0]);
      AllFloatFree(vs[1..]);
    }
  }

  lemma {:induction false} EntriesFloatFree(es: seq<Entry>)
    requires EncodableEntries(es)
    ensures FloatFreeEntries(es)
    decreases es, 2
  {
    if es != [] {
      EntryFloatFree(es[0]);
      EntriesFloatFree(es[1..]);
    }
  }

  lemma {:induction false} EntryFloatFree(e: Entry)
    requires EncodableEntry(e)
    ensures FloatFreeEntry(e)
    decreases e, 1
  {
    EncodableFloatFree(e.key);
    EncodableFloatFree(e.value);
  }
}
