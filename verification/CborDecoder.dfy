// opentine/_cbor.py: what the bounded reader computes, as functions of the
// input and the cursor, and the reader itself, which advances its own fields.
module CborDecoder {
  import opened Outcomes
  import opened ByteOrder
  import opened CborSyntax

  type Outcome<T> = Result<T, CborError>

  datatype Head = Head(major: nat, info: nat, argument: nat, next: nat)

  /** A decoded item, and where the cursor and the item budget stand after it. */
  datatype Parsed<T> = Parsed(value: T, pos: nat, items: nat)

  function TakeAt(data: seq<Byte>, pos: nat, n: int): Outcome<seq<Byte>> {
    if n < 0 || pos + n > |data| then Err(PastInput) else Ok(data[pos..pos + n])
  }

  function ReadHead(data: seq<Byte>, pos: nat): (r: Outcome<Head>)
    ensures r.Ok? ==> r.value.major < 8 && r.value.info < 28 && r.value.argument < TWO_64
    ensures r.Ok? ==> pos < r.value.next <= |data|
    ensures r.Ok? ==> r.value.next == pos + 1 + ArgumentSize(r.value.info)
  {
    var first :- TakeAt(data, pos, 1);
    var major, info := first[0] / 32, first[0] % 32;
    if info < 24 then Ok(Head(major, info, info, pos + 1))
    else if info > 27 then Err(ReservedHead)
    else
      var raw :- TakeAt(data, pos + 1, ArgumentSize(info));
      FromBigEndianRoundTrip(raw);
      Pow256Values();
      Ok(Head(major, info, FromBigEndian(raw), pos + 1 + |raw|))
  }

  lemma Pow256Values()
    ensures Pow256(0) == 1 && Pow256(1) == 0x100 && Pow256(2) == 0x1_0000
    ensures Pow256(4) == 0x1_0000_0000 && Pow256(8) == TWO_64
  {
    assert Pow256(3) == 256 * Pow256(2);
    assert Pow256(4) == 256 * Pow256(3);
    assert Pow256(5) == 256 * Pow256(4);
    assert Pow256(6) == 256 * Pow256(5);
    assert Pow256(7) == 256 * Pow256(6);
  }

  function Simple(info: nat, argument: nat): Outcome<Value> {
    if info <= 24 then
      if argument == 20 then Ok(Bool(false))
      else if argument == 21 then Ok(Bool(true))
      else if argument == 22 then Ok(Null)
      else Err(BadSimple)
    else Ok(Float(ArgumentSize(info), argument))
  }

  function ReadItem(data: seq<Byte>, pos: nat, items: nat, depth: nat): (r: Outcome<Parsed<Value>>)
    requires depth <= MAX_DEPTH + 1
    ensures r.Ok? ==> pos < r.value.pos <= |data| && items < r.value.items <= MAX_ITEMS
    ensures r.Ok? ==> r.value.items - items <= r.value.pos - pos
    decreases MAX_DEPTH + 1 - depth, 1, 0
  {
    if depth > MAX_DEPTH then Err(TooDeep)
    else if items + 1 > MAX_ITEMS then Err(TooManyItems)
    else
      var h :- ReadHead(data, pos);
      ReadBody(data, h, items + 1, depth)
  }

  /** What follows a head, with the items counted so far. */
  function ReadBody(data: seq<Byte>, h: Head, count: nat, depth: nat): (r: Outcome<Parsed<Value>>)
    requires depth <= MAX_DEPTH && h.next <= |data| && count <= MAX_ITEMS
    ensures r.Ok? ==> h.next <= r.value.pos <= |data| && count <= r.value.items <= MAX_ITEMS
    ensures r.Ok? ==> r.value.items - count <= r.value.pos - h.next
    decreases MAX_DEPTH + 1 - depth, 0, 0
  {
    match h.major
    case 0 => Ok(Parsed(Int(h.argument), h.next, count))
    case 1 => Ok(Parsed(Int(-1 - h.argument), h.next, count))
    case 2 =>
      var raw :- TakeAt(data, h.next, h.argument);
      Ok(Parsed(Bytes(raw), h.next + h.argument, count))
    case 3 =>
      var raw :- TakeAt(data, h.next, h.argument);
      if Utf8(raw) then Ok(Parsed(Text(raw), h.next + h.argument, count)) else Err(NotUtf8)
    case 4 =>
      if h.argument > |data| then Err(ArrayTooLong)
      else
        var p :- ReadItems(data, h.next, count, depth + 1, h.argument, []);
        Ok(Parsed(Array(p.value), p.pos, p.items))
    case 5 =>
      if h.argument > |data| then Err(MapTooLong)
      else
        var p :- ReadEntries(data, h.next, count, depth + 1, h.argument, []);
        Ok(Parsed(Map(p.value), p.pos, p.items))
    case 6 =>
      var p :- ReadItem(data, h.next, count, depth + 1);
      Ok(Parsed(Tag(h.argument, p.value), p.pos, p.items))
    case _ =>
      var v :- Simple(h.info, h.argument);
      Ok(Parsed(v, h.next, count))
  }

  /** n more array items after those already read. */
  function ReadItems(data: seq<Byte>, pos: nat, items: nat, depth: nat, n: nat, read: seq<Value>)
    : (r: Outcome<Parsed<seq<Value>>>)
    requires depth <= MAX_DEPTH + 1 && pos <= |data| && items <= MAX_ITEMS
    ensures r.Ok? ==> pos <= r.value.pos <= |data| && items <= r.value.items <= MAX_ITEMS
    ensures r.Ok? ==> r.value.items - items <= r.value.pos - pos
    decreases MAX_DEPTH + 1 - depth, 3, n
  {
    if n == 0 then Ok(Parsed(read, pos, items))
    else
      var p :- ReadItem(data, pos, items, depth);
      ReadItems(data, p.pos, p.items, depth, n - 1, read + [p.value])
  }

  /** n more map entries after those already read. */
  function ReadEntries(data: seq<Byte>, pos: nat, items: nat, depth: nat, n: nat, read: seq<Entry>)
    : (r: Outcome<Parsed<seq<Entry>>>)
    requires depth <= MAX_DEPTH + 1 && pos <= |data| && items <= MAX_ITEMS
    ensures r.Ok? ==> pos <= r.value.pos <= |data| && items <= r.value.items <= MAX_ITEMS
    ensures r.Ok? ==> r.value.items - items <= r.value.pos - pos
    decreases MAX_DEPTH + 1 - depth, 3, n
  {
    if n == 0 then Ok(Parsed(read, pos, items))
    else
      var e :- ReadEntry(data, pos, items, depth, read);
      ReadEntries(data, e.pos, e.items, depth, n - 1, read + [e.value])
  }

  function ReadEntry(data: seq<Byte>, pos: nat, items: nat, depth: nat, read: seq<Entry>)
    : (r: Outcome<Parsed<Entry>>)
    requires depth <= MAX_DEPTH + 1
    ensures r.Ok? ==> pos < r.value.pos <= |data| && items < r.value.items <= MAX_ITEMS
    ensures r.Ok? ==> r.value.items - items <= r.value.pos - pos
    decreases MAX_DEPTH + 1 - depth, 2, 0
  {
    var k :- ReadItem(data, pos, items, depth);
    if !KeyKind(k.value) || HasKey(read, k.value) then Err(BadKey)
    else
      var v :- ReadItem(data, k.pos, k.items, depth);
      Ok(Parsed(Entry(k.value, v.value), v.pos, v.items))
  }

  function Loads(data: seq<Byte>): Outcome<Value> {
    if |data| > MAX_BYTES then Err(InputTooLarge)
    else
      var p :- ReadItem(data, 0, 0, 0);
      if p.pos != |data| then Err(TrailingBytes) else Ok(p.value)
  }

  // ----- the reader and the encoder as the source runs them -----

  class Reader {
    const data: seq<Byte>
    var pos: nat
    var items: nat

    constructor (data: seq<Byte>)
      ensures this.data == data && pos == 0 && items == 0
    {
      this.data, pos, items := data, 0, 0;
    }

    method Take(n: int) returns (r: Outcome<seq<Byte>>)
      modifies this`pos
      ensures r == TakeAt(data, old(pos), n)
      ensures pos == if r.Ok? then old(pos) + n else old(pos)
    {
      if n < 0 || pos + n > |data| {
        return Err(PastInput);
      }
      r := Ok(data[pos..pos + n]);
      pos := pos + n;
    }

    method ReadNextHead() returns (r: Outcome<Head>)
      modifies this`pos
      ensures r == ReadHead(data, old(pos))
      ensures r.Ok? ==> pos == r.value.next
    {
      var first :- Take(1);
      var major, info := first[0] / 32, first[0] % 32;
      if info < 24 {
        return Ok(Head(major, info, info, pos));
      }
      if info > 27 {
        return Err(ReservedHead);
      }
      var raw :- Take(ArgumentSize(info));
      r := Ok(Head(major, info, FromBigEndian(raw), pos));
    }

    /** The state the source leaves when the specification answers p. */
    ghost predicate Left<T>(p: Outcome<Parsed<T>>, r: Outcome<T>)
      reads this
    {
      if p.Ok? then r == Ok(p.value.value) && pos == p.value.pos && items == p.value.items
      else r == Err(p.error)
    }

    /** One item: exactly what ReadItem says, leaving the cursor and the budget there. */
    method Item(depth: nat) returns (r: Outcome<Value>)
      requires depth <= MAX_DEPTH + 1
      modifies this
      ensures Left(ReadItem(data, old(pos), old(items), depth), r)
      decreases MAX_DEPTH + 1 - depth, 1
    {
      if depth > MAX_DEPTH {
        return Err(TooDeep);
      }
      items := items + 1;
      if items > MAX_ITEMS {
        return Err(TooManyItems);
      }
      var h :- ReadNextHead();
      r := Body(h, depth);
    }

    method Body(h: Head, depth: nat) returns (r: Outcome<Value>)
      requires depth <= MAX_DEPTH && h.next == pos <= |data| && items <= MAX_ITEMS
      modifies this
      ensures Left(ReadBody(data, h, old(items), depth), r)
      decreases MAX_DEPTH + 1 - depth, 0
    {
      match h.major {
        case 0 => r := Ok(Int(h.argument));
        case 1 => r := Ok(Int(-1 - h.argument));
        case 2 =>
          var raw :- Take(h.argument);
          r := Ok(Bytes(raw));
        case 3 =>
          var raw :- Take(h.argument);
          r := if Utf8(raw) then Ok(Text(raw)) else Err(NotUtf8);
        case 4 =>
          if h.argument > |data| {
            return Err(ArrayTooLong);
          }
          var read :- ArrayItems(depth + 1, h.argument);
          r := Ok(Array(read));
        case 5 =>
          if h.argument > |data| {
            return Err(MapTooLong);
          }
          var read :- MapEntries(depth + 1, h.argument);
          r := Ok(Map(read));
        case 6 =>
          var v :- Item(depth + 1);
          r := Ok(Tag(h.argument, v));
        case _ => r := Simple(h.info, h.argument);
      }
    }

    /** The loop of the array branch. */
    method ArrayItems(depth: nat, n: nat) returns (r: Outcome<seq<Value>>)
      requires depth <= MAX_DEPTH + 1 && pos <= |data| && items <= MAX_ITEMS
      modifies this
      ensures Left(ReadItems(data, old(pos), old(items), depth, n, []), r)
      decreases MAX_DEPTH + 1 - depth, 3
    {
      var read := [];
      for i := 0 to n
        invariant pos <= |data| && items <= MAX_ITEMS
        invariant ReadItems(data, old(pos), old(items), depth, n, [])
               == ReadItems(data, pos, items, depth, n - i, read)
      {
        var v :- Item(depth);
        read := read + [v];
      }
      r := Ok(read);
    }

    /** The loop of the map branch. */
    method MapEntries(depth: nat, n: nat) returns (r: Outcome<seq<Entry>>)
      requires depth <= MAX_DEPTH + 1 && pos <= |data| && items <= MAX_ITEMS
      modifies this
      ensures Left(ReadEntries(data, old(pos), old(items), depth, n, []), r)
      decreases MAX_DEPTH + 1 - depth, 3
    {
      var read := [];
      for i := 0 to n
        invariant pos <= |data| && items <= MAX_ITEMS
        invariant ReadEntries(data, old(pos), old(items), depth, n, [])
               == ReadEntries(data, pos, items, depth, n - i, read)
      {
        var e :- MapEntry(depth, read);
        read := read + [e];
      }
      r := Ok(read);
    }

    method MapEntry(depth: nat, read: seq<Entry>) returns (r: Outcome<Entry>)
      requires depth <= MAX_DEPTH + 1
      modifies this
      ensures Left(ReadEntry(data, old(pos), old(items), depth, read), r)
      decreases MAX_DEPTH + 1 - depth, 2
    {
      var key :- Item(depth);
      if !KeyKind(key) || HasKey(read, key) {
        return Err(BadKey);
      }
      var v :- Item(depth);
      r := Ok(Entry(key, v));
    }
  }

  method LoadsMethod(data: seq<Byte>) returns (r: Outcome<Value>)
    ensures r == Loads(data)
  {
    if |data| > MAX_BYTES {
      return Err(InputTooLarge);
    }
    var reader := new Reader(data);
    var v :- reader.Item(0);
    if reader.pos != |reader.data| {
      return Err(TrailingBytes);
    }
    r := Ok(v);
  }

  method HeadMethod(major: nat, value: int) returns (r: Outcome<seq<Byte>>)
    requires major < 8
    ensures r == if 0 <= value < TWO_64 then Ok(HeadBytes(major, value))
                 else Err(if value < 0 then NotEncodable else IntTooLarge)
  {
    if value < 0 {
      return Err(NotEncodable);
    }
    Pow256Values();
    if value < 24 {
      assert HeadBytes(major, value) == [major * 32 + value];
      return Ok([major * 32 + value]);
    }
    for info := 24 to 28
      invariant 24 < info ==> value >= 0x100
      invariant 25 < info ==> value >= 0x1_0000
      invariant 26 < info ==> value >= 0x1_0000_0000
      invariant 27 < info ==> value >= TWO_64
    {
      if value < Pow256(ArgumentSize(info)) {
        return Ok([major * 32 + info] + BigEndian(value, ArgumentSize(info)));
      }
    }
    r := Err(IntTooLarge);
  }

  /** dumps: the bytes of every encodable value, and a refusal of every other. */
  method Dumps(value: Value) returns (r: Outcome<seq<Byte>>)
    ensures r.Ok? <==> Encodable(value)
    ensures r.Ok? ==> r.value == Encode(value)
    decreases value, 0
  {
    match value {
      case Null => r := HeadMethod(7, 22);
      case Bool(b) => r := HeadMethod(7, if b then 21 else 20);
      case Int(n) =>
        if n >= 0 {
          r := HeadMethod(0, n);
        } else {
          r := HeadMethod(1, -1 - n);
        }
      case Bytes(raw) =>
        var head :- HeadMethod(2, |raw|);
        r := Ok(head + raw);
      case Text(utf8) =>
        var head :- HeadMethod(3, |utf8|);
        r := Ok(head + utf8);
      case Array(items) =>
        var head :- HeadMethod(4, |items|);
        var out :- DumpsAll(items);
        r := Ok(head + out);
      case Map(entries) =>
        var head :- HeadMethod(5, |entries|);
        var out :- DumpsEntries(entries);
        r := Ok(head + out);
      case Tag(tag, content) =>
        var head :- HeadMethod(6, tag);
        var item :- Dumps(content);
        r := Ok(head + item);
      case Float(_, _) => r := Err(NotEncodable);
    }
  }

  /** The loop of the list branch. */
  method DumpsAll(vs: seq<Value>) returns (r: Outcome<seq<Byte>>)
    ensures r.Ok? <==> EncodableAll(vs)
    ensures r.Ok? ==> r.value == EncodeAll(vs)
    decreases vs, 1
  {
    var out := [];
    for i := 0 to |vs|
      invariant EncodableAll(vs) <==> EncodableAll(vs[i..])
      invariant EncodableAll(vs) ==> out + EncodeAll(vs[i..]) == EncodeAll(vs)
    {
      assert vs[i..][1..] == vs[i + 1..];
      var item :- Dumps(vs[i]);
      out := out + item;
    }
    assert out + [] == out;
    r := Ok(out);
  }

  /** The loop of the dict branch. */
  method DumpsEntries(es: seq<Entry>) returns (r: Outcome<seq<Byte>>)
    ensures r.Ok? <==> EncodableEntries(es)
    ensures r.Ok? ==> r.value == EncodeEntries(es)
    decreases es, 2
  {
    var out := [];
    for i := 0 to |es|
      invariant EncodableEntries(es) <==> EncodableEntries(es[i..])
      invariant EncodableEntries(es) ==> out + EncodeEntries(es[i..]) == EncodeEntries(es)
    {
      assert es[i..][1..] == es[i + 1..];
      var item :- DumpsEntry(es[i]);
      out := out + item;
    }
    assert out + [] == out;
    r := Ok(out);
  }

  method DumpsEntry(e: Entry) returns (r: Outcome<seq<Byte>>)
    ensures r.Ok? <==> EncodableEntry(e)
    ensures r.Ok? ==> r.value == EncodeEntry(e)
    decreases e, 1
  {
    var key :- Dumps(e.key);
    var item :- Dumps(e.value);
    r := Ok(key + item);
  }
}
