// The protocol-buffer wire format, as google.golang.org/protobuf/encoding/protowire
// reads it: sections "Base 128 Varints" and "Message Structure" of the Protocol
// Buffers Encoding guide.
module Wire {
  type byte = b: int | 0 <= b < 256

  type bytes = seq<byte>

  datatype WireError = Truncated | Overflow | BadFieldNumber | BadEndGroup | Reserved | TooDeep

  datatype Parsed<+T> = Got(value: T, n: nat) | Bad(error: WireError)

  const MAX_UINT64: nat := 0xFFFF_FFFF_FFFF_FFFF
  const MAX_FIELD_NUMBER: nat := 0x7FFF_FFFF

  const VARINT := 0
  const FIXED64 := 1
  const BYTES := 2
  const START_GROUP := 3
  const END_GROUP := 4
  const FIXED32 := 5

  const RECURSION_LIMIT := 10000

  // ---- reading -----------------------------------------------------------------

  // What the bytes after the first i of a varint can still add up to, exclusively.
  function Room(i: nat): (room: nat)
    requires i <= 9
    ensures room > 1
    decreases 9 - i
  {
    if i == 9 then 2 else 128 * Room(i + 1)
  }

  // The rest of a varint after i of its at most ten bytes.
  function VarintFrom(b: bytes, i: nat): (r: Parsed<nat>)
    requires i <= 9
    ensures r.Got? ==> 0 < r.n <= |b| && r.value < Room(i)
    decreases 9 - i
  {
    if |b| == 0 then Bad(Truncated)
    else if i == 9 then if b[0] < 2 then Got(b[0], 1) else Bad(Overflow)
    else if b[0] < 128 then
      assert Room(i + 1) > 1;
      Got(b[0], 1)
    else
      match VarintFrom(b[1..], i + 1)
      case Got(v, n) => Got(b[0] - 128 + 128 * v, n + 1)
      case Bad(e) => Bad(e)
  }

  function ConsumeVarint(b: bytes): (r: Parsed<nat>)
    ensures r.Got? ==> 0 < r.n <= |b| && r.value <= MAX_UINT64
  {
    RoomForUint64();
    VarintFrom(b, 0)
  }

  datatype FieldTag = FieldTag(num: nat, typ: nat)

  function ConsumeTag(b: bytes): (r: Parsed<FieldTag>)
    ensures r.Got? ==> 0 < r.n <= |b| && 1 <= r.value.num <= MAX_FIELD_NUMBER && r.value.typ < 8
  {
    match ConsumeVarint(b)
    case Bad(e) => Bad(e)
    case Got(v, n) =>
      if v / 8 > MAX_FIELD_NUMBER || v / 8 < 1 then Bad(BadFieldNumber) else Got(FieldTag(v / 8, v % 8), n)
  }

  function ConsumeBytes(b: bytes): (r: Parsed<bytes>)
    ensures r.Got? ==> 0 < r.n <= |b|
  {
    match ConsumeVarint(b)
    case Bad(e) => Bad(e)
    case Got(m, n) => if m > |b| - n then Bad(Truncated) else Got(b[n..n + m], n + m)
  }

  // Skips the value of a field of any type.
  function ConsumeFieldValue(num: nat, typ: nat, b: bytes, depth: int): (r: Parsed<()>)
    ensures r.Got? ==> r.n <= |b|
    decreases |b|, 1
  {
    if typ == VARINT then Skipped(ConsumeVarint(b))
    else if typ == FIXED32 then if |b| < 4 then Bad(Truncated) else Got((), 4)
    else if typ == FIXED64 then if |b| < 8 then Bad(Truncated) else Got((), 8)
    else if typ == BYTES then Skipped(ConsumeBytes(b))
    else if typ == START_GROUP then if depth < 0 then Bad(TooDeep) else ConsumeGroup(num, b, depth)
    else if typ == END_GROUP then Bad(BadEndGroup)
    else Bad(Reserved)
  }

  function ConsumeGroup(num: nat, b: bytes, depth: int): (r: Parsed<()>)
    ensures r.Got? ==> r.n <= |b|
    decreases |b|, 0
  {
    match ConsumeTag(b)
    case Bad(e) => Bad(e)
    case Got(tag, n) =>
      if tag.typ == END_GROUP then if tag.num != num then Bad(BadEndGroup) else Got((), n)
      else
        match ConsumeFieldValue(tag.num, tag.typ, b[n..], depth - 1)
        case Bad(e) => Bad(e)
        case Got(_, m) =>
          match ConsumeGroup(num, b[n + m..], depth)
          case Bad(e) => Bad(e)
          case Got(_, k) => Got((), n + m + k)
  }

  function Skipped<T>(p: Parsed<T>): (r: Parsed<()>)
    ensures r.Got? == p.Got? && (r.Got? ==> r.n == p.n)
  {
    match p
    case Bad(e) => Bad(e)
    case Got(_, n) => Got((), n)
  }

  // ---- writing -----------------------------------------------------------------

  // The size bytes of a varint. An encoder may pad it: the shortest size is one
  // of several.
  function EncodeVarint(v: nat, size: nat): (b: bytes)
    ensures |b| == if size > 1 then size else 1
  {
    if size <= 1 then [v % 128] else [v % 128 + 128] + EncodeVarint(v / 128, size - 1)
  }

  // v has at most size digits of seven bits.
  predicate Fits(v: nat, size: nat) {
    if size <= 1 then size == 1 && v < 128 else Fits(v / 128, size - 1)
  }

  function ShortestSize(v: nat): (size: nat) {
    if v < 128 then 1 else 1 + ShortestSize(v / 128)
  }

  predicate ValidVarint(v: nat, size: nat) {
    v <= 0xFFFF_FFFF_FFFF_FFFF && size <= 10 && Fits(v, size)
  }

  function EncodeTag(num: nat, typ: nat, size: nat): (b: bytes)
    ensures |b| > 0
  {
    EncodeVarint(8 * num + typ, size)
  }

  predicate ValidTag(num: nat, typ: nat, size: nat) {
    1 <= num <= 0x7FFF_FFFF && typ < 8 && ValidVarint(8 * num + typ, size)
  }

  function EncodeBytes(s: bytes, size: nat): bytes {
    EncodeVarint(|s|, size) + s
  }

  // A field the reader does not know; a group holds further fields. The sizes are
  // those of its varints: the tag, the value or length, and a group's end tag.
  datatype Unknown =
    | UVarint(num: nat, tagSize: nat, v: nat, size: nat)
    | UFixed32(num: nat, tagSize: nat, data: bytes)
    | UFixed64(num: nat, tagSize: nat, data: bytes)
    | UBytes(num: nat, tagSize: nat, data: bytes, size: nat)
    | UGroup(num: nat, tagSize: nat, body: seq<Unknown>, size: nat)

  // The wire types by their numbers
  function TypeOf(u: Unknown): nat {
    match u
    case UVarint(_, _, _, _) => 0
    case UFixed32(_, _, _) => 5
    case UFixed64(_, _, _) => 1
    case UBytes(_, _, _, _) => 2
    case UGroup(_, _, _, _) => 3
  }

  predicate WellFormed(u: Unknown) {
    && ValidTag(u.num, TypeOf(u), u.tagSize)
    && match u
       case UVarint(_, _, v, size) => ValidVarint(v, size)
       case UFixed32(_, _, data) => |data| == 4
       case UFixed64(_, _, data) => |data| == 8
       case UBytes(_, _, data, size) => ValidVarint(|data|, size)
       case UGroup(num, _, body, size) => ValidTag(num, 4, size) && forall i :: 0 <= i < |body| ==> WellFormed(body[i])
  }

  function Nesting(u: Unknown): nat {
    match u
    case UGroup(_, _, body, _) => 1 + NestingOfAll(body)
    case _ => 0
  }

  function NestingOfAll(us: seq<Unknown>): nat {
    if |us| == 0 then 0
    else
      var first, rest := Nesting(us[0]), NestingOfAll(us[1..]);
      if first > rest then first else rest
  }

  function EncodeValue(u: Unknown): bytes
    decreases u, 1
  {
    match u
    case UVarint(_, _, v, size) => EncodeVarint(v, size)
    case UFixed32(_, _, data) => data
    case UFixed64(_, _, data) => data
    case UBytes(_, _, data, size) => EncodeBytes(data, size)
    case UGroup(num, _, body, size) => EncodeAll(body) + EncodeTag(num, 4, size)
  }

  function EncodeAll(us: seq<Unknown>): bytes {
    if |us| == 0 then []
    else EncodeTag(us[0].num, TypeOf(us[0]), us[0].tagSize) + EncodeValue(us[0]) + EncodeAll(us[1..])
  }

  // ---- reading what was written --------------------------------------------------

  lemma {:induction false} RoomForUint64()
    ensures Room(0) == MAX_UINT64 + 1
  {
    assert Room(9) == 2;
    assert Room(8) == 2 * 128;
    assert Room(7) == 2 * 128 * 128;
    assert Room(6) == 2 * 128 * 128 * 128;
    assert Room(5) == 2 * 128 * 128 * 128 * 128;
    assert Room(4) == 2 * 128 * 128 * 128 * 128 * 128;
    assert Room(3) == 2 * 128 * 128 * 128 * 128 * 128 * 128;
    assert Room(2) == 2 * 128 * 128 * 128 * 128 * 128 * 128 * 128;
    assert Room(1) == 2 * 128 * 128 * 128 * 128 * 128 * 128 * 128 * 128;
  }

  lemma {:induction false} VarintFromEncoded(v: nat, size: nat, rest: bytes, i: nat)
    requires i <= 9 && v < Room(i) && size <= 10 - i && Fits(v, size)
    ensures VarintFrom(EncodeVarint(v, size) + rest, i) == Got(v, |EncodeVarint(v, size)|)
    decreases size
  {
    var b := EncodeVarint(v, size) + rest;
    if size > 1 {
      assert v / 128 < Room(i + 1);
      FirstByte(v, size, rest);
      VarintFromEncoded(v / 128, size - 1, rest, i + 1);
      hide EncodeVarint, Room;
      assert v == v % 128 + 128 * (v / 128);
    } else {
      assert b[0] == v;
    }
  }

  lemma {:induction false} FirstByte(v: nat, size: nat, rest: bytes)
    requires size > 1
    ensures var b := EncodeVarint(v, size) + rest;
            b[0] == v % 128 + 128 && b[1..] == EncodeVarint(v / 128, size - 1) + rest
    ensures |EncodeVarint(v, size)| == 1 + |EncodeVarint(v / 128, size - 1)|
  {
  }

  // A varint is read back, whatever its size, and nothing behind it is touched.
  lemma {:induction false} VarintRoundTrip(v: nat, size: nat, rest: bytes)
    requires ValidVarint(v, size)
    ensures ConsumeVarint(EncodeVarint(v, size) + rest) == Got(v, |EncodeVarint(v, size)|)
  {
    RoomForUint64();
    VarintFromEncoded(v, size, rest, 0);
  }

  lemma {:induction false} OneMoreDigit(low: nat, high: nat, size: nat)
    requires low < 128 && size >= 1 && Fits(high, size)
    ensures Fits(low + 128 * high, size + 1)
    ensures EncodeVarint(low + 128 * high, size + 1) == [low + 128] + EncodeVarint(high, size)
  {
    assert (low + 128 * high) / 128 == high && (low + 128 * high) % 128 == low;
  }

  lemma {:induction false} VarintFromNext(b: bytes, i: nat)
    requires i < 9 && VarintFrom(b, i).Got? && b[0] >= 128
    ensures var inner := VarintFrom(b[1..], i + 1);
            inner.Got? && VarintFrom(b, i) == Got(b[0] - 128 + 128 * inner.value, inner.n + 1)
  {
  }

  lemma {:induction false} VarintFromAccepted(b: bytes, i: nat)
    requires i <= 9 && VarintFrom(b, i).Got?
    ensures var r := VarintFrom(b, i); r.n <= 10 - i && Fits(r.value, r.n) && b[..r.n] == EncodeVarint(r.value, r.n)
    decreases 9 - i
  {
    if i < 9 && b[0] >= 128 {
      VarintFromNext(b, i);
      VarintFromAccepted(b[1..], i + 1);
      var inner, r := VarintFrom(b[1..], i + 1), VarintFrom(b, i);
      hide VarintFrom, Room, Fits, EncodeVarint;
      OneMoreDigit(b[0] - 128, inner.value, inner.n);
      assert b[..r.n] == [b[0]] + b[1..][..inner.n];
    } else {
      assert b[..1] == [b[0]];
    }
  }

  // Every varint that is accepted is an encoding of its value.
  lemma {:induction false} VarintAccepted(b: bytes)
    requires ConsumeVarint(b).Got?
    ensures var r := ConsumeVarint(b); ValidVarint(r.value, r.n) && b[..r.n] == EncodeVarint(r.value, r.n)
  {
    VarintFromAccepted(b, 0);
  }

  // A value has an encoding of every size from the shortest one on.
  lemma {:induction false} FitsIff(v: nat, size: nat)
    ensures Fits(v, size) <==> size >= ShortestSize(v)
  {
    if size > 1 {
      FitsIff(v / 128, size - 1);
    }
  }

  lemma {:induction false} ShortestInRoom(v: nat, i: nat)
    requires i <= 9 && v < Room(i)
    ensures ShortestSize(v) <= 10 - i
    decreases 9 - i
  {
    if v >= 128 {
      ShortestInRoom(v / 128, i + 1);
    }
  }

  lemma {:induction false} ShortestIsValid(v: nat)
    requires v <= MAX_UINT64
    ensures ValidVarint(v, ShortestSize(v))
  {
    RoomForUint64();
    ShortestInRoom(v, 0);
    FitsIff(v, ShortestSize(v));
  }

  lemma {:induction false} TagRoundTrip(num: nat, typ: nat, size: nat, rest: bytes)
    requires ValidTag(num, typ, size)
    ensures ConsumeTag(EncodeTag(num, typ, size) + rest) == Got(FieldTag(num, typ), |EncodeTag(num, typ, size)|)
  {
    VarintRoundTrip(8 * num + typ, size, rest);
  }

  lemma {:induction false} TagAccepted(b: bytes)
    requires ConsumeTag(b).Got?
    ensures var r := ConsumeTag(b);
            ValidTag(r.value.num, r.value.typ, r.n) && b[..r.n] == EncodeTag(r.value.num, r.value.typ, r.n)
  {
    VarintAccepted(b);
    hide Fits, EncodeVarint, ConsumeVarint;
    var v := ConsumeVarint(b).value;
    assert 8 * (v / 8) + v % 8 == v;
  }

  lemma {:induction false} BytesRoundTrip(s: bytes, size: nat, rest: bytes)
    requires ValidVarint(|s|, size)
    ensures ConsumeBytes(EncodeBytes(s, size) + rest) == Got(s, |EncodeBytes(s, size)|)
  {
    var b, n := EncodeBytes(s, size) + rest, |EncodeVarint(|s|, size)|;
    assert b == EncodeVarint(|s|, size) + (s + rest);
    VarintRoundTrip(|s|, size, s + rest);
    assert b[n..n + |s|] == s;
  }

  lemma {:induction false} BytesAccepted(b: bytes) returns (size: nat)
    requires ConsumeBytes(b).Got?
    ensures var r := ConsumeBytes(b); ValidVarint(|r.value|, size) && b[..r.n] == EncodeBytes(r.value, size)
  {
    VarintAccepted(b);
    hide Fits, EncodeVarint, ConsumeVarint;
    var r := ConsumeVarint(b);
    size := r.n;
    assert b[..r.n + r.value] == b[..r.n] + b[r.n..r.n + r.value];
  }

  // The reader skips every well-formed field, of any type and nested to any
  // depth the library allows, and lands exactly behind it.
  lemma {:induction false} SkipsUnknown(u: Unknown, rest: bytes, depth: int)
    requires WellFormed(u) && Nesting(u) <= depth + 1
    ensures ConsumeFieldValue(u.num, TypeOf(u), EncodeValue(u) + rest, depth) == Got((), |EncodeValue(u)|)
    decreases u, 1
  {
    hide ConsumeGroup, ConsumeVarint, ConsumeBytes, EncodeVarint, EncodeBytes, EncodeTag, ValidVarint, ValidTag;
    match u
    case UVarint(_, _, v, size) => VarintRoundTrip(v, size, rest);
    case UBytes(_, _, data, size) => BytesRoundTrip(data, size, rest);
    case UFixed32(_, _, _) =>
    case UFixed64(_, _, _) =>
    case UGroup(num, _, body, size) =>
      SkipsGroup(num, body, size, rest, depth);
      assert EncodeValue(u) + rest == EncodeAll(body) + (EncodeTag(num, END_GROUP, size) + rest);
  }

  lemma {:induction false} GroupStep(num: nat, b: bytes, depth: int, tag: FieldTag, n: nat, m: nat, k: nat)
    requires ConsumeTag(b) == Got(tag, n) && tag.typ != END_GROUP && n + m <= |b|
    requires ConsumeFieldValue(tag.num, tag.typ, b[n..], depth - 1) == Got((), m)
    requires ConsumeGroup(num, b[n + m..], depth) == Got((), k)
    ensures ConsumeGroup(num, b, depth) == Got((), n + m + k)
  {
    hide ConsumeFieldValue, ConsumeTag;
  }

  lemma {:induction false} GroupEnd(num: nat, size: nat, rest: bytes, depth: int)
    requires ValidTag(num, END_GROUP, size)
    ensures ConsumeGroup(num, EncodeTag(num, END_GROUP, size) + rest, depth) == Got((), |EncodeTag(num, END_GROUP, size)|)
  {
    TagRoundTrip(num, END_GROUP, size, rest);
    hide ConsumeTag, EncodeTag;
  }

  lemma {:induction false} SkipsGroup(num: nat, body: seq<Unknown>, size: nat, rest: bytes, depth: int)
    requires ValidTag(num, END_GROUP, size) && depth >= 0 && NestingOfAll(body) <= depth
    requires forall i :: 0 <= i < |body| ==> WellFormed(body[i])
    ensures ConsumeGroup(num, EncodeAll(body) + (EncodeTag(num, END_GROUP, size) + rest), depth) ==
            Got((), |EncodeAll(body)| + |EncodeTag(num, END_GROUP, size)|)
    decreases body, 0
  {
    hide ConsumeGroup, ConsumeFieldValue, ConsumeTag, EncodeTag, EncodeValue, ValidVarint, ValidTag;
    var tail := EncodeTag(num, END_GROUP, size) + rest;
    if |body| == 0 {
      GroupEnd(num, size, rest, depth);
      assert EncodeAll(body) + tail == tail;
    } else {
      var u, more := body[0], EncodeAll(body[1..]) + tail;
      var tag, value := EncodeTag(u.num, TypeOf(u), u.tagSize), EncodeValue(u);
      var b := EncodeAll(body) + tail;
      assert b == tag + (value + more);
      assert WellFormed(u) && Nesting(u) <= depth && NestingOfAll(body[1..]) <= depth;
      assert TypeOf(u) != END_GROUP && ValidTag(u.num, TypeOf(u), u.tagSize);
      SkipsGroup(num, body[1..], size, rest, depth);
      SkipsUnknown(u, more, depth - 1);
      hide WellFormed, Nesting, NestingOfAll, EncodeAll, TypeOf;
      TagRoundTrip(u.num, TypeOf(u), u.tagSize, value + more);
      assert b[|tag|..] == value + more;
      assert b[|tag| + |value|..] == more;
      GroupStep(num, b, depth, FieldTag(u.num, TypeOf(u)), |tag|, |value|,
                |EncodeAll(body[1..])| + |EncodeTag(num, END_GROUP, size)|);
    }
  }

  // ---- everything accepted was written --------------------------------------------

  lemma {:induction false} NestingAtMost(first: Unknown, rest: seq<Unknown>, depth: int)
    requires Nesting(first) <= depth && NestingOfAll(rest) <= depth
    ensures NestingOfAll([first] + rest) <= depth
  {
    assert ([first] + rest)[1..] == rest;
  }

  // A field value the reader skips is the encoding of a well-formed field.
  lemma {:induction false} FieldAccepted(num: nat, typ: nat, tagSize: nat, b: bytes, depth: int) returns (u: Unknown)
    requires ValidTag(num, typ, tagSize) && depth >= -1 && ConsumeFieldValue(num, typ, b, depth).Got?
    ensures u.num == num && TypeOf(u) == typ && u.tagSize == tagSize && WellFormed(u) && Nesting(u) <= depth + 1
    ensures EncodeValue(u) == b[..ConsumeFieldValue(num, typ, b, depth).n]
    decreases |b|, 1
  {
    hide ConsumeGroup, ConsumeVarint, ConsumeBytes, EncodeVarint, EncodeBytes, EncodeTag, ValidVarint, ValidTag;
    if typ == VARINT {
      VarintAccepted(b);
      u := UVarint(num, tagSize, ConsumeVarint(b).value, ConsumeVarint(b).n);
    } else if typ == FIXED32 {
      u := UFixed32(num, tagSize, b[..4]);
    } else if typ == FIXED64 {
      u := UFixed64(num, tagSize, b[..8]);
    } else if typ == BYTES {
      var size := BytesAccepted(b);
      u := UBytes(num, tagSize, ConsumeBytes(b).value, size);
    } else {
      var body, size := GroupAccepted(num, b, depth);
      u := UGroup(num, tagSize, body, size);
    }
  }

  lemma {:induction false} GroupAccepted(num: nat, b: bytes, depth: int) returns (body: seq<Unknown>, size: nat)
    requires depth >= 0 && ConsumeGroup(num, b, depth).Got?
    ensures ValidTag(num, END_GROUP, size) && NestingOfAll(body) <= depth
    ensures forall i :: 0 <= i < |body| ==> WellFormed(body[i])
    ensures EncodeAll(body) + EncodeTag(num, END_GROUP, size) == b[..ConsumeGroup(num, b, depth).n]
    decreases |b|, 0
  {
    hide ConsumeFieldValue, ConsumeTag, EncodeTag, ValidTag, EncodeValue, WellFormed, Nesting;
    TagAccepted(b);
    var tag, n := ConsumeTag(b).value, ConsumeTag(b).n;
    if tag.typ == END_GROUP {
      body, size := [], n;
      assert EncodeAll(body) + EncodeTag(num, END_GROUP, size) == EncodeTag(num, END_GROUP, size);
    } else {
      var u := FieldAccepted(tag.num, tag.typ, n, b[n..], depth - 1);
      var m := ConsumeFieldValue(tag.num, tag.typ, b[n..], depth - 1).n;
      var rest;
      rest, size := GroupAccepted(num, b[n + m..], depth);
      var k := ConsumeGroup(num, b[n + m..], depth).n;
      body := [u] + rest;
      NestingAtMost(u, rest, depth);
      assert body[1..] == rest;
      hide ConsumeGroup, NestingOfAll;
      assert EncodeAll(body) == EncodeTag(tag.num, tag.typ, n) + EncodeValue(u) + EncodeAll(rest);
      Pieces(b, n, m, k);
    }
  }

  lemma {:induction false} Pieces(b: bytes, n: nat, m: nat, k: nat)
    requires n + m + k <= |b|
    ensures b[..n + m + k] == b[..n] + b[n..][..m] + b[n + m..][..k]
  {
  }
}
