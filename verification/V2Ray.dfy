// The traffic source behind the V2Ray API: internal/services/stats/v2ray.go.
// A Go string is its bytes, one char below 256 each.
module V2Ray {
  import Text
  import opened Wire

  // A counter as the wire carries it: one statistic's name and its value.
  datatype Stat = Stat(name: string, value: int)

  datatype Decoded<+T> = Ok(value: T) | Err(error: WireError)

  // ---- strings and integers on the wire ----------------------------------------

  predicate IsByteString(s: string) {
    forall i :: 0 <= i < |s| ==> s[i] as int < 256
  }

  function AsText(b: bytes): (s: string)
    ensures |s| == |b| && IsByteString(s)
    ensures forall i :: 0 <= i < |b| ==> s[i] as int == b[i]
  {
    seq(|b|, i requires 0 <= i < |b| => b[i] as char)
  }

  function AsBytes(s: string): (b: bytes)
    requires IsByteString(s)
    ensures |b| == |s| && AsText(b) == s
  {
    var b: bytes := seq(|s|, i requires 0 <= i < |s| => s[i] as int);
    assert AsText(b) == s;
    b
  }

  // int64(val) for a uint64 val
  function Signed(v: nat): int {
    if v <= Text.MAX_INT64 then v else v - (MAX_UINT64 + 1)
  }

  // The conversion keeps the 64 bits, read in two's complement.
  lemma {:induction false} SignedIs(v: nat)
    requires v <= 0xFFFF_FFFF_FFFF_FFFF
    ensures -0x8000_0000_0000_0000 <= Signed(v) <= 0x7FFF_FFFF_FFFF_FFFF
    ensures Signed(v) == v || Signed(v) + 0x1_0000_0000_0000_0000 == v
  {
  }

  function Unsigned(n: int): (v: nat)
    requires Text.IsInt64(n)
    ensures v <= MAX_UINT64 && Signed(v) == n
  {
    if n < 0 then n + MAX_UINT64 + 1 else n
  }

  // ---- the response parser -------------------------------------------------------

  // Where parseStatMessage gets from the rest of the message and the fields read so far.
  function ParseStatFrom(b: bytes, st: Stat): Decoded<Stat>
    decreases |b|
  {
    if |b| == 0 then Ok(st)
    else
      match ConsumeTag(b)
      case Bad(e) => Err(e)
      case Got(tag, n) =>
        var rest := b[n..];
        if tag == FieldTag(1, BYTES) then
          match ConsumeBytes(rest)
          case Bad(e) => Err(e)
          case Got(name, m) => ParseStatFrom(rest[m..], st.(name := AsText(name)))
        else if tag == FieldTag(2, VARINT) then
          match ConsumeVarint(rest)
          case Bad(e) => Err(e)
          case Got(v, m) => ParseStatFrom(rest[m..], st.(value := Signed(v)))
        else
          match ConsumeFieldValue(tag.num, tag.typ, rest, RECURSION_LIMIT)
          case Bad(e) => Err(e)
          case Got(_, m) => ParseStatFrom(rest[m..], st)
  }

  const NO_STAT := Stat("", 0)

  function UnmarshalFrom(b: bytes, stats: seq<Stat>): Decoded<seq<Stat>>
    decreases |b|
  {
    if |b| == 0 then Ok(stats)
    else
      match ConsumeTag(b)
      case Bad(e) => Err(e)
      case Got(tag, n) =>
        var rest := b[n..];
        if tag == FieldTag(1, BYTES) then
          match ConsumeBytes(rest)
          case Bad(e) => Err(e)
          case Got(msg, m) =>
            match ParseStatFrom(msg, NO_STAT)
            case Err(e) => Err(e)
            case Ok(st) => UnmarshalFrom(rest[m..], stats + [st])
        else
          match ConsumeFieldValue(tag.num, tag.typ, rest, RECURSION_LIMIT)
          case Bad(e) => Err(e)
          case Got(_, m) => UnmarshalFrom(rest[m..], stats)
  }

  method ParseStatMessage(message: bytes) returns (r: Decoded<Stat>)
    ensures r == ParseStatFrom(message, NO_STAT)
  {
    hide ConsumeTag, ConsumeBytes, ConsumeVarint, ConsumeFieldValue;
    var b, st := message, NO_STAT;
    while |b| > 0
      invariant ParseStatFrom(b, st) == ParseStatFrom(message, NO_STAT)
    {
      var tag := ConsumeTag(b);
      if tag.Bad? {
        return Err(tag.error);
      }
      var num, typ := tag.value.num, tag.value.typ;
      var rest := b[tag.n..];
      if num == 1 && typ == BYTES {
        var name := ConsumeBytes(rest);
        if name.Bad? {
          return Err(name.error);
        }
        b, st := rest[name.n..], st.(name := AsText(name.value));
      } else if num == 2 && typ == VARINT {
        var val := ConsumeVarint(rest);
        if val.Bad? {
          return Err(val.error);
        }
        b, st := rest[val.n..], st.(value := Signed(val.value));
      } else {
        var skip := ConsumeFieldValue(num, typ, rest, RECURSION_LIMIT);
        if skip.Bad? {
          return Err(skip.error);
        }
        b := rest[skip.n..];
      }
    }
    r := Ok(st);
  }

  method Unmarshal(data: bytes) returns (r: Decoded<seq<Stat>>)
    ensures r == UnmarshalFrom(data, [])
  {
    hide ConsumeTag, ConsumeBytes, ConsumeFieldValue, ParseStatFrom;
    var b: bytes, stats: seq<Stat> := data, [];
    while |b| > 0
      invariant UnmarshalFrom(b, stats) == UnmarshalFrom(data, [])
    {
      var tag := ConsumeTag(b);
      if tag.Bad? {
        return Err(tag.error);
      }
      var num, typ := tag.value.num, tag.value.typ;
      b := b[tag.n..];
      if num == 1 && typ == BYTES {
        var msg := ConsumeBytes(b);
        if msg.Bad? {
          return Err(msg.error);
        }
        b := b[msg.n..];
        var st := ParseStatMessage(msg.value);
        if st.Err? {
          return Err(st.error);
        }
        stats := stats + [st.value];
        continue;
      }
      var skip := ConsumeFieldValue(num, typ, b, RECURSION_LIMIT);
      if skip.Bad? {
        return Err(skip.error);
      }
      b := b[skip.n..];
    }
    r := Ok(stats);
  }

  // ---- what an encoder may send ----------------------------------------------------

  // One field of a Stat message, with the sizes of its varints.
  datatype StatField =
    | NameField(tagSize: nat, name: bytes, size: nat)
    | ValueField(tagSize: nat, v: nat, size: nat)
    | OtherStatField(field: Unknown)

  // One field of a QueryStatsResponse message.
  datatype Part = StatPart(tagSize: nat, fields: seq<StatField>, size: nat) | OtherPart(field: Unknown)

  predicate Skippable(u: Unknown) {
    WellFormed(u) && Nesting(u) <= 10_001
  }

  predicate ValidStatField(f: StatField) {
    match f
    case NameField(tagSize, name, size) => ValidTag(1, 2, tagSize) && ValidVarint(|name|, size)
    case ValueField(tagSize, v, size) => ValidTag(2, 0, tagSize) && ValidVarint(v, size)
    case OtherStatField(u) => Skippable(u) && !(u.num == 1 && u.UBytes?) && !(u.num == 2 && u.UVarint?)
  }

  ghost predicate ValidStat(fields: seq<StatField>) {
    forall i :: 0 <= i < |fields| ==> ValidStatField(fields[i])
  }

  ghost predicate ValidPart(p: Part) {
    match p
    case StatPart(tagSize, fields, size) =>
      ValidTag(1, 2, tagSize) && ValidVarint(|EncodeStat(fields)|, size) && ValidStat(fields)
    case OtherPart(u) => Skippable(u) && !(u.num == 1 && u.UBytes?)
  }

  // The valid encodings of a response: known fields any number of times and in any
  // order, unknown ones strewn in anywhere, varints of any permitted size.
  ghost predicate ValidResponse(parts: seq<Part>) {
    forall i :: 0 <= i < |parts| ==> ValidPart(parts[i])
  }

  function EncodeField(u: Unknown): bytes {
    EncodeTag(u.num, TypeOf(u), u.tagSize) + EncodeValue(u)
  }

  function EncodeStatField(f: StatField): bytes {
    match f
    case NameField(tagSize, name, size) => EncodeTag(1, 2, tagSize) + EncodeBytes(name, size)
    case ValueField(tagSize, v, size) => EncodeTag(2, 0, tagSize) + EncodeVarint(v, size)
    case OtherStatField(u) => EncodeField(u)
  }

  function EncodeStat(fields: seq<StatField>): bytes {
    if |fields| == 0 then [] else EncodeStatField(fields[0]) + EncodeStat(fields[1..])
  }

  function EncodePart(p: Part): bytes {
    match p
    case StatPart(tagSize, fields, size) => EncodeTag(1, 2, tagSize) + EncodeBytes(EncodeStat(fields), size)
    case OtherPart(u) => EncodeField(u)
  }

  function EncodeResponse(parts: seq<Part>): bytes {
    if |parts| == 0 then [] else EncodePart(parts[0]) + EncodeResponse(parts[1..])
  }

  // ---- what it means -----------------------------------------------------------------

  // Of a field that occurs several times the last one counts, and one that does
  // not occur has its zero value (section "Last One Wins" of the Encoding guide).
  function LastName(fields: seq<StatField>): string {
    if |fields| == 0 then ""
    else if fields[|fields| - 1].NameField? then AsText(fields[|fields| - 1].name)
    else LastName(fields[..|fields| - 1])
  }

  function LastValue(fields: seq<StatField>): int {
    if |fields| == 0 then 0
    else if fields[|fields| - 1].ValueField? then Signed(fields[|fields| - 1].v)
    else LastValue(fields[..|fields| - 1])
  }

  // The statistics a response carries, in order.
  function StatsIn(parts: seq<Part>): seq<Stat> {
    if |parts| == 0 then []
    else
      match parts[0]
      case OtherPart(_) => StatsIn(parts[1..])
      case StatPart(_, fields, _) => [Stat(LastName(fields), LastValue(fields))] + StatsIn(parts[1..])
  }

  // ---- parsing inverts encoding ------------------------------------------------------

  // What reading a field does to the statistic: a later field replaces an earlier one.
  function Apply(f: StatField, st: Stat): Stat {
    match f
    case NameField(_, name, _) => st.(name := AsText(name))
    case ValueField(_, v, _) => st.(value := Signed(v))
    case OtherStatField(_) => st
  }

  function ApplyAll(fields: seq<StatField>, st: Stat): Stat {
    if |fields| == 0 then st else ApplyAll(fields[1..], Apply(fields[0], st))
  }

  lemma {:induction false} ThreePieces(a: bytes, b: bytes, c: bytes)
    ensures a + b + c == a + (b + c) && (a + b + c)[|a|..] == b + c && (b + c)[|b|..] == c
  {
  }

  lemma {:induction false} FirstPieces(b: bytes, k: nat, m: nat)
    requires k + m <= |b|
    ensures b[..k + m] == b[..k] + b[k..][..m] && b[k..][m..] == b[k + m..]
  {
  }

  lemma {:induction false} FieldSkipped(u: Unknown, rest: bytes)
    requires Skippable(u)
    ensures ConsumeTag(EncodeField(u) + rest) == Got(FieldTag(u.num, TypeOf(u)), |EncodeTag(u.num, TypeOf(u), u.tagSize)|)
    ensures var n := |EncodeTag(u.num, TypeOf(u), u.tagSize)|;
            && (EncodeField(u) + rest)[n..] == EncodeValue(u) + rest
            && ConsumeFieldValue(u.num, TypeOf(u), EncodeValue(u) + rest, RECURSION_LIMIT) == Got((), |EncodeValue(u)|)
            && (EncodeValue(u) + rest)[|EncodeValue(u)|..] == rest
  {
    assert ValidTag(u.num, TypeOf(u), u.tagSize) && WellFormed(u) && Nesting(u) <= RECURSION_LIMIT + 1;
    assert EncodeField(u) == EncodeTag(u.num, TypeOf(u), u.tagSize) + EncodeValue(u);
    hide *;
    SkipsUnknown(u, rest, RECURSION_LIMIT);
    ThreePieces(EncodeTag(u.num, TypeOf(u), u.tagSize), EncodeValue(u), rest);
    TagRoundTrip(u.num, TypeOf(u), u.tagSize, EncodeValue(u) + rest);
  }

  lemma {:induction false} BytesFieldRead(num: nat, tagSize: nat, s: bytes, size: nat, rest: bytes)
    requires ValidTag(num, BYTES, tagSize) && ValidVarint(|s|, size)
    ensures var b, n := EncodeTag(num, BYTES, tagSize) + EncodeBytes(s, size) + rest, |EncodeTag(num, BYTES, tagSize)|;
            && ConsumeTag(b) == Got(FieldTag(num, BYTES), n)
            && b[n..] == EncodeBytes(s, size) + rest
            && ConsumeBytes(b[n..]) == Got(s, |EncodeBytes(s, size)|)
            && b[n..][|EncodeBytes(s, size)|..] == rest
  {
    hide ConsumeTag, ConsumeBytes, EncodeTag, EncodeBytes, ValidTag, ValidVarint;
    ThreePieces(EncodeTag(num, BYTES, tagSize), EncodeBytes(s, size), rest);
    TagRoundTrip(num, BYTES, tagSize, EncodeBytes(s, size) + rest);
    BytesRoundTrip(s, size, rest);
  }

  lemma {:induction false} VarintFieldRead(num: nat, tagSize: nat, v: nat, size: nat, rest: bytes)
    requires ValidTag(num, VARINT, tagSize) && ValidVarint(v, size)
    ensures var b, n := EncodeTag(num, VARINT, tagSize) + EncodeVarint(v, size) + rest, |EncodeTag(num, VARINT, tagSize)|;
            && ConsumeTag(b) == Got(FieldTag(num, VARINT), n)
            && b[n..] == EncodeVarint(v, size) + rest
            && ConsumeVarint(b[n..]) == Got(v, |EncodeVarint(v, size)|)
            && b[n..][|EncodeVarint(v, size)|..] == rest
  {
    hide ConsumeTag, ConsumeVarint, EncodeTag, EncodeVarint, ValidTag, ValidVarint;
    ThreePieces(EncodeTag(num, VARINT, tagSize), EncodeVarint(v, size), rest);
    TagRoundTrip(num, VARINT, tagSize, EncodeVarint(v, size) + rest);
    VarintRoundTrip(v, size, rest);
  }

  lemma {:induction false} StatFieldRead(f: StatField, rest: bytes, st: Stat)
    requires ValidStatField(f)
    ensures ParseStatFrom(EncodeStatField(f) + rest, st) == ParseStatFrom(rest, Apply(f, st))
  {
    hide ConsumeTag, ConsumeBytes, ConsumeVarint, ConsumeFieldValue, EncodeTag, EncodeBytes, EncodeVarint, EncodeValue, AsText, Signed,
      ValidTag, ValidVarint;
    match f
    case NameField(tagSize, name, size) => BytesFieldRead(1, tagSize, name, size, rest);
    case ValueField(tagSize, v, size) => VarintFieldRead(2, tagSize, v, size, rest);
    case OtherStatField(u) =>
      FieldSkipped(u, rest);
      hide Skippable;
  }

  lemma {:induction false} FieldsRead(fields: seq<StatField>, st: Stat)
    requires ValidStat(fields)
    ensures ParseStatFrom(EncodeStat(fields), st) == Ok(ApplyAll(fields, st))
  {
    hide ValidStatField, EncodeStatField, Apply;
    if |fields| > 0 {
      StatFieldRead(fields[0], EncodeStat(fields[1..]), st);
      FieldsRead(fields[1..], Apply(fields[0], st));
      hide ParseStatFrom;
    }
  }

  lemma {:induction false} ApplyLast(fields: seq<StatField>, f: StatField, st: Stat)
    ensures ApplyAll(fields + [f], st) == Apply(f, ApplyAll(fields, st))
  {
    hide Apply;
    if |fields| == 0 {
      assert fields + [f] == [f] && [f][1..] == [];
    } else {
      assert (fields + [f])[1..] == fields[1..] + [f];
      ApplyLast(fields[1..], f, Apply(fields[0], st));
    }
  }

  // Reading the fields from the front leaves the last name and the last value.
  lemma {:induction false} LastWins(fields: seq<StatField>)
    ensures ApplyAll(fields, NO_STAT) == Stat(LastName(fields), LastValue(fields))
  {
    if |fields| > 0 {
      var front, last := fields[..|fields| - 1], fields[|fields| - 1];
      assert fields == front + [last];
      LastWins(front);
      ApplyLast(front, last, NO_STAT);
      hide ApplyAll, AsText, Signed;
    }
  }

  // Any valid encoding of a message is read to its end: no error, and the last
  // name and the last value win.
  lemma {:induction false} StatRead(fields: seq<StatField>)
    requires ValidStat(fields)
    ensures ParseStatFrom(EncodeStat(fields), NO_STAT) == Ok(Stat(LastName(fields), LastValue(fields)))
  {
    hide ParseStatFrom, ValidStat, ApplyAll, LastName, LastValue;
    FieldsRead(fields, NO_STAT);
    LastWins(fields);
  }

  lemma {:induction false} PartRead(p: Part, rest: bytes, stats: seq<Stat>)
    requires ValidPart(p)
    ensures UnmarshalFrom(EncodePart(p) + rest, stats) ==
            UnmarshalFrom(rest, match p
                                case StatPart(_, fields, _) => stats + [Stat(LastName(fields), LastValue(fields))]
                                case OtherPart(_) => stats)
  {
    hide ConsumeTag, ConsumeBytes, ConsumeFieldValue, EncodeTag, EncodeBytes, EncodeValue, EncodeStat, ParseStatFrom, LastName, LastValue,
      ValidStat, ValidTag, ValidVarint;
    match p
    case StatPart(tagSize, fields, size) =>
      StatRead(fields);
      BytesFieldRead(1, tagSize, EncodeStat(fields), size, rest);
    case OtherPart(u) =>
      FieldSkipped(u, rest);
      hide Skippable;
  }

  lemma {:induction false} NothingLeft(stats: seq<Stat>)
    ensures UnmarshalFrom([], stats) == Ok(stats)
  {
  }

  // Unmarshal inverts every valid encoding of a response.
  lemma {:induction false} UnmarshalInverts(parts: seq<Part>, before: seq<Stat>)
    requires ValidResponse(parts)
    ensures UnmarshalFrom(EncodeResponse(parts), before) == Ok(before + StatsIn(parts))
  {
    hide ValidPart, EncodePart, UnmarshalFrom, LastName, LastValue;
    if |parts| == 0 {
      assert before + StatsIn(parts) == before;
      NothingLeft(before);
    } else {
      PartRead(parts[0], EncodeResponse(parts[1..]), before);
      match parts[0] {
        case OtherPart(_) =>
          UnmarshalInverts(parts[1..], before);
        case StatPart(_, fields, _) =>
          var st := Stat(LastName(fields), LastValue(fields));
          UnmarshalInverts(parts[1..], before + [st]);
          assert before + [st] + StatsIn(parts[1..]) == before + ([st] + StatsIn(parts[1..]));
      }
    }
  }

  // ---- everything accepted was encoded -------------------------------------------------

  // The three kinds of field, as they were read: tag, value, and what follows.

  lemma {:induction false} BytesFieldAccepted(b: bytes, k: nat, m: nat) returns (size: nat)
    requires ConsumeTag(b).Got? && ConsumeTag(b).n == k && ConsumeBytes(b[k..]).Got? && ConsumeBytes(b[k..]).n == m
    ensures var (tag, s) := (ConsumeTag(b).value, ConsumeBytes(b[k..]).value);
            && ValidTag(tag.num, tag.typ, k) && ValidVarint(|s|, size)
            && EncodeTag(tag.num, tag.typ, k) + EncodeBytes(s, size) == b[..k + m] && b[k..][m..] == b[k + m..]
  {
    hide *;
    TagAccepted(b);
    size := BytesAccepted(b[k..]);
    FirstPieces(b, k, m);
  }

  lemma {:induction false} VarintFieldAccepted(b: bytes, k: nat, m: nat)
    requires ConsumeTag(b).Got? && ConsumeTag(b).n == k && ConsumeVarint(b[k..]).Got? && ConsumeVarint(b[k..]).n == m
    ensures var (tag, v) := (ConsumeTag(b).value, ConsumeVarint(b[k..]).value);
            && ValidTag(tag.num, tag.typ, k) && ValidVarint(v, m)
            && EncodeTag(tag.num, tag.typ, k) + EncodeVarint(v, m) == b[..k + m] && b[k..][m..] == b[k + m..]
  {
    hide *;
    TagAccepted(b);
    VarintAccepted(b[k..]);
    FirstPieces(b, k, m);
  }

  lemma {:induction false} OtherFieldAccepted(b: bytes, k: nat, m: nat) returns (u: Unknown)
    requires ConsumeTag(b).Got? && ConsumeTag(b).n == k
    requires var tag := ConsumeTag(b).value;
             var skip := ConsumeFieldValue(tag.num, tag.typ, b[k..], RECURSION_LIMIT);
             skip.Got? && skip.n == m
    ensures var tag := ConsumeTag(b).value;
            Skippable(u) && u.num == tag.num && (u.UBytes? <==> tag.typ == BYTES) && (u.UVarint? <==> tag.typ == VARINT)
    ensures EncodeField(u) == b[..k + m] && b[k..][m..] == b[k + m..]
  {
    hide ConsumeTag, ConsumeFieldValue, EncodeTag, EncodeValue, ValidTag, WellFormed, Nesting, TypeOf;
    var tag := ConsumeTag(b).value;
    TagAccepted(b);
    u := FieldAccepted(tag.num, tag.typ, k, b[k..], RECURSION_LIMIT);
    KindOf(u);
    FirstPieces(b, k, m);
  }

  lemma {:induction false} StatFieldAccepted(b: bytes) returns (f: StatField, n: nat)
    requires |b| > 0 && ParseStatFrom(b, NO_STAT).Ok?
    ensures ValidStatField(f) && 0 < n <= |b| && EncodeStatField(f) == b[..n]
    ensures forall st :: ParseStatFrom(b, st) == ParseStatFrom(b[n..], Apply(f, st))
  {
    hide ConsumeTag, ConsumeBytes, ConsumeVarint, ConsumeFieldValue, EncodeTag, EncodeBytes, EncodeVarint, EncodeField, AsText, Signed,
      ValidTag, ValidVarint, Skippable;
    var tag, k := ConsumeTag(b).value, ConsumeTag(b).n;
    if tag == FieldTag(1, BYTES) {
      var name := ConsumeBytes(b[k..]);
      var size := BytesFieldAccepted(b, k, name.n);
      f, n := NameField(k, name.value, size), k + name.n;
    } else if tag == FieldTag(2, VARINT) {
      var v := ConsumeVarint(b[k..]);
      VarintFieldAccepted(b, k, v.n);
      f, n := ValueField(k, v.value, v.n), k + v.n;
    } else {
      var skip := ConsumeFieldValue(tag.num, tag.typ, b[k..], RECURSION_LIMIT);
      var u := OtherFieldAccepted(b, k, skip.n);
      f, n := OtherStatField(u), k + skip.n;
    }
  }

  lemma {:induction false} KindOf(u: Unknown)
    ensures (TypeOf(u) == BYTES <==> u.UBytes?) && (TypeOf(u) == VARINT <==> u.UVarint?)
  {
  }

  lemma {:induction false} StatAccepted(b: bytes, st: Stat) returns (fields: seq<StatField>)
    requires ParseStatFrom(b, st).Ok?
    ensures ValidStat(fields) && EncodeStat(fields) == b
    decreases |b|
  {
    hide ValidStatField, EncodeStatField, Apply;
    if |b| == 0 {
      fields := [];
    } else {
      hide ParseStatFrom;
      OkWhateverBefore(b, st, NO_STAT);
      var f, n := StatFieldAccepted(b);
      assert ParseStatFrom(b, st) == ParseStatFrom(b[n..], Apply(f, st));
      var more := StatAccepted(b[n..], Apply(f, st));
      fields := [f] + more;
      assert fields[1..] == more;
      assert b == b[..n] + b[n..];
    }
  }

  // Whether a message is accepted does not depend on the fields read before.
  lemma {:induction false} OkWhateverBefore(b: bytes, s: Stat, t: Stat)
    ensures ParseStatFrom(b, s).Ok? <==> ParseStatFrom(b, t).Ok?
    decreases |b|
  {
    hide ConsumeTag, ConsumeBytes, ConsumeVarint, ConsumeFieldValue, AsText, Signed;
    if |b| > 0 && ConsumeTag(b).Got? {
      var tag, rest := ConsumeTag(b).value, b[ConsumeTag(b).n..];
      if tag == FieldTag(1, BYTES) {
        if ConsumeBytes(rest).Got? {
          var name := AsText(ConsumeBytes(rest).value);
          OkWhateverBefore(rest[ConsumeBytes(rest).n..], s.(name := name), t.(name := name));
        }
      } else if tag == FieldTag(2, VARINT) {
        if ConsumeVarint(rest).Got? {
          var value := Signed(ConsumeVarint(rest).value);
          OkWhateverBefore(rest[ConsumeVarint(rest).n..], s.(value := value), t.(value := value));
        }
      } else if ConsumeFieldValue(tag.num, tag.typ, rest, RECURSION_LIMIT).Got? {
        OkWhateverBefore(rest[ConsumeFieldValue(tag.num, tag.typ, rest, RECURSION_LIMIT).n..], s, t);
      }
    }
  }

  lemma {:induction false} PartAccepted(b: bytes, stats: seq<Stat>) returns (p: Part, n: nat, next: seq<Stat>)
    requires |b| > 0 && UnmarshalFrom(b, stats).Ok?
    ensures ValidPart(p) && 0 < n <= |b| && EncodePart(p) == b[..n]
    ensures UnmarshalFrom(b[n..], next).Ok?
  {
    hide ConsumeTag, ConsumeBytes, ConsumeFieldValue, EncodeTag, EncodeBytes, EncodeField, ParseStatFrom, EncodeStat, ValidStat,
      ValidTag, ValidVarint, Skippable;
    var tag, k := ConsumeTag(b).value, ConsumeTag(b).n;
    if tag == FieldTag(1, BYTES) {
      var message := ConsumeBytes(b[k..]);
      var size := BytesFieldAccepted(b, k, message.n);
      var fields := StatAccepted(message.value, NO_STAT);
      p, n, next := StatPart(k, fields, size), k + message.n, stats + [ParseStatFrom(message.value, NO_STAT).value];
    } else {
      var skip := ConsumeFieldValue(tag.num, tag.typ, b[k..], RECURSION_LIMIT);
      var u := OtherFieldAccepted(b, k, skip.n);
      p, n, next := OtherPart(u), k + skip.n, stats;
    }
  }

  lemma {:induction false} ResponseAccepted(b: bytes, stats: seq<Stat>) returns (parts: seq<Part>)
    requires UnmarshalFrom(b, stats).Ok?
    ensures ValidResponse(parts) && EncodeResponse(parts) == b
    decreases |b|
  {
    hide ValidPart, EncodePart, UnmarshalFrom;
    if |b| == 0 {
      parts := [];
    } else {
      var p, n, next := PartAccepted(b, stats);
      var more := ResponseAccepted(b[n..], next);
      parts := [p] + more;
      assert parts[1..] == more;
      assert b == b[..n] + b[n..];
    }
  }

  ghost predicate IsResponse(data: bytes, parts: seq<Part>, stats: seq<Stat>) {
    ValidResponse(parts) && EncodeResponse(parts) == data && StatsIn(parts) == stats
  }

  // The parser accepts exactly the valid encodings, and answers what they carry.
  lemma {:induction false} UnmarshalExactly(data: bytes, stats: seq<Stat>)
    ensures UnmarshalFrom(data, []) == Ok(stats) <==> exists parts :: IsResponse(data, parts, stats)
  {
    hide UnmarshalFrom, ValidResponse, EncodeResponse, StatsIn;
    if UnmarshalFrom(data, []) == Ok(stats) {
      var parts := ResponseAccepted(data, []);
      UnmarshalInverts(parts, []);
      assert [] + StatsIn(parts) == StatsIn(parts);
      assert IsResponse(data, parts, stats);
    }
    forall parts | IsResponse(data, parts, stats)
      ensures UnmarshalFrom(data, []) == Ok(stats)
    {
      UnmarshalInverts(parts, []);
      assert [] + StatsIn(parts) == StatsIn(parts);
    }
  }

  // ---- the encoding proto3 prescribes --------------------------------------------------

  // Fields in order, those with the zero value omitted, every varint as short as can be.
  function FieldsOf(st: Stat): seq<StatField>
    requires IsByteString(st.name) && Text.IsInt64(st.value)
  {
    (if st.name == "" then [] else [NameField(ShortestSize(8 + BYTES), AsBytes(st.name), ShortestSize(|st.name|))])
    + (if st.value == 0 then [] else [ValueField(ShortestSize(16 + VARINT), Unsigned(st.value), ShortestSize(Unsigned(st.value)))])
  }

  // A statistic of byte string and int64, whose message has a length a uint64 can tell.
  predicate Sendable(st: Stat) {
    IsByteString(st.name) && Text.IsInt64(st.value) && |EncodeStat(FieldsOf(st))| <= MAX_UINT64 && |st.name| <= MAX_UINT64
  }

  function PartOf(st: Stat): Part
    requires Sendable(st)
  {
    var fields := FieldsOf(st);
    StatPart(ShortestSize(8 + BYTES), fields, ShortestSize(|EncodeStat(fields)|))
  }

  ghost predicate AllSendable(stats: seq<Stat>) {
    forall i :: 0 <= i < |stats| ==> Sendable(stats[i])
  }

  ghost function ResponseOf(stats: seq<Stat>): seq<Part>
    requires AllSendable(stats)
  {
    if |stats| == 0 then []
    else
      assert Sendable(stats[0]);
      [PartOf(stats[0])] + ResponseOf(stats[1..])
  }

  lemma {:induction false} CanonicalStat(st: Stat)
    requires Sendable(st)
    ensures ValidStat(FieldsOf(st)) && LastName(FieldsOf(st)) == st.name && LastValue(FieldsOf(st)) == st.value
  {
    ShortestIsValid(8 + BYTES);
    ShortestIsValid(16 + VARINT);
    ShortestIsValid(|st.name|);
    ShortestIsValid(Unsigned(st.value));
    hide ValidVarint, ShortestSize, EncodeStat;
    assert LastName([]) == "" && LastValue([]) == 0;
    var fields := FieldsOf(st);
    if |fields| > 0 {
      assert fields[..|fields| - 1] == if |fields| == 1 then [] else [fields[0]];
      assert [fields[0]][..0] == [];
    }
  }

  lemma {:induction false} CanonicalPart(st: Stat)
    requires Sendable(st)
    ensures ValidPart(PartOf(st)) && StatsIn([PartOf(st)]) == [st]
  {
    var fields := FieldsOf(st);
    CanonicalStat(st);
    ShortestIsValid(8 + BYTES);
    ShortestIsValid(|EncodeStat(fields)|);
    hide ValidVarint, ShortestSize, EncodeStat, ValidStat, LastName, LastValue, FieldsOf;
    assert [PartOf(st)][1..] == [] && StatsIn([]) == [];
  }

  lemma {:induction false} StatsInFirst(p: Part, parts: seq<Part>)
    ensures StatsIn([p] + parts) == StatsIn([p]) + StatsIn(parts)
  {
    hide LastName, LastValue;
    assert ([p] + parts)[1..] == parts && [p][1..] == [] && StatsIn([]) == [];
  }

  // The prescribed encoding of a list of statistics is valid, and carries them.
  lemma {:induction false} CanonicalResponse(stats: seq<Stat>)
    requires AllSendable(stats)
    ensures IsResponse(EncodeResponse(ResponseOf(stats)), ResponseOf(stats), stats)
  {
    hide ValidPart, PartOf, EncodePart, LastName, LastValue, Sendable;
    if |stats| > 0 {
      assert Sendable(stats[0]);
      CanonicalPart(stats[0]);
      CanonicalResponse(stats[1..]);
      StatsInFirst(PartOf(stats[0]), ResponseOf(stats[1..]));
      assert ResponseOf(stats)[1..] == ResponseOf(stats[1..]);
      hide StatsIn, EncodeResponse;
      assert stats == [stats[0]] + stats[1..];
    }
  }
}
