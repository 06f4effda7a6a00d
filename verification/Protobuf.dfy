/**
  The protobuf wire codec of `codec.rs`: varints, zigzag, sized fields, nested
  messages, repeated fields and unknown-field skipping. Code that only computes is
  written as functions over the unread suffix of the buffer; the source's loops
  are the methods at the end, proved against those functions.
 */
module Protobuf {
  import opened Common

  // ----- Values, schemas and third-party conversions -----

  /** serde_json values; strings are their UTF-8 bytes, floats their bit patterns. */
  datatype Json =
    | Null
    | Bool(b: bool)
    | Int(i: int)
    | Float(bits: nat)
    | Str(utf8: seq<Byte>)
    | Arr(items: seq<Json>)
    | Obj(members: map<string, Json>)

  datatype ProtoType =
    | Int32 | Int64 | Uint32 | Uint64 | Sint32 | Sint64 | Boolean
    | Fixed32 | Sfixed32 | Fixed64 | Sfixed64 | Float32 | Float64
    | Text | Blob | Message(name: string)

  datatype ProtoField = ProtoField(name: string, typ: ProtoType, number: nat, repeated: bool)
  {
    predicate Valid() { number < U32 }
  }

  datatype ProtoMessage = ProtoMessage(name: string, fields: seq<ProtoField>, nested: map<string, ProtoMessage>)

  /** What the codec calls out to: float casts, text parsing, UTF-8, base64, JSON text. */
  datatype Lib = Lib(
    truncI64: nat -> Option<int>,
    truncU64: nat -> Option<int>,
    parseI64: seq<Byte> -> Option<int>,
    parseU64: seq<Byte> -> Option<int>,
    parseBool: seq<Byte> -> Option<bool>,
    parseF32: seq<Byte> -> Option<nat>,
    parseF64: seq<Byte> -> Option<nat>,
    intToFloat: int -> nat,
    isZero: nat -> bool,
    isFinite: nat -> bool,
    narrow: nat -> nat,
    widen: nat -> nat,
    utf8Lossy: seq<Byte> -> seq<Byte>,
    base64Encode: seq<Byte> -> seq<Byte>,
    base64Decode: seq<Byte> -> Option<seq<Byte>>,
    jsonText: Json -> seq<Byte>)
  {
    /** Base64 decoding undoes encoding, and narrowing a widened finite f32 gives it back. */
    ghost predicate Lawful() {
      && (forall raw :: base64Decode(base64Encode(raw)) == Some(raw))
      && (forall x: nat :: x < U32 && isFinite(widen(x)) ==> narrow(widen(x)) == x)
    }

    /** Lossy decoding leaves text that is already UTF-8 as it is. */
    ghost predicate LossyOnce() {
      forall raw :: utf8Lossy(utf8Lossy(raw)) == utf8Lossy(raw)
    }
  }

  // ----- Varints (codec.rs:531-558) -----

  /** `v` shifted left by `k` groups of seven bits. */
  function Shift(v: nat, k: nat): nat {
    if k == 0 then v else 128 * Shift(v, k - 1)
  }

  /** The seven payload bits of `b` shifted to group `k` of a 64-bit word. */
  function Group(b: Byte, k: nat): nat {
    Shift(b % 128, k) % U64
  }

  /** Value and byte count of the varint at the front of `bs`, `k` groups already read. */
  function ReadGroups(bs: seq<Byte>, k: nat): (r: Option<(nat, nat)>)
    requires k <= 10
    ensures r.Some? ==> 1 <= r.value.1 <= |bs|
    decreases |bs|
  {
    if k == 10 || bs == [] then None
    else if bs[0] < 128 then Some((Group(bs[0], k), 1))
    else
      match ReadGroups(bs[1..], k + 1)
      case None => None
      case Some((v, n)) => Some((Group(bs[0], k) + v, n + 1))
  }

  function ReadVarint(bs: seq<Byte>): (r: Option<(nat, nat)>)
    ensures r.Some? ==> 1 <= r.value.1 <= |bs|
  {
    ReadGroups(bs, 0)
  }

  function WriteVarint(v: nat): (bs: seq<Byte>)
    ensures |bs| >= 1
  {
    if v < 128 then [v] else [v % 128 + 128] + WriteVarint(v / 128)
  }

  lemma {:induction false} ShiftAdds(a: nat, b: nat, k: nat)
    ensures Shift(a + b, k) == Shift(a, k) + Shift(b, k)
  {
    if k > 0 {
      ShiftAdds(a, b, k - 1);
    }
  }

  lemma {:induction false} ShiftBy128(v: nat, k: nat)
    ensures Shift(128 * v, k) == Shift(v, k + 1)
  {
    if k > 0 {
      ShiftBy128(v, k - 1);
    }
  }

  lemma {:induction false} ShiftNine(v: nat)
    ensures Shift(v, 9) == 0x8000_0000_0000_0000 * v
  {
    assert Shift(v, 1) == 128 * v && Shift(v, 2) == 0x4000 * v && Shift(v, 3) == 0x20_0000 * v;
    assert Shift(v, 4) == 128 * Shift(v, 3) && Shift(v, 5) == 128 * Shift(v, 4) && Shift(v, 6) == 128 * Shift(v, 5);
    assert Shift(v, 7) == 128 * Shift(v, 6) && Shift(v, 8) == 128 * Shift(v, 7);
  }

  lemma {:induction false} TopGroupIsLast(v: nat, k: nat)
    requires k < 10 && v >= 128 && Shift(v, k) < U64
    ensures k < 9
  {
    if k == 9 {
      ShiftNine(v);
    }
  }

  lemma {:induction false} GroupOfByte(low: nat, k: nat)
    requires low < 128 && Shift(low, k) < U64
    ensures Group(low, k) == Shift(low, k) && Group(low + 128, k) == Shift(low, k)
  {
  }

  lemma {:induction false} GroupsStep(b: Byte, more: seq<Byte>, k: nat, v: nat, n: nat)
    requires k < 10 && b >= 128 && ReadGroups(more, k + 1) == Some((v, n))
    ensures ReadGroups([b] + more, k) == Some((Group(b, k) + v, n + 1))
  {
    ConcatSplits([b], more);
  }

  lemma {:induction false} GroupsRoundTrip(v: nat, k: nat, rest: seq<Byte>)
    requires k < 10 && Shift(v, k) < U64
    ensures ReadGroups(WriteVarint(v) + rest, k) == Some((Shift(v, k), |WriteVarint(v)|))
    decreases v
  {
    if v >= 128 {
      var q, low := v / 128, v % 128;
      ShiftAdds(low, 128 * q, k);
      ShiftBy128(q, k);
      TopGroupIsLast(v, k);
      GroupsRoundTrip(q, k + 1, rest);
      GroupOfByte(low, k);
      ConcatAssociates([low + 128], WriteVarint(q), rest);
      GroupsStep(low + 128, WriteVarint(q) + rest, k, Shift(q, k + 1), |WriteVarint(q)|);
    } else {
      GroupOfByte(v, k);
    }
  }

  /** Every 64-bit value, including the ten-byte ones, survives the varint encoding. */
  lemma {:induction false} VarintRoundTrip(v: nat, rest: seq<Byte>)
    requires v < U64
    ensures ReadVarint(WriteVarint(v) + rest) == Some((v, |WriteVarint(v)|))
  {
    GroupsRoundTrip(v, 0, rest);
  }

  /** Reading a varint does not look past its last byte. */
  lemma {:induction false} GroupsLocal(bs: seq<Byte>, k: nat, rest: seq<Byte>)
    requires k <= 10 && ReadGroups(bs, k).Some?
    ensures ReadGroups(bs + rest, k) == ReadGroups(bs, k)
    decreases 10 - k
  {
    if bs[0] >= 128 {
      GroupsLocal(bs[1..], k + 1, rest);
      assert (bs + rest)[1..] == bs[1..] + rest;
    }
  }

  // ----- Skipping and sized reads (codec.rs:676-716, 818-827) -----

  /** Bytes taken by a length-delimited payload and its length prefix. */
  function LenPrefixed(bs: seq<Byte>): (r: Option<(nat, nat)>)
    ensures r.Some? ==> 1 <= r.value.0 <= r.value.1 <= |bs|
  {
    match ReadVarint(bs)
    case None => None
    case Some((len, n)) => if n + len > |bs| then None else Some((n, n + len))
  }

  /** How many bytes `skip_field` advances, or None when it fails. */
  function SkipField(bs: seq<Byte>, wireType: nat): (r: Option<nat>)
    ensures r.Some? ==> 1 <= r.value <= |bs|
  {
    match wireType
    case 0 => (match ReadVarint(bs) case None => None case Some((_, n)) => Some(n))
    case 1 => if |bs| < 8 then None else Some(8)
    case 2 => (match LenPrefixed(bs) case None => None case Some((_, end)) => Some(end))
    case 5 => if |bs| < 4 then None else Some(4)
    case _ => None
  }

  // ----- Decoding (codec.rs:625-816) -----

  /** One decoded record: how far it reaches and what it stores, if anything. */
  datatype Decoded = Malformed | Skipped(size: nat) | Valued(size: nat, value: Json)

  predicate IsVarintType(t: ProtoType) {
    t.Int32? || t.Int64? || t.Uint32? || t.Uint64? || t.Sint32? || t.Sint64? || t.Boolean?
  }

  function UnZigZag(v: nat): int {
    if v % 2 == 0 then v / 2 else -(v / 2) - 1
  }

  function VarintValue(t: ProtoType, v: nat): Json
    requires IsVarintType(t)
  {
    match t
    case Int32 => Int(Signed(v, U32))
    case Int64 => Int(Signed(v, U64))
    case Uint32 => Int(v % U32)
    case Uint64 => Int(v)
    case Sint32 => Int(Signed(UnZigZag(v), U32))
    case Sint64 => Int(UnZigZag(v))
    case Boolean => Bool(v != 0)
  }

  /** JSON has no NaN or infinity: a non-finite float is skipped. */
  function FiniteNumber(lib: Lib, bits: nat, size: nat): Decoded {
    if lib.isFinite(bits) then Valued(size, Float(bits)) else Skipped(size)
  }

  /** The wire types 1 and 5, `raw` being the whole fixed-width payload. */
  function FixedValue(lib: Lib, t: ProtoType, raw: seq<Byte>): Decoded {
    match t
    case Fixed32 => Valued(|raw|, Int(FromLe(raw)))
    case Sfixed32 => Valued(|raw|, Int(Signed(FromLe(raw), U32)))
    case Fixed64 => Valued(|raw|, Int(FromLe(raw)))
    case Sfixed64 => Valued(|raw|, Int(Signed(FromLe(raw), U64)))
    case Float32 => FiniteNumber(lib, lib.widen(FromLe(raw)), |raw|)
    case Float64 => FiniteNumber(lib, FromLe(raw), |raw|)
    case _ => Skipped(|raw|)
  }

  /** The width a fixed type occupies on the wire; zero for the other types. */
  function FixedWidth(t: ProtoType): nat {
    if t.Fixed32? || t.Sfixed32? || t.Float32? then 4
    else if t.Fixed64? || t.Sfixed64? || t.Float64? then 8
    else 0
  }

  function WireTypeOf(t: ProtoType): nat {
    if IsVarintType(t) then 0
    else if FixedWidth(t) == 4 then 5
    else if FixedWidth(t) == 8 then 1
    else 2
  }

  /** `decode_field`: the payload of a known field, `bs` starting after the tag. */
  function DecodeField(lib: Lib, bs: seq<Byte>, wireType: nat, field: ProtoField, msg: ProtoMessage): (d: Decoded)
    ensures !d.Malformed? ==> 1 <= d.size <= |bs|
    decreases msg, 0, 0
  {
    var t := field.typ;
    if IsVarintType(t) && wireType == 0 then
      (match ReadVarint(bs)
       case None => Malformed
       case Some((v, n)) => Valued(n, VarintValue(t, v)))
    else if FixedWidth(t) > 0 && wireType == WireTypeOf(t) then
      (if |bs| < FixedWidth(t) then Malformed else FixedValue(lib, t, bs[..FixedWidth(t)]))
    else if wireType == 2 && (t.Text? || t.Blob? || (t.Message? && t.name in msg.nested)) then
      (match LenPrefixed(bs)
       case None => Malformed
       case Some((start, end)) =>
         var raw := bs[start..end];
         if t.Text? then Valued(end, Str(lib.utf8Lossy(raw)))
         else if t.Blob? then Valued(end, Str(lib.base64Encode(raw)))
         else
           match DecodeMessage(lib, raw, msg.nested[t.name], map[])
           case None => Skipped(end)
           case Some(m) => Valued(end, Obj(m)))
    else
      match SkipField(bs, wireType)
      case None => Malformed
      case Some(n) => Skipped(n)
  }

  function FindField(fields: seq<ProtoField>, number: nat): (r: Option<ProtoField>)
    ensures r.Some? ==> r.value in fields && r.value.number == number
    ensures r.None? ==> forall f :: f in fields ==> f.number != number
  {
    if fields == [] then None
    else if fields[0].number == number then Some(fields[0])
    else FindField(fields[1..], number)
  }

  /** A record read at the front of a buffer: its size and the update it asks for. */
  datatype Record = Bad | Rec(size: nat, update: Option<(ProtoField, Json)>)

  function DecodeRecord(lib: Lib, bs: seq<Byte>, msg: ProtoMessage): (r: Record)
    ensures r.Rec? ==> 1 <= r.size <= |bs|
    ensures r.Rec? && r.update.Some? ==> r.update.value.0 in msg.fields
    decreases msg, 1, 0
  {
    match ReadVarint(bs)
    case None => Bad
    case Some((tag, n)) =>
      var rest := bs[n..];
      match FindField(msg.fields, tag / 8 % U32)
      case None =>
        (match SkipField(rest, tag % 8)
         case None => Bad
         case Some(k) => Rec(n + k, None))
      case Some(field) =>
        match DecodeField(lib, rest, tag % 8, field, msg)
        case Malformed => Bad
        case Skipped(k) => Rec(n + k, None)
        case Valued(k, v) => Rec(n + k, Some((field, v)))
  }

  /** Repeated values accumulate into an array, singular ones replace. */
  function Store(m: map<string, Json>, field: ProtoField, v: Json): map<string, Json> {
    if !field.repeated then m[field.name := v]
    else if field.name !in m then m[field.name := Arr([v])]
    else if m[field.name].Arr? then m[field.name := Arr(m[field.name].items + [v])]
    else m[field.name := Arr([m[field.name], v])]
  }

  function Apply(m: map<string, Json>, update: Option<(ProtoField, Json)>): map<string, Json> {
    match update
    case None => m
    case Some((f, v)) => Store(m, f, v)
  }

  function DecodeMessage(lib: Lib, bs: seq<Byte>, msg: ProtoMessage, acc: map<string, Json>): Option<map<string, Json>>
    decreases msg, 2, |bs|
  {
    if bs == [] then Some(acc)
    else
      match DecodeRecord(lib, bs, msg)
      case Bad => None
      case Rec(n, u) => DecodeMessage(lib, bs[n..], msg, Apply(acc, u))
  }

  /** `ProtobufCodec::decode`: malformed input gives Null. */
  function Decode(lib: Lib, bs: seq<Byte>, msg: ProtoMessage): Json {
    match DecodeMessage(lib, bs, msg, map[])
    case None => Null
    case Some(m) => Obj(m)
  }

  // ----- Encoding (codec.rs:560-612, 832-974) -----

  function NumToI64(lib: Lib, v: Json): Option<int> {
    match v
    case Int(i) => if -U64 <= 2 * i < U64 then Some(i) else None
    case Float(bits) => lib.truncI64(bits)
    case Str(s) => lib.parseI64(s)
    case Bool(b) => Some(if b then 1 else 0)
    case _ => None
  }

  function NumToU64(lib: Lib, v: Json): Option<int> {
    match v
    case Int(i) => if i >= 0 then Some(i) else None
    case Float(bits) => lib.truncU64(bits)
    case Str(s) => lib.parseU64(s)
    case Bool(b) => Some(if b then 1 else 0)
    case _ => None
  }

  function ToBool(lib: Lib, v: Json): Option<bool> {
    match v
    case Bool(b) => Some(b)
    case Int(i) => Some(i != 0)
    case Float(bits) => Some(!lib.isZero(bits))
    case Str(s) => lib.parseBool(s)
    case _ => None
  }

  function ToF64(lib: Lib, v: Json): Option<nat> {
    match v
    case Float(bits) => Some(bits)
    case Int(i) => Some(lib.intToFloat(i))
    case _ => match NumToI64(lib, v) case None => None case Some(i) => Some(lib.intToFloat(i))
  }

  function ZigZag(i: int): int {
    if i >= 0 then 2 * i else -2 * i - 1
  }

  /** The varint written for `v`, or None when the field is left out. */
  function VarintImage(lib: Lib, t: ProtoType, v: Json): (r: Option<nat>)
    requires IsVarintType(t)
  {
    match t
    case Int32 => (match NumToI64(lib, v) case None => None case Some(i) => Some(Wrap(Signed(i, U32), U64)))
    case Int64 => (match NumToI64(lib, v) case None => None case Some(i) => Some(Wrap(i, U64)))
    case Uint32 => (match NumToU64(lib, v) case None => None case Some(u) => Some(Wrap(u, U64)))
    case Uint64 => (match NumToU64(lib, v) case None => None case Some(u) => Some(Wrap(u, U64)))
    case Sint32 => (match NumToI64(lib, v) case None => None case Some(i) => Some(Wrap(ZigZag(Signed(i, U32)), U32)))
    case Sint64 => (match NumToI64(lib, v) case None => None case Some(i) => Some(Wrap(ZigZag(i), U64)))
    case Boolean => (match ToBool(lib, v) case None => None case Some(b) => Some(if b then 1 else 0))
  }

  /** The word written for a fixed-width field, or None when it is left out. */
  function FixedImage(lib: Lib, t: ProtoType, v: Json): (r: Option<nat>)
    requires FixedWidth(t) > 0
  {
    match t
    case Fixed32 => (match NumToU64(lib, v) case None => None case Some(u) => Some(Wrap(u, U32)))
    case Sfixed32 => (match NumToI64(lib, v) case None => None case Some(i) => Some(Wrap(i, U32)))
    case Fixed64 => (match NumToU64(lib, v) case None => None case Some(u) => Some(Wrap(u, U64)))
    case Sfixed64 => (match NumToI64(lib, v) case None => None case Some(i) => Some(Wrap(i, U64)))
    case Float32 =>
      (match ToF64(lib, v)
       case Some(f) => Some(lib.narrow(f))
       case None => if v.Str? then lib.parseF32(v.utf8) else None)
    case Float64 =>
      (match ToF64(lib, v)
       case Some(f) => Some(f)
       case None => if v.Str? then lib.parseF64(v.utf8) else None)
  }

  function Tag(field: ProtoField): seq<Byte> {
    WriteVarint(field.number * 8 + WireTypeOf(field.typ))
  }

  function Sized(raw: seq<Byte>): seq<Byte> {
    WriteVarint(|raw|) + raw
  }

  /** The length-delimited payload of a string or bytes field. */
  function TextImage(lib: Lib, t: ProtoType, v: Json): Option<seq<Byte>>
    requires t.Text? || t.Blob?
  {
    match v
    case Null => None
    case Str(s) =>
      if t.Text? then Some(s)
      else (match lib.base64Decode(s) case Some(raw) => Some(raw) case None => Some(s))
    case _ => Some(lib.jsonText(v))
  }

  /** `encode_field`: the bytes appended for one value of `field`. */
  function EncodeField(lib: Lib, field: ProtoField, v: Json, msg: ProtoMessage): seq<Byte>
    decreases msg, 0, 0
  {
    var t := field.typ;
    if IsVarintType(t) then
      (match VarintImage(lib, t, v)
       case None => []
       case Some(u) => Tag(field) + WriteVarint(u))
    else if FixedWidth(t) > 0 then
      (match FixedImage(lib, t, v)
       case None => []
       case Some(u) => Tag(field) + ToLe(u, FixedWidth(t)))
    else if t.Text? || t.Blob? then
      (match TextImage(lib, t, v)
       case None => []
       case Some(raw) => Tag(field) + Sized(raw))
    else if v.Obj? && t.name in msg.nested then
      Tag(field) + Sized(Encode(lib, v, msg.nested[t.name]))
    else []
  }

  function EncodeAll(lib: Lib, field: ProtoField, vs: seq<Json>, msg: ProtoMessage): seq<Byte>
    decreases msg, 1, |vs|
  {
    if vs == [] then []
    else EncodeField(lib, field, vs[0], msg) + EncodeAll(lib, field, vs[1..], msg)
  }

  /** The values a field contributes: array items when repeated, else the value. */
  function FieldValues(m: map<string, Json>, field: ProtoField): seq<Json> {
    if field.name !in m then []
    else if m[field.name].Arr? && field.repeated then m[field.name].items
    else [m[field.name]]
  }

  function EncodeFields(lib: Lib, m: map<string, Json>, fields: seq<ProtoField>, msg: ProtoMessage): seq<Byte>
    decreases msg, 2, |fields|
  {
    if fields == [] then []
    else EncodeAll(lib, fields[0], FieldValues(m, fields[0]), msg) + EncodeFields(lib, m, fields[1..], msg)
  }

  /** `ProtobufCodec::encode`. */
  function Encode(lib: Lib, v: Json, msg: ProtoMessage): seq<Byte>
    decreases msg, 3, 0
  {
    if v.Obj? then EncodeFields(lib, v.members, msg.fields, msg) else []
  }

  // ----- Decoding composes -----

  lemma {:induction false} LenPrefixedLocal(bs: seq<Byte>, rest: seq<Byte>)
    requires LenPrefixed(bs).Some?
    ensures LenPrefixed(bs + rest) == LenPrefixed(bs)
  {
    GroupsLocal(bs, 0, rest);
  }

  lemma {:induction false} SkipLocal(bs: seq<Byte>, wireType: nat, rest: seq<Byte>)
    requires SkipField(bs, wireType).Some?
    ensures SkipField(bs + rest, wireType) == SkipField(bs, wireType)
  {
    if wireType == 0 {
      GroupsLocal(bs, 0, rest);
    } else if wireType == 2 {
      LenPrefixedLocal(bs, rest);
    }
  }

  lemma {:induction false} FieldLocal(lib: Lib, bs: seq<Byte>, wireType: nat, field: ProtoField, msg: ProtoMessage,
                                      rest: seq<Byte>)
    requires !DecodeField(lib, bs, wireType, field, msg).Malformed?
    ensures DecodeField(lib, bs + rest, wireType, field, msg) == DecodeField(lib, bs, wireType, field, msg)
  {
    var t := field.typ;
    if IsVarintType(t) && wireType == 0 {
      GroupsLocal(bs, 0, rest);
    } else if FixedWidth(t) > 0 && wireType == WireTypeOf(t) {
      assert (bs + rest)[..FixedWidth(t)] == bs[..FixedWidth(t)];
    } else if wireType == 2 && (t.Text? || t.Blob? || (t.Message? && t.name in msg.nested)) {
      LenPrefixedLocal(bs, rest);
      var (start, end) := LenPrefixed(bs).value;
      assert (bs + rest)[start..end] == bs[start..end];
    } else {
      SkipLocal(bs, wireType, rest);
    }
  }

  /** A complete record decodes the same whatever follows it. */
  lemma {:induction false} RecordLocal(lib: Lib, bs: seq<Byte>, msg: ProtoMessage, rest: seq<Byte>)
    requires DecodeRecord(lib, bs, msg).Rec?
    ensures DecodeRecord(lib, bs + rest, msg) == DecodeRecord(lib, bs, msg)
  {
    GroupsLocal(bs, 0, rest);
    var (tag, n) := ReadVarint(bs).value;
    assert (bs + rest)[n..] == bs[n..] + rest;
    match FindField(msg.fields, tag / 8 % U32)
    case None => SkipLocal(bs[n..], tag % 8, rest);
    case Some(field) => FieldLocal(lib, bs[n..], tag % 8, field, msg, rest);
  }

  /** If `a` decodes, decoding `a + b` continues with `b` from what `a` gave. */
  lemma {:induction false} DecodeAppend(lib: Lib, a: seq<Byte>, b: seq<Byte>, msg: ProtoMessage, acc: map<string, Json>)
    requires DecodeMessage(lib, a, msg, acc).Some?
    ensures DecodeMessage(lib, a + b, msg, acc) == DecodeMessage(lib, b, msg, DecodeMessage(lib, a, msg, acc).value)
    decreases |a|
  {
    if a == [] {
      assert a + b == b;
    } else {
      RecordLocal(lib, a, msg, b);
      var r := DecodeRecord(lib, a, msg);
      assert (a + b)[r.size..] == a[r.size..] + b;
      DecodeAppend(lib, a[r.size..], b, msg, Apply(acc, r.update));
    }
  }

  predicate DistinctNames(fields: seq<ProtoField>) {
    forall i, j :: 0 <= i < j < |fields| ==> fields[i].name != fields[j].name
  }

  predicate DistinctNumbers(fields: seq<ProtoField>) {
    forall i, j :: 0 <= i < j < |fields| ==> fields[i].number != fields[j].number
  }

  predicate IsRepeated(fields: seq<ProtoField>, name: string) {
    exists f :: f in fields && f.name == name && f.repeated
  }

  function AsItems(v: Json): seq<Json> {
    if v.Arr? then v.items else [v]
  }

  /** Later singular values replace, repeated values append. */
  function Merge(fields: seq<ProtoField>, x: map<string, Json>, y: map<string, Json>): map<string, Json> {
    map k | k in x.Keys + y.Keys ::
      if k !in y then x[k]
      else if k in x && IsRepeated(fields, k) then Arr(AsItems(x[k]) + AsItems(y[k]))
      else y[k]
  }

  /** A decoded map holds an array under every repeated name it has. */
  ghost predicate ArraysUnderRepeated(fields: seq<ProtoField>, y: map<string, Json>) {
    forall k :: k in y && IsRepeated(fields, k) ==> y[k].Arr?
  }

  lemma {:induction false} StoreCommutesWithMerge(fields: seq<ProtoField>, x: map<string, Json>, y: map<string, Json>,
                                                  f: ProtoField, v: Json)
    requires DistinctNames(fields) && f in fields && ArraysUnderRepeated(fields, y)
    ensures ArraysUnderRepeated(fields, Store(y, f, v))
    ensures Store(Merge(fields, x, y), f, v) == Merge(fields, x, Store(y, f, v))
  {
    assert IsRepeated(fields, f.name) == f.repeated;
    var left, right := Store(Merge(fields, x, y), f, v), Merge(fields, x, Store(y, f, v));
    assert left.Keys == right.Keys;
    if f.repeated && f.name in x && f.name in y {
      assert (AsItems(x[f.name]) + y[f.name].items) + [v] == AsItems(x[f.name]) + (y[f.name].items + [v]);
    }
    forall k | k in left.Keys
      ensures left[k] == right[k]
    {
      if k != f.name {
        assert k in Store(y, f, v) <==> k in y;
      }
    }
  }

  lemma {:induction false} DecodeFromAccumulator(lib: Lib, bs: seq<Byte>, msg: ProtoMessage, x: map<string, Json>,
                                                 y: map<string, Json>)
    requires DistinctNames(msg.fields) && ArraysUnderRepeated(msg.fields, y)
    ensures var d := DecodeMessage(lib, bs, msg, y);
            DecodeMessage(lib, bs, msg, Merge(msg.fields, x, y))
            == if d.None? then None else Some(Merge(msg.fields, x, d.value))
    decreases |bs|
  {
    if bs != [] {
      var r := DecodeRecord(lib, bs, msg);
      if r.Rec? {
        if r.update.Some? {
          var (f, v) := r.update.value;
          StoreCommutesWithMerge(msg.fields, x, y, f, v);
        }
        DecodeFromAccumulator(lib, bs[r.size..], msg, x, Apply(y, r.update));
      }
    }
  }

  /** The main composition law: a decodable prefix merges with whatever the rest decodes to. */
  lemma {:induction false} DecodingComposes(lib: Lib, a: seq<Byte>, b: seq<Byte>, msg: ProtoMessage)
    requires DistinctNames(msg.fields) && Decode(lib, a, msg).Obj?
    ensures var (da, db) := (Decode(lib, a, msg), Decode(lib, b, msg));
            Decode(lib, a + b, msg)
            == if db.Obj? then Obj(Merge(msg.fields, da.members, db.members)) else Null
  {
    var x := Decode(lib, a, msg).members;
    DecodeAppend(lib, a, b, msg, map[]);
    assert Merge(msg.fields, x, map[]) == x;
    DecodeFromAccumulator(lib, b, msg, x, map[]);
  }

  lemma {:induction false} TagParts(number: nat, wireType: nat)
    requires number < U32 && wireType < 8
    ensures var tag := number * 8 + wireType;
            tag < U64 && tag / 8 % U32 == number && tag % 8 == wireType
  {
  }

  lemma {:induction false} UnknownRecordIsSkipped(lib: Lib, number: nat, wireType: nat, payload: seq<Byte>,
                                                  msg: ProtoMessage)
    requires number < U32 && wireType < 8 && forall f :: f in msg.fields ==> f.number != number
    requires SkipField(payload, wireType) == Some(|payload|)
    ensures var unknown := WriteVarint(number * 8 + wireType) + payload;
            DecodeRecord(lib, unknown, msg) == Rec(|unknown|, None)
  {
    var v := number * 8 + wireType;
    TagParts(number, wireType);
    VarintRoundTrip(v, payload);
    var unknown := WriteVarint(v) + payload;
    assert unknown[|WriteVarint(v)|..] == payload;
    assert FindField(msg.fields, number).None?;
  }

  /** Records under numbers the schema does not know are invisible at any record boundary. */
  lemma {:induction false} UnknownRecordsAreInvisible(lib: Lib, a: seq<Byte>, number: nat, wireType: nat,
                                                      payload: seq<Byte>, b: seq<Byte>, msg: ProtoMessage)
    requires Decode(lib, a, msg).Obj?
    requires number < U32 && wireType < 8 && forall f :: f in msg.fields ==> f.number != number
    requires SkipField(payload, wireType) == Some(|payload|)
    ensures var unknown := WriteVarint(number * 8 + wireType) + payload;
            Decode(lib, a + (unknown + b), msg) == Decode(lib, a + b, msg)
  {
    var unknown := WriteVarint(number * 8 + wireType) + payload;
    UnknownRecordIsSkipped(lib, number, wireType, payload, msg);
    var m := DecodeMessage(lib, a, msg, map[]).value;
    assert DecodeMessage(lib, unknown + b, msg, m) == DecodeMessage(lib, b, msg, m) by {
      RecordLocal(lib, unknown, msg, b);
      assert (unknown + b)[|unknown|..] == b;
    }
    DecodeAppend(lib, a, unknown + b, msg, map[]);
    DecodeAppend(lib, a, b, msg, map[]);
  }

  // ----- Round trip -----

  /** Numbers fit a u32 and names and numbers are unique, here and in every nested message. */
  ghost predicate GoodSchema(msg: ProtoMessage)
    decreases msg
  {
    && DistinctNames(msg.fields) && DistinctNumbers(msg.fields)
    && (forall f :: f in msg.fields ==> f.Valid())
    && (forall k :: k in msg.nested ==> GoodSchema(msg.nested[k]))
  }

  ghost predicate WellTyped(lib: Lib, v: Json, t: ProtoType, msg: ProtoMessage)
    decreases msg, 0
  {
    match t
    case Int32 => v.Int? && -U32 <= 2 * v.i < U32
    case Sint32 => v.Int? && -U32 <= 2 * v.i < U32
    case Sfixed32 => v.Int? && -U32 <= 2 * v.i < U32
    case Int64 => v.Int? && -U64 <= 2 * v.i < U64
    case Sint64 => v.Int? && -U64 <= 2 * v.i < U64
    case Sfixed64 => v.Int? && -U64 <= 2 * v.i < U64
    case Uint32 => v.Int? && 0 <= v.i < U32
    case Fixed32 => v.Int? && 0 <= v.i < U32
    case Uint64 => v.Int? && 0 <= v.i < U64
    case Fixed64 => v.Int? && 0 <= v.i < U64
    case Boolean => v.Bool?
    case Float32 => v.Float? && lib.isFinite(v.bits) && exists x: nat :: x < U32 && v.bits == lib.widen(x)
    case Float64 => v.Float? && lib.isFinite(v.bits) && v.bits < U64
    case Text => v.Str? && lib.utf8Lossy(v.utf8) == v.utf8
    case Blob => v.Str? && exists raw :: v.utf8 == lib.base64Encode(raw)
    case Message(n) => v.Obj? && n in msg.nested && WellTypedObject(lib, v.members, msg.nested[n])
  }

  /** Every member belongs to a field and has its type; repeated members are non-empty arrays. */
  ghost predicate WellTypedObject(lib: Lib, m: map<string, Json>, msg: ProtoMessage)
    decreases msg, 1
  {
    && (forall k :: k in m ==> exists f :: f in msg.fields && f.name == k)
    && (forall f :: f in msg.fields && f.name in m ==>
          if f.repeated then
            m[f.name].Arr? && m[f.name].items != [] &&
            forall i :: 0 <= i < |m[f.name].items| ==> WellTyped(lib, m[f.name].items[i], f.typ, msg)
          else WellTyped(lib, m[f.name], f.typ, msg))
  }

  lemma {:induction false} ZigZagRoundTrip(i: int)
    ensures ZigZag(i) >= 0 && UnZigZag(ZigZag(i)) == i
    ensures -U32 <= 2 * i < U32 ==> ZigZag(i) < U32
    ensures -U64 <= 2 * i < U64 ==> ZigZag(i) < U64
  {
  }

  lemma {:induction false} SignExtension(i: int)
    requires -U32 <= 2 * i < U32
    ensures 0 <= Wrap(i, U64) < U64 && Signed(Wrap(i, U64), U32) == i && Signed(i, U32) == i
  {
  }

  lemma {:induction false} ZigZagImage32(i: int)
    requires -U32 <= 2 * i < U32
    ensures var u := Wrap(ZigZag(Signed(i, U32)), U32);
            u < U32 && Signed(UnZigZag(u), U32) == i
  {
    SignedOfSmall(i);
    ZigZagRoundTrip(i);
    WrapOfSmall(ZigZag(i));
  }

  lemma {:induction false} SignedOfSmall(i: int)
    requires -U32 <= 2 * i < U32
    ensures Signed(i, U32) == i
  {
    SignExtension(i);
  }

  lemma {:induction false} WrapOfSmall(u: nat)
    requires u < U32
    ensures Wrap(u, U32) == u
  {
  }

  lemma {:induction false} ZigZagImage64(i: int)
    requires -U64 <= 2 * i < U64
    ensures var u := Wrap(ZigZag(i), U64);
            u < U64 && UnZigZag(u) == i
  {
    ZigZagRoundTrip(i);
  }

  lemma {:induction false} VarintImageRoundTrip(lib: Lib, v: Json, t: ProtoType, msg: ProtoMessage)
    requires IsVarintType(t) && WellTyped(lib, v, t, msg)
    ensures var u := VarintImage(lib, t, v);
            u.Some? && u.value < U64 && VarintValue(t, u.value) == v
  {
    if t.Boolean? {
    } else if t.Uint32? || t.Uint64? {
      assert NumToU64(lib, v) == Some(v.i);
    } else {
      assert NumToI64(lib, v) == Some(v.i);
      if t.Int32? {
        SignExtension(v.i);
      } else if t.Int64? {
        SignedInvertsWrap(v.i, U64);
      } else if t.Sint32? {
        ZigZagImage32(v.i);
      } else {
        ZigZagImage64(v.i);
      }
    }
  }

  lemma {:induction false} FixedImageFits(lib: Lib, v: Json, t: ProtoType, msg: ProtoMessage)
    requires lib.Lawful() && FixedWidth(t) > 0 && WellTyped(lib, v, t, msg)
    ensures var u := FixedImage(lib, t, v);
            && u.Some?
            && u.value < (if FixedWidth(t) == 4 then U32 else U64)
            && v == match t
                    case Float32 => Float(lib.widen(u.value))
                    case Float64 => Float(u.value)
                    case Sfixed32 => Int(Signed(u.value, U32))
                    case Sfixed64 => Int(Signed(u.value, U64))
                    case _ => Int(u.value)
  {
    if t.Sfixed32? {
      SignedInvertsWrap(v.i, U32);
    } else if t.Sfixed64? {
      SignedInvertsWrap(v.i, U64);
    }
  }

  lemma {:induction false} FixedImageRoundTrip(lib: Lib, v: Json, t: ProtoType, msg: ProtoMessage)
    requires lib.Lawful() && FixedWidth(t) > 0 && WellTyped(lib, v, t, msg)
    ensures var u := FixedImage(lib, t, v);
            u.Some? && FixedValue(lib, t, ToLe(u.value, FixedWidth(t))) == Valued(FixedWidth(t), v)
  {
    FixedImageFits(lib, v, t, msg);
    Pow256Widths();
    FromLeToLe(FixedImage(lib, t, v).value, FixedWidth(t));
  }

  lemma {:induction false} TextImageRoundTrip(lib: Lib, v: Json, t: ProtoType, msg: ProtoMessage)
    requires lib.Lawful() && (t.Text? || t.Blob?) && WellTyped(lib, v, t, msg)
    ensures var raw := TextImage(lib, t, v);
            raw.Some? && v == Str(if t.Text? then lib.utf8Lossy(raw.value) else lib.base64Encode(raw.value))
  {
  }

  lemma {:induction false} SizedRoundTrip(raw: seq<Byte>, rest: seq<Byte>)
    requires |raw| < U64
    ensures var r := LenPrefixed(Sized(raw) + rest);
            r.Some? && r.value.1 == |Sized(raw)| && (Sized(raw) + rest)[r.value.0..r.value.1] == raw
  {
    VarintRoundTrip(|raw|, raw + rest);
    assert Sized(raw) + rest == WriteVarint(|raw|) + (raw + rest);
  }

  /** After the tag, the payload written for a well-typed value decodes to it. */
  lemma {:induction false} PayloadRoundTrip(lib: Lib, field: ProtoField, v: Json, msg: ProtoMessage,
                                            payload: seq<Byte>, rest: seq<Byte>)
    requires lib.Lawful() && GoodSchema(msg) && WellTyped(lib, v, field.typ, msg)
    requires EncodeField(lib, field, v, msg) == Tag(field) + payload && |payload| < U64
    ensures DecodeField(lib, payload + rest, WireTypeOf(field.typ), field, msg) == Valued(|payload|, v)
    decreases msg, 0, 0
  {
    var t := field.typ;
    var e := EncodeField(lib, field, v, msg);
    assert payload == e[|Tag(field)|..];
    if IsVarintType(t) {
      VarintImageRoundTrip(lib, v, t, msg);
      var u := VarintImage(lib, t, v).value;
      assert payload == WriteVarint(u);
      VarintRoundTrip(u, rest);
    } else if FixedWidth(t) > 0 {
      FixedImageRoundTrip(lib, v, t, msg);
      var u := FixedImage(lib, t, v).value;
      assert payload == ToLe(u, FixedWidth(t));
      assert (payload + rest)[..FixedWidth(t)] == payload;
    } else if t.Text? || t.Blob? {
      TextImageRoundTrip(lib, v, t, msg);
      var raw := TextImage(lib, t, v).value;
      assert payload == Sized(raw);
      SizedRoundTrip(raw, rest);
    } else {
      var inner := Encode(lib, v, msg.nested[t.name]);
      assert payload == Sized(inner);
      SizedRoundTrip(inner, rest);
      RoundTrip(lib, v.members, msg.nested[t.name]);
    }
  }

  lemma {:induction false} FieldIsTagged(lib: Lib, field: ProtoField, v: Json, msg: ProtoMessage)
    returns (payload: seq<Byte>)
    requires lib.Lawful() && WellTyped(lib, v, field.typ, msg)
    ensures EncodeField(lib, field, v, msg) == Tag(field) + payload
  {
    var t := field.typ;
    if IsVarintType(t) {
      VarintImageRoundTrip(lib, v, t, msg);
      payload := WriteVarint(VarintImage(lib, t, v).value);
    } else if FixedWidth(t) > 0 {
      FixedImageRoundTrip(lib, v, t, msg);
      payload := ToLe(FixedImage(lib, t, v).value, FixedWidth(t));
    } else if t.Text? || t.Blob? {
      payload := Sized(TextImage(lib, t, v).value);
    } else {
      payload := Sized(Encode(lib, v, msg.nested[t.name]));
    }
  }

  lemma {:induction false} FindDistinct(fields: seq<ProtoField>, f: ProtoField)
    requires DistinctNumbers(fields) && f in fields
    ensures FindField(fields, f.number) == Some(f)
  {
  }

  lemma {:induction false} TagRoundTrip(field: ProtoField, rest: seq<Byte>)
    requires field.Valid()
    ensures var r := ReadVarint(Tag(field) + rest);
            && r.Some? && r.value.1 == |Tag(field)|
            && r.value.0 / 8 % U32 == field.number && r.value.0 % 8 == WireTypeOf(field.typ)
  {
    TagParts(field.number, WireTypeOf(field.typ));
    VarintRoundTrip(field.number * 8 + WireTypeOf(field.typ), rest);
  }

  /** The bytes written for one value form one record that stores exactly that value. */
  lemma {:induction false} RecordRoundTrip(lib: Lib, field: ProtoField, v: Json, msg: ProtoMessage, rest: seq<Byte>)
    requires lib.Lawful() && GoodSchema(msg) && field in msg.fields && WellTyped(lib, v, field.typ, msg)
    requires |EncodeField(lib, field, v, msg)| < U64
    ensures var e := EncodeField(lib, field, v, msg);
            e != [] && DecodeRecord(lib, e + rest, msg) == Rec(|e|, Some((field, v)))
    decreases msg, 1, 0
  {
    var payload := FieldIsTagged(lib, field, v, msg);
    var tag := Tag(field);
    var e := EncodeField(lib, field, v, msg);
    assert e + rest == tag + (payload + rest);
    TagRoundTrip(field, payload + rest);
    assert (e + rest)[|tag|..] == payload + rest;
    FindDistinct(msg.fields, field);
    PayloadRoundTrip(lib, field, v, msg, payload, rest);
  }

  /** Storing several values of one field, in order. */
  function StoreAll(m: map<string, Json>, field: ProtoField, vs: seq<Json>): map<string, Json>
    decreases |vs|
  {
    if vs == [] then m else StoreAll(Store(m, field, vs[0]), field, vs[1..])
  }

  lemma {:induction false} AllRoundTrip(lib: Lib, field: ProtoField, vs: seq<Json>, msg: ProtoMessage,
                                        rest: seq<Byte>, acc: map<string, Json>)
    requires lib.Lawful() && GoodSchema(msg) && field in msg.fields
    requires forall i :: 0 <= i < |vs| ==> WellTyped(lib, vs[i], field.typ, msg)
    requires |EncodeAll(lib, field, vs, msg)| < U64
    ensures DecodeMessage(lib, EncodeAll(lib, field, vs, msg) + rest, msg, acc)
            == DecodeMessage(lib, rest, msg, StoreAll(acc, field, vs))
    decreases msg, 2, |vs|
  {
    if vs == [] {
      assert EncodeAll(lib, field, vs, msg) + rest == rest;
    } else {
      var e, more := EncodeField(lib, field, vs[0], msg), EncodeAll(lib, field, vs[1..], msg);
      RecordRoundTrip(lib, field, vs[0], msg, more + rest);
      assert EncodeAll(lib, field, vs, msg) + rest == e + (more + rest);
      assert (e + (more + rest))[|e|..] == more + rest;
      AllRoundTrip(lib, field, vs[1..], msg, rest, Store(acc, field, vs[0]));
    }
  }

  lemma {:induction false} StoreAllRepeated(m: map<string, Json>, field: ProtoField, vs: seq<Json>)
    requires field.repeated && field.name in m && m[field.name].Arr?
    ensures StoreAll(m, field, vs) == m[field.name := Arr(m[field.name].items + vs)]
    decreases |vs|
  {
    var got := m[field.name].items;
    if vs == [] {
      assert got + vs == got;
    } else {
      StoreAllRepeated(Store(m, field, vs[0]), field, vs[1..]);
      assert got + [vs[0]] + vs[1..] == got + vs;
    }
  }

  /** Storing the values a field contributes to `m` puts its member back. */
  lemma {:induction false} StoreFieldValues(lib: Lib, acc: map<string, Json>, m: map<string, Json>, field: ProtoField,
                                            msg: ProtoMessage)
    requires WellTypedObject(lib, m, msg) && field in msg.fields && field.name !in acc
    ensures StoreAll(acc, field, FieldValues(m, field))
            == if field.name in m then acc[field.name := m[field.name]] else acc
  {
    if field.name in m {
      var vs := FieldValues(m, field);
      if field.repeated {
        StoreAllRepeated(Store(acc, field, vs[0]), field, vs[1..]);
        assert [vs[0]] + vs[1..] == vs;
      }
    }
  }

  /** The members of `m` whose names belong to the first `i` fields. */
  function Prefix(m: map<string, Json>, fields: seq<ProtoField>, i: nat): map<string, Json>
    requires i <= |fields|
  {
    map k | k in m && (exists j :: 0 <= j < i && fields[j].name == k) :: m[k]
  }

  lemma {:induction false} PrefixStep(m: map<string, Json>, fields: seq<ProtoField>, i: nat)
    requires DistinctNames(fields) && i < |fields|
    ensures var (acc, f) := (Prefix(m, fields, i), fields[i]);
            && f.name !in acc
            && Prefix(m, fields, i + 1) == if f.name in m then acc[f.name := m[f.name]] else acc
  {
  }

  lemma {:induction false} PrefixFull(lib: Lib, m: map<string, Json>, msg: ProtoMessage)
    requires WellTypedObject(lib, m, msg)
    ensures Prefix(m, msg.fields, |msg.fields|) == m
  {
  }

  lemma {:induction false} FieldsRoundTrip(lib: Lib, m: map<string, Json>, msg: ProtoMessage, i: nat)
    requires lib.Lawful() && GoodSchema(msg) && WellTypedObject(lib, m, msg) && i <= |msg.fields|
    requires |EncodeFields(lib, m, msg.fields[i..], msg)| < U64
    ensures DecodeMessage(lib, EncodeFields(lib, m, msg.fields[i..], msg), msg, Prefix(m, msg.fields, i)) == Some(m)
    decreases msg, 3, |msg.fields| - i
  {
    var fields := msg.fields;
    if i == |fields| {
      PrefixFull(lib, m, msg);
    } else {
      var f, acc := fields[i], Prefix(m, fields, i);
      assert fields[i..][1..] == fields[i + 1..];
      var rest := EncodeFields(lib, m, fields[i + 1..], msg);
      PrefixStep(m, fields, i);
      ValuesAreTyped(lib, m, f, msg);
      AllRoundTrip(lib, f, FieldValues(m, f), msg, rest, acc);
      StoreFieldValues(lib, acc, m, f, msg);
      FieldsRoundTrip(lib, m, msg, i + 1);
    }
  }

  lemma {:induction false} ValuesAreTyped(lib: Lib, m: map<string, Json>, f: ProtoField, msg: ProtoMessage)
    requires WellTypedObject(lib, m, msg) && f in msg.fields
    ensures forall i :: 0 <= i < |FieldValues(m, f)| ==> WellTyped(lib, FieldValues(m, f)[i], f.typ, msg)
  {
  }

  /** Decoding what was encoded from a well-typed object gives it back, at any nesting depth. */
  lemma {:induction false} RoundTrip(lib: Lib, m: map<string, Json>, msg: ProtoMessage)
    requires lib.Lawful() && GoodSchema(msg) && WellTypedObject(lib, m, msg)
    requires |Encode(lib, Obj(m), msg)| < U64
    ensures Decode(lib, Encode(lib, Obj(m), msg), msg) == Obj(m)
    ensures DecodeMessage(lib, Encode(lib, Obj(m), msg), msg, map[]) == Some(m)
    decreases msg, 4, 0
  {
    assert msg.fields[0..] == msg.fields;
    assert Prefix(m, msg.fields, 0) == map[];
    FieldsRoundTrip(lib, m, msg, 0);
  }

  // ----- Normal form -----

  lemma {:induction false} GroupFits(b: Byte, k: nat)
    requires k < 9
    ensures Group(b, k) + Shift(1, k) <= Shift(1, k + 1)
  {
    ShiftScales(b % 128, k);
    MulMonotone(b % 128, 127, Shift(1, k));
  }

  lemma {:induction false} ShiftScales(a: nat, k: nat)
    ensures Shift(a, k) == a * Shift(1, k)
    decreases a
  {
    if a == 0 {
      ShiftZero(k);
    } else {
      ShiftScales(a - 1, k);
      ShiftAdds(a - 1, 1, k);
    }
  }

  lemma {:induction false} ShiftZero(k: nat)
    ensures Shift(0, k) == 0
  {
    if k > 0 {
      ShiftZero(k - 1);
    }
  }

  lemma {:induction false} ShiftBelowTop(k: nat)
    requires k <= 9
    ensures 1 <= Shift(1, k) <= 0x8000_0000_0000_0000
    decreases 9 - k
  {
    if k == 9 {
      ShiftNine(1);
    } else {
      ShiftBelowTop(k + 1);
    }
  }

  lemma {:induction false} LastGroupFits(b: Byte)
    ensures Group(b, 9) <= 0x8000_0000_0000_0000
  {
    ShiftNine(b % 128);
  }

  /** The groups of a varint never overlap, so their sum stays below 2^64. */
  lemma {:induction false} GroupsFit(bs: seq<Byte>, k: nat)
    requires k < 10 && ReadGroups(bs, k).Some?
    ensures ReadGroups(bs, k).value.0 + Shift(1, k) <= U64
    decreases |bs|
  {
    ShiftBelowTop(k);
    if k == 9 {
      ShiftNine(1);
      LastGroupFits(bs[0]);
    } else {
      GroupFits(bs[0], k);
      ShiftBelowTop(k + 1);
      if bs[0] >= 128 {
        GroupsFit(bs[1..], k + 1);
      }
    }
  }

  lemma {:induction false} VarintFits(bs: seq<Byte>)
    requires ReadVarint(bs).Some?
    ensures ReadVarint(bs).value.0 < U64
  {
    GroupsFit(bs, 0);
  }

  lemma {:induction false} FromLeFits(bs: seq<Byte>)
    ensures FromLe(bs) < Pow256(|bs|)
  {
    if bs != [] {
      FromLeFits(bs[1..]);
    }
  }

  lemma {:induction false} SignedInRange(u: int, m: int)
    requires m > 0
    ensures -m <= 2 * Signed(u, m) < m
  {
  }

  lemma {:induction false} VarintValueIsTyped(lib: Lib, t: ProtoType, v: nat, msg: ProtoMessage)
    requires IsVarintType(t) && v < U64
    ensures WellTyped(lib, VarintValue(t, v), t, msg)
  {
    SignedInRange(v, U32);
    SignedInRange(v, U64);
    SignedInRange(UnZigZag(v), U32);
  }

  lemma {:induction false} FixedValueIsTyped(lib: Lib, t: ProtoType, raw: seq<Byte>, msg: ProtoMessage)
    requires FixedWidth(t) > 0 && |raw| == FixedWidth(t) && FixedValue(lib, t, raw).Valued?
    ensures WellTyped(lib, FixedValue(lib, t, raw).value, t, msg)
  {
    FromLeFits(raw);
    Pow256Widths();
    SignedInRange(FromLe(raw), U32);
    SignedInRange(FromLe(raw), U64);
  }

  lemma {:induction false} TextIsTyped(lib: Lib, t: ProtoType, raw: seq<Byte>, msg: ProtoMessage)
    requires lib.LossyOnce() && (t.Text? || t.Blob?)
    ensures WellTyped(lib, Str(if t.Text? then lib.utf8Lossy(raw) else lib.base64Encode(raw)), t, msg)
  {
    if t.Text? {
      assert lib.utf8Lossy(lib.utf8Lossy(raw)) == lib.utf8Lossy(raw);
    }
  }

  /** Whatever bytes a field is read from, its value has the field's type. */
  lemma {:induction false} FieldIsTyped(lib: Lib, bs: seq<Byte>, wireType: nat, field: ProtoField, msg: ProtoMessage)
    requires lib.LossyOnce() && GoodSchema(msg) && DecodeField(lib, bs, wireType, field, msg).Valued?
    ensures WellTyped(lib, DecodeField(lib, bs, wireType, field, msg).value, field.typ, msg)
    decreases msg, 0, 0
  {
    var t := field.typ;
    if IsVarintType(t) {
      VarintFits(bs);
      VarintValueIsTyped(lib, t, ReadVarint(bs).value.0, msg);
    } else if FixedWidth(t) > 0 {
      FixedValueIsTyped(lib, t, bs[..FixedWidth(t)], msg);
    } else {
      var (start, end) := LenPrefixed(bs).value;
      var raw := bs[start..end];
      if t.Message? {
        MessageIsTyped(lib, raw, msg.nested[t.name], map[]);
      } else {
        TextIsTyped(lib, t, raw, msg);
      }
    }
  }

  lemma {:induction false} StoreIsTyped(lib: Lib, m: map<string, Json>, field: ProtoField, v: Json, msg: ProtoMessage)
    requires DistinctNames(msg.fields) && field in msg.fields
    requires WellTypedObject(lib, m, msg) && WellTyped(lib, v, field.typ, msg)
    ensures WellTypedObject(lib, Store(m, field, v), msg)
  {
    var stored := Store(m, field, v);
    forall f | f in msg.fields && f.name in stored
      ensures if f.repeated then
                stored[f.name].Arr? && stored[f.name].items != [] &&
                forall i :: 0 <= i < |stored[f.name].items| ==> WellTyped(lib, stored[f.name].items[i], f.typ, msg)
              else WellTyped(lib, stored[f.name], f.typ, msg)
    {
      if f.name == field.name {
        assert f == field;
      } else {
        assert f.name in m && stored[f.name] == m[f.name];
      }
    }
  }

  lemma {:induction false} RecordIsTyped(lib: Lib, bs: seq<Byte>, msg: ProtoMessage)
    requires lib.LossyOnce() && GoodSchema(msg)
    requires DecodeRecord(lib, bs, msg).Rec? && DecodeRecord(lib, bs, msg).update.Some?
    ensures var (f, v) := DecodeRecord(lib, bs, msg).update.value;
            f in msg.fields && WellTyped(lib, v, f.typ, msg)
    decreases msg, 1, 0
  {
    var (tag, n) := ReadVarint(bs).value;
    FieldIsTyped(lib, bs[n..], tag % 8, FindField(msg.fields, tag / 8 % U32).value, msg);
  }

  /** Every object that comes out of the decoder is well typed, whatever the bytes. */
  lemma {:induction false} MessageIsTyped(lib: Lib, bs: seq<Byte>, msg: ProtoMessage, acc: map<string, Json>)
    requires lib.LossyOnce() && GoodSchema(msg) && WellTypedObject(lib, acc, msg)
    requires DecodeMessage(lib, bs, msg, acc).Some?
    ensures WellTypedObject(lib, DecodeMessage(lib, bs, msg, acc).value, msg)
    decreases msg, 2, |bs|
  {
    if bs != [] {
      var r := DecodeRecord(lib, bs, msg);
      if r.update.Some? {
        RecordIsTyped(lib, bs, msg);
        StoreIsTyped(lib, acc, r.update.value.0, r.update.value.1, msg);
      }
      MessageIsTyped(lib, bs[r.size..], msg, Apply(acc, r.update));
    }
  }

  /**
    Re-encoding what any bytes decode to gives bytes that decode to the same, exactly
    when the bytes decode at all; malformed bytes come back as an empty object.
   */
  lemma {:induction false} NormalFormIff(lib: Lib, bs: seq<Byte>, msg: ProtoMessage)
    requires lib.Lawful() && lib.LossyOnce() && GoodSchema(msg)
    requires |Encode(lib, Decode(lib, bs, msg), msg)| < U64
    ensures var first := Decode(lib, bs, msg);
            Decode(lib, Encode(lib, first, msg), msg) == first <==> first.Obj?
  {
    if Decode(lib, bs, msg).Obj? {
      MessageIsTyped(lib, bs, msg, map[]);
      RoundTrip(lib, Decode(lib, bs, msg).members, msg);
    }
  }

  /** Well-typed objects are exactly what the decoder can return. */
  lemma {:induction false} DecodedIffWellTyped(lib: Lib, m: map<string, Json>, msg: ProtoMessage)
    requires lib.Lawful() && lib.LossyOnce() && GoodSchema(msg)
    requires |Encode(lib, Obj(m), msg)| < U64
    ensures WellTypedObject(lib, m, msg) <==> exists bs :: Decode(lib, bs, msg) == Obj(m)
  {
    if WellTypedObject(lib, m, msg) {
      RoundTrip(lib, m, msg);
    }
    forall bs | Decode(lib, bs, msg) == Obj(m)
      ensures WellTypedObject(lib, m, msg)
    {
      MessageIsTyped(lib, bs, msg, map[]);
    }
  }

  // ----- The source's loops -----

  /** The rest of a run of `read_varint` that has `k` bytes behind it and `result` so far. */
  ghost function ReadOn(bytes: seq<Byte>, pos: nat, k: nat, result: nat): Option<(nat, nat)>
    requires k <= 10 && pos <= |bytes|
    decreases |bytes| - pos
  {
    if k == 10 || pos == |bytes| then None
    else
      var grown := result + Group(bytes[pos], k);
      if bytes[pos] < 128 then Some((grown, pos + 1)) else ReadOn(bytes, pos + 1, k + 1, grown)
  }

  lemma {:induction false} ReadOnAgrees(bytes: seq<Byte>, pos: nat, k: nat, result: nat)
    requires k <= 10 && pos <= |bytes|
    ensures var r := ReadGroups(bytes[pos..], k);
            ReadOn(bytes, pos, k, result) == if r.None? then None else Some((result + r.value.0, pos + r.value.1))
    decreases 10 - k
  {
    if k < 10 && pos < |bytes| && bytes[pos] >= 128 {
      assert bytes[pos..][1..] == bytes[pos + 1..];
      ReadOnAgrees(bytes, pos + 1, k + 1, result + Group(bytes[pos], k));
    }
  }

  /** `read_varint`: at most ten bytes; `next` is the advanced position. */
  method ReadVarintAt(bytes: seq<Byte>, pos: nat) returns (value: Option<nat>, next: nat)
    requires pos <= |bytes|
    ensures pos <= next <= |bytes|
    ensures var r := ReadVarint(bytes[pos..]);
            if r.None? then value == None else value == Some(r.value.0) && next == pos + r.value.1
  {
    ReadOnAgrees(bytes, pos, 0, 0);
    var result: nat := 0;
    next := pos;
    for k := 0 to 10
      invariant next == pos + k <= |bytes|
      invariant ReadOn(bytes, next, k, result) == ReadOn(bytes, pos, 0, 0)
    {
      if next == |bytes| {
        return None, next;
      }
      var b := bytes[next];
      next := next + 1;
      result := result + Group(b, k);
      if b < 128 {
        return Some(result), next;
      }
    }
    value := None;
  }

  /** `write_varint`: appends to the output buffer. */
  method AppendVarint(out: seq<Byte>, v: nat) returns (grown: seq<Byte>)
    ensures grown == out + WriteVarint(v)
  {
    grown := out;
    var value := v;
    while true
      invariant grown + WriteVarint(value) == out + WriteVarint(v)
      decreases value
    {
      var bits := value % 128;
      value := value / 128;
      if value == 0 {
        grown := grown + [bits];
        return;
      }
      grown := grown + [bits + 128];
    }
  }

  /** `decode_inner`: the record loop. It always terminates because every record advances `pos`. */
  method DecodeInner(lib: Lib, bytes: seq<Byte>, msg: ProtoMessage) returns (r: Option<map<string, Json>>)
    ensures r == DecodeMessage(lib, bytes, msg, map[])
  {
    var m: map<string, Json> := map[];
    var pos := 0;
    while pos < |bytes|
      invariant pos <= |bytes|
      invariant DecodeMessage(lib, bytes[pos..], msg, m) == DecodeMessage(lib, bytes, msg, map[])
    {
      match DecodeRecord(lib, bytes[pos..], msg)
      case Bad => return None;
      case Rec(n, u) =>
        assert bytes[pos..][n..] == bytes[pos + n..];
        pos := pos + n;
        m := Apply(m, u);
    }
    r := Some(m);
  }

  /** The inner loop of `encode`: one field's values. */
  method AppendValues(lib: Lib, out: seq<Byte>, field: ProtoField, values: seq<Json>, msg: ProtoMessage)
    returns (grown: seq<Byte>)
    ensures grown == out + EncodeAll(lib, field, values, msg)
  {
    grown := out;
    for j := 0 to |values|
      invariant grown + EncodeAll(lib, field, values[j..], msg) == out + EncodeAll(lib, field, values, msg)
    {
      assert values[j..][1..] == values[j + 1..];
      grown := grown + EncodeField(lib, field, values[j], msg);
    }
  }

  /** `encode`: the loop over schema fields. */
  method EncodeObject(lib: Lib, members: map<string, Json>, msg: ProtoMessage) returns (out: seq<Byte>)
    ensures out == Encode(lib, Obj(members), msg)
  {
    out := [];
    ghost var all := EncodeFields(lib, members, msg.fields, msg);
    assert msg.fields[0..] == msg.fields;
    for i := 0 to |msg.fields|
      invariant out + EncodeFields(lib, members, msg.fields[i..], msg) == all
    {
      var field := msg.fields[i];
      var values := FieldValues(members, field);
      ghost var before, bytes := out, EncodeAll(lib, field, values, msg);
      FieldsStep(lib, members, msg.fields, i, msg);
      out := AppendValues(lib, out, field, values, msg);
      ConcatAssociates(before, bytes, EncodeFields(lib, members, msg.fields[i + 1..], msg));
    }
    assert msg.fields[|msg.fields|..] == [];
    ConcatNil(out);
  }

  lemma {:induction false} FieldsStep(lib: Lib, m: map<string, Json>, fields: seq<ProtoField>, i: nat,
                                      msg: ProtoMessage)
    requires i < |fields|
    ensures EncodeFields(lib, m, fields[i..], msg)
            == EncodeAll(lib, fields[i], FieldValues(m, fields[i]), msg) + EncodeFields(lib, m, fields[i + 1..], msg)
  {
    assert fields[i..][1..] == fields[i + 1..];
  }
}
