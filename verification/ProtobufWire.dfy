/**
  The protobuf wire format of `codec.rs` byte by byte: which bytes stand for which value, with
  the wire types, widths and two's complement written out as numbers. The codec's own tables of
  wire types and widths are not used here, so these statements fix them.
 */
module ProtobufWire {
  import opened Common
  import opened Protobuf

  // ----- Records -----

  lemma {:induction false} TagReads(number: nat, w: nat, tail: seq<Byte>)
    requires number < U32 && w < 8
    ensures var tag := WriteVarint(8 * number + w);
            && ReadVarint(tag + tail) == Some((8 * number + w, |tag|)) && (tag + tail)[|tag|..] == tail
            && (8 * number + w) / 8 % U32 == number && (8 * number + w) % 8 == w
  {
    TagParts(number, w);
    assert number * 8 + w == 8 * number + w;
    VarintRoundTrip(8 * number + w, tail);
    ConcatSplits(WriteVarint(8 * number + w), tail);
  }

  /** What one record becomes, given what its payload is read as. */
  function Update(field: ProtoField, d: Decoded, tag: nat): Record {
    match d
    case Malformed => Bad
    case Skipped(k) => Rec(tag + k, None)
    case Valued(k, v) => Rec(tag + k, Some((field, v)))
  }

  lemma {:induction false} KnownStep(lib: Lib, bs: seq<Byte>, tag: nat, n: nat, field: ProtoField, msg: ProtoMessage)
    requires ReadVarint(bs) == Some((tag, n)) && FindField(msg.fields, tag / 8 % U32) == Some(field)
    ensures DecodeRecord(lib, bs, msg) == Update(field, DecodeField(lib, bs[n..], tag % 8, field, msg), n)
  {
  }

  lemma {:induction false} KnownRecord(lib: Lib, field: ProtoField, w: nat, tail: seq<Byte>, msg: ProtoMessage)
    requires GoodSchema(msg) && field in msg.fields && w < 8
    ensures var tag := WriteVarint(8 * field.number + w);
            DecodeRecord(lib, tag + tail, msg) == Update(field, DecodeField(lib, tail, w, field, msg), |tag|)
  {
    var tag := WriteVarint(8 * field.number + w);
    TagReads(field.number, w, tail);
    FindDistinct(msg.fields, field);
    KnownStep(lib, tag + tail, 8 * field.number + w, |tag|, field, msg);
  }

  /** A known record in front of `rest`, its payload having been read as `d`. */
  lemma {:induction false} WireRecord(lib: Lib, field: ProtoField, w: nat, payload: seq<Byte>, rest: seq<Byte>,
                                      msg: ProtoMessage, d: Decoded)
    requires GoodSchema(msg) && field in msg.fields && w < 8
    requires DecodeField(lib, payload + rest, w, field, msg) == d
    ensures var tag := WriteVarint(8 * field.number + w);
            DecodeRecord(lib, (tag + payload) + rest, msg) == Update(field, d, |tag|)
  {
    ConcatAssociates(WriteVarint(8 * field.number + w), payload, rest);
    KnownRecord(lib, field, w, payload + rest, msg);
  }

  lemma {:induction false} UnknownRecord(lib: Lib, number: nat, w: nat, tail: seq<Byte>, msg: ProtoMessage)
    requires number < U32 && w < 8 && FindField(msg.fields, number).None?
    ensures var tag := WriteVarint(8 * number + w);
            DecodeRecord(lib, tag + tail, msg)
            == var k := SkipField(tail, w); if k.None? then Bad else Rec(|tag| + k.value, None)
  {
    TagReads(number, w, tail);
  }

  /** Of two fields with one number the first counts. */
  lemma {:induction false} FirstFieldCounts(fields: seq<ProtoField>, i: nat)
    requires i < |fields| && forall j | 0 <= j < i :: fields[j].number != fields[i].number
    ensures FindField(fields, fields[i].number) == Some(fields[i])
  {
    if i > 0 {
      assert fields[0].number != fields[i].number;
      FirstFieldCounts(fields[1..], i - 1);
    }
  }

  // ----- Fixed widths -----

  lemma {:induction false} WordReads(u: nat, k: nat, rest: seq<Byte>)
    requires u < Pow256(k)
    ensures |ToLe(u, k) + rest| >= k && (ToLe(u, k) + rest)[..k] == ToLe(u, k) && FromLe(ToLe(u, k)) == u
  {
    FromLeToLe(u, k);
    ConcatSplits(ToLe(u, k), rest);
  }

  /** What four bytes that hold `u` are worth in each of the four-byte types. */
  function FourByteValue(lib: Lib, t: ProtoType, u: nat): Option<Json> {
    if t.Fixed32? then Some(Int(u))
    else if t.Sfixed32? then Some(Int(if u < 0x8000_0000 then u else u - 0x1_0000_0000))
    else if lib.isFinite(lib.widen(u)) then Some(Float(lib.widen(u)))
    else None
  }

  lemma {:induction false} FourByteRead(lib: Lib, t: ProtoType, raw: seq<Byte>, u: nat)
    requires |raw| == 4 && FromLe(raw) == u && u < 0x1_0000_0000 && (t.Fixed32? || t.Sfixed32? || t.Float32?)
    ensures var v := FourByteValue(lib, t, u);
            FixedValue(lib, t, raw) == if v.None? then Skipped(4) else Valued(4, v.value)
  {
  }

  lemma {:induction false} FourByteField(lib: Lib, field: ProtoField, u: nat, rest: seq<Byte>, msg: ProtoMessage)
    requires u < 0x1_0000_0000 && (field.typ.Fixed32? || field.typ.Sfixed32? || field.typ.Float32?)
    ensures var v := FourByteValue(lib, field.typ, u);
            DecodeField(lib, ToLe(u, 4) + rest, 5, field, msg)
            == if v.None? then Skipped(4) else Valued(4, v.value)
  {
    Pow256Widths();
    WordReads(u, 4, rest);
    FourByteRead(lib, field.typ, ToLe(u, 4), u);
  }

  /**
    Tag `8 * number + 5` and four little-endian bytes: one record, which stores the number they
    hold, or its two's complement, or the float unless it is not finite.
   */
  lemma {:induction false} FourByteWire(lib: Lib, field: ProtoField, u: nat, rest: seq<Byte>, msg: ProtoMessage)
    requires GoodSchema(msg) && field in msg.fields
    requires u < 0x1_0000_0000 && (field.typ.Fixed32? || field.typ.Sfixed32? || field.typ.Float32?)
    ensures var (bytes, v) := (WriteVarint(8 * field.number + 5) + ToLe(u, 4), FourByteValue(lib, field.typ, u));
            DecodeRecord(lib, bytes + rest, msg)
            == Rec(|bytes|, if v.None? then None else Some((field, v.value)))
  {
    var v := FourByteValue(lib, field.typ, u);
    FourByteField(lib, field, u, rest, msg);
    WireRecord(lib, field, 5, ToLe(u, 4), rest, msg, if v.None? then Skipped(4) else Valued(4, v.value));
  }

  lemma {:induction false} FourByteImage(lib: Lib, t: ProtoType, i: int)
    requires (t.Fixed32? && 0 <= i < 0x1_0000_0000) || (t.Sfixed32? && -0x8000_0000 <= i < 0x8000_0000)
    ensures FixedImage(lib, t, Int(i)) == Some(if i < 0 then i + 0x1_0000_0000 else i)
  {
    if i < 0 {
      WrapNegative(i, 0x1_0000_0000);
    }
  }

  /** And those are the bytes that are written. */
  lemma {:induction false} FourByteBytes(lib: Lib, field: ProtoField, i: int, f: nat, msg: ProtoMessage)
    ensures field.typ.Fixed32? && 0 <= i < 0x1_0000_0000 ==>
              EncodeField(lib, field, Int(i), msg) == WriteVarint(8 * field.number + 5) + ToLe(i, 4)
    ensures field.typ.Sfixed32? && -0x8000_0000 <= i < 0x8000_0000 ==>
              EncodeField(lib, field, Int(i), msg)
              == WriteVarint(8 * field.number + 5) + ToLe(if i < 0 then i + 0x1_0000_0000 else i, 4)
    ensures field.typ.Float32? ==>
              EncodeField(lib, field, Float(f), msg) == WriteVarint(8 * field.number + 5) + ToLe(lib.narrow(f), 4)
  {
    assert field.number * 8 + 5 == 8 * field.number + 5;
    if field.typ.Fixed32? && 0 <= i < 0x1_0000_0000 {
      FourByteImage(lib, field.typ, i);
    }
    if field.typ.Sfixed32? && -0x8000_0000 <= i < 0x8000_0000 {
      FourByteImage(lib, field.typ, i);
    }
  }

  lemma {:induction false} WrapNegative(i: int, m: int)
    requires -m <= i < 0
    ensures Wrap(i, m) == i + m
  {
    assert i + m == (-1) * -m + i;
  }

  function EightByteValue(lib: Lib, t: ProtoType, u: nat): Option<Json> {
    if t.Fixed64? then Some(Int(u))
    else if t.Sfixed64? then Some(Int(if u < 0x8000_0000_0000_0000 then u else u - 0x1_0000_0000_0000_0000))
    else if lib.isFinite(u) then Some(Float(u))
    else None
  }

  lemma {:induction false} EightByteRead(lib: Lib, t: ProtoType, raw: seq<Byte>, u: nat)
    requires |raw| == 8 && FromLe(raw) == u && u < 0x1_0000_0000_0000_0000 && (t.Fixed64? || t.Sfixed64? || t.Float64?)
    ensures var v := EightByteValue(lib, t, u);
            FixedValue(lib, t, raw) == if v.None? then Skipped(8) else Valued(8, v.value)
  {
  }

  lemma {:induction false} EightByteField(lib: Lib, field: ProtoField, u: nat, rest: seq<Byte>, msg: ProtoMessage)
    requires u < 0x1_0000_0000_0000_0000 && (field.typ.Fixed64? || field.typ.Sfixed64? || field.typ.Float64?)
    ensures var v := EightByteValue(lib, field.typ, u);
            DecodeField(lib, ToLe(u, 8) + rest, 1, field, msg)
            == if v.None? then Skipped(8) else Valued(8, v.value)
  {
    Pow256Widths();
    WordReads(u, 8, rest);
    EightByteRead(lib, field.typ, ToLe(u, 8), u);
  }

  /** The same with tag `8 * number + 1` and eight bytes. */
  lemma {:induction false} EightByteWire(lib: Lib, field: ProtoField, u: nat, rest: seq<Byte>, msg: ProtoMessage)
    requires GoodSchema(msg) && field in msg.fields
    requires u < 0x1_0000_0000_0000_0000 && (field.typ.Fixed64? || field.typ.Sfixed64? || field.typ.Float64?)
    ensures var (bytes, v) := (WriteVarint(8 * field.number + 1) + ToLe(u, 8), EightByteValue(lib, field.typ, u));
            DecodeRecord(lib, bytes + rest, msg)
            == Rec(|bytes|, if v.None? then None else Some((field, v.value)))
  {
    var v := EightByteValue(lib, field.typ, u);
    EightByteField(lib, field, u, rest, msg);
    WireRecord(lib, field, 1, ToLe(u, 8), rest, msg, if v.None? then Skipped(8) else Valued(8, v.value));
  }

  lemma {:induction false} EightByteImage(lib: Lib, t: ProtoType, i: int)
    requires || (t.Fixed64? && 0 <= i < 0x1_0000_0000_0000_0000)
             || (t.Sfixed64? && -0x8000_0000_0000_0000 <= i < 0x8000_0000_0000_0000)
    ensures FixedImage(lib, t, Int(i)) == Some(if i < 0 then i + 0x1_0000_0000_0000_0000 else i)
  {
    if i < 0 {
      WrapNegative(i, 0x1_0000_0000_0000_0000);
    }
  }

  lemma {:induction false} EightByteBytes(lib: Lib, field: ProtoField, i: int, f: nat, msg: ProtoMessage)
    ensures field.typ.Fixed64? && 0 <= i < 0x1_0000_0000_0000_0000 ==>
              EncodeField(lib, field, Int(i), msg) == WriteVarint(8 * field.number + 1) + ToLe(i, 8)
    ensures field.typ.Sfixed64? && -0x8000_0000_0000_0000 <= i < 0x8000_0000_0000_0000 ==>
              EncodeField(lib, field, Int(i), msg)
              == WriteVarint(8 * field.number + 1) + ToLe(if i < 0 then i + 0x1_0000_0000_0000_0000 else i, 8)
    ensures field.typ.Float64? ==>
              EncodeField(lib, field, Float(f), msg) == WriteVarint(8 * field.number + 1) + ToLe(f, 8)
  {
    assert field.number * 8 + 1 == 8 * field.number + 1;
    if field.typ.Fixed64? && 0 <= i < 0x1_0000_0000_0000_0000 {
      EightByteImage(lib, field.typ, i);
    }
    if field.typ.Sfixed64? && -0x8000_0000_0000_0000 <= i < 0x8000_0000_0000_0000 {
      EightByteImage(lib, field.typ, i);
    }
  }

  // ----- Varints -----

  /** The signed reading of `u` modulo 2^32 and of `u` below 2^64. */
  function AsInt32(u: int): int {
    var low := u % 0x1_0000_0000;
    if low < 0x8000_0000 then low else low - 0x1_0000_0000
  }

  function AsInt64(u: nat): int {
    if u < 0x8000_0000_0000_0000 then u else u - 0x1_0000_0000_0000_0000
  }

  /** Zigzag: 0, -1, 1, -2, 2, ... */
  function Alternating(u: nat): int {
    if u % 2 == 0 then u / 2 else -((u + 1) / 2)
  }

  /** What the varint `u` is worth in each of the varint types. */
  function VarintWorth(t: ProtoType, u: nat): Json {
    if t.Int32? then Int(AsInt32(u))
    else if t.Int64? then Int(AsInt64(u))
    else if t.Uint32? then Int(u % 0x1_0000_0000)
    else if t.Uint64? then Int(u)
    else if t.Sint32? then Int(AsInt32(Alternating(u)))
    else if t.Sint64? then Int(Alternating(u))
    else Bool(u != 0)
  }

  predicate TakesVarint(t: ProtoType) {
    t.Int32? || t.Int64? || t.Uint32? || t.Uint64? || t.Sint32? || t.Sint64? || t.Boolean?
  }

  /** Tag `8 * number` and a varint: one record, which stores what the varint is worth. */
  lemma {:induction false} VarintWire(lib: Lib, field: ProtoField, u: nat, rest: seq<Byte>, msg: ProtoMessage)
    requires GoodSchema(msg) && field in msg.fields && TakesVarint(field.typ) && u < 0x1_0000_0000_0000_0000
    ensures var bytes := WriteVarint(8 * field.number + 0) + WriteVarint(u);
            DecodeRecord(lib, bytes + rest, msg) == Rec(|bytes|, Some((field, VarintWorth(field.typ, u))))
  {
    VarintField(lib, field, u, rest, msg);
    WireRecord(lib, field, 0, WriteVarint(u), rest, msg, Valued(|WriteVarint(u)|, VarintWorth(field.typ, u)));
  }

  lemma {:induction false} VarintField(lib: Lib, field: ProtoField, u: nat, rest: seq<Byte>, msg: ProtoMessage)
    requires TakesVarint(field.typ) && u < 0x1_0000_0000_0000_0000
    ensures DecodeField(lib, WriteVarint(u) + rest, 0, field, msg)
            == Valued(|WriteVarint(u)|, VarintWorth(field.typ, u))
  {
    VarintRoundTrip(u, rest);
    ValueIsWorth(field.typ, u);
  }

  lemma {:induction false} ValueIsWorth(t: ProtoType, u: nat)
    requires IsVarintType(t) && u < 0x1_0000_0000_0000_0000
    ensures VarintValue(t, u) == VarintWorth(t, u)
  {
  }

  /** The varint written for the integer `i`, in range for its type. */
  function VarintFor(t: ProtoType, i: int): int {
    if t.Sint32? || t.Sint64? then (if i < 0 then -2 * i - 1 else 2 * i)
    else if i < 0 then i + 0x1_0000_0000_0000_0000
    else i
  }

  predicate InVarintRange(t: ProtoType, i: int) {
    if t.Int32? || t.Sint32? then -0x8000_0000 <= i < 0x8000_0000
    else if t.Int64? || t.Sint64? then -0x8000_0000_0000_0000 <= i < 0x8000_0000_0000_0000
    else if t.Uint32? then 0 <= i < 0x1_0000_0000
    else t.Uint64? && 0 <= i < 0x1_0000_0000_0000_0000
  }

  lemma {:induction false} VarintBytes(lib: Lib, field: ProtoField, i: int, msg: ProtoMessage)
    requires InVarintRange(field.typ, i)
    ensures VarintFor(field.typ, i) >= 0
    ensures EncodeField(lib, field, Int(i), msg)
            == WriteVarint(8 * field.number + 0) + WriteVarint(VarintFor(field.typ, i))
  {
    assert field.number * 8 + 0 == 8 * field.number + 0;
    ImageIsFor(lib, field.typ, i);
  }

  lemma {:induction false} ImageIsFor(lib: Lib, t: ProtoType, i: int)
    requires InVarintRange(t, i)
    ensures VarintFor(t, i) >= 0
    ensures IsVarintType(t) && VarintImage(lib, t, Int(i)) == Some(VarintFor(t, i))
  {
    if t.Sint32? {
      SignedOfSmall(i);
      ZigZagRoundTrip(i);
      WrapOfSmall(ZigZag(i));
    } else if t.Sint64? {
      ZigZagRoundTrip(i);
      WrapFits(ZigZag(i), 0x1_0000_0000_0000_0000);
    } else {
      if t.Int32? {
        SignedOfSmall(i);
      }
      if i < 0 {
        WrapNegative(i, 0x1_0000_0000_0000_0000);
      } else {
        WrapFits(i, 0x1_0000_0000_0000_0000);
      }
    }
  }

  lemma {:induction false} WrapFits(i: int, m: int)
    requires 0 <= i < m
    ensures Wrap(i, m) == i
  {
  }

  lemma {:induction false} BooleanBytes(lib: Lib, field: ProtoField, b: bool, msg: ProtoMessage)
    requires field.typ.Boolean?
    ensures EncodeField(lib, field, Bool(b), msg)
            == WriteVarint(8 * field.number + 0) + (if b then [1] else [0])
  {
    assert field.number * 8 + 0 == 8 * field.number + 0;
  }

  // ----- Lengths -----

  /** What a length-delimited payload is worth; nothing if it is a message that does not decode. */
  function PayloadWorth(lib: Lib, t: ProtoType, raw: seq<Byte>, msg: ProtoMessage): Option<Json> {
    if t.Text? then Some(Str(lib.utf8Lossy(raw)))
    else if t.Blob? then Some(Str(lib.base64Encode(raw)))
    else if t.Message? && t.name in msg.nested && Decode(lib, raw, msg.nested[t.name]).Obj? then
      Some(Decode(lib, raw, msg.nested[t.name]))
    else None
  }

  lemma {:induction false} SizedField(lib: Lib, field: ProtoField, raw: seq<Byte>, rest: seq<Byte>, msg: ProtoMessage)
    requires |raw| < 0x1_0000_0000_0000_0000 && (field.typ.Text? || field.typ.Blob? || field.typ.Message?)
    ensures var v := PayloadWorth(lib, field.typ, raw, msg);
            DecodeField(lib, Sized(raw) + rest, 2, field, msg)
            == if v.None? then Skipped(|Sized(raw)|) else Valued(|Sized(raw)|, v.value)
  {
    SizedRoundTrip(raw, rest);
  }

  /**
    Tag `8 * number + 2`, a length and as many bytes: one record, which stores the text, the
    base64 of the bytes, or the nested message if the schema has it and it decodes.
   */
  lemma {:induction false} SizedWire(lib: Lib, field: ProtoField, raw: seq<Byte>, rest: seq<Byte>, msg: ProtoMessage)
    requires GoodSchema(msg) && field in msg.fields && |raw| < 0x1_0000_0000_0000_0000
    requires field.typ.Text? || field.typ.Blob? || field.typ.Message?
    ensures var bytes := WriteVarint(8 * field.number + 2) + (WriteVarint(|raw|) + raw);
            var v := PayloadWorth(lib, field.typ, raw, msg);
            DecodeRecord(lib, bytes + rest, msg)
            == Rec(|bytes|, if v.None? then None else Some((field, v.value)))
  {
    var v, sized := PayloadWorth(lib, field.typ, raw, msg), Sized(raw);
    SizedField(lib, field, raw, rest, msg);
    WireRecord(lib, field, 2, sized, rest, msg, if v.None? then Skipped(|sized|) else Valued(|sized|, v.value));
  }

  lemma {:induction false} SizedBytes(lib: Lib, field: ProtoField, v: Json, raw: seq<Byte>, msg: ProtoMessage)
    requires lib.Lawful()
    requires || (field.typ.Text? && v == Str(raw))
             || (field.typ.Blob? && v == Str(lib.base64Encode(raw)))
             || (field.typ.Message? && field.typ.name in msg.nested && v.Obj?
                 && raw == Encode(lib, v, msg.nested[field.typ.name]))
    ensures EncodeField(lib, field, v, msg) == WriteVarint(8 * field.number + 2) + (WriteVarint(|raw|) + raw)
  {
    assert field.number * 8 + 2 == 8 * field.number + 2;
    assert Tag(field) == WriteVarint(8 * field.number + 2);
    if field.typ.Blob? {
      assert lib.base64Decode(lib.base64Encode(raw)) == Some(raw);
    }
  }

  // ----- Records that store nothing -----

  /** The payloads of the four wire types. */
  ghost predicate Payload(w: nat, bytes: seq<Byte>) {
    || (w == 0 && exists u: nat :: u < 0x1_0000_0000_0000_0000 && bytes == WriteVarint(u))
    || (w == 1 && |bytes| == 8)
    || (w == 2 && exists raw: seq<Byte> :: |raw| < 0x1_0000_0000_0000_0000 && bytes == WriteVarint(|raw|) + raw)
    || (w == 5 && |bytes| == 4)
  }

  /** The wire type each type is read from. */
  predicate ReadFrom(t: ProtoType, w: nat) {
    || (w == 0 && TakesVarint(t))
    || (w == 1 && (t.Fixed64? || t.Sfixed64? || t.Float64?))
    || (w == 2 && (t.Text? || t.Blob? || t.Message?))
    || (w == 5 && (t.Fixed32? || t.Sfixed32? || t.Float32?))
  }

  lemma {:induction false} PayloadSkips(w: nat, payload: seq<Byte>, rest: seq<Byte>)
    requires Payload(w, payload)
    ensures SkipField(payload + rest, w) == Some(|payload|)
  {
    if w == 0 {
      var u: nat :| u < 0x1_0000_0000_0000_0000 && payload == WriteVarint(u);
      VarintRoundTrip(u, rest);
    } else if w == 2 {
      var raw: seq<Byte> :| |raw| < 0x1_0000_0000_0000_0000 && payload == WriteVarint(|raw|) + raw;
      SizedRoundTrip(raw, rest);
    }
  }

  lemma {:induction false} MismatchSkips(lib: Lib, field: ProtoField, w: nat, tail: seq<Byte>, msg: ProtoMessage)
    requires !ReadFrom(field.typ, w)
    ensures var k := SkipField(tail, w);
            DecodeField(lib, tail, w, field, msg) == if k.None? then Malformed else Skipped(k.value)
  {
  }

  /** A record of an unknown number, or of a wire type its field is not read from, is passed over. */
  lemma {:induction false} OthersArePassedOver(lib: Lib, number: nat, w: nat, payload: seq<Byte>, rest: seq<Byte>,
                                               msg: ProtoMessage)
    requires GoodSchema(msg) && number < 0x1_0000_0000 && w < 8 && Payload(w, payload)
    requires forall f | f in msg.fields && f.number == number :: !ReadFrom(f.typ, w)
    ensures var bytes := WriteVarint(8 * number + w) + payload;
            DecodeRecord(lib, bytes + rest, msg) == Rec(|bytes|, None)
  {
    PayloadSkips(w, payload, rest);
    match FindField(msg.fields, number)
    case None => UnknownIsPassedOver(lib, number, w, payload, rest, msg);
    case Some(f) => MismatchIsPassedOver(lib, f, w, payload, rest, msg);
  }

  lemma {:induction false} UnknownIsPassedOver(lib: Lib, number: nat, w: nat, payload: seq<Byte>, rest: seq<Byte>,
                                               msg: ProtoMessage)
    requires number < U32 && w < 8 && FindField(msg.fields, number).None?
    requires SkipField(payload + rest, w) == Some(|payload|)
    ensures DecodeRecord(lib, (WriteVarint(8 * number + w) + payload) + rest, msg)
            == Rec(|WriteVarint(8 * number + w)| + |payload|, None)
  {
    ConcatAssociates(WriteVarint(8 * number + w), payload, rest);
    UnknownRecord(lib, number, w, payload + rest, msg);
  }

  lemma {:induction false} MismatchIsPassedOver(lib: Lib, f: ProtoField, w: nat, payload: seq<Byte>, rest: seq<Byte>,
                                                msg: ProtoMessage)
    requires GoodSchema(msg) && f in msg.fields && w < 8 && !ReadFrom(f.typ, w)
    requires SkipField(payload + rest, w) == Some(|payload|)
    ensures DecodeRecord(lib, (WriteVarint(8 * f.number + w) + payload) + rest, msg)
            == Rec(|WriteVarint(8 * f.number + w)| + |payload|, None)
  {
    MismatchSkips(lib, f, w, payload + rest, msg);
    WireRecord(lib, f, w, payload, rest, msg, Skipped(|payload|));
  }

  /** A payload that is cut short, or a wire type that does not exist. */
  predicate BadPayload(w: nat, tail: seq<Byte>) {
    || w == 3 || w == 4 || w == 6 || w == 7
    || (w == 1 && |tail| < 8)
    || (w == 5 && |tail| < 4)
    || (w == 0 && forall i | 0 <= i < |tail| :: tail[i] >= 128)
  }

  lemma {:induction false} NoVarint(tail: seq<Byte>, k: nat)
    requires k <= 10 && forall i | 0 <= i < |tail| :: tail[i] >= 128
    ensures ReadGroups(tail, k).None?
    decreases |tail|
  {
    if tail != [] && k < 10 {
      NoVarint(tail[1..], k + 1);
    }
  }

  lemma {:induction false} BadSkip(w: nat, tail: seq<Byte>)
    requires BadPayload(w, tail)
    ensures SkipField(tail, w).None? && (w == 0 ==> ReadVarint(tail).None?)
  {
    if w == 0 {
      NoVarint(tail, 0);
    }
  }

  lemma {:induction false} BadField(lib: Lib, field: ProtoField, w: nat, tail: seq<Byte>, msg: ProtoMessage)
    requires BadPayload(w, tail)
    ensures DecodeField(lib, tail, w, field, msg).Malformed?
  {
    BadSkip(w, tail);
  }

  /** It fails the message, whatever the schema makes of the number. */
  lemma {:induction false} BadPayloadsFail(lib: Lib, number: nat, w: nat, tail: seq<Byte>, msg: ProtoMessage)
    requires GoodSchema(msg) && number < 0x1_0000_0000 && w < 8 && BadPayload(w, tail)
    ensures Decode(lib, WriteVarint(8 * number + w) + tail, msg) == Null
  {
    BadSkip(w, tail);
    match FindField(msg.fields, number)
    case None => UnknownRecord(lib, number, w, tail, msg);
    case Some(f) =>
      KnownRecord(lib, f, w, tail, msg);
      BadField(lib, f, w, tail, msg);
  }

  /** A length that goes past the end fails the message too. */
  lemma {:induction false} LongLengthFails(lib: Lib, number: nat, len: nat, tail: seq<Byte>, msg: ProtoMessage)
    requires GoodSchema(msg) && number < 0x1_0000_0000 && |tail| < len < 0x1_0000_0000_0000_0000
    ensures Decode(lib, WriteVarint(8 * number + 2) + (WriteVarint(len) + tail), msg) == Null
  {
    var after := WriteVarint(len) + tail;
    VarintRoundTrip(len, tail);
    match FindField(msg.fields, number)
    case None => UnknownRecord(lib, number, 2, after, msg);
    case Some(f) => KnownRecord(lib, f, 2, after, msg);
  }

  // ----- Values of another kind than the field -----

  /** `v` stands for the integer `i`: a truth value, a number or a text that reads as one. */
  predicate StandsFor(lib: Lib, v: Json, i: int, signed: bool) {
    || (v == Bool(true) && i == 1)
    || (v == Bool(false) && i == 0)
    || (v.Float? && (if signed then lib.truncI64(v.bits) else lib.truncU64(v.bits)) == Some(i))
    || (v.Str? && (if signed then lib.parseI64(v.utf8) else lib.parseU64(v.utf8)) == Some(i))
  }

  predicate SignedType(t: ProtoType) {
    t.Int32? || t.Int64? || t.Sint32? || t.Sint64? || t.Sfixed32? || t.Sfixed64?
  }

  predicate UnsignedType(t: ProtoType) {
    t.Uint32? || t.Uint64? || t.Fixed32? || t.Fixed64?
  }

  predicate FloatType(t: ProtoType) {
    t.Float32? || t.Float64?
  }

  /** An integer field is written alike for every value that stands for the same integer. */
  lemma {:induction false} CoercedToInteger(lib: Lib, field: ProtoField, v: Json, i: int, msg: ProtoMessage)
    requires SignedType(field.typ) || UnsignedType(field.typ)
    requires StandsFor(lib, v, i, SignedType(field.typ))
    requires if SignedType(field.typ) then -0x8000_0000_0000_0000 <= i < 0x8000_0000_0000_0000 else i >= 0
    ensures EncodeField(lib, field, v, msg) == EncodeField(lib, field, Int(i), msg)
  {
  }

  /** Into a truth value go numbers, as not being zero; into a float go integers and what stands for one. */
  lemma {:induction false} CoercedToOthers(lib: Lib, field: ProtoField, v: Json, i: int, msg: ProtoMessage)
    ensures field.typ.Boolean? ==>
              && EncodeField(lib, field, Int(i), msg) == EncodeField(lib, field, Bool(i != 0), msg)
              && (v.Float? ==> EncodeField(lib, field, v, msg)
                               == EncodeField(lib, field, Bool(!lib.isZero(v.bits)), msg))
              && (v.Str? && lib.parseBool(v.utf8).Some? ==>
                    EncodeField(lib, field, v, msg) == EncodeField(lib, field, Bool(lib.parseBool(v.utf8).value), msg))
    ensures FloatType(field.typ) ==>
              && EncodeField(lib, field, Int(i), msg) == EncodeField(lib, field, Float(lib.intToFloat(i)), msg)
              && (!v.Float? && StandsFor(lib, v, i, true) ==>
                    EncodeField(lib, field, v, msg) == EncodeField(lib, field, Float(lib.intToFloat(i)), msg))
  {
  }

  /** Integers that do not fit 32 bits: unsigned varints are written whole, everything else modulo 2^32. */
  lemma {:induction false} WideIntegers(lib: Lib, field: ProtoField, i: int, msg: ProtoMessage)
    requires -0x8000_0000_0000_0000 <= i < 0x8000_0000_0000_0000
    ensures field.typ.Int32? || field.typ.Sint32? || field.typ.Sfixed32? ==>
              EncodeField(lib, field, Int(i), msg) == EncodeField(lib, field, Int(AsInt32(i)), msg)
    ensures field.typ.Fixed32? && i >= 0 ==>
              EncodeField(lib, field, Int(i), msg) == EncodeField(lib, field, Int(i % 0x1_0000_0000), msg)
    ensures field.typ.Uint32? && i >= 0 ==>
              EncodeField(lib, field, Int(i), msg) == WriteVarint(8 * field.number + 0) + WriteVarint(i)
  {
    assert field.number * 8 + 0 == 8 * field.number + 0;
    ModuloTwice(i);
    if field.typ.Uint32? && i >= 0 {
      WrapFits(i, 0x1_0000_0000_0000_0000);
    }
  }

  lemma {:induction false} ModuloTwice(i: int)
    ensures AsInt32(i) % 0x1_0000_0000 == i % 0x1_0000_0000
    ensures i % 0x1_0000_0000 % 0x1_0000_0000 == i % 0x1_0000_0000
  {
  }

  /** A text that is no integer goes into a float field as the float it spells, or not at all. */
  lemma {:induction false} SpelledFloats(lib: Lib, field: ProtoField, s: seq<Byte>, msg: ProtoMessage)
    requires lib.parseI64(s).None?
    ensures field.typ.Float32? ==>
              EncodeField(lib, field, Str(s), msg)
              == if lib.parseF32(s).None? then []
                 else WriteVarint(8 * field.number + 5) + ToLe(lib.parseF32(s).value, 4)
    ensures field.typ.Float64? ==>
              EncodeField(lib, field, Str(s), msg)
              == if lib.parseF64(s).None? then []
                 else WriteVarint(8 * field.number + 1) + ToLe(lib.parseF64(s).value, 8)
  {
    assert field.number * 8 + 5 == 8 * field.number + 5;
    assert field.number * 8 + 1 == 8 * field.number + 1;
  }

  /** Values that a field cannot hold. */
  predicate Unfit(lib: Lib, v: Json, t: ProtoType, msg: ProtoMessage) {
    || v.Null?
    || ((SignedType(t) || UnsignedType(t) || FloatType(t) || t.Boolean?) && (v.Arr? || v.Obj?))
    || (SignedType(t) && v.Int? && !(-0x8000_0000_0000_0000 <= v.i < 0x8000_0000_0000_0000))
    || (UnsignedType(t) && v.Int? && v.i < 0)
    || (SignedType(t) && v.Str? && lib.parseI64(v.utf8).None?)
    || (UnsignedType(t) && v.Str? && lib.parseU64(v.utf8).None?)
    || (t.Boolean? && v.Str? && lib.parseBool(v.utf8).None?)
    || (t.Message? && (!v.Obj? || t.name !in msg.nested))
  }

  /** They are left out. */
  lemma {:induction false} UnfitValuesAreLeftOut(lib: Lib, field: ProtoField, v: Json, msg: ProtoMessage)
    requires Unfit(lib, v, field.typ, msg)
    ensures EncodeField(lib, field, v, msg) == []
  {
  }

  /** Texts and bytes take any value: text that is not base64 as it is, and everything else as its JSON text. */
  lemma {:induction false} CoercedToText(lib: Lib, field: ProtoField, v: Json, msg: ProtoMessage)
    requires field.typ.Text? || field.typ.Blob?
    ensures var raw := if v.Str? then v.utf8 else lib.jsonText(v);
            !v.Null? && (field.typ.Blob? && v.Str? ==> lib.base64Decode(v.utf8).None?) ==>
              EncodeField(lib, field, v, msg) == WriteVarint(8 * field.number + 2) + (WriteVarint(|raw|) + raw)
  {
    assert field.number * 8 + 2 == 8 * field.number + 2;
  }

  // ----- Objects -----

  /** The encoding goes through the schema in order, and through an array in order if the field repeats. */
  lemma {:induction false} FieldsAreInOrder(lib: Lib, m: map<string, Json>, a: seq<ProtoField>, b: seq<ProtoField>,
                                            msg: ProtoMessage)
    ensures EncodeFields(lib, m, a + b, msg) == EncodeFields(lib, m, a, msg) + EncodeFields(lib, m, b, msg)
    decreases |a|
  {
    if a == [] {
      ConcatNil(b);
      ConcatNil(EncodeFields(lib, m, b, msg));
    } else {
      assert (a + b)[0] == a[0] && (a + b)[1..] == a[1..] + b;
      FieldsAreInOrder(lib, m, a[1..], b, msg);
      ConcatAssociates(EncodeAll(lib, a[0], FieldValues(m, a[0]), msg), EncodeFields(lib, m, a[1..], msg),
                       EncodeFields(lib, m, b, msg));
    }
  }

  lemma {:induction false} ValuesAreInOrder(lib: Lib, field: ProtoField, a: seq<Json>, b: seq<Json>, msg: ProtoMessage)
    ensures EncodeAll(lib, field, a + b, msg) == EncodeAll(lib, field, a, msg) + EncodeAll(lib, field, b, msg)
    decreases |a|
  {
    if a == [] {
      ConcatNil(b);
      ConcatNil(EncodeAll(lib, field, b, msg));
    } else {
      assert (a + b)[0] == a[0] && (a + b)[1..] == a[1..] + b;
      ValuesAreInOrder(lib, field, a[1..], b, msg);
      ConcatAssociates(EncodeField(lib, field, a[0], msg), EncodeAll(lib, field, a[1..], msg),
                       EncodeAll(lib, field, b, msg));
    }
  }

  lemma {:induction false} OneField(lib: Lib, m: map<string, Json>, field: ProtoField, msg: ProtoMessage)
    ensures EncodeFields(lib, m, [field], msg)
            == if field.name !in m then []
               else if field.repeated && m[field.name].Arr? then EncodeAll(lib, field, m[field.name].items, msg)
               else EncodeField(lib, field, m[field.name], msg)
  {
    assert [field][1..] == [];
    assert EncodeFields(lib, m, [], msg) == [];
    ConcatNil(EncodeAll(lib, field, FieldValues(m, field), msg));
    if field.name in m && !(field.repeated && m[field.name].Arr?) {
      var v := m[field.name];
      assert [v][1..] == [];
      assert EncodeAll(lib, field, [], msg) == [];
      ConcatNil(EncodeField(lib, field, v, msg));
    }
  }
}
