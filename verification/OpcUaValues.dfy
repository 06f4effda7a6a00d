/**
  DataValues and whole ReadResponse bodies of `opcua.rs`: the reader against the encoding of
  sections 5.2.2.16 and 5.2.2.17 of OPC UA Part 6.
 */
module OpcUaValues {
  import opened Common
  import opened OpcUa

  /** The fixed-width built-in types; floats are kept as their bits. */
  datatype NumType =
    | SByteT | ByteT | Int16T | UInt16T | Int32T | UInt32T | Int64T | UInt64T | FloatT | DoubleT | DateTimeT

  /** `OpcUaVariant`; strings are kept as their bytes. */
  datatype Variant =
    | Null
    | Boolean(b: bool)
    | Number(t: NumType, n: int)
    | String(bytes: seq<Byte>)
    | ByteString(bytes: seq<Byte>)

  function Code(t: NumType): (c: nat)
    ensures TypeOf(c) == Some(t)
  {
    match t
    case SByteT => 2
    case ByteT => 3
    case Int16T => 4
    case UInt16T => 5
    case Int32T => 6
    case UInt32T => 7
    case Int64T => 8
    case UInt64T => 9
    case FloatT => 10
    case DoubleT => 11
    case DateTimeT => 13
  }

  function TypeOf(code: int): Option<NumType> {
    match code
    case 2 => Some(SByteT)
    case 3 => Some(ByteT)
    case 4 => Some(Int16T)
    case 5 => Some(UInt16T)
    case 6 => Some(Int32T)
    case 7 => Some(UInt32T)
    case 8 => Some(Int64T)
    case 9 => Some(UInt64T)
    case 10 => Some(FloatT)
    case 11 => Some(DoubleT)
    case 13 => Some(DateTimeT)
    case _ => None
  }

  function Width(t: NumType): nat {
    match t
    case SByteT => 1
    case ByteT => 1
    case Int16T => 2
    case UInt16T => 2
    case Int32T => 4
    case UInt32T => 4
    case FloatT => 4
    case _ => 8
  }

  function Modulus(t: NumType): (m: int)
    ensures m > 0
  {
    match Width(t)
    case 1 => 256
    case 2 => U16
    case 4 => U32
    case _ => U64
  }

  predicate IsSigned(t: NumType) {
    t.SByteT? || t.Int16T? || t.Int32T? || t.Int64T? || t.DateTimeT?
  }

  // ----- Reading (opcua.rs:937-1263) -----

  datatype Got<T> = Failed | Got(value: T, rest: seq<Byte>)

  function ReadNumber(t: NumType, b: seq<Byte>): Got<Variant> {
    if |b| < Width(t) then Failed
    else
      var u := FromLe(b[..Width(t)]);
      Got(Number(t, if IsSigned(t) then Signed(u, Modulus(t)) else u), b[Width(t)..])
  }

  /** A length and that many bytes; `None` for a negative length. */
  function ReadBytes(b: seq<Byte>): (r: Got<Option<seq<Byte>>>) {
    if |b| < 4 then Failed
    else
      var len := Int32At(b);
      if len < 0 then Got(None, b[4..])
      else if |b[4..]| < len then Failed
      else Got(Some(b[4..][..len]), b[4..][len..])
  }

  function ReadScalar(code: int, b: seq<Byte>): Got<Variant> {
    if code == 0 then Got(Null, b)
    else if code == 1 then (if b == [] then Failed else Got(Boolean(b[0] != 0), b[1..]))
    else if TypeOf(code).Some? then ReadNumber(TypeOf(code).value, b)
    else if code == 12 then
      var r := ReadBytes(b);
      if r.Failed? then Failed else Got(if r.value.None? then Null else String(r.value.value), r.rest)
    else if code == 15 then
      var r := ReadBytes(b);
      if r.Failed? then Failed else Got(ByteString(if r.value.None? then [] else r.value.value), r.rest)
    else Failed
  }

  /** `n` elements, of which the last is kept. */
  function ReadElements(code: int, n: nat, last: Variant, b: seq<Byte>): Got<Variant> {
    if n == 0 then Got(last, b)
    else
      var r := ReadScalar(code, b);
      if r.Failed? then Failed else ReadElements(code, n - 1, r.value, r.rest)
  }

  function NonNegative(i: int): nat {
    if i > 0 then i else 0
  }

  function SkipDimensions(b: seq<Byte>): Rest {
    if |b| < 4 then Bad else Skip(b[4..], 4 * NonNegative(Int32At(b)))
  }

  function ReadVariant(b: seq<Byte>): Got<Variant> {
    if b == [] then Failed
    else if !Bit7(b[0]) then ReadScalar(b[0] % 64, b[1..])
    else if |b| < 5 then Failed
    else
      var r := ReadElements(b[0] % 64, NonNegative(Int32At(b[1..])), Null, b[1..][4..]);
      if r.Failed? || !Bit6(b[0]) then r
      else
        var dims := SkipDimensions(r.rest);
        if dims.Bad? then Failed else Got(r.value, dims.rest)
  }

  /** `OpcUaDataValue`. */
  datatype Reading = Reading(value: Variant, status: nat, source: Option<int>)

  /** The code passes the server timestamp before the source picoseconds. */
  function SkipTimes(m: Byte, b: seq<Byte>): Rest {
    SkipWhen(Bit5(m), SkipWhen(Bit4(m), SkipWhen(Bit3(m), At(b), 8), 2), 2)
  }

  function ReadStatusAndTimes(m: Byte, value: Variant, b: seq<Byte>): Got<Reading> {
    if Bit1(m) && |b| < 4 then Failed
    else
      var status, b1 := if Bit1(m) then FromLe(b[..4]) else 0, if Bit1(m) then b[4..] else b;
      if Bit2(m) && |b1| < 8 then Failed
      else
        var source, b2 := if Bit2(m) then Some(Signed(FromLe(b1[..8]), U64)) else None, if Bit2(m) then b1[8..] else b1;
        var r := SkipTimes(m, b2);
        if r.Bad? then Failed else Got(Reading(value, status, source), r.rest)
  }

  function ReadValue(b: seq<Byte>): Got<Reading> {
    if b == [] then Failed
    else
      var v := if Bit0(b[0]) then ReadVariant(b[1..]) else Got(Null, b[1..]);
      if v.Failed? then Failed else ReadStatusAndTimes(b[0], v.value, v.rest)
  }

  /** One DataValue a name; a later name replaces an earlier one that equals it. */
  function ReadAll(names: seq<string>, b: seq<Byte>, done: map<string, Reading>): Option<map<string, Reading>> {
    if names == [] then Some(done)
    else
      var r := ReadValue(b);
      if r.Failed? then None else ReadAll(names[1..], r.rest, done[names[0] := r.value])
  }

  /** The standard response header from its diagnostics on, then the number of results. */
  function StandardResults(b: seq<Byte>, n: nat): Rest {
    var d := SkipDiagnosticInfo(b);
    if d.Bad? then Bad
    else
      var t := SkipStringTable(d.rest);
      if t.Bad? then Bad
      else
        var x := SkipExtensionObject(t.rest);
        if x.Bad? || |x.rest| < 4 || Int32At(x.rest) != n then Bad else At(x.rest[4..])
  }

  predicate ServiceFault(body: seq<Byte>)
    requires |body| >= 36
  {
    body[12] == 1 && FromLe(body[14..16]) == 397
  }

  predicate BadServiceResult(body: seq<Byte>)
    requires |body| >= 36
  {
    2 * FromLe(body[28..32]) >= U32
  }

  /** `locate_read_results_slice`: the standard header first, then the compact one. */
  function Locate(body: seq<Byte>, n: nat): Rest {
    if |body| < 36 || ServiceFault(body) || BadServiceResult(body) then Bad
    else
      var standard := StandardResults(body[32..], n);
      if standard.At? then standard
      else if Int32At(body[32..]) == n then At(body[36..])
      else Bad
  }

  function ParseResponse(body: seq<Byte>, names: seq<string>): Option<map<string, Reading>> {
    if body == [] || names == [] then Some(map[])
    else
      var r := Locate(body, |names|);
      if r.Bad? then None else ReadAll(names, r.rest, map[])
  }

  // ----- The encoding of Part 6, in front of `rest` -----

  /** A value, or a null string, or a null byte string. */
  datatype Scalar = Plain(v: Variant) | NullString | NullBytes

  /** What the reader makes of it. */
  function Meaning(s: Scalar): Variant {
    match s
    case Plain(v) => v
    case NullString => Null
    case NullBytes => ByteString([])
  }

  predicate InRange(t: NumType, n: int) {
    if IsSigned(t) then -Modulus(t) <= 2 * n < Modulus(t) else 0 <= n < Modulus(t)
  }

  predicate GoodScalar(s: Scalar) {
    s.Plain? ==>
      match s.v
      case Number(t, n) => InRange(t, n)
      case String(bs) => 2 * |bs| < U32
      case ByteString(bs) => 2 * |bs| < U32
      case _ => true
  }

  function ScalarCode(s: Scalar): (c: nat)
    ensures c < 16
  {
    match s
    case Plain(Null) => 0
    case Plain(Boolean(_)) => 1
    case Plain(Number(t, _)) => Code(t)
    case Plain(String(_)) => 12
    case Plain(ByteString(_)) => 15
    case NullString => 12
    case NullBytes => 15
  }

  function PutScalar(s: Scalar, rest: seq<Byte>): seq<Byte> {
    match s
    case Plain(Null) => rest
    case Plain(Boolean(b)) => [Flag(b)] + rest
    case Plain(Number(t, n)) => Word(Wrap(n, Modulus(t)), Width(t), rest)
    case Plain(String(bs)) => PutText(Text(bs), rest)
    case Plain(ByteString(bs)) => PutText(Text(bs), rest)
    case NullString => PutText(NullText, rest)
    case NullBytes => PutText(NullText, rest)
  }

  /** A scalar, or an array of scalars of one type with optional dimensions. */
  datatype Body = One(s: Scalar) | Many(code: nat, elements: seq<Scalar>, dims: Option<seq<nat>>)

  predicate GoodBody(body: Body) {
    match body
    case One(s) => GoodScalar(s)
    case Many(code, es, dims) =>
      && code < 16 && 2 * |es| < U32 && (dims.Some? ==> 2 * |dims.value| < U32)
      && forall i | 0 <= i < |es| :: GoodScalar(es[i]) && ScalarCode(es[i]) == code
  }

  function VariantByte(code: nat, dims: bool, many: bool): (m: Byte)
    requires code < 16
    ensures m % 64 == code && Bit6(m) == dims && Bit7(m) == many
  {
    code + 16 * Nibble(false, false, dims, many)
  }

  function PutScalars(es: seq<Scalar>, rest: seq<Byte>): seq<Byte> {
    if es == [] then rest else PutScalar(es[0], PutScalars(es[1..], rest))
  }

  function PutWords(ds: seq<nat>, rest: seq<Byte>): seq<Byte> {
    if ds == [] then rest else Word(ds[0], 4, PutWords(ds[1..], rest))
  }

  function PutDimensions(dims: Option<seq<nat>>, rest: seq<Byte>): seq<Byte> {
    if dims.None? then rest else Int32(|dims.value|, PutWords(dims.value, rest))
  }

  function PutBody(body: Body, rest: seq<Byte>): seq<Byte>
    requires GoodBody(body)
  {
    match body
    case One(s) => [VariantByte(ScalarCode(s), false, false)] + PutScalar(s, rest)
    case Many(code, es, dims) =>
      [VariantByte(code, dims.Some?, true)] + Int32(|es|, PutScalars(es, PutDimensions(dims, rest)))
  }

  /** Arrays are read as their last element. */
  function BodyMeaning(body: Body): Variant {
    match body
    case One(s) => Meaning(s)
    case Many(_, es, _) => if es == [] then Null else Meaning(es[|es| - 1])
  }

  /** Section 5.2.2.17, with every field optional. */
  datatype DataValue = DataValue(
    value: Option<Body>, status: Option<nat>, source: Option<int>, sourcePicos: Option<nat>,
    server: Option<nat>, serverPicos: Option<nat>)

  predicate GoodValue(v: DataValue) {
    && (v.value.Some? ==> GoodBody(v.value.value))
    && (v.status.Some? ==> v.status.value < U32)
    && (v.source.Some? ==> -U64 <= 2 * v.source.value < U64)
  }

  function ValueMask(v: DataValue): Byte {
    Mask(v.value.Some?, v.status.Some?, v.source.Some?, v.server.Some?, v.sourcePicos.Some?, v.serverPicos.Some?, false)
  }

  function PutTimes(v: DataValue, rest: seq<Byte>): seq<Byte> {
    PutWordOpt(v.sourcePicos, 2, PutWordOpt(v.server, 8, PutWordOpt(v.serverPicos, 2, rest)))
  }

  function PutStatusAndTimes(v: DataValue, rest: seq<Byte>): seq<Byte> {
    PutWordOpt(v.status, 4,
      PutWordOpt(if v.source.Some? then Some(Wrap(v.source.value, U64)) else None, 8, PutTimes(v, rest)))
  }

  function PutValue(v: DataValue, rest: seq<Byte>): seq<Byte>
    requires GoodValue(v)
  {
    var tail := PutStatusAndTimes(v, rest);
    [ValueMask(v)] + (if v.value.Some? then PutBody(v.value.value, tail) else tail)
  }

  function ValueMeaning(v: DataValue): Reading {
    Reading(if v.value.Some? then BodyMeaning(v.value.value) else Null,
            if v.status.Some? then v.status.value else 0,
            v.source)
  }

  predicate GoodValues(vs: seq<DataValue>) {
    forall i | 0 <= i < |vs| :: GoodValue(vs[i])
  }

  function PutValues(vs: seq<DataValue>, rest: seq<Byte>): seq<Byte>
    requires GoodValues(vs)
  {
    if vs == [] then rest else PutValue(vs[0], PutValues(vs[1..], rest))
  }

  // ----- Reading inverts the encoding -----

  lemma {:induction false} BytesRead(bs: seq<Byte>, rest: seq<Byte>)
    requires 2 * |bs| < U32
    ensures ReadBytes(PutText(Text(bs), rest)) == Got(Some(bs), rest)
  {
    Int32Reads(|bs|, bs + rest);
    ConcatSplits(bs, rest);
  }

  lemma {:induction false} NullReads(rest: seq<Byte>)
    ensures ReadBytes(PutText(NullText, rest)) == Got(None, rest)
  {
    Int32Reads(-1, rest);
  }

  lemma {:induction false} NumberReads(t: NumType, n: int, rest: seq<Byte>)
    requires InRange(t, n)
    ensures ReadNumber(t, Word(Wrap(n, Modulus(t)), Width(t), rest)) == Got(Number(t, n), rest)
  {
    Pow256Widths();
    assert Pow256(Width(t)) == Modulus(t);
    WordReads(Wrap(n, Modulus(t)), Width(t), rest);
    if IsSigned(t) {
      SignedInvertsWrap(n, Modulus(t));
    } else {
      assert Wrap(n, Modulus(t)) == n;
    }
  }

  lemma {:induction false} ScalarReads(s: Scalar, rest: seq<Byte>)
    requires GoodScalar(s)
    ensures ReadScalar(ScalarCode(s), PutScalar(s, rest)) == Got(Meaning(s), rest)
  {
    match s
    case Plain(Null) =>
    case Plain(Boolean(b)) => ConcatSplits([Flag(b)], rest);
    case Plain(Number(t, n)) => NumberReads(t, n, rest);
    case Plain(String(bs)) => BytesRead(bs, rest);
    case Plain(ByteString(bs)) => BytesRead(bs, rest);
    case NullString => NullReads(rest);
    case NullBytes => NullReads(rest);
  }

  lemma {:induction false} ElementsRead(code: nat, es: seq<Scalar>, last: Variant, rest: seq<Byte>)
    requires forall i | 0 <= i < |es| :: GoodScalar(es[i]) && ScalarCode(es[i]) == code
    ensures ReadElements(code, |es|, last, PutScalars(es, rest))
            == Got(if es == [] then last else Meaning(es[|es| - 1]), rest)
  {
    if es != [] {
      ScalarReads(es[0], PutScalars(es[1..], rest));
      ElementsRead(code, es[1..], Meaning(es[0]), rest);
    }
  }

  lemma {:induction false} WordsSkip(ds: seq<nat>, rest: seq<Byte>)
    ensures Skip(PutWords(ds, rest), 4 * |ds|) == At(rest)
  {
    if ds != [] {
      var more := PutWords(ds[1..], rest);
      WordsSkip(ds[1..], rest);
      ConcatSplits(ToLe(ds[0], 4), more);
      assert PutWords(ds, rest)[4..][4 * |ds[1..]|..] == PutWords(ds, rest)[4 * |ds|..];
    }
  }

  lemma {:induction false} DimensionsSkip(ds: seq<nat>, rest: seq<Byte>)
    requires 2 * |ds| < U32
    ensures SkipDimensions(PutDimensions(Some(ds), rest)) == At(rest)
  {
    Int32Reads(|ds|, PutWords(ds, rest));
    WordsSkip(ds, rest);
  }

  lemma {:induction false} VariantReads(body: Body, rest: seq<Byte>)
    requires GoodBody(body)
    ensures ReadVariant(PutBody(body, rest)) == Got(BodyMeaning(body), rest)
  {
    match body
    case One(s) =>
      ConcatSplits([VariantByte(ScalarCode(s), false, false)], PutScalar(s, rest));
      ScalarReads(s, rest);
    case Many(code, es, dims) =>
      var tail := PutDimensions(dims, rest);
      ConcatSplits([VariantByte(code, dims.Some?, true)], Int32(|es|, PutScalars(es, tail)));
      Int32Reads(|es|, PutScalars(es, tail));
      ElementsRead(code, es, Null, tail);
      if dims.Some? {
        DimensionsSkip(dims.value, rest);
      }
  }

  /** Only widths matter for the skipped fields, so passing them in another order is harmless. */
  lemma {:induction false} TimesSkip(v: DataValue, rest: seq<Byte>)
    ensures SkipTimes(ValueMask(v), PutTimes(v, rest)) == At(rest)
  {
    var tail := PutWordOpt(v.serverPicos, 2, rest);
    SwappedWordsSkip(v.sourcePicos, 2, v.server, 8, tail);
    WordOptSkips(v.serverPicos, 2, rest);
  }

  lemma {:induction false} SwappedWordsSkip(a: Option<nat>, j: nat, b: Option<nat>, k: nat, rest: seq<Byte>)
    ensures SkipWhen(a.Some?, SkipWhen(b.Some?, At(PutWordOpt(a, j, PutWordOpt(b, k, rest))), k), j) == At(rest)
  {
  }

  lemma {:induction false} StatusAndTimesRead(v: DataValue, value: Variant, rest: seq<Byte>)
    requires GoodValue(v)
    ensures ReadStatusAndTimes(ValueMask(v), value, PutStatusAndTimes(v, rest))
            == Got(ValueMeaning(v).(value := value), rest)
  {
    var b2 := PutTimes(v, rest);
    TimesSkip(v, rest);
    Pow256Widths();
    if v.source.Some? {
      SignedInvertsWrap(v.source.value, U64);
      WordReads(Wrap(v.source.value, U64), 8, b2);
    }
    var b1 := PutWordOpt(if v.source.Some? then Some(Wrap(v.source.value, U64)) else None, 8, b2);
    if v.status.Some? {
      WordReads(v.status.value, 4, b1);
    }
  }

  lemma {:induction false} ValueReads(v: DataValue, rest: seq<Byte>)
    requires GoodValue(v)
    ensures ReadValue(PutValue(v, rest)) == Got(ValueMeaning(v), rest)
  {
    var tail := PutStatusAndTimes(v, rest);
    ConcatSplits([ValueMask(v)], if v.value.Some? then PutBody(v.value.value, tail) else tail);
    if v.value.Some? {
      VariantReads(v.value.value, tail);
    }
    StatusAndTimesRead(v, ValueMeaning(v).value, rest);
  }

  /** Names bound to what their values mean, in order. */
  function Bound(names: seq<string>, vs: seq<DataValue>, done: map<string, Reading>): map<string, Reading>
    requires |names| == |vs|
  {
    if names == [] then done else Bound(names[1..], vs[1..], done[names[0] := ValueMeaning(vs[0])])
  }

  lemma {:induction false} AllRead(names: seq<string>, vs: seq<DataValue>, done: map<string, Reading>, tail: seq<Byte>)
    requires |names| == |vs| && GoodValues(vs)
    ensures ReadAll(names, PutValues(vs, tail), done) == Some(Bound(names, vs, done))
  {
    if names != [] {
      ValueReads(vs[0], PutValues(vs[1..], tail));
      AllRead(names[1..], vs[1..], done[names[0] := ValueMeaning(vs[0])], tail);
    }
  }

  lemma {:induction false} BoundKeeps(names: seq<string>, vs: seq<DataValue>, done: map<string, Reading>, name: string)
    requires |names| == |vs| && name !in names
    ensures var r := Bound(names, vs, done);
            (name in r <==> name in done) && (name in done ==> r[name] == done[name])
  {
    if names != [] {
      BoundKeeps(names[1..], vs[1..], done[names[0] := ValueMeaning(vs[0])], name);
    }
  }

  /** Every name holds the value of its last occurrence: its own value when names are distinct. */
  lemma {:induction false} BoundAt(names: seq<string>, vs: seq<DataValue>, done: map<string, Reading>, i: nat)
    requires |names| == |vs| && i < |names| && names[i] !in names[i + 1..]
    ensures var r := Bound(names, vs, done);
            names[i] in r && r[names[i]] == ValueMeaning(vs[i])
  {
    if i == 0 {
      BoundKeeps(names[1..], vs[1..], done[names[0] := ValueMeaning(vs[0])], names[0]);
    } else {
      assert names[1..][i - 1 + 1..] == names[i + 1..];
      BoundAt(names[1..], vs[1..], done[names[0] := ValueMeaning(vs[0])], i - 1);
    }
  }

  // ----- Whole responses -----

  /** Everything of the body before its diagnostics: 32 bytes that report no fault. */
  predicate GoodPrefix(prefix: seq<Byte>) {
    && |prefix| == 32
    && !(prefix[12] == 1 && FromLe(prefix[14..16]) == 397)
    && 2 * FromLe(prefix[28..32]) < U32
  }

  function PutResults(vs: seq<DataValue>, tail: seq<Byte>): seq<Byte>
    requires GoodValues(vs)
  {
    Int32(|vs|, PutValues(vs, tail))
  }

  function PutHeader(d: DiagnosticInfo, table: seq<Text>, x: ExtensionObject, rest: seq<Byte>): seq<Byte> {
    PutDiagnosticInfo(d, PutStringTable(table, PutExtensionObject(x, rest)))
  }

  lemma {:induction false} HeaderSkips(d: DiagnosticInfo, table: seq<Text>, x: ExtensionObject, n: nat, rest: seq<Byte>)
    requires GoodDiagnostic(d) && GoodTable(table) && GoodExtension(x) && 2 * n < U32
    ensures var b := PutHeader(d, table, x, Int32(n, rest));
            StandardResults(b, n) == At(rest) && |b| >= 4
  {
    var results := Int32(n, rest);
    var objects := PutExtensionObject(x, results);
    DiagnosticInfoSkips(d, PutStringTable(table, objects));
    StringTableSkips(table, objects);
    ExtensionObjectSkips(x, results);
    Int32Reads(n, rest);
  }

  lemma {:induction false} PrefixStays(prefix: seq<Byte>, b: seq<Byte>)
    requires |prefix| == 32 && |b| >= 4
    ensures var body := prefix + b;
            |body| >= 36 && body[32..] == b && body[36..] == b[4..]
            && (GoodPrefix(prefix) <==> !ServiceFault(body) && !BadServiceResult(body))
  {
    var body := prefix + b;
    assert body[14..16] == prefix[14..16] && body[28..32] == prefix[28..32];
    assert body[36..] == b[4..];
  }

  /**
    For every response header with diagnostics nested to any depth, every list of DataValues
    with any optional fields, and anything after them, parsing gives each name the value,
    status and source timestamp that were encoded for it.
   */
  lemma {:induction false} ParsingInvertsEncoding(
      prefix: seq<Byte>, d: DiagnosticInfo, table: seq<Text>, x: ExtensionObject,
      names: seq<string>, vs: seq<DataValue>, tail: seq<Byte>)
    requires GoodPrefix(prefix) && GoodDiagnostic(d) && GoodTable(table) && GoodExtension(x)
    requires |names| == |vs| && 2 * |vs| < U32 && GoodValues(vs)
    ensures ParseResponse(prefix + PutHeader(d, table, x, PutResults(vs, tail)), names) == Some(Bound(names, vs, map[]))
  {
    if names != [] {
      var b := PutHeader(d, table, x, PutResults(vs, tail));
      HeaderSkips(d, table, x, |vs|, PutValues(vs, tail));
      PrefixStays(prefix, b);
      AllRead(names, vs, map[], tail);
    }
  }

  lemma {:induction false} SkipsShrink(b: seq<Byte>)
    ensures SkipStringTable(b).At? ==> |SkipStringTable(b).rest| + 4 <= |b|
    ensures SkipExtensionObject(b).At? ==> |SkipExtensionObject(b).rest| + 3 <= |b|
  {
    if |b| >= 4 && Int32At(b) > 0 {
      StringsShrink(b[4..], Int32At(b));
    }
  }

  lemma {:induction false} StringsShrink(b: seq<Byte>, n: nat)
    ensures SkipStrings(b, n).At? ==> |SkipStrings(b, n).rest| <= |b|
    decreases n
  {
    if n > 0 && SkipString(b).At? {
      StringsShrink(SkipString(b).rest, n - 1);
    }
  }

  /** A standard header and its count take at least twelve bytes. */
  lemma {:induction false} StandardIsLong(b: seq<Byte>, n: nat)
    requires StandardResults(b, n).At?
    ensures |StandardResults(b, n).rest| + 12 <= |b|
  {
    var d := SkipDiagnosticInfo(b).rest;
    var t := SkipStringTable(d).rest;
    SkipsShrink(d);
    SkipsShrink(t);
  }

  /**
    A compact response is read as what it encodes if and only if its bytes after the service
    result do not also form a standard header with the same count, which takes twelve bytes.
   */
  lemma {:induction false} CompactIsReadIff(prefix: seq<Byte>, names: seq<string>, vs: seq<DataValue>, tail: seq<Byte>)
    requires GoodPrefix(prefix) && names != [] && |names| == |vs| && 2 * |vs| < U32 && GoodValues(vs)
    ensures var b := PutResults(vs, tail);
            && (Locate(prefix + b, |names|) == At(PutValues(vs, tail)) <==> StandardResults(b, |names|).Bad?)
            && (StandardResults(b, |names|).Bad? ==> ParseResponse(prefix + b, names) == Some(Bound(names, vs, map[])))
            && (|b| < 12 ==> StandardResults(b, |names|).Bad?)
  {
    var b := PutResults(vs, tail);
    Int32Reads(|vs|, PutValues(vs, tail));
    PrefixStays(prefix, b);
    AllRead(names, vs, map[], tail);
    if StandardResults(b, |names|).At? {
      StandardIsLong(b, |names|);
    }
  }

  function EmptyValue(): DataValue {
    DataValue(None, None, None, None, None, None)
  }

  function OneField(): DiagnosticInfo {
    DiagnosticInfo(Some(0), None, None, None, None, None, None)
  }

  function PlainObject(): ExtensionObject {
    ExtensionObject(NodeId(TwoByte(0), None, None), NoBody)
  }

  lemma {:induction false} EmptyValueBytes(rest: seq<Byte>)
    ensures PutValue(EmptyValue(), rest) == [0] + rest
  {
    assert ValueMask(EmptyValue()) == 0;
  }

  lemma {:induction false} OneFieldBytes(rest: seq<Byte>)
    ensures PutDiagnosticInfo(OneField(), rest) == [1] + (ToLe(0, 4) + rest)
  {
    assert DiagnosticMask(OneField()) == 1;
    assert PutDiagnosticFields(OneField(), rest) == ToLe(0, 4) + rest;
  }

  lemma {:induction false} Regrouped(rest: seq<Byte>)
    ensures [1, 0, 0, 0] + ([0] + rest) == [1] + ([0, 0, 0, 0] + rest)
  {
  }

  /** The count 1 and an empty value spell the mask of a diagnostic with one zero field. */
  lemma {:induction false} SameBytes(rest: seq<Byte>)
    ensures Int32(1, PutValue(EmptyValue(), rest)) == PutDiagnosticInfo(OneField(), rest)
  {
    ZeroBytes();
    EmptyValueBytes(rest);
    OneFieldBytes(rest);
    Regrouped(rest);
  }

  lemma {:induction false} ZeroBytes()
    ensures ToLe(0, 4) == [0, 0, 0, 0] && ToLe(1, 4) == [1, 0, 0, 0]
  {
    assert ToLe(0, 2) == [0] + ToLe(0, 1);
    assert ToLe(0, 3) == [0] + ToLe(0, 2);
    assert ToLe(0, 4) == [0] + ToLe(0, 3);
    assert ToLe(1, 4) == [1] + ToLe(0, 3);
  }

  lemma {:induction false} OneValue(v: DataValue, name: string, tail: seq<Byte>)
    requires GoodValue(v)
    ensures GoodValues([v]) && PutValues([v], tail) == PutValue(v, tail)
    ensures Bound([name], [v], map[]) == map[name := ValueMeaning(v)]
  {
    assert [v][1..] == [] && [name][1..] == [];
    assert PutValues([], tail) == tail;
    assert Bound([], [], map[name := ValueMeaning(v)]) == map[name := ValueMeaning(v)];
  }

  /**
    A compact response with one empty value that is misread: what follows the value makes the
    bytes a standard response with the value `v`, and `v` is what the parser returns.
   */
  lemma {:induction false} CompactIsMisread(prefix: seq<Byte>, name: string, v: DataValue)
    requires GoodPrefix(prefix) && GoodValue(v)
    ensures GoodValues([EmptyValue()]) && GoodValues([v])
    ensures var tail := PutStringTable([], PutExtensionObject(PlainObject(), PutResults([v], [])));
            ParseResponse(prefix + PutResults([EmptyValue()], tail), [name]) == Some(map[name := ValueMeaning(v)])
  {
    OneValue(v, name, []);
    var tail := PutStringTable([], PutExtensionObject(PlainObject(), PutResults([v], [])));
    OneValue(EmptyValue(), name, tail);
    SameBytes(tail);
    ParsingInvertsEncoding(prefix, OneField(), [], PlainObject(), [name], [v], []);
  }

  /** Faults and bad service results are errors, whatever follows. */
  lemma {:induction false} FaultsAreErrors(prefix: seq<Byte>, b: seq<Byte>, names: seq<string>)
    requires |prefix| == 32 && names != [] && (|b| < 4 || !GoodPrefix(prefix))
    ensures ParseResponse(prefix + b, names) == None
  {
    if |b| >= 4 {
      PrefixStays(prefix, b);
    }
  }

  // ----- The source's loops, which shrink the slice still to be read -----

  /** The array branch of `parse_read_response`. */
  method ReadElementsLoop(code: int, count: int, b: seq<Byte>) returns (r: Got<Variant>)
    ensures r == ReadElements(code, NonNegative(count), Null, b)
  {
    var last, rest, left := Null, b, NonNegative(count);
    ghost var goal := ReadElements(code, left, Null, b);
    while left > 0
      invariant goal == ReadElements(code, left, last, rest)
    {
      var e := ReadScalar(code, rest);
      if e.Failed? { return Failed; }
      last, rest, left := e.value, e.rest, left - 1;
    }
    r := Got(last, rest);
  }

  method ReadVariantAt(b: seq<Byte>) returns (r: Got<Variant>)
    ensures r == ReadVariant(b)
  {
    if b == [] { return Failed; }
    var mask, rest := b[0], b[1..];
    if !Bit7(mask) { return ReadScalar(mask % 64, rest); }
    if |rest| < 4 { return Failed; }
    r := ReadElementsLoop(mask % 64, Int32At(rest), rest[4..]);
    if r.Failed? || !Bit6(mask) { return; }
    var dims := SkipDimensions(r.rest);
    r := if dims.Bad? then Failed else Got(r.value, dims.rest);
  }

  /** `parse_read_response`. */
  method ParseReadResponse(body: seq<Byte>, names: seq<string>) returns (r: Option<map<string, Reading>>)
    ensures r == ParseResponse(body, names)
  {
    if body == [] || names == [] { return Some(map[]); }
    var located := Locate(body, |names|);
    if located.Bad? { return None; }
    var rest, left, readings: map<string, Reading> := located.rest, names, map[];
    ghost var goal := ReadAll(names, rest, map[]);
    while left != []
      invariant goal == ReadAll(left, rest, readings)
      decreases |left|
    {
      if rest == [] { return None; }
      var mask := rest[0];
      var v := Got(Null, rest[1..]);
      if Bit0(mask) {
        v := ReadVariantAt(rest[1..]);
        if v.Failed? { return None; }
      }
      var value := ReadStatusAndTimes(mask, v.value, v.rest);
      if value.Failed? { return None; }
      rest, readings, left := value.rest, readings[left[0] := value.value], left[1..];
    }
    r := Some(readings);
  }
}
