/**
  The ReadResponse parser of `opcua.rs` against the binary encoding of OPC UA Part 6.

  Encoders are written with the bytes that follow as a last argument, so that a reader
  inverts an encoder when it gives back the value and exactly those following bytes.
 */
module OpcUa {
  import opened Common

  // ----- Bits -----

  predicate Bit0(m: Byte) { m % 16 % 2 == 1 }
  predicate Bit1(m: Byte) { m % 16 / 2 % 2 == 1 }
  predicate Bit2(m: Byte) { m % 16 / 4 % 2 == 1 }
  predicate Bit3(m: Byte) { m % 16 / 8 % 2 == 1 }
  predicate Bit4(m: Byte) { m / 16 % 2 == 1 }
  predicate Bit5(m: Byte) { m / 16 / 2 % 2 == 1 }
  predicate Bit6(m: Byte) { m / 16 / 4 % 2 == 1 }
  predicate Bit7(m: Byte) { m / 16 / 8 % 2 == 1 }

  function Flag(b: bool): nat {
    if b then 1 else 0
  }

  /** Four bits, lowest first. */
  function Nibble(b0: bool, b1: bool, b2: bool, b3: bool): (n: nat)
    ensures n < 16
    ensures n % 2 == Flag(b0) && n / 2 % 2 == Flag(b1) && n / 4 % 2 == Flag(b2) && n / 8 % 2 == Flag(b3)
  {
    Flag(b0) + 2 * Flag(b1) + 4 * Flag(b2) + 8 * Flag(b3)
  }

  function Mask(b0: bool, b1: bool, b2: bool, b3: bool, b4: bool, b5: bool, b6: bool): (m: Byte)
    ensures Bit0(m) == b0 && Bit1(m) == b1 && Bit2(m) == b2 && Bit3(m) == b3
    ensures Bit4(m) == b4 && Bit5(m) == b5 && Bit6(m) == b6
  {
    var low, high := Nibble(b0, b1, b2, b3), Nibble(b4, b5, b6, false);
    var m := low + 16 * high;
    assert m % 16 == low && m / 16 == high;
    m
  }

  // ----- Reading (opcua.rs:794-932) -----

  /** Where a skip leaves off: the bytes still unread, or the failure at the buffer's end. */
  datatype Rest = Bad | At(rest: seq<Byte>)

  function Skip(b: seq<Byte>, n: nat): (r: Rest)
    ensures r.At? ==> |r.rest| <= |b|
  {
    if |b| < n then Bad else At(b[n..])
  }

  function SkipWhen(flag: bool, r: Rest, n: nat): (q: Rest)
    ensures q.At? ==> r.At? && |q.rest| <= |r.rest|
  {
    if flag && r.At? then Skip(r.rest, n) else r
  }

  function Int32At(b: seq<Byte>): int
    requires |b| >= 4
  {
    Signed(FromLe(b[..4]), U32)
  }

  function SkipString(b: seq<Byte>): (r: Rest)
    ensures r.At? ==> |r.rest| <= |b|
  {
    if |b| < 4 then Bad
    else if Int32At(b) > 0 then Skip(b[4..], Int32At(b)) else At(b[4..])
  }

  function SkipStringWhen(flag: bool, r: Rest): (q: Rest)
    ensures q.At? ==> r.At? && |q.rest| <= |r.rest|
  {
    if flag && r.At? then SkipString(r.rest) else r
  }

  /** The fields of a DiagnosticInfo before the nested one. */
  function SkipDiagnosticFields(m: Byte, b: seq<Byte>): (r: Rest)
    ensures r.At? ==> |r.rest| <= |b|
  {
    var ints := SkipWhen(Bit3(m), SkipWhen(Bit2(m), SkipWhen(Bit1(m), SkipWhen(Bit0(m), At(b), 4), 4), 4), 4);
    SkipWhen(Bit5(m), SkipStringWhen(Bit4(m), ints), 4)
  }

  function SkipDiagnosticInfo(b: seq<Byte>): (r: Rest)
    ensures r.At? ==> |r.rest| < |b|
    decreases |b|
  {
    if b == [] then Bad
    else
      var r := SkipDiagnosticFields(b[0], b[1..]);
      if r.At? && Bit6(b[0]) then SkipDiagnosticInfo(r.rest) else r
  }

  function SkipStrings(b: seq<Byte>, n: nat): Rest {
    if n == 0 then At(b)
    else
      var r := SkipString(b);
      if r.Bad? then Bad else SkipStrings(r.rest, n - 1)
  }

  function SkipStringTable(b: seq<Byte>): Rest {
    if |b| < 4 then Bad
    else if Int32At(b) > 0 then SkipStrings(b[4..], Int32At(b)) else At(b[4..])
  }

  /** The identifier of a NodeId, by the low four bits of its encoding byte. */
  function SkipIdentifier(kind: int, b: seq<Byte>): Rest {
    if kind == 0 then Skip(b, 1)
    else if kind == 1 then Skip(b, 3)
    else if kind == 2 then Skip(b, 6)
    else if kind == 3 || kind == 5 then SkipStringWhen(true, Skip(b, 2))
    else if kind == 4 then Skip(b, 18)
    else Bad
  }

  function SkipNodeId(b: seq<Byte>): Rest {
    if b == [] then Bad
    else SkipWhen(Bit6(b[0]), SkipStringWhen(Bit7(b[0]), SkipIdentifier(b[0] % 16, b[1..])), 4)
  }

  function SkipExtensionObject(b: seq<Byte>): Rest {
    var r := SkipNodeId(b);
    if r.Bad? || r.rest == [] then Bad
    else if r.rest[0] == 0 then At(r.rest[1..])
    else if r.rest[0] == 1 || r.rest[0] == 2 then SkipString(r.rest[1..])
    else Bad
  }

  // ----- The encoding of Part 6, in front of `rest` -----

  function Word(n: nat, k: nat, rest: seq<Byte>): seq<Byte> {
    ToLe(n, k) + rest
  }

  function Int32(i: int, rest: seq<Byte>): seq<Byte> {
    Word(Wrap(i, U32), 4, rest)
  }

  lemma {:induction false} WordReads(n: nat, k: nat, rest: seq<Byte>)
    requires n < Pow256(k)
    ensures var b := Word(n, k, rest);
            |b| >= k && FromLe(b[..k]) == n && b[k..] == rest
  {
    FromLeToLe(n, k);
    ConcatSplits(ToLe(n, k), rest);
  }

  lemma {:induction false} Int32Reads(i: int, rest: seq<Byte>)
    requires -U32 <= 2 * i < U32
    ensures var b := Int32(i, rest);
            |b| >= 4 && Int32At(b) == i && b[4..] == rest
  {
    SignedInvertsWrap(i, U32);
    Pow256Widths();
    WordReads(Wrap(i, U32), 4, rest);
  }

  /** String, ByteString and XmlElement: a length and bytes, or null. */
  datatype Text = NullText | Text(bytes: seq<Byte>)

  predicate GoodText(t: Text) {
    t.Text? ==> 2 * |t.bytes| < U32
  }

  function PutText(t: Text, rest: seq<Byte>): seq<Byte> {
    match t
    case NullText => Int32(-1, rest)
    case Text(bs) => Int32(|bs|, bs + rest)
  }

  function PutWordOpt(w: Option<nat>, k: nat, rest: seq<Byte>): seq<Byte> {
    if w.None? then rest else Word(w.value, k, rest)
  }

  function PutTextOpt(t: Option<Text>, rest: seq<Byte>): seq<Byte> {
    if t.None? then rest else PutText(t.value, rest)
  }

  predicate GoodTextOpt(t: Option<Text>) {
    t.Some? ==> GoodText(t.value)
  }

  /** Section 5.2.2.12 of OPC UA Part 6. */
  datatype DiagnosticInfo = DiagnosticInfo(
    symbolicId: Option<nat>, namespaceUri: Option<nat>, locale: Option<nat>, localizedText: Option<nat>,
    additionalInfo: Option<Text>, innerStatus: Option<nat>, inner: Option<DiagnosticInfo>)

  predicate GoodDiagnostic(d: DiagnosticInfo) {
    GoodTextOpt(d.additionalInfo) && (d.inner.Some? ==> GoodDiagnostic(d.inner.value))
  }

  function DiagnosticMask(d: DiagnosticInfo): Byte {
    Mask(d.symbolicId.Some?, d.namespaceUri.Some?, d.localizedText.Some?, d.locale.Some?,
         d.additionalInfo.Some?, d.innerStatus.Some?, d.inner.Some?)
  }

  /** The locale is written before the localized text, although its mask bit comes after. */
  function PutDiagnosticFields(d: DiagnosticInfo, rest: seq<Byte>): seq<Byte> {
    PutWordOpt(d.symbolicId, 4, PutWordOpt(d.namespaceUri, 4, PutWordOpt(d.locale, 4, PutWordOpt(d.localizedText, 4,
      PutTextOpt(d.additionalInfo, PutWordOpt(d.innerStatus, 4, rest))))))
  }

  function PutDiagnosticInfo(d: DiagnosticInfo, rest: seq<Byte>): seq<Byte>
    decreases d
  {
    [DiagnosticMask(d)] + PutDiagnosticFields(d, if d.inner.Some? then PutDiagnosticInfo(d.inner.value, rest) else rest)
  }

  function PutTexts(ts: seq<Text>, rest: seq<Byte>): seq<Byte> {
    if ts == [] then rest else PutText(ts[0], PutTexts(ts[1..], rest))
  }

  function PutStringTable(ts: seq<Text>, rest: seq<Byte>): seq<Byte> {
    Int32(|ts|, PutTexts(ts, rest))
  }

  predicate GoodTable(ts: seq<Text>) {
    2 * |ts| < U32 && forall i | 0 <= i < |ts| :: GoodText(ts[i])
  }

  /** Section 5.2.2.9; an expanded id carries a namespace URI or a server index. */
  datatype Identifier =
    | TwoByte(id: nat)
    | FourByte(ns: nat, id: nat)
    | Numeric(ns: nat, id: nat)
    | StringId(ns: nat, text: Text)
    | Guid(ns: nat, guid: seq<Byte>)
    | Opaque(ns: nat, text: Text)

  datatype NodeId = NodeId(id: Identifier, uri: Option<Text>, server: Option<nat>)

  function Kind(id: Identifier): int {
    match id
    case TwoByte(_) => 0
    case FourByte(_, _) => 1
    case Numeric(_, _) => 2
    case StringId(_, _) => 3
    case Guid(_, _) => 4
    case Opaque(_, _) => 5
  }

  predicate GoodIdentifier(id: Identifier) {
    match id
    case StringId(_, t) => GoodText(t)
    case Opaque(_, t) => GoodText(t)
    case Guid(_, g) => |g| == 16
    case _ => true
  }

  predicate GoodNodeId(n: NodeId) {
    GoodIdentifier(n.id) && GoodTextOpt(n.uri)
  }

  function PutIdentifier(id: Identifier, rest: seq<Byte>): seq<Byte> {
    match id
    case TwoByte(n) => Word(n, 1, rest)
    case FourByte(ns, n) => Word(ns, 1, Word(n, 2, rest))
    case Numeric(ns, n) => Word(ns, 2, Word(n, 4, rest))
    case StringId(ns, t) => Word(ns, 2, PutText(t, rest))
    case Guid(ns, g) => Word(ns, 2, g + rest)
    case Opaque(ns, t) => Word(ns, 2, PutText(t, rest))
  }

  function NodeIdByte(n: NodeId): (m: Byte)
    ensures m % 16 == Kind(n.id) && Bit6(m) == n.server.Some? && Bit7(m) == n.uri.Some?
  {
    Kind(n.id) + 16 * Nibble(false, false, n.server.Some?, n.uri.Some?)
  }

  function PutNodeId(n: NodeId, rest: seq<Byte>): seq<Byte> {
    [NodeIdByte(n)] + PutIdentifier(n.id, PutTextOpt(n.uri, PutWordOpt(n.server, 4, rest)))
  }

  /** Section 5.2.2.15: no body, a ByteString body or an XML body. */
  datatype ExtensionObject = ExtensionObject(typeId: NodeId, body: ExtensionBody)
  datatype ExtensionBody = NoBody | Binary(text: Text) | Xml(text: Text)

  predicate GoodExtension(x: ExtensionObject) {
    GoodNodeId(x.typeId) && (!x.body.NoBody? ==> GoodText(x.body.text))
  }

  function PutExtensionObject(x: ExtensionObject, rest: seq<Byte>): seq<Byte> {
    PutNodeId(x.typeId,
              match x.body
              case NoBody => [0] + rest
              case Binary(t) => [1] + PutText(t, rest)
              case Xml(t) => [2] + PutText(t, rest))
  }

  // ----- Each skip consumes exactly what was encoded -----

  lemma {:induction false} TextSkips(t: Text, rest: seq<Byte>)
    requires GoodText(t)
    ensures SkipString(PutText(t, rest)) == At(rest)
  {
    match t
    case NullText => Int32Reads(-1, rest);
    case Text(bs) =>
      Int32Reads(|bs|, bs + rest);
      ConcatSplits(bs, rest);
  }

  lemma {:induction false} WordSkips(n: nat, k: nat, rest: seq<Byte>)
    ensures Skip(Word(n, k, rest), k) == At(rest)
  {
    ConcatSplits(ToLe(n, k), rest);
  }

  lemma {:induction false} WordOptSkips(w: Option<nat>, k: nat, rest: seq<Byte>)
    ensures SkipWhen(w.Some?, At(PutWordOpt(w, k, rest)), k) == At(rest)
  {
  }

  lemma {:induction false} TextOptSkips(t: Option<Text>, rest: seq<Byte>)
    requires GoodTextOpt(t)
    ensures SkipStringWhen(t.Some?, At(PutTextOpt(t, rest))) == At(rest)
  {
    if t.Some? {
      TextSkips(t.value, rest);
    }
  }

  /** Skips of one width may be taken in either order. */
  lemma {:induction false} SkipsCommute(first: bool, second: bool, b: seq<Byte>, k: nat)
    ensures SkipWhen(second, SkipWhen(first, At(b), k), k) == SkipWhen(first, SkipWhen(second, At(b), k), k)
  {
  }

  lemma {:induction false} DiagnosticFieldsSkip(d: DiagnosticInfo, rest: seq<Byte>)
    requires GoodTextOpt(d.additionalInfo)
    ensures SkipDiagnosticFields(DiagnosticMask(d), PutDiagnosticFields(d, rest)) == At(rest)
  {
    var b5 := PutWordOpt(d.innerStatus, 4, rest);
    var b4 := PutTextOpt(d.additionalInfo, b5);
    var b3 := PutWordOpt(d.localizedText, 4, b4);
    var b2 := PutWordOpt(d.locale, 4, b3);
    var b1 := PutWordOpt(d.namespaceUri, 4, b2);
    WordOptSkips(d.symbolicId, 4, b1);
    WordOptSkips(d.namespaceUri, 4, b2);
    WordOptSkips(d.locale, 4, b3);
    WordOptSkips(d.localizedText, 4, b4);
    SkipsCommute(d.localizedText.Some?, d.locale.Some?, b2, 4);
    TextOptSkips(d.additionalInfo, b5);
    WordOptSkips(d.innerStatus, 4, rest);
  }

  lemma {:induction false} DiagnosticInfoStep(m: Byte, fields: seq<Byte>, tail: seq<Byte>)
    requires SkipDiagnosticFields(m, fields) == At(tail)
    ensures SkipDiagnosticInfo([m] + fields) == if Bit6(m) then SkipDiagnosticInfo(tail) else At(tail)
  {
    ConcatSplits([m], fields);
  }

  /** At any nesting depth. */
  lemma {:induction false} DiagnosticInfoSkips(d: DiagnosticInfo, rest: seq<Byte>)
    requires GoodDiagnostic(d)
    ensures SkipDiagnosticInfo(PutDiagnosticInfo(d, rest)) == At(rest)
    decreases d
  {
    var tail := if d.inner.Some? then PutDiagnosticInfo(d.inner.value, rest) else rest;
    DiagnosticFieldsSkip(d, tail);
    DiagnosticInfoStep(DiagnosticMask(d), PutDiagnosticFields(d, tail), tail);
    if d.inner.Some? {
      DiagnosticInfoSkips(d.inner.value, rest);
    }
  }

  lemma {:induction false} TextsSkip(ts: seq<Text>, rest: seq<Byte>)
    requires forall i | 0 <= i < |ts| :: GoodText(ts[i])
    ensures SkipStrings(PutTexts(ts, rest), |ts|) == At(rest)
  {
    if ts != [] {
      TextSkips(ts[0], PutTexts(ts[1..], rest));
      TextsSkip(ts[1..], rest);
    }
  }

  lemma {:induction false} StringTableSkips(ts: seq<Text>, rest: seq<Byte>)
    requires GoodTable(ts)
    ensures SkipStringTable(PutStringTable(ts, rest)) == At(rest)
  {
    Int32Reads(|ts|, PutTexts(ts, rest));
    TextsSkip(ts, rest);
  }

  lemma {:induction false} TwoWordsSkip(m: nat, j: nat, n: nat, k: nat, rest: seq<Byte>)
    ensures Skip(Word(m, j, Word(n, k, rest)), j + k) == At(rest)
  {
  }

  lemma {:induction false} IdentifierSkips(id: Identifier, rest: seq<Byte>)
    requires GoodIdentifier(id)
    ensures SkipIdentifier(Kind(id), PutIdentifier(id, rest)) == At(rest)
  {
    match id
    case TwoByte(n) => WordSkips(n, 1, rest);
    case FourByte(ns, n) => TwoWordsSkip(ns, 1, n, 2, rest);
    case Numeric(ns, n) => TwoWordsSkip(ns, 2, n, 4, rest);
    case StringId(ns, t) =>
      WordSkips(ns, 2, PutText(t, rest));
      TextSkips(t, rest);
    case Opaque(ns, t) =>
      WordSkips(ns, 2, PutText(t, rest));
      TextSkips(t, rest);
    case Guid(ns, g) =>
      ConcatAssociates(ToLe(ns, 2), g, rest);
      ConcatSplits(ToLe(ns, 2) + g, rest);
  }

  lemma {:induction false} NodeIdSkips(n: NodeId, rest: seq<Byte>)
    requires GoodNodeId(n)
    ensures SkipNodeId(PutNodeId(n, rest)) == At(rest)
  {
    var tail := PutWordOpt(n.server, 4, rest);
    var mid := PutTextOpt(n.uri, tail);
    ConcatSplits([NodeIdByte(n)], PutIdentifier(n.id, mid));
    IdentifierSkips(n.id, mid);
    TextOptSkips(n.uri, tail);
    WordOptSkips(n.server, 4, rest);
  }

  lemma {:induction false} ExtensionObjectSkips(x: ExtensionObject, rest: seq<Byte>)
    requires GoodExtension(x)
    ensures SkipExtensionObject(PutExtensionObject(x, rest)) == At(rest)
  {
    match x.body
    case NoBody =>
      NodeIdSkips(x.typeId, [0] + rest);
      ConcatSplits([0], rest);
    case Binary(t) =>
      NodeIdSkips(x.typeId, [1] + PutText(t, rest));
      ConcatSplits([1], PutText(t, rest));
      TextSkips(t, rest);
    case Xml(t) =>
      NodeIdSkips(x.typeId, [2] + PutText(t, rest));
      ConcatSplits([2], PutText(t, rest));
      TextSkips(t, rest);
  }

  // ----- The skip functions of the source, which advance a position in the buffer -----

  /** The new position stands for what a skip left: within the buffer, or none if it failed. */
  ghost predicate Lands(buf: seq<Byte>, pos: Option<nat>, r: Rest) {
    if r.Bad? then pos.None? else pos.Some? && pos.value <= |buf| && buf[pos.value..] == r.rest
  }

  method SkipBytesAt(buf: seq<Byte>, pos: nat, n: nat) returns (next: Option<nat>)
    requires pos <= |buf|
    ensures Lands(buf, next, Skip(buf[pos..], n))
  {
    if pos + n > |buf| { return None; }
    assert buf[pos..][n..] == buf[pos + n..];
    next := Some(pos + n);
  }

  method SkipStringAt(buf: seq<Byte>, pos: nat) returns (next: Option<nat>)
    requires pos <= |buf|
    ensures Lands(buf, next, SkipString(buf[pos..]))
  {
    if pos + 4 > |buf| { return None; }
    var len := Int32At(buf[pos..]);
    assert buf[pos..][4..] == buf[pos + 4..];
    if len <= 0 { return Some(pos + 4); }
    next := SkipBytesAt(buf, pos + 4, len);
  }

  method SkipStringTableAt(buf: seq<Byte>, pos: nat) returns (next: Option<nat>)
    requires pos <= |buf|
    ensures Lands(buf, next, SkipStringTable(buf[pos..]))
  {
    if pos + 4 > |buf| { return None; }
    var count := Int32At(buf[pos..]);
    assert buf[pos..][4..] == buf[pos + 4..];
    var at: nat, left: nat := pos + 4, if count > 0 then count else 0;
    ghost var goal := SkipStringTable(buf[pos..]);
    while left > 0
      invariant at <= |buf| && goal == SkipStrings(buf[at..], left)
    {
      var after := SkipStringAt(buf, at);
      if after.None? { return None; }
      at, left := after.value, left - 1;
    }
    next := Some(at);
  }

  /** What is left to skip once the first `i` Int32 fields are behind. */
  ghost function FieldsFrom(m: Byte, i: nat, r: Rest): Rest
    requires i <= 4
    decreases 4 - i
  {
    if i == 4 then SkipWhen(Bit5(m), SkipStringWhen(Bit4(m), r), 4)
    else FieldsFrom(m, i + 1, SkipWhen(IntBit(m, i), r, 4))
  }

  predicate IntBit(m: Byte, i: nat)
    requires i < 4
  {
    if i == 0 then Bit0(m) else if i == 1 then Bit1(m) else if i == 2 then Bit2(m) else Bit3(m)
  }

  lemma {:induction false} FieldsFromStart(m: Byte, b: seq<Byte>)
    ensures FieldsFrom(m, 0, At(b)) == SkipDiagnosticFields(m, b)
  {
  }

  lemma {:induction false} FieldsFromBad(m: Byte, i: nat)
    requires i <= 4
    ensures FieldsFrom(m, i, Bad) == Bad
    decreases 4 - i
  {
  }

  /** The loop over the four Int32 bits, then the string and the status. */
  method SkipDiagnosticFieldsAt(buf: seq<Byte>, pos: nat, m: Byte) returns (next: Option<nat>)
    requires pos <= |buf|
    ensures Lands(buf, next, SkipDiagnosticFields(m, buf[pos..]))
  {
    var at: nat, i: nat := pos, 0;
    ghost var goal := SkipDiagnosticFields(m, buf[pos..]);
    FieldsFromStart(m, buf[pos..]);
    while i < 4
      invariant i <= 4 && at <= |buf|
      invariant goal == FieldsFrom(m, i, At(buf[at..]))
    {
      if IntBit(m, i) {
        var after := SkipBytesAt(buf, at, 4);
        if after.None? {
          FieldsFromBad(m, i + 1);
          return None;
        }
        at := after.value;
      }
      i := i + 1;
    }
    if Bit4(m) {
      var after := SkipStringAt(buf, at);
      if after.None? { return None; }
      at := after.value;
    }
    if !Bit5(m) { return Some(at); }
    next := SkipBytesAt(buf, at, 4);
  }

  method SkipDiagnosticInfoAt(buf: seq<Byte>, pos: nat) returns (next: Option<nat>)
    requires pos <= |buf|
    ensures Lands(buf, next, SkipDiagnosticInfo(buf[pos..]))
    decreases |buf| - pos
  {
    if pos >= |buf| { return None; }
    var m := buf[pos];
    assert buf[pos..][1..] == buf[pos + 1..];
    next := SkipDiagnosticFieldsAt(buf, pos + 1, m);
    if next.None? || !Bit6(m) { return; }
    next := SkipDiagnosticInfoAt(buf, next.value);
  }
}
