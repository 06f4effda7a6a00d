/**
  The values of `opcua.rs` byte by byte: what each built-in type code reads from which bytes,
  with codes, widths and ranges written out as numbers, and what is refused. The tables of the
  reader are not used here, so these statements fix them.
 */
module OpcUaWire {
  import opened Common
  import opened OpcUa
  import opened OpcUaValues

  // ----- Numbers -----

  function Word2(b: seq<Byte>): nat
    requires |b| == 2
  {
    b[0] as int + 256 * b[1] as int
  }

  function Word4(b: seq<Byte>): nat
    requires |b| == 4
  {
    b[0] as int + 256 * b[1] as int + 65536 * b[2] as int + 16777216 * b[3] as int
  }

  function Word8(b: seq<Byte>): nat
    requires |b| == 8
  {
    Word4(b[..4]) + 0x1_0000_0000 * Word4(b[4..])
  }

  lemma {:induction false} FromLeStep(b: Byte, rest: seq<Byte>)
    ensures FromLe([b] + rest) == b + 256 * FromLe(rest)
  {
    ConcatSplits([b], rest);
  }

  lemma {:induction false} FromLeTwo(b: seq<Byte>)
    requires |b| == 2
    ensures FromLe(b) == Word2(b)
  {
    assert b == [b[0]] + ([b[1]] + []);
    FromLeStep(b[0], [b[1]] + []);
    FromLeStep(b[1], []);
  }

  lemma {:induction false} FromLeFour(b: seq<Byte>)
    requires |b| == 4
    ensures FromLe(b) == Word4(b) < 0x1_0000_0000
  {
    assert b == [b[0]] + ([b[1]] + b[2..]);
    FromLeStep(b[0], [b[1]] + b[2..]);
    FromLeStep(b[1], b[2..]);
    FromLeTwo(b[2..]);
  }

  lemma {:induction false} FromLeEight(b: seq<Byte>)
    requires |b| == 8
    ensures FromLe(b) == Word8(b) < 0x1_0000_0000_0000_0000
  {
    var high := b[4..];
    assert b == [b[0]] + ([b[1]] + ([b[2]] + ([b[3]] + high)));
    FromLeStep(b[0], [b[1]] + ([b[2]] + ([b[3]] + high)));
    FromLeStep(b[1], [b[2]] + ([b[3]] + high));
    FromLeStep(b[2], [b[3]] + high);
    FromLeStep(b[3], high);
    FromLeFour(high);
    FromLeFour(b[..4]);
  }

  /** Codes 2 and 3: one byte, with and without a sign. */
  lemma {:induction false} OneByteCodes(b: Byte, rest: seq<Byte>)
    ensures ReadScalar(2, [b] + rest) == Got(Number(SByteT, if b < 128 then b else b - 256), rest)
    ensures ReadScalar(3, [b] + rest) == Got(Number(ByteT, b), rest)
  {
    ConcatSplits([b], rest);
    ConcatNil([b]);
    FromLeStep(b, []);
  }

  /** Codes 4 and 5: two bytes. */
  lemma {:induction false} TwoByteCodes(b: seq<Byte>, rest: seq<Byte>)
    requires |b| == 2
    ensures var u := Word2(b);
            && ReadScalar(4, b + rest) == Got(Number(Int16T, if u < 0x8000 then u else u - 0x1_0000), rest)
            && ReadScalar(5, b + rest) == Got(Number(UInt16T, u), rest)
  {
    ConcatSplits(b, rest);
    FromLeTwo(b);
  }

  /** Codes 6, 7 and 10: four bytes, the last being the bits of a float. */
  lemma {:induction false} FourByteCodes(b: seq<Byte>, rest: seq<Byte>)
    requires |b| == 4
    ensures var u := Word4(b);
            && ReadScalar(6, b + rest) == Got(Number(Int32T, if u < 0x8000_0000 then u else u - 0x1_0000_0000), rest)
            && ReadScalar(7, b + rest) == Got(Number(UInt32T, u), rest)
            && ReadScalar(10, b + rest) == Got(Number(FloatT, u), rest)
  {
    ConcatSplits(b, rest);
    FromLeFour(b);
  }

  /** The signed reading of 64 bits. */
  function AsInt64(u: nat): int {
    if u < 0x8000_0000_0000_0000 then u else u - 0x1_0000_0000_0000_0000
  }

  /** Codes 8, 9, 11 and 13: eight bytes, of which 11 is a double and 13 a signed time. */
  lemma {:induction false} EightByteCodes(b: seq<Byte>, rest: seq<Byte>)
    requires |b| == 8
    ensures var u := Word8(b);
            && ReadScalar(8, b + rest) == Got(Number(Int64T, AsInt64(u)), rest)
            && ReadScalar(9, b + rest) == Got(Number(UInt64T, u), rest)
            && ReadScalar(11, b + rest) == Got(Number(DoubleT, u), rest)
            && ReadScalar(13, b + rest) == Got(Number(DateTimeT, AsInt64(u)), rest)
  {
    ConcatSplits(b, rest);
    FromLeEight(b);
  }

  // ----- The other types -----

  /** Code 0 takes nothing; code 1 takes a byte, of which only zero is false. */
  lemma {:induction false} NullAndBoolean(b: Byte, rest: seq<Byte>)
    ensures ReadScalar(0, rest) == Got(Null, rest)
    ensures ReadScalar(1, [b] + rest) == Got(Boolean(b != 0), rest)
  {
    ConcatSplits([b], rest);
  }

  /** The signed reading of four bytes. */
  function AsInt32(b: seq<Byte>): int
    requires |b| == 4
  {
    if Word4(b) < 0x8000_0000 then Word4(b) else Word4(b) - 0x1_0000_0000
  }

  lemma {:induction false} LengthReads(b: seq<Byte>, rest: seq<Byte>)
    requires |b| == 4
    ensures |b + rest| >= 4 && Int32At(b + rest) == AsInt32(b) && (b + rest)[4..] == rest
  {
    ConcatSplits(b, rest);
    FromLeFour(b);
  }

  /**
    Codes 12 and 15: a signed length and as many bytes. Below zero the text is null and the
    byte string empty; a length past the end is refused.
   */
  lemma {:induction false} TextCodes(b: seq<Byte>, rest: seq<Byte>)
    requires |b| == 4
    ensures var n := AsInt32(b);
            if n < 0 then ReadScalar(12, b + rest) == Got(Null, rest)
                          && ReadScalar(15, b + rest) == Got(ByteString([]), rest)
            else if n <= |rest| then ReadScalar(12, b + rest) == Got(String(rest[..n]), rest[n..])
                                     && ReadScalar(15, b + rest) == Got(ByteString(rest[..n]), rest[n..])
            else ReadScalar(12, b + rest) == Failed && ReadScalar(15, b + rest) == Failed
  {
    LengthReads(b, rest);
  }

  /** How many bytes a type code needs at least; `None` if there is no such type here. */
  function Needs(code: int): Option<nat> {
    if code == 0 then Some(0)
    else if 1 <= code <= 3 then Some(1)
    else if code == 4 || code == 5 then Some(2)
    else if code == 6 || code == 7 || code == 10 || code == 12 || code == 15 then Some(4)
    else if code == 8 || code == 9 || code == 11 || code == 13 then Some(8)
    else None
  }

  /** Other codes and too few bytes are refused, inside arrays too. */
  lemma {:induction false} RefusedScalars(code: int, b: seq<Byte>, n: nat, last: Variant)
    requires Needs(code).None? || |b| < Needs(code).value
    ensures ReadScalar(code, b) == Failed
    ensures n > 0 ==> ReadElements(code, n, last, b) == Failed
  {
  }

  // ----- Variants -----

  /** Below 128 the first byte is a scalar's type code, up to 64 values; bit 6 is not looked at. */
  lemma {:induction false} ScalarVariants(m: Byte, b: seq<Byte>)
    requires m < 128
    ensures ReadVariant([m] + b) == ReadScalar(if m < 64 then m else m - 64, b)
    ensures ReadVariant([]) == Failed
  {
    ConcatSplits([m], b);
    BitSeven(m);
  }

  lemma {:induction false} BitSeven(m: Byte)
    ensures Bit7(m) <==> m >= 128
    ensures Bit6(m) <==> 64 <= m < 128 || 192 <= m
    ensures m % 64 == if m < 64 then m else if m < 128 then m - 64 else if m < 192 then m - 128 else m - 192
  {
  }

  /** From 128 on it is an array's: a signed count, below zero taken for zero, and the elements. */
  lemma {:induction false} ArrayVariants(m: Byte, len: seq<Byte>, b: seq<Byte>)
    requires 128 <= m < 192 && |len| == 4
    ensures var n := AsInt32(len);
            ReadVariant([m] + (len + b)) == if n <= 0 then Got(Null, b) else ReadElements(m - 128, n, Null, b)
  {
    ConcatSplits([m], len + b);
    LengthReads(len, b);
    BitSeven(m);
  }

  /** And from 192 on the dimensions follow, four bytes each after a signed count. */
  lemma {:induction false} DimensionedVariants(m: Byte, len: seq<Byte>, b: seq<Byte>, v: Variant,
                                               dims: seq<Byte>, rest: seq<Byte>)
    requires 192 <= m && |len| == 4 && |dims| == 4
    requires var n := AsInt32(len);
             ReadElements(m - 192, if n <= 0 then 0 else n, Null, b) == Got(v, dims + rest)
    ensures var k := AsInt32(dims);
            ReadVariant([m] + (len + b))
            == if k <= 0 then Got(v, rest) else if 4 * k <= |rest| then Got(v, rest[4 * k..]) else Failed
  {
    ConcatSplits([m], len + b);
    LengthReads(len, b);
    LengthReads(dims, rest);
    BitSeven(m);
  }

  // ----- What the header may not be -----

  /** NodeId kinds from 6 on and ExtensionObject bodies from 3 on do not exist. */
  lemma {:induction false} RefusedHeaders(m: Byte, b: seq<Byte>, x: seq<Byte>)
    requires m % 16 >= 6
    ensures SkipNodeId([m] + b) == Bad && SkipNodeId([]) == Bad
    ensures SkipNodeId(x).At? && SkipNodeId(x).rest != [] && SkipNodeId(x).rest[0] > 2 ==> SkipExtensionObject(x) == Bad
    ensures SkipNodeId(x).At? && SkipNodeId(x).rest == [] ==> SkipExtensionObject(x) == Bad
  {
    ConcatSplits([m], b);
  }

  /** A string is skipped with its length; at zero or below only the length is. */
  lemma {:induction false} StringSkips(len: seq<Byte>, b: seq<Byte>)
    requires |len| == 4
    ensures var n := AsInt32(len);
            SkipString(len + b) == if n <= 0 then At(b) else if n <= |b| then At(b[n..]) else Bad
  {
    LengthReads(len, b);
  }

  lemma {:induction false} ShortStringsFail(b: seq<Byte>)
    requires |b| < 4
    ensures SkipString(b) == Bad && SkipStringTable(b) == Bad
  {
  }

  /** A string table is a signed count and as many strings. */
  lemma {:induction false} TableSkips(len: seq<Byte>, b: seq<Byte>)
    requires |len| == 4
    ensures AsInt32(len) <= 0 ==> SkipStringTable(len + b) == At(b)
    ensures AsInt32(len) > 0 && SkipString(b) == Bad ==> SkipStringTable(len + b) == Bad
    ensures AsInt32(len) == 1 ==> SkipStringTable(len + b) == SkipString(b)
  {
    LengthReads(len, b);
    if AsInt32(len) == 1 && SkipString(b).At? {
      assert SkipStrings(SkipString(b).rest, 0) == SkipString(b);
    }
  }

  /**
    Without names or without a body there is nothing to read, and a body that is neither a
    standard response with one result a name nor a compact one is refused.
   */
  lemma {:induction false} RefusedResponses(body: seq<Byte>, names: seq<string>)
    ensures ParseResponse([], names) == Some(map[]) && ParseResponse(body, []) == Some(map[])
    ensures body != [] && names != [] && |body| < 36 ==> ParseResponse(body, names) == None
    ensures |body| >= 36 && names != [] ==>
              StandardResults(body[32..], |names|).Bad? && AsInt32(body[32..36]) != |names| ==>
                ParseResponse(body, names) == None
  {
    if |body| >= 36 {
      assert body[32..] == body[32..36] + body[36..];
      LengthReads(body[32..36], body[36..]);
    }
  }

  /** After a prefix of 32 bytes without a fault a standard header is tried first, and then a count by itself. */
  lemma {:induction false} StandardComesFirst(prefix: seq<Byte>, b: seq<Byte>, n: nat)
    requires GoodPrefix(prefix) && |b| >= 4
    ensures Locate(prefix + b, n)
            == if StandardResults(b, n).At? then StandardResults(b, n)
               else if AsInt32(b[..4]) == n then At(b[4..]) else Bad
  {
    PrefixStays(prefix, b);
    assert b == b[..4] + b[4..];
    LengthReads(b[..4], b[4..]);
  }
}
