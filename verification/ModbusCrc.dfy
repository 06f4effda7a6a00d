/**
  The RTU checksum of `modbus.rs`: a reflected CRC-16 with polynomial 0xA001, and
  what its acceptance check detects, for frames of any length. Words and bytes are
  their bits, least significant first, so `>> 1` drops the first bit.
 */
module ModbusCrc {

  type Word = w: seq<bool> | |w| == 16 witness
    [false, false, false, false, false, false, false, false,
     false, false, false, false, false, false, false, false]
  type Octet = b: seq<bool> | |b| == 8 witness [false, false, false, false, false, false, false, false]

  const ZERO: Word :=
    [false, false, false, false, false, false, false, false,
     false, false, false, false, false, false, false, false]
  const ONES: Word := [true, true, true, true, true, true, true, true, true, true, true, true, true, true, true, true]

  const ONE: Word :=
    [true, false, false, false, false, false, false, false,
     false, false, false, false, false, false, false, false]

  /** 0xA001: bits 0, 13 and 15. */
  const POLY: Word :=
    [true, false, false, false, false, false, false, false,
     false, false, false, false, false, true, false, true]

  function Xor(a: Word, b: Word): (c: Word)
    ensures forall i :: 0 <= i < 16 ==> c[i] == (a[i] != b[i])
  {
    seq(16, i requires 0 <= i < 16 => a[i] != b[i])
  }

  /** XOR of up to sixteen bits into the low end of a word; with a byte, `crc ^= b as u16`. */
  function XorLow(w: Word, bits: seq<bool>): (c: Word)
    ensures forall i :: 0 <= i < 16 ==> c[i] == (w[i] != (i < |bits| && bits[i]))
  {
    seq(16, i requires 0 <= i < 16 => w[i] != (i < |bits| && bits[i]))
  }

  /** `w >> 1`. */
  function Shr(w: Word): Word {
    w[1..] + [false]
  }

  /** One round of the inner loop. */
  function Step(crc: Word): Word {
    if crc[0] then Xor(Shr(crc), POLY) else Shr(crc)
  }

  function Steps(crc: Word, n: nat): Word
    decreases n, crc
  {
    if n == 0 then crc else Steps(Step(crc), n - 1)
  }

  function FeedByte(crc: Word, b: Octet): Word {
    Steps(XorLow(crc, b), 8)
  }

  function Run(crc: Word, data: seq<Octet>): Word
    decreases |data|
  {
    if data == [] then crc else Run(FeedByte(crc, data[0]), data[1..])
  }

  function Crc16(data: seq<Octet>): Word {
    Run(ONES, data)
  }

  /** The inner loop: one byte, eight rounds. */
  method FeedByteLoop(start: Word, b: Octet) returns (crc: Word)
    ensures crc == FeedByte(start, b)
  {
    crc := XorLow(start, b);
    ghost var goal := FeedByte(start, b);
    for k := 0 to 8
      invariant Steps(crc, 8 - k) == goal
    {
      ghost var before := crc;
      if crc[0] {
        crc := Xor(Shr(crc), POLY);
      } else {
        crc := Shr(crc);
      }
      StepsOn(before, crc, 8 - k);
    }
  }

  lemma {:induction false} StepsOn(a: Word, b: Word, n: nat)
    requires n > 0 && Step(a) == b
    ensures Steps(a, n) == Steps(b, n - 1)
  {
  }

  /** `modbus_crc16`. */
  method ModbusCrc16(data: seq<Octet>) returns (crc: Word)
    ensures crc == Crc16(data)
  {
    crc := ONES;
    for i := 0 to |data|
      invariant Run(crc, data[i..]) == Crc16(data)
    {
      assert data[i..][1..] == data[i + 1..];
      crc := FeedByteLoop(crc, data[i]);
    }
  }

  // ----- Frames (modbus.rs:865-929) -----

  /** The frame put on the wire: the payload and its checksum, low byte first. */
  function Frame(payload: seq<Octet>): seq<Octet> {
    payload + [Crc16(payload)[..8], Crc16(payload)[8..]]
  }

  /** The receiver's check: at least four bytes, and the trailing checksum matches. */
  predicate Accepts(frame: seq<Octet>) {
    |frame| >= 4 && Trailer(frame) == Crc16(frame[..|frame| - 2])
  }

  function Trailer(frame: seq<Octet>): Word
    requires |frame| >= 2
  {
    Join(frame[|frame| - 2], frame[|frame| - 1])
  }

  function Join(lo: Octet, hi: Octet): Word {
    var bits: seq<bool> := lo;
    bits + hi
  }

  // ----- One bit at a time -----

  function FeedBit(crc: Word, bit: bool): Word {
    Step(XorLow(crc, [bit]))
  }

  function RunBits(crc: Word, bits: seq<bool>): Word
    decreases |bits|
  {
    if bits == [] then crc else RunBits(FeedBit(crc, bits[0]), bits[1..])
  }

  /** The bits of a frame in transmission order, least significant first. */
  function FrameBits(data: seq<Octet>): (bits: seq<bool>)
    ensures |bits| == 8 * |data|
  {
    if data == [] then [] else data[0] + FrameBits(data[1..])
  }

  lemma {:induction false} StepAt(crc: Word, i: nat)
    requires i < 16
    ensures Step(crc)[i] == ((i < 15 && crc[i + 1]) != (crc[0] && POLY[i]))
  {
  }

  /** Later bits commute with a step: they just move one place down. */
  lemma {:induction false} StepAbsorbsBit(crc: Word, bits: seq<bool>)
    requires 1 <= |bits| <= 16
    ensures Step(XorLow(crc, bits)) == XorLow(FeedBit(crc, bits[0]), bits[1..])
  {
    forall i | 0 <= i < 16
      ensures Step(XorLow(crc, bits))[i] == XorLow(FeedBit(crc, bits[0]), bits[1..])[i]
    {
      StepAt(XorLow(crc, bits), i);
      StepAt(XorLow(crc, [bits[0]]), i);
    }
  }

  /** Up to sixteen bits fed one by one equal one XOR followed by as many steps. */
  lemma {:induction false} BitsAtOnce(crc: Word, bits: seq<bool>)
    requires |bits| <= 16
    ensures RunBits(crc, bits) == Steps(XorLow(crc, bits), |bits|)
    decreases |bits|
  {
    if bits == [] {
      assert XorLow(crc, bits) == crc;
    } else {
      StepAbsorbsBit(crc, bits);
      BitsAtOnce(FeedBit(crc, bits[0]), bits[1..]);
    }
  }

  lemma {:induction false} RunBitsConcat(crc: Word, a: seq<bool>, b: seq<bool>)
    ensures RunBits(crc, a + b) == RunBits(RunBits(crc, a), b)
    decreases |a|
  {
    if a == [] {
      assert a + b == b;
    } else {
      assert (a + b)[1..] == a[1..] + b;
      RunBitsConcat(FeedBit(crc, a[0]), a[1..], b);
    }
  }

  /** The byte-wise checksum is the bit-serial one. */
  lemma {:induction false} RunIsBitSerial(crc: Word, data: seq<Octet>)
    ensures Run(crc, data) == RunBits(crc, FrameBits(data))
    decreases |data|
  {
    if data != [] {
      BitsAtOnce(crc, data[0]);
      RunBitsConcat(crc, data[0], FrameBits(data[1..]));
      RunIsBitSerial(FeedByte(crc, data[0]), data[1..]);
    }
  }

  // ----- The state is linear over XOR, and a step loses nothing -----

  function XorBits(x: seq<bool>, y: seq<bool>): (z: seq<bool>)
    requires |x| == |y|
    ensures |z| == |x| && forall i :: 0 <= i < |x| ==> z[i] == (x[i] != y[i])
  {
    seq(|x|, i requires 0 <= i < |x| => x[i] != y[i])
  }

  lemma {:induction false} FeedBitLinear(a: Word, b: Word, x: bool, y: bool)
    ensures FeedBit(Xor(a, b), x != y) == Xor(FeedBit(a, x), FeedBit(b, y))
  {
    forall i | 0 <= i < 16
      ensures FeedBit(Xor(a, b), x != y)[i] == Xor(FeedBit(a, x), FeedBit(b, y))[i]
    {
      StepAt(XorLow(Xor(a, b), [x != y]), i);
      StepAt(XorLow(a, [x]), i);
      StepAt(XorLow(b, [y]), i);
    }
  }

  /** The checksum state is linear over XOR of states and of data, for data of any length. */
  lemma {:induction false} RunBitsLinear(a: Word, b: Word, x: seq<bool>, y: seq<bool>)
    requires |x| == |y|
    ensures RunBits(Xor(a, b), XorBits(x, y)) == Xor(RunBits(a, x), RunBits(b, y))
    decreases |x|
  {
    if x != [] {
      FeedBitLinear(a, b, x[0], y[0]);
      assert XorBits(x, y)[1..] == XorBits(x[1..], y[1..]);
      RunBitsLinear(FeedBit(a, x[0]), FeedBit(b, y[0]), x[1..], y[1..]);
    }
  }

  lemma {:induction false} StepOnlyZeroToZero(a: Word)
    ensures Step(a) == ZERO <==> a == ZERO
  {
    if Step(a) == ZERO {
      StepAt(a, 15);
      assert !a[0];
      forall i | 0 < i < 16
        ensures !a[i]
      {
        StepAt(a, i - 1);
      }
      assert a == ZERO;
    }
    if a == ZERO {
      assert Step(a) == ZERO;
    }
  }

  lemma {:induction false} StepsOnlyZeroToZero(a: Word, n: nat)
    ensures Steps(a, n) == ZERO <==> a == ZERO
    decreases n
  {
    if n > 0 {
      StepOnlyZeroToZero(a);
      StepsOnlyZeroToZero(Step(a), n - 1);
    }
  }

  // ----- Acceptance is a zero remainder -----

  lemma {:induction false} EqualIffXorZero(a: Word, b: Word)
    ensures XorLow(a, b) == ZERO <==> b == a
  {
  }

  /** Sixteen more bits bring the state to zero exactly when they spell it. */
  lemma {:induction false} ZeroIffSpelled(crc: Word, trailer: Word)
    ensures RunBits(crc, trailer) == ZERO <==> trailer == crc
  {
    BitsAtOnce(crc, trailer);
    StepsOnlyZeroToZero(XorLow(crc, trailer), |trailer|);
    EqualIffXorZero(crc, trailer);
  }

  lemma {:induction false} FrameBitsConcat(a: seq<Octet>, b: seq<Octet>)
    ensures FrameBits(a + b) == FrameBits(a) + FrameBits(b)
  {
    if a == [] {
      assert a + b == b;
    } else {
      assert (a + b)[1..] == a[1..] + b;
      FrameBitsConcat(a[1..], b);
    }
  }

  /** A frame passes the check exactly when the checksum over all of it, trailer included, is zero. */
  lemma {:induction false} AcceptsIffZero(frame: seq<Octet>)
    requires |frame| >= 4
    ensures Accepts(frame) <==> Crc16(frame) == ZERO
  {
    var n := |frame|;
    var payload, lo, hi := frame[..n - 2], frame[n - 2], frame[n - 1];
    assert frame == payload + [lo, hi];
    FrameBitsOfTwo(lo, hi);
    FrameBitsConcat(payload, [lo, hi]);
    RunIsBitSerial(ONES, frame);
    RunIsBitSerial(ONES, payload);
    RunBitsConcat(ONES, FrameBits(payload), Join(lo, hi));
    ZeroIffSpelled(Crc16(payload), Join(lo, hi));
  }

  lemma {:induction false} FrameBitsOfTwo(lo: Octet, hi: Octet)
    ensures FrameBits([lo, hi]) == Join(lo, hi)
  {
    assert [lo, hi][1..] == [hi] && [hi][1..] == [];
    assert FrameBits([]) == [];
  }

  /** What the sender builds, the receiver accepts, and its remainder is zero. */
  lemma {:induction false} SentFramesAreAccepted(payload: seq<Octet>)
    requires |payload| >= 2
    ensures Accepts(Frame(payload)) && Crc16(Frame(payload)) == ZERO
  {
    var frame, crc := Frame(payload), Crc16(payload);
    assert frame[..|frame| - 2] == payload;
    assert Join(crc[..8], crc[8..]) == crc;
    AcceptsIffZero(frame);
  }

  /** The frame as damaged in transit by an error pattern. */
  function Damaged(frame: seq<Octet>, error: seq<Octet>): (d: seq<Octet>)
    requires |frame| == |error|
    ensures |d| == |frame|
  {
    if frame == [] then [] else [XorBits(frame[0], error[0])] + Damaged(frame[1..], error[1..])
  }

  lemma {:induction false} DamagedBits(frame: seq<Octet>, error: seq<Octet>)
    requires |frame| == |error|
    ensures FrameBits(Damaged(frame, error)) == XorBits(FrameBits(frame), FrameBits(error))
  {
    if frame != [] {
      DamagedBits(frame[1..], error[1..]);
      assert Damaged(frame, error)[1..] == Damaged(frame[1..], error[1..]);
    }
  }

  lemma {:induction false} XorWithZero(a: Word)
    ensures Xor(a, ZERO) == a && Xor(ZERO, a) == a
  {
  }

  lemma {:induction false} DamagedRemainder(frame: seq<Octet>, error: seq<Octet>)
    requires |error| == |frame|
    ensures Crc16(Damaged(frame, error)) == Xor(Crc16(frame), RunBits(ZERO, FrameBits(error)))
  {
    RunIsBitSerial(ONES, frame);
    RunIsBitSerial(ONES, Damaged(frame, error));
    DamagedBits(frame, error);
    XorWithZero(ONES);
    RunBitsLinear(ONES, ZERO, FrameBits(frame), FrameBits(error));
  }

  /** An error pattern goes unnoticed exactly when its own remainder, from state zero, is zero. */
  lemma {:induction false} UndetectedIffZeroRemainder(frame: seq<Octet>, error: seq<Octet>)
    requires |error| == |frame| && Accepts(frame)
    ensures Accepts(Damaged(frame, error)) <==> RunBits(ZERO, FrameBits(error)) == ZERO
  {
    AcceptsIffZero(frame);
    AcceptsIffZero(Damaged(frame, error));
    DamagedRemainder(frame, error);
    XorWithZero(RunBits(ZERO, FrameBits(error)));
  }

  // ----- What is detected -----

  ghost predicate AllClear(bits: seq<bool>) {
    forall i :: 0 <= i < |bits| ==> !bits[i]
  }

  lemma {:induction false} ClearBitsKeepZero(crc: Word, bits: seq<bool>)
    requires AllClear(bits)
    ensures RunBits(crc, bits) == ZERO <==> crc == ZERO
    decreases |bits|
  {
    if bits != [] {
      assert XorLow(crc, [false]) == crc;
      StepOnlyZeroToZero(crc);
      ClearBitsKeepZero(FeedBit(crc, false), bits[1..]);
    }
  }

  lemma {:induction false} ShortBurstIsNonzero(burst: seq<bool>)
    requires |burst| <= 16 && !AllClear(burst)
    ensures RunBits(ZERO, burst) != ZERO
  {
    BitsAtOnce(ZERO, burst);
    StepsOnlyZeroToZero(XorLow(ZERO, burst), |burst|);
    var i :| 0 <= i < |burst| && burst[i];
    assert XorLow(ZERO, burst)[i] != ZERO[i];
  }

  lemma {:induction false} BurstRemainder(before: seq<bool>, burst: seq<bool>, after: seq<bool>)
    requires AllClear(before) && AllClear(after) && |burst| <= 16 && !AllClear(burst)
    ensures RunBits(ZERO, before + burst + after) != ZERO
  {
    RunBitsConcat(ZERO, before + burst, after);
    RunBitsConcat(ZERO, before, burst);
    ClearBitsKeepZero(ZERO, before);
    ShortBurstIsNonzero(burst);
    ClearBitsKeepZero(RunBits(ZERO, burst), after);
  }

  /** Every set bit lies among the sixteen that start at bit `k`. */
  ghost predicate WithinWindow(bits: seq<bool>, k: nat) {
    forall i :: 0 <= i < |bits| && bits[i] ==> k <= i < k + 16
  }

  lemma {:induction false} ThreeParts(bits: seq<bool>, lo: nat, hi: nat)
    requires lo <= hi <= |bits|
    ensures bits == bits[..lo] + bits[lo..hi] + bits[hi..]
  {
  }

  lemma {:induction false} SetBitStays(bits: seq<bool>, lo: nat, hi: nat, i: nat)
    requires lo <= i < hi <= |bits| && bits[i]
    ensures !AllClear(bits[lo..hi])
  {
    assert bits[lo..hi][i - lo];
  }

  lemma {:induction false} ClearOutside(bits: seq<bool>, k: nat, lo: nat, hi: nat)
    requires WithinWindow(bits, k) && lo <= hi <= |bits|
    requires lo <= k && (hi == |bits| || hi >= k + 16)
    ensures AllClear(bits[..lo]) && AllClear(bits[hi..])
  {
  }

  lemma {:induction false} WindowRemainder(bits: seq<bool>, k: nat)
    requires WithinWindow(bits, k) && !AllClear(bits)
    ensures RunBits(ZERO, bits) != ZERO
  {
    var i :| 0 <= i < |bits| && bits[i];
    assert k <= i < k + 16;
    var hi := if k + 16 <= |bits| then k + 16 else |bits|;
    SetBitStays(bits, k, hi, i);
    ClearOutside(bits, k, k, hi);
    ThreeParts(bits, k, hi);
    BurstRemainder(bits[..k], bits[k..hi], bits[hi..]);
  }

  /** Any error confined to sixteen consecutive bits of the frame makes the check fail. */
  lemma {:induction false} BurstsAreDetected(frame: seq<Octet>, error: seq<Octet>, k: nat)
    requires |error| == |frame| && Accepts(frame)
    requires WithinWindow(FrameBits(error), k) && !AllClear(FrameBits(error))
    ensures !Accepts(Damaged(frame, error))
  {
    WindowRemainder(FrameBits(error), k);
    UndetectedIffZeroRemainder(frame, error);
  }

  /** Is the number of set bits odd? */
  predicate Odd(bits: seq<bool>) {
    bits != [] && bits[0] != Odd(bits[1..])
  }

  lemma {:induction false} OddOfXor(x: seq<bool>, y: seq<bool>)
    requires |x| == |y|
    ensures Odd(XorBits(x, y)) == (Odd(x) != Odd(y))
  {
    if x != [] {
      assert XorBits(x, y)[1..] == XorBits(x[1..], y[1..]);
      OddOfXor(x[1..], y[1..]);
    }
  }

  lemma {:induction false} OddOfSnoc(x: seq<bool>, b: bool)
    ensures Odd(x + [b]) == (Odd(x) != b)
  {
    if x == [] {
      assert x + [b] == [b];
    } else {
      assert (x + [b])[1..] == x[1..] + [b];
      OddOfSnoc(x[1..], b);
    }
  }

  lemma {:induction false} OddOfPoly()
    ensures Odd(POLY)
  {
    assert POLY == [true, false, false, false, false, false, false, false,
                    false, false, false, false, false, true, false, true];
    assert Odd([true]);
    assert Odd([false, true]);
    assert !Odd([true, false, true]);
    assert !Odd([false, false, false, true, false, true]);
    assert !Odd([false, false, false, false, false, false, true, false, true]);
    assert !Odd([false, false, false, false, false, false, false, false,
                 false, false, false, false, true, false, true]);
  }

  /** The polynomial has an even number of terms, so a step keeps the parity of the state. */
  lemma {:induction false} StepKeepsParity(crc: Word)
    ensures Odd(Step(crc)) == Odd(crc)
  {
    OddOfSnoc(crc[1..], false);
    assert Odd(Shr(crc)) == (Odd(crc) != crc[0]);
    if crc[0] {
      assert Xor(Shr(crc), POLY) == XorBits(Shr(crc), POLY);
      OddOfXor(Shr(crc), POLY);
      OddOfPoly();
    }
  }

  lemma {:induction false} RunBitsParity(crc: Word, bits: seq<bool>)
    ensures Odd(RunBits(crc, bits)) == (Odd(crc) != Odd(bits))
    decreases |bits|
  {
    if bits != [] {
      assert XorLow(crc, [bits[0]]) == [crc[0] != bits[0]] + crc[1..];
      StepKeepsParity(XorLow(crc, [bits[0]]));
      RunBitsParity(FeedBit(crc, bits[0]), bits[1..]);
    }
  }

  lemma {:induction false} ClearIsEven(bits: seq<bool>)
    requires AllClear(bits)
    ensures !Odd(bits)
  {
    if bits != [] {
      ClearIsEven(bits[1..]);
    }
  }

  lemma {:induction false} OddRemainder(zero: Word, bits: seq<bool>)
    requires AllClear(zero) && Odd(bits)
    ensures RunBits(zero, bits) != zero
  {
    RunBitsParity(zero, bits);
    ClearIsEven(zero);
  }

  /** Any error that flips an odd number of bits, wherever they are, makes the check fail. */
  lemma {:induction false} OddErrorsAreDetected(frame: seq<Octet>, error: seq<Octet>)
    requires |error| == |frame| && Accepts(frame) && Odd(FrameBits(error))
    ensures !Accepts(Damaged(frame, error))
  {
    OddRemainder(ZERO, FrameBits(error));
    UndetectedIffZeroRemainder(frame, error);
  }

  /** Set at `i` and at `j`, and nowhere else. */
  ghost predicate TwoBits(bits: seq<bool>, i: nat, j: nat) {
    i < j < |bits| && forall k | 0 <= k < |bits| :: bits[k] <==> k == i || k == j
  }

  lemma {:induction false} RunClear(crc: Word, bits: seq<bool>)
    requires AllClear(bits)
    ensures RunBits(crc, bits) == Steps(crc, |bits|)
    decreases |bits|
  {
    if bits != [] {
      assert XorLow(crc, [false]) == crc;
      RunClear(Step(crc), bits[1..]);
    }
  }

  lemma {:induction false} FeedSetBit(crc: Word)
    ensures FeedBit(crc, true) == ZERO <==> crc == ONE
  {
    StepOnlyZeroToZero(XorLow(crc, [true]));
    assert XorLow(crc, [true]) == XorLow(crc, ONE);
    EqualIffXorZero(crc, ONE);
  }

  lemma {:induction false} TwoBitParts(before: seq<bool>, between: seq<bool>, after: seq<bool>)
    requires AllClear(before) && AllClear(between) && AllClear(after)
    ensures RunBits(ZERO, before + ([true] + (between + ([true] + after)))) == ZERO
            <==> Steps(ONE, |between| + 1) == ONE
  {
    RunBitsConcat(ZERO, before, [true] + (between + ([true] + after)));
    ClearBitsKeepZero(ZERO, before);
    RunOne(ZERO, true, between + ([true] + after));
    assert XorLow(ZERO, [true]) == ONE;
    RunBitsConcat(Step(ONE), between, [true] + after);
    RunClear(Step(ONE), between);
    var state := Steps(ONE, |between| + 1);
    RunOne(state, true, after);
    ClearBitsKeepZero(FeedBit(state, true), after);
    FeedSetBit(state);
  }

  lemma {:induction false} TwoBitsSplit(bits: seq<bool>, i: nat, j: nat)
    requires TwoBits(bits, i, j)
    ensures AllClear(bits[..i]) && AllClear(bits[i + 1..j]) && AllClear(bits[j + 1..])
    ensures bits == bits[..i] + ([true] + (bits[i + 1..j] + ([true] + bits[j + 1..])))
  {
  }

  /** Two set bits cancel exactly if the register comes back to 1 in the steps between them. */
  lemma {:induction false} TwoBitRemainder(bits: seq<bool>, i: nat, j: nat)
    requires TwoBits(bits, i, j)
    ensures RunBits(ZERO, bits) == ZERO <==> Steps(ONE, j - i) == ONE
  {
    TwoBitsSplit(bits, i, j);
    TwoBitParts(bits[..i], bits[i + 1..j], bits[j + 1..]);
  }

  lemma {:induction false} RunOne(crc: Word, bit: bool, more: seq<bool>)
    ensures RunBits(crc, [bit] + more) == RunBits(FeedBit(crc, bit), more)
  {
    assert ([bit] + more)[1..] == more;
  }

  /**
    An error of two bits goes unnoticed, in a frame of any length, if and only if their distance
    is a number of steps in which the register comes back from 1 to 1.
   */
  lemma {:induction false} TwoBitErrorsCancelIff(frame: seq<Octet>, error: seq<Octet>, i: nat, j: nat)
    requires |error| == |frame| && Accepts(frame) && TwoBits(FrameBits(error), i, j)
    ensures Accepts(Damaged(frame, error)) <==> Steps(ONE, j - i) == ONE
  {
    UndetectedIffZeroRemainder(frame, error);
    TwoBitRemainder(FrameBits(error), i, j);
  }

  // ----- The seed and the rounds, as numbers -----

  /** One round shifts down and, if the lowest bit was set, flips bits 0, 13 and 15: it XORs 0xA001. */
  lemma {:induction false} RoundBits(crc: Word, i: nat)
    requires i < 16
    ensures Step(crc)[i] == ((i < 15 && crc[i + 1]) != (crc[0] && (i == 0 || i == 13 || i == 15)))
  {
    StepAt(crc, i);
  }

  /** Sixteen set bits, 0xFFFF. */
  predicate AllSet(w: Word) {
    forall i | 0 <= i < 16 :: w[i]
  }

  lemma {:induction false} SeedIsAllSet(w: Word)
    requires AllSet(w)
    ensures w == ONES
  {
  }

  /** What the seed adds to the checksum of the data: it runs along as if ahead of them. */
  lemma {:induction false} SeedRunsAlong(w: Word, data: seq<Octet>)
    requires AllSet(w)
    ensures Crc16(data) == Xor(RunBits(ZERO, FrameBits(data)), Steps(w, 8 * |data|))
  {
    SeedIsAllSet(w);
    var bits := FrameBits(data);
    var clear := seq(|bits|, i => false);
    RunIsBitSerial(ONES, data);
    RunBitsLinear(ZERO, w, bits, clear);
    assert XorBits(bits, clear) == bits;
    XorWithZero(w);
    RunClear(w, clear);
  }

  /** From two states the same bits lead to states that differ by what the difference runs to. */
  lemma {:induction false} StatesStayApart(a: Word, b: Word, bits: seq<bool>)
    requires RunBits(b, bits) == ZERO
    ensures RunBits(a, bits) == ZERO <==> a == b
  {
    var clear := seq(|bits|, i => false);
    RunBitsLinear(a, b, bits, bits);
    assert XorBits(bits, bits) == clear;
    RunClear(Xor(a, b), clear);
    StepsOnlyZeroToZero(Xor(a, b), |bits|);
    XorIsZero(RunBits(a, bits), ZERO);
    XorIsZero(a, b);
  }

  lemma {:induction false} XorIsZero(a: Word, b: Word)
    ensures Xor(a, b) == ZERO <==> a == b
  {
    if Xor(a, b) == ZERO {
      forall i | 0 <= i < 16
        ensures a[i] == b[i]
      {
        assert !Xor(a, b)[i];
      }
    }
  }

  /** `n` bytes without a set bit. */
  predicate ZeroBytes(zeros: seq<Octet>) {
    forall i, j | 0 <= i < |zeros| && 0 <= j < 8 :: !zeros[i][j]
  }

  lemma {:induction false} ZeroBytesAreClear(zeros: seq<Octet>)
    requires ZeroBytes(zeros)
    ensures AllClear(FrameBits(zeros))
  {
    if zeros != [] {
      ZeroBytesAreClear(zeros[1..]);
    }
  }

  /**
    Zero bytes in front of an accepted frame go unnoticed exactly if the register, from sixteen
    set bits, is back at them after as many rounds: with a zero seed they always would.
   */
  lemma {:induction false} LeadingZerosIff(w: Word, zeros: seq<Octet>, frame: seq<Octet>)
    requires AllSet(w) && ZeroBytes(zeros) && Accepts(frame)
    ensures Accepts(zeros + frame) <==> Steps(w, 8 * |zeros|) == w
  {
    SeedIsAllSet(w);
    AcceptsIffZero(frame);
    AcceptsIffZero(zeros + frame);
    FrameBitsConcat(zeros, frame);
    RunIsBitSerial(ONES, frame);
    RunIsBitSerial(ONES, zeros + frame);
    RunBitsConcat(ONES, FrameBits(zeros), FrameBits(frame));
    ZeroBytesAreClear(zeros);
    RunClear(ONES, FrameBits(zeros));
    StatesStayApart(Steps(w, 8 * |zeros|), w, FrameBits(frame));
  }

  /** One zero byte put in front of an accepted frame, or taken from its front, is noticed. */
  lemma {:induction false} LeadingZeroIsNoticed(zero: Octet, frame: seq<Octet>)
    requires ZeroBytes([zero])
    ensures !(Accepts(frame) && Accepts([zero] + frame))
  {
    if Accepts(frame) {
      LeadingZerosIff(ONES, [zero], frame);
      EightRounds();
    }
  }

  /** Below the flipped bits a round only shifts. */
  lemma {:induction false} ShiftedBit(crc: Word, i: nat, n: nat)
    requires i + n <= 13 && i > 0
    ensures Steps(crc, n)[i] == crc[i + n]
    decreases n
  {
    if n > 0 {
      ShiftedBit(Step(crc), i, n - 1);
      RoundBits(crc, i + n - 1);
    }
  }

  /** The first round clears bit 13, which is bit 6 seven rounds later. */
  lemma {:induction false} EightRounds()
    ensures Steps(ONES, 8) != ONES
  {
    RoundBits(ONES, 13);
    ShiftedBit(Step(ONES), 6, 7);
  }

  /** Frames of fewer than four bytes are refused. */
  lemma {:induction false} ShortFramesAreRefused(frame: seq<Octet>)
    requires |frame| < 4
    ensures !Accepts(frame)
  {
  }
}
