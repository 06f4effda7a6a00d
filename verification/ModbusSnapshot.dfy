/**
  Reading a snapshot through coalesced ranges (`read_range`, `modbus_read_snapshot`
  in `modbus.rs`) against reading every register on its own.
 */
module ModbusSnapshot {
  import opened Common
  import opened ModbusCoalesce

  type Word = w: int | 0 <= w < 0x1_0000

  /** Device memory: one 16-bit cell per function and address. */
  type Memory = (Function, int) -> Word

  /** What the device stores at an address; coils and discrete inputs hold one bit. */
  function Cell(mem: Memory, f: Function, a: int): Word {
    if f.IsBitAccess() then mem(f, a) % 2 else mem(f, a)
  }

  function Words(mem: Memory, f: Function, start: int, n: nat): (ws: seq<Word>)
    ensures |ws| == n && forall i :: 0 <= i < n ==> ws[i] == Cell(mem, f, start + i)
  {
    seq<Word>(n, i => Cell(mem, f, start + i))
  }

  // ----- What a conforming device answers -----

  /** Quantity and address limits of the read functions. */
  predicate Readable(f: Function, start: int, quantity: int) {
    1 <= quantity <= f.MaxSpan() && 0 <= start && start + quantity <= 65536
  }

  function BitAt(words: seq<Word>, k: int): (b: int)
    ensures b == 0 || b == 1
  {
    if 0 <= k < |words| then words[k] % 2 else 0
  }

  function Pow2(n: nat): nat {
    if n == 0 then 1 else 2 * Pow2(n - 1)
  }

  /** Bits k, k+1, .. k+n-1, least significant first. */
  function Packed(words: seq<Word>, k: nat, n: nat): (x: nat)
    ensures x < Pow2(n)
    decreases n, words
  {
    if n == 0 then 0 else BitAt(words, k) + 2 * Packed(words, k + 1, n - 1)
  }

  /** One byte of packed coils, padded with zero bits. */
  function PackByte(words: seq<Word>, b: nat): Byte {
    assert Pow2(8) == 256;
    Packed(words, 8 * b, 8)
  }

  function PackBits(words: seq<Word>): seq<Byte> {
    seq<Byte>((|words| + 7) / 8, b requires b >= 0 => PackByte(words, b))
  }

  function PackWords(words: seq<Word>): seq<Byte> {
    seq<Byte>(2 * |words|,
              k requires 0 <= k < 2 * |words| => if k % 2 == 0 then words[k / 2] / 256 else words[k / 2] % 256)
  }

  /** The response PDU of a read request: data, or an exception. */
  function Response(mem: Memory, f: Function, start: int, quantity: int): seq<Byte> {
    if !Readable(f, start, quantity) then [f.Code() + 128, 2]
    else
      var words := Words(mem, f, start, quantity);
      if f.IsBitAccess() then [f.Code(), (quantity + 7) / 8] + PackBits(words)
      else [f.Code(), 2 * quantity] + PackWords(words)
  }

  // ----- read_range (modbus.rs:752-818) -----

  /** `x >> j`. */
  function ShiftRight(x: nat, j: nat): nat
    decreases j, x
  {
    if j == 0 then x else ShiftRight(x / 2, j - 1)
  }

  function UnpackedBit(data: seq<Byte>, k: nat): Word {
    if k / 8 < |data| then ShiftRight(data[k / 8], k % 8) % 2 else 0
  }

  function UnpackBits(data: seq<Byte>, quantity: nat): (ws: seq<Word>)
    ensures |ws| == quantity && forall k :: 0 <= k < quantity ==> ws[k] == UnpackedBit(data, k)
  {
    seq<Word>(quantity, k requires k >= 0 => UnpackedBit(data, k))
  }

  function UnpackWords(data: seq<Byte>, count: nat): (ws: seq<Word>)
    requires 2 * count <= |data|
    ensures |ws| == count && forall i :: 0 <= i < count ==> ws[i] == BeWord(data[2 * i], data[2 * i + 1])
  {
    seq<Word>(count, i requires 0 <= i < count => BeWord(data[2 * i], data[2 * i + 1]))
  }

  /** The words read out of a response PDU, or None where the source fails. */
  function ParseResponse(f: Function, quantity: nat, pdu: seq<Byte>): Option<seq<Word>> {
    if |pdu| == 0 || pdu[0] >= 128 || pdu[0] != f.Code() || |pdu| < 2 || |pdu| - 2 < pdu[1] then None
    else
      var data := pdu[2..];
      if f.IsBitAccess() then Some(UnpackBits(data, quantity)) else Some(UnpackWords(data, pdu[1] / 2))
  }

  /** `read_range` after the exchange: the checks and the two unpacking loops. */
  method ReadRange(f: Function, quantity: nat, pdu: seq<Byte>) returns (r: Option<seq<Word>>)
    ensures r == ParseResponse(f, quantity, pdu)
  {
    if |pdu| == 0 { return None; }
    if pdu[0] >= 128 { return None; }
    if pdu[0] != f.Code() { return None; }
    if |pdu| < 2 { return None; }
    var byteCount := pdu[1];
    var data := pdu[2..];
    if |data| < byteCount { return None; }
    var words: seq<Word> := [];
    if f.IsBitAccess() {
      for k := 0 to quantity
        invariant |words| == k && forall m :: 0 <= m < k ==> words[m] == UnpackedBit(data, m)
      {
        words := words + [if k / 8 < |data| then ShiftRight(data[k / 8], k % 8) % 2 else 0];
      }
      assert words == UnpackBits(data, quantity);
    } else {
      var i := 0;
      while i + 1 < byteCount
        invariant i == 2 * |words| <= byteCount
        invariant forall m :: 0 <= m < |words| ==> words[m] == BeWord(data[2 * m], data[2 * m + 1])
      {
        words := words + [BeWord(data[i], data[i + 1])];
        i := i + 2;
      }
      assert words == UnpackWords(data, byteCount / 2);
    }
    r := Some(words);
  }

  lemma {:induction false} HalfOfPacked(bit: int, y: nat)
    requires bit == 0 || bit == 1
    ensures (bit + 2 * y) / 2 == y && (bit + 2 * y) % 2 == bit
  {
  }

  lemma {:induction false} PackedBit(words: seq<Word>, k: nat, n: nat, j: nat)
    requires j < n
    ensures ShiftRight(Packed(words, k, n), j) % 2 == BitAt(words, k + j)
    decreases j
  {
    HalfOfPacked(BitAt(words, k), Packed(words, k + 1, n - 1));
    if j > 0 {
      PackedBit(words, k + 1, n - 1, j - 1);
    }
  }

  lemma {:induction false} BitsRoundTrip(words: seq<Word>, k: nat)
    requires k < |words| && words[k] < 2
    ensures UnpackedBit(PackBits(words), k) == words[k]
  {
    PackedBit(words, 8 * (k / 8), 8, k % 8);
    assert 8 * (k / 8) + k % 8 == k;
  }

  lemma {:induction false} WordsRoundTrip(words: seq<Word>, i: nat)
    requires i < |words|
    ensures BeWord(PackWords(words)[2 * i], PackWords(words)[2 * i + 1]) == words[i]
  {
    assert 2 * i / 2 == i && (2 * i + 1) / 2 == i;
  }

  /** A conforming response is unpacked into exactly the device's cells; an exception fails. */
  lemma {:induction false} ReadsTheDevice(mem: Memory, f: Function, start: int, quantity: nat)
    ensures ParseResponse(f, quantity, Response(mem, f, start, quantity))
            == if Readable(f, start, quantity) then Some(Words(mem, f, start, quantity)) else None
  {
    if Readable(f, start, quantity) {
      var words := Words(mem, f, start, quantity);
      var pdu := Response(mem, f, start, quantity);
      var got := ParseResponse(f, quantity, pdu);
      if f.IsBitAccess() {
        assert pdu[2..] == PackBits(words);
        forall k | 0 <= k < quantity
          ensures got.value[k] == words[k]
        {
          BitsRoundTrip(words, k);
        }
      } else {
        assert pdu[2..] == PackWords(words);
        forall i | 0 <= i < quantity
          ensures got.value[i] == words[i]
        {
          WordsRoundTrip(words, i);
        }
      }
      assert got.value == words;
    }
  }

  // ----- The same, byte by byte -----

  /** The request: function code, start address and quantity, high bytes first (modbus.rs:730-735). */
  function RequestPdu(f: Function, start: Address, quantity: Address): seq<Byte> {
    [f.Code(), start / 256, start % 256, quantity / 256, quantity % 256]
  }

  /** Function codes 1 to 4. */
  predicate CodeOf(f: Function, code: int) {
    || (f.Coil? && code == 1) || (f.DiscreteInput? && code == 2)
    || (f.Holding? && code == 3) || (f.Input? && code == 4)
  }

  lemma {:induction false} RequestReads(f: Function, start: Address, quantity: Address)
    ensures var pdu := RequestPdu(f, start, quantity);
            |pdu| == 5 && CodeOf(f, pdu[0]) && BeWord(pdu[1], pdu[2]) == start && BeWord(pdu[3], pdu[4]) == quantity
  {
  }

  /** A response is taken exactly if it has the function's own code and all the bytes it announces. */
  lemma {:induction false} ResponseIsTakenIff(f: Function, quantity: nat, pdu: seq<Byte>)
    ensures ParseResponse(f, quantity, pdu).Some? <==> |pdu| >= 2 && CodeOf(f, pdu[0]) && |pdu| >= 2 + pdu[1] as int
  {
  }

  function PowerOfTwo(j: nat): nat
    requires j < 8
  {
    [1, 2, 4, 8, 16, 32, 64, 128][j]
  }

  lemma {:induction false} ShiftDivides(x: Byte, j: nat)
    requires j < 8
    ensures ShiftRight(x, j) == x / PowerOfTwo(j)
  {
    ShiftTwice(x, j);
    if j >= 2 {
      ShiftTwice(x / 4, j - 2);
    }
    if j >= 4 {
      ShiftTwice(x / 4 / 4, j - 4);
    }
    if j >= 6 {
      ShiftTwice(x / 4 / 4 / 4, j - 6);
    }
  }

  lemma {:induction false} ShiftTwice(x: nat, j: nat)
    ensures j == 0 ==> ShiftRight(x, j) == x
    ensures j == 1 ==> ShiftRight(x, j) == x / 2
    ensures j >= 2 ==> ShiftRight(x, j) == ShiftRight(x / 4, j - 2)
  {
    if j >= 2 {
      assert x / 2 / 2 == x / 4;
      assert ShiftRight(x, j) == ShiftRight(x / 2, j - 1) == ShiftRight(x / 2 / 2, j - 2);
    }
  }

  /** Coils and discrete inputs: bit `k % 8` of data byte `k / 8`, and zero past the end. */
  lemma {:induction false} ResponseBits(f: Function, quantity: nat, pdu: seq<Byte>, k: nat)
    requires (f == Coil || f == DiscreteInput) && ParseResponse(f, quantity, pdu).Some? && k < quantity
    ensures var words := ParseResponse(f, quantity, pdu).value;
            && |words| == quantity
            && words[k] == if 2 + k / 8 < |pdu| then pdu[2 + k / 8] / PowerOfTwo(k % 8) % 2 else 0
  {
    if k / 8 < |pdu| - 2 {
      ShiftDivides(pdu[2..][k / 8], k % 8);
    }
  }

  /** Holding and input registers: half as many words as bytes are announced, high bytes first. */
  lemma {:induction false} ResponseWords(f: Function, quantity: nat, pdu: seq<Byte>, i: nat)
    requires (f == Holding || f == Input) && ParseResponse(f, quantity, pdu).Some? && i < pdu[1] / 2
    ensures var words := ParseResponse(f, quantity, pdu).value;
            |words| == pdu[1] / 2 && words[i] == 256 * pdu[2 + 2 * i] as int + pdu[3 + 2 * i] as int
  {
    assert pdu[2..][2 * i] == pdu[2 + 2 * i] && pdu[2..][2 * i + 1] == pdu[3 + 2 * i];
  }

  // ----- Slicing a range (modbus.rs:976-981) -----

  function Slice(range: Range, reg: Register, words: seq<Word>): Option<seq<Word>> {
    var offset := Max(reg.address - range.start, 0);
    var end := offset + reg.words;
    if end <= |words| then Some(words[offset..end]) else None
  }

  /**
    Slicing a coalesced range yields exactly the words a separate read of the register
    would, unless the register shares its range and reaches past address 65535: then the
    saturated quantity is too small and the register silently gets nothing.
   */
  lemma {:induction false} SliceIsExact(mem: Memory, f: Function, unit: nat, xs: seq<Register>, i: nat, j: nat, k: nat)
    requires Ascending(xs) && i <= k < j <= |xs|
    ensures var range := RangeOf(f, unit, xs, i, j);
            Slice(range, xs[k], Words(mem, f, range.start, range.quantity))
            == if j == i + 1 || xs[k].address + xs[k].words <= MAX_ADDRESS
               then Some(Words(mem, f, xs[k].address, xs[k].words))
               else None
  {
    var range := RangeOf(f, unit, xs, i, j);
    RunEndIsUpperBound(xs, i, j, k);
    RunEndIsUpperBound(xs, i, j, i);
    assert xs[i].address <= xs[k].address;
    var words := Words(mem, f, range.start, range.quantity);
    var offset := xs[k].address - range.start;
    if offset + xs[k].words <= |words| {
      assert words[offset..offset + xs[k].words] == Words(mem, f, xs[k].address, xs[k].words);
    }
  }

  /** Two neighbouring registers at the top of the address space: the second one is lost. */
  lemma {:induction false} LastAddressIsLost(unit: nat, mem: Memory)
    ensures var xs := [Register("a", Holding, 65534, 1), Register("b", Holding, 65535, 1)];
            var plan := Ranges(10, unit, Holding, xs, 0);
            && |plan| == 1 && plan[0].quantity == 1
            && Slice(plan[0], xs[1], Words(mem, Holding, 65534, 1)) == None
            && Readable(Holding, 65535, 1)
  {
  }

  // ----- The snapshot (modbus.rs:972-1004) -----

  /** The decoder of one register's words; its value type is left open. */
  type Decoder<!V> = (Register, seq<Word>) -> Option<V>

  /** The inner loop: each register of a range whose words were read; None when a value fails to decode. */
  function RecordSlices<V>(decode: Decoder<V>, range: Range, regs: seq<Register>, words: seq<Word>,
                           record: map<string, V>)
    : Option<map<string, V>>
    decreases |regs|
  {
    if regs == [] then Some(record)
    else
      match Slice(range, regs[0], words)
      case None => RecordSlices(decode, range, regs[1..], words, record)
      case Some(slice) =>
        match decode(regs[0], slice)
        case None => None
        case Some(v) => RecordSlices(decode, range, regs[1..], words, record[regs[0].name := v])
  }

  /** `modbus_read_snapshot` over a list of ranges; None when a read or a decode fails. */
  function Snapshot<V>(mem: Memory, decode: Decoder<V>, ranges: seq<Range>,
                       record: map<string, V>): Option<map<string, V>>
    decreases |ranges|
  {
    if ranges == [] then Some(record)
    else
      var r := ranges[0];
      match ParseResponse(r.function_, r.quantity, Response(mem, r.function_, r.start, r.quantity))
      case None => None
      case Some(words) =>
        match RecordSlices(decode, r, r.registers, words, record)
        case None => None
        case Some(grown) => Snapshot(mem, decode, ranges[1..], grown)
  }

  /** A register read on its own: the words, or None when the device refuses. */
  function ReadAlone(mem: Memory, reg: Register): Option<seq<Word>> {
    if Readable(reg.function_, reg.address, reg.words)
    then Some(Words(mem, reg.function_, reg.address, reg.words)) else None
  }

  /** A register read and decoded on its own. */
  function Reading<V>(mem: Memory, decode: Decoder<V>, reg: Register): Option<V> {
    match ReadAlone(mem, reg)
    case None => None
    case Some(words) => decode(reg, words)
  }

  /** The simple specification: every register read on its own, in order. */
  function ReadEach<V>(mem: Memory, decode: Decoder<V>, regs: seq<Register>,
                       record: map<string, V>): Option<map<string, V>>
    decreases |regs|
  {
    if regs == [] then Some(record)
    else
      match Reading(mem, decode, regs[0])
      case None => None
      case Some(v) => ReadEach(mem, decode, regs[1..], record[regs[0].name := v])
  }

  /** The range is read exactly when each of its registers could be, and slices are what they would read. */
  ghost predicate Faithful(mem: Memory, r: Range) {
    && (Readable(r.function_, r.start, r.quantity) ==>
          forall reg :: reg in r.registers ==>
            ReadAlone(mem, reg).Some?
            && Slice(r, reg, Words(mem, r.function_, r.start, r.quantity)) == ReadAlone(mem, reg))
    && (!Readable(r.function_, r.start, r.quantity) ==>
          exists reg :: reg in r.registers && ReadAlone(mem, reg).None?)
  }

  function AllRegisters(ranges: seq<Range>): seq<Register> {
    if ranges == [] then [] else ranges[0].registers + AllRegisters(ranges[1..])
  }

  lemma {:induction false} ReadEachConcat<V>(mem: Memory, decode: Decoder<V>, a: seq<Register>, b: seq<Register>,
                                             record: map<string, V>)
    ensures var first := ReadEach(mem, decode, a, record);
            ReadEach(mem, decode, a + b, record)
            == if first.None? then None else ReadEach(mem, decode, b, first.value)
    decreases |a|
  {
    if a == [] {
      assert a + b == b;
    } else {
      assert (a + b)[1..] == a[1..] + b;
      var v := Reading(mem, decode, a[0]);
      if v.Some? {
        ReadEachConcat(mem, decode, a[1..], b, record[a[0].name := v.value]);
      }
    }
  }

  lemma {:induction false} ReadEachFails<V>(mem: Memory, decode: Decoder<V>, regs: seq<Register>,
                                            record: map<string, V>)
    ensures ReadEach(mem, decode, regs, record).None? <==> exists r :: r in regs && Reading(mem, decode, r).None?
    decreases |regs|
  {
    if regs != [] {
      var v := Reading(mem, decode, regs[0]);
      if v.Some? {
        ReadEachFails(mem, decode, regs[1..], record[regs[0].name := v.value]);
      }
    }
  }

  lemma {:induction false} SlicesAreReads<V>(mem: Memory, decode: Decoder<V>, r: Range, regs: seq<Register>,
                                             words: seq<Word>, record: map<string, V>)
    requires forall reg :: reg in regs ==> ReadAlone(mem, reg).Some? && Slice(r, reg, words) == ReadAlone(mem, reg)
    ensures RecordSlices(decode, r, regs, words, record) == ReadEach(mem, decode, regs, record)
    decreases |regs|
  {
    if regs != [] {
      var v := Reading(mem, decode, regs[0]);
      if v.Some? {
        SlicesAreReads(mem, decode, r, regs[1..], words, record[regs[0].name := v.value]);
      }
    }
  }

  /** Over faithful ranges the snapshot is what reading their registers one by one gives. */
  lemma {:induction false} SnapshotReadsEach<V>(mem: Memory, decode: Decoder<V>, ranges: seq<Range>,
                                                record: map<string, V>)
    requires forall r :: r in ranges ==> Faithful(mem, r)
    ensures Snapshot(mem, decode, ranges, record) == ReadEach(mem, decode, AllRegisters(ranges), record)
    decreases |ranges|
  {
    if ranges != [] {
      var r, rest := ranges[0], AllRegisters(ranges[1..]);
      assert Faithful(mem, r);
      ReadsTheDevice(mem, r.function_, r.start, r.quantity);
      ReadEachConcat(mem, decode, r.registers, rest, record);
      if Readable(r.function_, r.start, r.quantity) {
        SlicesAreReads(mem, decode, r, r.registers, Words(mem, r.function_, r.start, r.quantity), record);
        var grown := ReadEach(mem, decode, r.registers, record);
        if grown.Some? {
          SnapshotReadsEach(mem, decode, ranges[1..], grown.value);
        }
      } else {
        var bad :| bad in r.registers && ReadAlone(mem, bad).None?;
        assert Reading(mem, decode, bad).None?;
        ReadEachFails(mem, decode, r.registers, record);
      }
    }
  }

  /** The register's last word lies below address 65535, so its end does not saturate. */
  predicate EndFits(r: Register) {
    r.address + r.words <= MAX_ADDRESS
  }

  /** No register that shares its range has a saturated end. */
  predicate SharedEndsFit(range: Range) {
    |range.registers| > 1 ==> forall r :: r in range.registers ==> EndFits(r)
  }

  lemma {:induction false} RunIsFaithful(mem: Memory, gap: nat, f: Function, unit: nat, xs: seq<Register>, i: nat,
                                         j: nat)
    requires Ascending(xs) && (forall r :: r in xs ==> r.function_ == f)
    requires ValidRun(gap, f.MaxSpan(), xs, i, j) && SharedEndsFit(RangeOf(f, unit, xs, i, j))
    ensures Faithful(mem, RangeOf(f, unit, xs, i, j))
  {
    var range := RangeOf(f, unit, xs, i, j);
    forall reg | reg in range.registers
      ensures Slice(range, reg, Words(mem, f, range.start, range.quantity))
              == Some(Words(mem, f, reg.address, reg.words))
      ensures Readable(f, range.start, range.quantity) ==> ReadAlone(mem, reg).Some?
      ensures i + 1 < j ==> Readable(f, range.start, range.quantity)
    {
      var k :| i <= k < j && xs[k] == reg;
      SliceIsExact(mem, f, unit, xs, i, j, k);
      RunEndIsUpperBound(xs, i, j, k);
    }
    assert range.registers[0] == xs[i];
  }

  /** A range that drops `lost`: the register shares the range and its end saturates. */
  ghost predicate Loses(mem: Memory, range: Range, lost: Register) {
    Slice(range, lost, Words(mem, range.function_, range.start, range.quantity)).None?
  }

  /** What a planned range does: serve its registers faithfully, or lose the overrunning ones. */
  ghost predicate ServesOrLoses(mem: Memory, range: Range) {
    && (SharedEndsFit(range) ==> Faithful(mem, range))
    && (|range.registers| > 1 ==> forall r :: r in range.registers && !EndFits(r) ==> Loses(mem, range, r))
  }

  lemma {:induction false} RunServesOrLoses(mem: Memory, gap: nat, f: Function, unit: nat, xs: seq<Register>, i: nat,
                                            j: nat)
    requires Ascending(xs) && (forall r :: r in xs ==> r.function_ == f) && ValidRun(gap, f.MaxSpan(), xs, i, j)
    ensures ServesOrLoses(mem, RangeOf(f, unit, xs, i, j))
  {
    var range := RangeOf(f, unit, xs, i, j);
    if SharedEndsFit(range) {
      RunIsFaithful(mem, gap, f, unit, xs, i, j);
    }
    forall lost | |range.registers| > 1 && lost in range.registers && !EndFits(lost)
      ensures Loses(mem, range, lost)
    {
      var k :| i <= k < j && xs[k] == lost;
      SliceIsExact(mem, f, unit, xs, i, j, k);
    }
  }

  lemma {:induction false} RangesServeOrLose(mem: Memory, gap: nat, f: Function, unit: nat, xs: seq<Register>, i: nat)
    requires Ascending(xs) && (forall r :: r in xs ==> r.function_ == f) && i <= |xs|
    ensures forall r :: r in Ranges(gap, unit, f, xs, i) ==> ServesOrLoses(mem, r)
    ensures AllRegisters(Ranges(gap, unit, f, xs, i)) == xs[i..]
    decreases |xs| - i
  {
    if i < |xs| {
      var g := Take(gap, f.MaxSpan(), xs, i, i + 1);
      TakeIsValid(gap, f.MaxSpan(), xs, i, i + 1);
      RunServesOrLoses(mem, gap, f, unit, xs, i, g);
      RangesServeOrLose(mem, gap, f, unit, xs, g);
      assert Ranges(gap, unit, f, xs, i) == [RangeOf(f, unit, xs, i, g)] + Ranges(gap, unit, f, xs, g);
      assert xs[i..g] + xs[g..] == xs[i..];
    }
  }

  /** The registers of the functions in `order`, group after group. */
  function Grouped(registers: seq<Register>, order: seq<Function>): seq<Register> {
    if order == [] then [] else Group(order[0], registers) + Grouped(registers, order[1..])
  }

  lemma {:induction false} AllRegistersConcat(a: seq<Range>, b: seq<Range>)
    ensures AllRegisters(a + b) == AllRegisters(a) + AllRegisters(b)
  {
    if a == [] {
      assert a + b == b;
    } else {
      assert (a + b)[1..] == a[1..] + b;
      AllRegistersConcat(a[1..], b);
    }
  }

  lemma {:induction false} PlanServesOrLoses(mem: Memory, gap: nat, unit: nat, registers: seq<Register>,
                                             order: seq<Function>)
    ensures var rs := Collected(GroupsOf(gap, unit, registers), order);
            && (forall r :: r in rs ==> ServesOrLoses(mem, r))
            && AllRegisters(rs) == Grouped(registers, order)
    decreases |order|
  {
    if order != [] {
      var g := GroupsOf(gap, unit, registers);
      GroupIsSorted(order[0], registers);
      RangesServeOrLose(mem, gap, order[0], unit, Group(order[0], registers), 0);
      PlanServesOrLoses(mem, gap, unit, registers, order[1..]);
      AllRegistersConcat(g(order[0]), Collected(g, order[1..]));
    }
  }

  /** How often `x` is among the registers of the functions in `order`. */
  lemma {:induction false} GroupedCounts(registers: seq<Register>, order: seq<Function>, x: Register)
    requires Distinct(order)
    ensures multiset(Grouped(registers, order))[x] == if x.function_ in order then multiset(registers)[x] else 0
    decreases |order|
  {
    if order != [] {
      GroupIsSorted(order[0], registers);
      ByFunctionCounts(order[0], registers, x);
      GroupedCounts(registers, order[1..], x);
    }
  }

  lemma {:induction false} ByFunctionCounts(f: Function, registers: seq<Register>, x: Register)
    ensures multiset(ByFunction(f, registers))[x] == if x.function_ == f then multiset(registers)[x] else 0
  {
    if registers != [] {
      ByFunctionCounts(f, registers[1..], x);
      assert registers == [registers[0]] + registers[1..];
    }
  }

  /** Every register is in the plan exactly as often as it was configured. */
  lemma {:induction false} PlanHoldsEveryRegister(gap: nat, unit: nat, registers: seq<Register>, mem: Memory)
    ensures multiset(AllRegisters(Plan(gap, unit, registers))) == multiset(registers)
  {
    PlanServesOrLoses(mem, gap, unit, registers, ALL_FUNCTIONS);
    AllFunctionsInCodeOrder();
    forall x
      ensures multiset(AllRegisters(Plan(gap, unit, registers)))[x] == multiset(registers)[x]
    {
      GroupedCounts(registers, ALL_FUNCTIONS, x);
    }
  }

  predicate DistinctRegisterNames(regs: seq<Register>) {
    forall i, j :: 0 <= i < j < |regs| ==> regs[i].name != regs[j].name
  }

  lemma {:induction false} ReadEachLeaves<V>(mem: Memory, decode: Decoder<V>, regs: seq<Register>,
                                             record: map<string, V>, n: string)
    requires ReadEach(mem, decode, regs, record).Some? && forall r :: r in regs ==> r.name != n
    ensures var got := ReadEach(mem, decode, regs, record).value;
            (n in got <==> n in record) && (n in record ==> got[n] == record[n])
    decreases |regs|
  {
    if regs != [] {
      ReadEachLeaves(mem, decode, regs[1..], record[regs[0].name := Reading(mem, decode, regs[0]).value], n);
    }
  }

  lemma {:induction false} ReadEachStores<V>(mem: Memory, decode: Decoder<V>, regs: seq<Register>,
                                             record: map<string, V>, r: Register)
    requires ReadEach(mem, decode, regs, record).Some? && DistinctRegisterNames(regs) && r in regs
    ensures var got := ReadEach(mem, decode, regs, record).value;
            r.name in got && Some(got[r.name]) == Reading(mem, decode, r)
    decreases |regs|
  {
    var record' := record[regs[0].name := Reading(mem, decode, regs[0]).value];
    if regs[0] == r {
      forall x | x in regs[1..]
        ensures x.name != r.name
      {
        var k :| 1 <= k < |regs| && regs[k] == x;
      }
      ReadEachLeaves(mem, decode, regs[1..], record', r.name);
    } else {
      ReadEachStores(mem, decode, regs[1..], record', r);
    }
  }

  lemma {:induction false} ReadEachIgnoresOrder<V>(mem: Memory, decode: Decoder<V>, a: seq<Register>, b: seq<Register>)
    requires (forall r :: r in a <==> r in b) && DistinctRegisterNames(a) && DistinctRegisterNames(b)
    ensures ReadEach(mem, decode, a, map[]) == ReadEach(mem, decode, b, map[])
  {
    ReadEachFails(mem, decode, a, map[]);
    ReadEachFails(mem, decode, b, map[]);
    var x, y := ReadEach(mem, decode, a, map[]), ReadEach(mem, decode, b, map[]);
    if x.Some? && y.Some? {
      forall n
        ensures n in x.value <==> n in y.value
        ensures n in x.value ==> x.value[n] == y.value[n]
      {
        if r :| r in a && r.name == n {
          ReadEachStores(mem, decode, a, map[], r);
          ReadEachStores(mem, decode, b, map[], r);
        } else {
          ReadEachLeaves(mem, decode, a, map[], n);
          ReadEachLeaves(mem, decode, b, map[], n);
        }
      }
      assert x.value == y.value;
    }
  }

  lemma {:induction false} NamesSurvivePermutation(a: seq<Register>, b: seq<Register>)
    requires multiset(a) == multiset(b) && DistinctRegisterNames(a)
    ensures DistinctRegisterNames(b)
  {
    forall i, j | 0 <= i < j < |b|
      ensures b[i].name != b[j].name
    {
      if b[i].name == b[j].name {
        assert b[i] in multiset(a) && b[j] in multiset(a);
        var k :| 0 <= k < |a| && a[k] == b[i];
        assert b[j] == a[k];
        TwiceInMultiset(b, i, j);
        OnceInDistinct(a, k);
        assert false;
      }
    }
  }

  lemma {:induction false} TwiceInMultiset(b: seq<Register>, i: nat, j: nat)
    requires i < j < |b| && b[i] == b[j]
    ensures multiset(b)[b[i]] >= 2
  {
    assert b == b[..i] + [b[i]] + b[i + 1..j] + [b[j]] + b[j + 1..];
  }

  lemma {:induction false} OnceInDistinct(a: seq<Register>, k: nat)
    requires k < |a| && DistinctRegisterNames(a)
    ensures multiset(a)[a[k]] == 1
  {
    assert a == a[..k] + [a[k]] + a[k + 1..];
  }

  lemma {:induction false} PlanRegisters(mem: Memory, gap: nat, unit: nat, registers: seq<Register>)
    requires DistinctRegisterNames(registers)
    ensures var all := AllRegisters(Plan(gap, unit, registers));
            DistinctRegisterNames(all) && forall r :: r in all <==> r in registers
  {
    var all := AllRegisters(Plan(gap, unit, registers));
    PlanHoldsEveryRegister(gap, unit, registers, mem);
    NamesSurvivePermutation(registers, all);
    assert forall r :: r in all <==> r in multiset(registers);
  }

  /**
    Batched reading refines simple reading: for every device memory, decoder, gap and
    register list with distinct names, if no register that shares a range has a saturated
    end, the snapshot over coalesced ranges equals the one over separate reads, failures included.
   */
  lemma {:induction false} SnapshotRefinesSeparateReads<V>(mem: Memory, decode: Decoder<V>, gap: nat, unit: nat,
                                                           registers: seq<Register>)
    requires DistinctRegisterNames(registers)
    requires forall r :: r in Plan(gap, unit, registers) ==> SharedEndsFit(r)
    ensures Snapshot(mem, decode, Plan(gap, unit, registers), map[]) == ReadEach(mem, decode, registers, map[])
  {
    var plan := Plan(gap, unit, registers);
    PlanServesOrLoses(mem, gap, unit, registers, ALL_FUNCTIONS);
    SnapshotReadsEach(mem, decode, plan, map[]);
    PlanRegisters(mem, gap, unit, registers);
    ReadEachIgnoresOrder(mem, decode, AllRegisters(plan), registers);
  }

  // ----- And the condition is exact -----

  lemma {:induction false} LostInSlices<V>(decode: Decoder<V>, range: Range, regs: seq<Register>, words: seq<Word>,
                                           record: map<string, V>, lost: Register)
    requires lost.name !in record && forall r :: r in regs && r.name == lost.name ==> r == lost
    requires lost in regs ==> Slice(range, lost, words).None?
    ensures var got := RecordSlices(decode, range, regs, words, record);
            got.Some? ==> lost.name !in got.value
    decreases |regs|
  {
    if regs != [] {
      match Slice(range, regs[0], words)
      case None => LostInSlices(decode, range, regs[1..], words, record, lost);
      case Some(slice) =>
        var v := decode(regs[0], slice);
        if v.Some? {
          LostInSlices(decode, range, regs[1..], words, record[regs[0].name := v.value], lost);
        }
    }
  }

  lemma {:induction false} LostInSnapshot<V>(mem: Memory, decode: Decoder<V>, ranges: seq<Range>,
                                             record: map<string, V>, lost: Register)
    requires lost.name !in record && forall r :: r in AllRegisters(ranges) && r.name == lost.name ==> r == lost
    requires forall r :: r in ranges && lost in r.registers ==> Loses(mem, r, lost)
    ensures var got := Snapshot(mem, decode, ranges, record);
            got.Some? ==> lost.name !in got.value
    decreases |ranges|
  {
    if ranges != [] {
      var r := ranges[0];
      ReadsTheDevice(mem, r.function_, r.start, r.quantity);
      if Readable(r.function_, r.start, r.quantity) {
        var words := Words(mem, r.function_, r.start, r.quantity);
        LostInSlices(decode, r, r.registers, words, record, lost);
        var grown := RecordSlices(decode, r, r.registers, words, record);
        if grown.Some? {
          LostInSnapshot(mem, decode, ranges[1..], grown.value, lost);
        }
      }
    }
  }

  lemma {:induction false} OnlyRangeOf(ranges: seq<Range>, a: Range, b: Range, reg: Register)
    requires a in ranges && b in ranges && reg in a.registers && reg in b.registers
    requires multiset(AllRegisters(ranges))[reg] <= 1
    ensures a == b
    decreases |ranges|
  {
    var rest := AllRegisters(ranges[1..]);
    assert reg in ranges[0].registers <==> multiset(ranges[0].registers)[reg] >= 1;
    if a in ranges[1..] {
      RegisterIsIn(ranges[1..], a, reg);
    }
    if b in ranges[1..] {
      RegisterIsIn(ranges[1..], b, reg);
    }
    if a in ranges[1..] && b in ranges[1..] {
      OnlyRangeOf(ranges[1..], a, b, reg);
    }
  }

  lemma {:induction false} RegisterIsIn(ranges: seq<Range>, a: Range, reg: Register)
    requires a in ranges && reg in a.registers
    ensures multiset(AllRegisters(ranges))[reg] >= 1
    decreases |ranges|
  {
    if ranges[0] == a {
      assert multiset(a.registers)[reg] >= 1;
    } else {
      RegisterIsIn(ranges[1..], a, reg);
    }
  }

  /** In a list with distinct names, a register is in one range only and no other has its name. */
  lemma {:induction false} OwnRange(ranges: seq<Range>, r: Range, reg: Register)
    requires r in ranges && reg in r.registers && DistinctRegisterNames(AllRegisters(ranges))
    ensures reg in AllRegisters(ranges)
    ensures forall other :: other in ranges && reg in other.registers ==> other == r
    ensures forall x :: x in AllRegisters(ranges) && x.name == reg.name ==> x == reg
  {
    var all := AllRegisters(ranges);
    RegisterIsIn(ranges, r, reg);
    assert reg in multiset(all);
    var k :| 0 <= k < |all| && all[k] == reg;
    OnceInDistinct(all, k);
    forall other | other in ranges && reg in other.registers
      ensures other == r
    {
      OnlyRangeOf(ranges, r, other, reg);
    }
  }

  lemma {:induction false} OverrunIsLost<V>(mem: Memory, decode: Decoder<V>, gap: nat, unit: nat,
                                            registers: seq<Register>, r: Range, lost: Register)
    requires DistinctRegisterNames(registers) && r in Plan(gap, unit, registers)
    requires |r.registers| > 1 && lost in r.registers && !EndFits(lost)
    ensures lost in registers
    ensures var got := Snapshot(mem, decode, Plan(gap, unit, registers), map[]);
            got.Some? ==> lost.name !in got.value
  {
    var plan := Plan(gap, unit, registers);
    PlanRegisters(mem, gap, unit, registers);
    OwnRange(plan, r, lost);
    PlanServesOrLoses(mem, gap, unit, registers, ALL_FUNCTIONS);
    LostInSnapshot(mem, decode, plan, map[], lost);
  }

  /**
    When every separate read succeeds, the batched snapshot equals the separate one if and
    only if no register that shares a range reaches the last address, 65535.
   */
  lemma {:induction false} SnapshotIsExactIff<V>(mem: Memory, decode: Decoder<V>, gap: nat, unit: nat,
                                                 registers: seq<Register>)
    requires DistinctRegisterNames(registers) && ReadEach(mem, decode, registers, map[]).Some?
    ensures Snapshot(mem, decode, Plan(gap, unit, registers), map[]) == ReadEach(mem, decode, registers, map[])
            <==> forall r :: r in Plan(gap, unit, registers) ==> SharedEndsFit(r)
  {
    if r :| r in Plan(gap, unit, registers) && !SharedEndsFit(r) {
      var lost :| lost in r.registers && !EndFits(lost);
      OverrunIsLost(mem, decode, gap, unit, registers, r, lost);
      ReadEachStores(mem, decode, registers, map[], lost);
    } else {
      SnapshotRefinesSeparateReads(mem, decode, gap, unit, registers);
    }
  }

  /** The inner loop of `modbus_read_snapshot`: the registers of one range. */
  method RecordRegisters<V>(decode: Decoder<V>, range: Range, words: seq<Word>, before: map<string, V>)
    returns (r: Option<map<string, V>>)
    ensures r == RecordSlices(decode, range, range.registers, words, before)
  {
    var record, regs := before, range.registers;
    ghost var goal := RecordSlices(decode, range, regs, words, record);
    assert regs[0..] == regs;
    for k := 0 to |regs|
      invariant RecordSlices(decode, range, regs[k..], words, record) == goal
    {
      assert regs[k..][1..] == regs[k + 1..];
      var slice := Slice(range, regs[k], words);
      if slice.Some? {
        var v := decode(regs[k], slice.value);
        if v.None? { return None; }
        record := record[regs[k].name := v.value];
      }
    }
    r := Some(record);
  }

  /** `modbus_read_snapshot`: the loop over ranges. */
  method ReadSnapshot<V>(mem: Memory, decode: Decoder<V>, ranges: seq<Range>) returns (r: Option<map<string, V>>)
    ensures r == Snapshot(mem, decode, ranges, map[])
  {
    var record: map<string, V> := map[];
    ghost var goal := Snapshot(mem, decode, ranges, record);
    assert ranges[0..] == ranges;
    for i := 0 to |ranges|
      invariant Snapshot(mem, decode, ranges[i..], record) == goal
    {
      var range := ranges[i];
      assert ranges[i..][1..] == ranges[i + 1..];
      var words := ReadRange(range.function_, range.quantity,
                             Response(mem, range.function_, range.start, range.quantity));
      if words.None? { return None; }
      var grown := RecordRegisters(decode, range, words.value, record);
      if grown.None? { return None; }
      record := grown.value;
    }
    r := Some(record);
  }

  /** A register whose words were not read is passed over in silence, and the others are recorded as without it. */
  lemma {:induction false} MissingSlicesArePassedOver<V>(decode: Decoder<V>, range: Range, a: seq<Register>,
                                                         lost: Register, b: seq<Register>, words: seq<Word>,
                                                         record: map<string, V>)
    requires Max(lost.address - range.start, 0) + lost.words > |words|
    ensures RecordSlices(decode, range, a + ([lost] + b), words, record)
            == RecordSlices(decode, range, a + b, words, record)
    decreases |a|
  {
    if a == [] {
      ConcatNil([lost] + b);
      ConcatNil(b);
      ConcatSplits([lost], b);
    } else {
      assert (a + ([lost] + b))[1..] == a[1..] + ([lost] + b) && (a + b)[1..] == a[1..] + b;
      var slice := Slice(range, a[0], words);
      if slice.None? {
        MissingSlicesArePassedOver(decode, range, a[1..], lost, b, words, record);
      } else {
        var v := decode(a[0], slice.value);
        if v.Some? {
          MissingSlicesArePassedOver(decode, range, a[1..], lost, b, words, record[a[0].name := v.value]);
        }
      }
    }
  }
}
