/**
  The register coalescer of `modbus.rs`: registers of one function, sorted by
  address, are merged greedily under a gap and a span limit. Address arithmetic
  saturates at 65535 exactly where the source saturates.
 */
module ModbusCoalesce {
  import opened Common
  import opened Sorting

  datatype Function = Coil | DiscreteInput | Holding | Input
  {
    function Code(): (c: int)
      ensures 1 <= c <= 4
    {
      match this case Coil => 1 case DiscreteInput => 2 case Holding => 3 case Input => 4
    }

    predicate IsBitAccess() { Coil? || DiscreteInput? }

    /** Section 6.1 and 6.3 of the MODBUS Application Protocol: 2000 coils, 125 registers. */
    function MaxSpan(): nat { if IsBitAccess() then 2000 else 125 }
  }

  const MAX_ADDRESS: int := 65535

  type Address = a: int | 0 <= a <= MAX_ADDRESS
  type WordCount = n: int | 1 <= n <= MAX_ADDRESS witness 1

  /** A prepared register: a 16-bit wire address and at least one word (`word_count`). */
  datatype Register = Register(name: string, function_: Function, address: Address, words: WordCount)


  /** `wire_address.saturating_add(word_count)`. */
  function End(r: Register): (e: int)
    ensures r.address <= e <= MAX_ADDRESS
  {
    Min(r.address + r.words, MAX_ADDRESS)
  }

  // ----- Runs: consecutive registers xs[i..j] of an address-sorted list -----

  /** The largest end in the run; the `curr_end` of the range that holds it. */
  function RunEnd(xs: seq<Register>, i: nat, j: nat): (e: int)
    requires i < j <= |xs|
    ensures End(xs[i]) <= e <= MAX_ADDRESS && (j == i + 1 ==> e == End(xs[i]))
    decreases j
  {
    if j == i + 1 then End(xs[i]) else Max(RunEnd(xs, i, j - 1), End(xs[j - 1]))
  }

  lemma {:induction false} RunEndSplits(xs: seq<Register>, i: nat, m: nat, j: nat)
    requires i < m < j <= |xs|
    ensures RunEnd(xs, i, j) == Max(RunEnd(xs, i, m), RunEnd(xs, m, j))
    decreases j
  {
    if m + 1 < j {
      RunEndSplits(xs, i, m, j - 1);
    }
  }

  lemma {:induction false} RunEndIsUpperBound(xs: seq<Register>, i: nat, j: nat, k: nat)
    requires i <= k < j <= |xs|
    ensures End(xs[k]) <= RunEnd(xs, i, j)
    decreases j
  {
    if k < j - 1 {
      RunEndIsUpperBound(xs, i, j - 1, k);
    }
  }

  lemma {:induction false} RunEndIsLeast(xs: seq<Register>, i: nat, j: nat, e: int)
    requires i < j <= |xs| && forall k :: i <= k < j ==> End(xs[k]) <= e
    ensures RunEnd(xs, i, j) <= e
    decreases j
  {
    if i + 1 < j {
      RunEndIsLeast(xs, i, j - 1, e);
    }
  }

  predicate Near(gap: nat, xs: seq<Register>, i: nat, j: nat)
    requires i < j < |xs|
  {
    xs[j].address <= RunEnd(xs, i, j) + gap
  }

  /** May register `j` join a range that holds the run xs[i..j]? */
  predicate Fits(gap: nat, span: nat, xs: seq<Register>, i: nat, j: nat)
    requires i < j < |xs|
  {
    && Near(gap, xs, i, j)
    && Max(RunEnd(xs, i, j), End(xs[j])) - xs[i].address <= span
  }

  /** What any batching must respect: a lone register, or gaps and span within the limits. */
  ghost predicate ValidRun(gap: nat, span: nat, xs: seq<Register>, i: nat, j: nat) {
    && i < j <= |xs|
    && (forall k :: i < k < j ==> Near(gap, xs, i, k))
    && (i + 1 < j ==> RunEnd(xs, i, j) - xs[i].address <= span)
  }

  predicate Ascending(xs: seq<Register>) {
    forall i, j :: 0 <= i < j < |xs| ==> xs[i].address <= xs[j].address
  }

  /** Where the greedy run that already holds xs[i..j] stops. */
  function Take(gap: nat, span: nat, xs: seq<Register>, i: nat, j: nat): (g: nat)
    requires i < j <= |xs|
    ensures j <= g <= |xs|
    decreases |xs| - j
  {
    if j < |xs| && Fits(gap, span, xs, i, j) then Take(gap, span, xs, i, j + 1) else j
  }

  /** The greedy cuts of xs[i..], as the end position of each run. */
  function Greedy(gap: nat, span: nat, xs: seq<Register>, i: nat): seq<nat>
    requires i <= |xs|
    decreases |xs| - i
  {
    if i == |xs| then []
    else
      var g := Take(gap, span, xs, i, i + 1);
      [g] + Greedy(gap, span, xs, g)
  }

  /** `ends` cuts xs[i..] into valid runs, one after the other and leaving nothing out. */
  ghost predicate Batching(gap: nat, span: nat, xs: seq<Register>, i: nat, ends: seq<nat>)
    decreases |ends|
  {
    if ends == [] then i == |xs|
    else ValidRun(gap, span, xs, i, ends[0]) && Batching(gap, span, xs, ends[0], ends[1..])
  }

  lemma {:induction false} TakeIsValid(gap: nat, span: nat, xs: seq<Register>, i: nat, j: nat)
    requires ValidRun(gap, span, xs, i, j)
    ensures ValidRun(gap, span, xs, i, Take(gap, span, xs, i, j))
    decreases |xs| - j
  {
    if j < |xs| && Fits(gap, span, xs, i, j) {
      TakeIsValid(gap, span, xs, i, j + 1);
    }
  }

  /** The greedy cuts are a batching: every register is in exactly one valid run. */
  lemma {:induction false} GreedyIsBatching(gap: nat, span: nat, xs: seq<Register>, i: nat)
    requires i <= |xs|
    ensures Batching(gap, span, xs, i, Greedy(gap, span, xs, i))
    decreases |xs| - i
  {
    if i < |xs| {
      TakeIsValid(gap, span, xs, i, i + 1);
      GreedyIsBatching(gap, span, xs, Take(gap, span, xs, i, i + 1));
    }
  }

  // ----- Greedy is optimal -----

  /** A valid run is never longer than the greedy one from the same register. */
  lemma {:induction false} TakeReaches(gap: nat, span: nat, xs: seq<Register>, i: nat, j: nat, q: nat)
    requires i < j <= q && ValidRun(gap, span, xs, i, q)
    ensures Take(gap, span, xs, i, j) >= q
    decreases |xs| - j
  {
    if j < q {
      assert Near(gap, xs, i, j);
      RunEndSplits(xs, i, j, q);
      RunEndIsUpperBound(xs, j, q, j);
      TakeReaches(gap, span, xs, i, j + 1, q);
    }
  }

  /** Where a greedy run of several registers stops, the next register ends beyond it. */
  lemma {:induction false} StopsBelowNext(gap: nat, span: nat, xs: seq<Register>, i: nat, j: nat)
    requires i < j <= |xs|
    requires i + 1 < j ==> RunEnd(xs, i, j) - xs[i].address <= span
    ensures var g := Take(gap, span, xs, i, j);
            i + 1 < g < |xs| ==> RunEnd(xs, i, g) < End(xs[g])
    decreases |xs| - j
  {
    if j < |xs| && Fits(gap, span, xs, i, j) {
      StopsBelowNext(gap, span, xs, i, j + 1);
    }
  }

  lemma {:induction false} SameRunEnd(xs: seq<Register>, i: nat, s: nat, j: nat)
    requires i < s < j <= |xs| && RunEnd(xs, i, s) <= End(xs[s])
    ensures RunEnd(xs, i, j) == RunEnd(xs, s, j)
  {
    RunEndSplits(xs, i, s, j);
    RunEndIsUpperBound(xs, s, j, s);
  }

  /** Starting a valid run later keeps it valid, if no skipped end reaches beyond the new first end. */
  lemma {:induction false} SuffixIsValid(gap: nat, span: nat, xs: seq<Register>, i: nat, s: nat, j: nat)
    requires Ascending(xs) && ValidRun(gap, span, xs, i, j) && i <= s < j
    requires forall k :: i <= k < s ==> End(xs[k]) <= End(xs[s])
    ensures ValidRun(gap, span, xs, s, j)
  {
    if i < s {
      RunEndIsLeast(xs, i, s, End(xs[s]));
      forall k | s < k < j
        ensures Near(gap, xs, s, k)
      {
        assert Near(gap, xs, i, k);
        SameRunEnd(xs, i, s, k);
      }
      SameRunEnd(xs, i, s, j);
    }
  }

  /** No end among registers p..s reaches beyond the end of register `s`. */
  ghost predicate Dominated(xs: seq<Register>, p: nat, s: nat)
    requires p <= s <= |xs|
  {
    s < |xs| ==> forall k :: p <= k < s ==> End(xs[k]) <= End(xs[s])
  }

  /** From `s`, greedy overtakes a valid run p..q that contains `s`, and dominates what it passed. */
  lemma {:induction false} Overtakes(gap: nat, span: nat, xs: seq<Register>, p: nat, s: nat, q: nat)
    requires Ascending(xs) && ValidRun(gap, span, xs, p, q) && p <= s < q && Dominated(xs, p, s)
    ensures var g := Take(gap, span, xs, s, s + 1);
            q <= g && Dominated(xs, q, g)
  {
    var g := Take(gap, span, xs, s, s + 1);
    SuffixIsValid(gap, span, xs, p, s, q);
    TakeReaches(gap, span, xs, s, s + 1, q);
    StopsBelowNext(gap, span, xs, s, s + 1);
    if g < |xs| {
      forall k | q <= k < g
        ensures End(xs[k]) <= End(xs[g])
      {
        RunEndIsUpperBound(xs, s, g, k);
      }
    }
  }

  /** Greedy stays ahead of a batching that is at `p` when greedy is at `s`. */
  lemma {:induction false} StaysAhead(gap: nat, span: nat, xs: seq<Register>, p: nat, s: nat, ends: seq<nat>)
    requires Ascending(xs) && p <= s <= |xs| && Batching(gap, span, xs, p, ends) && Dominated(xs, p, s)
    ensures |Greedy(gap, span, xs, s)| <= |ends|
    decreases |ends|
  {
    if s < |xs| {
      var q, rest := ends[0], ends[1..];
      if q <= s {
        StaysAhead(gap, span, xs, q, s, rest);
      } else {
        Overtakes(gap, span, xs, p, s, q);
        StaysAhead(gap, span, xs, q, Take(gap, span, xs, s, s + 1), rest);
      }
    }
  }

  /** No way of cutting the sorted list into valid runs uses fewer than the coalescer. */
  lemma {:induction false} GreedyIsOptimal(gap: nat, span: nat, xs: seq<Register>, ends: seq<nat>)
    requires Ascending(xs) && Batching(gap, span, xs, 0, ends)
    ensures |Greedy(gap, span, xs, 0)| <= |ends|
  {
    StaysAhead(gap, span, xs, 0, 0, ends);
  }

  // ----- Ranges and the whole plan -----

  /** `CoalescedRange`. */
  datatype Range = Range(function_: Function, unit: nat, start: Address, quantity: nat, registers: seq<Register>)

  /** The range the source builds for a run: a lone register keeps its word count. */
  function RangeOf(f: Function, unit: nat, xs: seq<Register>, i: nat, j: nat): Range
    requires i < j <= |xs|
  {
    Range(f, unit, xs[i].address,
          if j == i + 1 then xs[i].words else RunEnd(xs, i, j) - xs[i].address,
          xs[i..j])
  }

  function Ranges(gap: nat, unit: nat, f: Function, xs: seq<Register>, i: nat): (rs: seq<Range>)
    requires i <= |xs|
    decreases |xs| - i
  {
    if i == |xs| then [] else RangesOn(gap, unit, f, xs, i, i + 1)
  }

  /** The ranges still to come when the open range holds xs[i..j]. */
  function RangesOn(gap: nat, unit: nat, f: Function, xs: seq<Register>, i: nat, j: nat): (rs: seq<Range>)
    requires i < j <= |xs|
    decreases |xs| - i, 0
  {
    var g := Take(gap, f.MaxSpan(), xs, i, j);
    [RangeOf(f, unit, xs, i, g)] + Ranges(gap, unit, f, xs, g)
  }

  function ByFunction(f: Function, registers: seq<Register>): (r: seq<Register>)
    ensures forall x :: x in r <==> x in registers && x.function_ == f
  {
    if registers == [] then []
    else if registers[0].function_ == f then [registers[0]] + ByFunction(f, registers[1..])
    else ByFunction(f, registers[1..])
  }

  const BY_ADDRESS: Register -> int := (r: Register) => r.address

  /** The registers of one function in polling order. */
  function Group(f: Function, registers: seq<Register>): seq<Register> {
    SortBy(BY_ADDRESS, ByFunction(f, registers))
  }

  lemma {:induction false} GroupIsSorted(f: Function, registers: seq<Register>)
    ensures Ascending(Group(f, registers))
    ensures multiset(Group(f, registers)) == multiset(ByFunction(f, registers))
    ensures forall r :: r in Group(f, registers) <==> r in registers && r.function_ == f
  {
    SortCorrect(BY_ADDRESS, ByFunction(f, registers), 0);
    var xs := Group(f, registers);
    assert SortedBy(BY_ADDRESS, xs);
    forall i, j | 0 <= i < j < |xs|
      ensures xs[i].address <= xs[j].address
    {
      assert BY_ADDRESS(xs[i]) <= BY_ADDRESS(xs[j]);
    }
    assert forall r :: r in xs <==> r in multiset(xs);
    assert forall r :: r in ByFunction(f, registers) <==> r in multiset(ByFunction(f, registers));
  }

  /** The poll order of the final `sort_by_key`: function code, then start address. */
  const POLL_KEY: Range -> int := (r: Range) => r.function_.Code() * U16 + r.start

  lemma {:induction false} RangesAreOrdered(gap: nat, unit: nat, f: Function, xs: seq<Register>, i: nat)
    requires Ascending(xs) && i <= |xs|
    ensures var rs := Ranges(gap, unit, f, xs, i);
            && (forall k :: 0 <= k < |rs| ==> rs[k].function_ == f && 0 <= rs[k].start < U16)
            && (forall k :: 0 <= k < |rs| ==> xs[i].address <= rs[k].start)
            && SortedBy(POLL_KEY, rs)
    decreases |xs| - i
  {
    if i < |xs| {
      var g := Take(gap, f.MaxSpan(), xs, i, i + 1);
      RangesAreOrdered(gap, unit, f, xs, g);
    }
  }

  predicate Distinct<T(==)>(xs: seq<T>) {
    forall i, j :: 0 <= i < j < |xs| ==> xs[i] != xs[j]
  }

  /** The groups of ranges `g`, one after the other in the given order of functions. */
  function Collected(g: Function -> seq<Range>, order: seq<Function>): seq<Range> {
    if order == [] then [] else g(order[0]) + Collected(g, order[1..])
  }

  /** A group is sorted and holds only ranges of its own function. */
  ghost predicate ProperGroup(f: Function, rs: seq<Range>) {
    SortedBy(POLL_KEY, rs) && forall r :: r in rs ==> r.function_ == f && 0 <= r.start < U16
  }

  ghost predicate ProperGroups(g: Function -> seq<Range>) {
    forall f :: ProperGroup(f, g(f))
  }

  function FunctionOfKey(k: int): Option<Function> {
    if k / U16 == 1 then Some(Coil) else if k / U16 == 2 then Some(DiscreteInput)
    else if k / U16 == 3 then Some(Holding) else if k / U16 == 4 then Some(Input) else None
  }

  lemma {:induction false} KeyParts(code: int, start: int)
    requires 1 <= code <= 4 && 0 <= start < U16
    ensures (code * U16 + start) / U16 == code
  {
  }

  lemma {:induction false} OtherKeysAreAbsent(g: Function -> seq<Range>, f: Function, k: int)
    requires ProperGroups(g)
    ensures FunctionOfKey(k) != Some(f) ==> WithKey(POLL_KEY, k, g(f)) == []
  {
    var w := WithKey(POLL_KEY, k, g(f));
    assert ProperGroup(f, g(f));
    if w != [] {
      var r := w[0];
      assert r in w;
      KeyParts(r.function_.Code(), r.start);
    }
  }

  lemma {:induction false} CollectedByKey(g: Function -> seq<Range>, order: seq<Function>, k: int)
    requires ProperGroups(g) && Distinct(order)
    ensures var f := FunctionOfKey(k);
            WithKey(POLL_KEY, k, Collected(g, order))
            == if f.Some? && f.value in order then WithKey(POLL_KEY, k, g(f.value)) else []
  {
    if order != [] {
      WithKeyConcat(POLL_KEY, k, g(order[0]), Collected(g, order[1..]));
      CollectedByKey(g, order[1..], k);
      OtherKeysAreAbsent(g, order[0], k);
    }
  }

  predicate InCodeOrder(order: seq<Function>) {
    forall i, j :: 0 <= i < j < |order| ==> order[i].Code() < order[j].Code()
  }

  lemma {:induction false} CollectedIsSorted(g: Function -> seq<Range>, order: seq<Function>)
    requires ProperGroups(g) && InCodeOrder(order)
    ensures SortedBy(POLL_KEY, Collected(g, order))
    ensures forall r :: r in Collected(g, order) ==> r.function_ in order && 0 <= r.start < U16
  {
    if order != [] {
      var first, rest := g(order[0]), Collected(g, order[1..]);
      CollectedIsSorted(g, order[1..]);
      assert ProperGroup(order[0], first);
      forall x, y | x in first && y in rest
        ensures POLL_KEY(x) <= POLL_KEY(y)
      {
        assert y.function_ in order[1..];
      }
      SortedConcat(POLL_KEY, first, rest);
    }
  }

  /** Whatever order the hash map yields the functions in, the sorted result is the one in code order. */
  lemma {:induction false} HashOrderDoesNotMatter(g: Function -> seq<Range>, order: seq<Function>, all: seq<Function>)
    requires ProperGroups(g) && Distinct(order) && forall f :: f !in order ==> g(f) == []
    requires InCodeOrder(all) && forall f :: f in all
    ensures SortBy(POLL_KEY, Collected(g, order)) == Collected(g, all)
  {
    var got := SortBy(POLL_KEY, Collected(g, order));
    CollectedIsSorted(g, all);
    forall k
      ensures WithKey(POLL_KEY, k, got) == WithKey(POLL_KEY, k, Collected(g, all))
    {
      SortCorrect(POLL_KEY, Collected(g, order), k);
      CollectedByKey(g, order, k);
      CollectedByKey(g, all, k);
    }
    SortCorrect(POLL_KEY, Collected(g, order), 0);
    StableSortIsUnique(POLL_KEY, got, Collected(g, all));
  }

  const ALL_FUNCTIONS: seq<Function> := [Coil, DiscreteInput, Holding, Input]

  lemma {:induction false} AllFunctionsInCodeOrder()
    ensures InCodeOrder(ALL_FUNCTIONS) && forall f :: f in ALL_FUNCTIONS
  {
    forall f: Function
      ensures f in ALL_FUNCTIONS
    {
      assert ALL_FUNCTIONS[f.Code() - 1] == f;
    }
  }

  /** The ranges of each function, sorted and coalesced. */
  function GroupsOf(gap: nat, unit: nat, registers: seq<Register>): Function -> seq<Range> {
    (f: Function) => Ranges(gap, unit, f, Group(f, registers), 0)
  }

  /** What `coalesce_registers` returns: function by function in code order. */
  function Plan(gap: nat, unit: nat, registers: seq<Register>): seq<Range> {
    Collected(GroupsOf(gap, unit, registers), ALL_FUNCTIONS)
  }

  lemma {:induction false} GroupsAreProper(gap: nat, unit: nat, registers: seq<Register>)
    ensures ProperGroups(GroupsOf(gap, unit, registers))
  {
    forall f
      ensures ProperGroup(f, GroupsOf(gap, unit, registers)(f))
    {
      GroupIsSorted(f, registers);
      RangesAreOrdered(gap, unit, f, Group(f, registers), 0);
    }
  }

  lemma {:induction false} AbsentFunctionIsEmpty(f: Function, registers: seq<Register>)
    requires forall r :: r in registers ==> r.function_ != f
    ensures ByFunction(f, registers) == []
  {
    if registers != [] {
      AbsentFunctionIsEmpty(f, registers[1..]);
    }
  }

  lemma {:induction false} AbsentFunctionHasNoRanges(gap: nat, unit: nat, registers: seq<Register>, f: Function)
    requires forall r :: r in registers ==> r.function_ != f
    ensures GroupsOf(gap, unit, registers)(f) == []
  {
    AbsentFunctionIsEmpty(f, registers);
  }

  lemma {:induction false} OneRangePerRun(gap: nat, unit: nat, f: Function, xs: seq<Register>, i: nat)
    requires i <= |xs|
    ensures |Ranges(gap, unit, f, xs, i)| == |Greedy(gap, f.MaxSpan(), xs, i)|
    decreases |xs| - i
  {
    if i < |xs| {
      OneRangePerRun(gap, unit, f, xs, Take(gap, f.MaxSpan(), xs, i, i + 1));
    }
  }

  /** For every function, no batching of its sorted registers needs fewer requests than the plan makes. */
  lemma {:induction false} PlanIsOptimal(gap: nat, unit: nat, registers: seq<Register>, f: Function, ends: seq<nat>)
    requires Batching(gap, f.MaxSpan(), Group(f, registers), 0, ends)
    ensures |GroupsOf(gap, unit, registers)(f)| <= |ends|
  {
    GroupIsSorted(f, registers);
    GreedyIsOptimal(gap, f.MaxSpan(), Group(f, registers), ends);
    OneRangePerRun(gap, unit, f, Group(f, registers), 0);
  }

  // ----- The limits, as numbers -----

  /** How far one request may reach: 2000 bits or 125 words. */
  function Limit(f: Function): nat {
    match f
    case Coil => 2000
    case DiscreteInput => 2000
    case Holding => 125
    case Input => 125
  }

  /** A planned range: of one function and unit, starting at its first register, and within the limit if shared. */
  predicate InLimits(r: Range, unit: nat) {
    && r.unit == unit && r.registers != [] && r.start == r.registers[0].address
    && (if |r.registers| == 1 then r.quantity == r.registers[0].words else r.quantity <= Limit(r.function_))
  }

  lemma {:induction false} RangesStayInLimits(gap: nat, unit: nat, f: Function, xs: seq<Register>, i: nat)
    requires i <= |xs|
    ensures forall r | r in Ranges(gap, unit, f, xs, i) :: InLimits(r, unit) && r.function_ == f
    decreases |xs| - i
  {
    if i < |xs| {
      var g := Take(gap, f.MaxSpan(), xs, i, i + 1);
      TakeIsValid(gap, f.MaxSpan(), xs, i, i + 1);
      RangesStayInLimits(gap, unit, f, xs, g);
    }
  }

  /** No planned request asks for more than 2000 bits or 125 words, unless a single register does. */
  lemma {:induction false} PlanStaysInLimits(gap: nat, unit: nat, registers: seq<Register>)
    ensures forall r | r in Plan(gap, unit, registers) :: InLimits(r, unit)
  {
    forall f: Function, r | r in GroupsOf(gap, unit, registers)(f)
      ensures InLimits(r, unit)
    {
      RangesStayInLimits(gap, unit, f, Group(f, registers), 0);
    }
    CollectedFrom(GroupsOf(gap, unit, registers), ALL_FUNCTIONS);
  }

  lemma {:induction false} CollectedFrom(g: Function -> seq<Range>, order: seq<Function>)
    ensures forall r | r in Collected(g, order) :: exists f :: r in g(f)
  {
    if order != [] {
      CollectedFrom(g, order[1..]);
    }
  }

  /** The plan comes in the order of the function codes 1 to 4, and of addresses within a function. */
  lemma {:induction false} PlanIsInOrder(gap: nat, unit: nat, registers: seq<Register>, i: nat, j: nat)
    requires i < j < |Plan(gap, unit, registers)|
    ensures var (a, b) := (Plan(gap, unit, registers)[i], Plan(gap, unit, registers)[j]);
            Rank(a.function_) < Rank(b.function_) || (a.function_ == b.function_ && a.start <= b.start)
  {
    GroupsAreProper(gap, unit, registers);
    AllFunctionsInCodeOrder();
    CollectedIsSorted(GroupsOf(gap, unit, registers), ALL_FUNCTIONS);
    var plan := Plan(gap, unit, registers);
    assert POLL_KEY(plan[i]) <= POLL_KEY(plan[j]);
    KeysCompare(plan[i], plan[j]);
  }

  lemma {:induction false} KeysCompare(a: Range, b: Range)
    requires POLL_KEY(a) <= POLL_KEY(b)
    ensures Rank(a.function_) < Rank(b.function_) || (a.function_ == b.function_ && a.start <= b.start)
  {
    CodesCompare(a.function_.Code(), a.start, b.function_.Code(), b.start);
  }

  lemma {:induction false} CodesCompare(c: int, x: int, d: int, y: int)
    requires 0 <= x < U16 && 0 <= y < U16 && c * U16 + x <= d * U16 + y
    ensures c < d || (c == d && x <= y)
  {
  }

  function Rank(f: Function): nat {
    match f
    case Coil => 1
    case DiscreteInput => 2
    case Holding => 3
    case Input => 4
  }

  lemma {:induction false} GroupOfPair(a: Register, b: Register, f: Function)
    requires a.function_ == b.function_ && a.address <= b.address
    ensures Group(f, [a, b]) == if f == a.function_ then [a, b] else []
  {
    assert [a, b][1..] == [b] && [b][1..] == [];
    assert ByFunction(f, []) == [];
    assert ByFunction(f, [b]) == if f == b.function_ then [b] else [];
    if f == a.function_ {
      assert ByFunction(f, [a, b]) == [a, b];
      SortCorrect(BY_ADDRESS, [a, b], 0);
      SortOfPair(a, b);
    }
  }

  lemma {:induction false} SortOfPair(a: Register, b: Register)
    requires a.address <= b.address
    ensures SortBy(BY_ADDRESS, [a, b]) == [a, b]
  {
    var got := SortBy(BY_ADDRESS, [a, b]);
    forall k
      ensures WithKey(BY_ADDRESS, k, got) == WithKey(BY_ADDRESS, k, [a, b])
    {
      SortCorrect(BY_ADDRESS, [a, b], k);
    }
    SortCorrect(BY_ADDRESS, [a, b], 0);
    StableSortIsUnique(BY_ADDRESS, got, [a, b]);
  }

  /**
    Two registers of one function share a range exactly if the second starts no more than `gap`
    past the end of the first and both ends are within 2000 bits or 125 words of its start.
   */
  lemma {:induction false} PairIsMergedIff(gap: nat, unit: nat, a: Register, b: Register)
    requires a.function_ == b.function_ && a.address <= b.address
    ensures GroupsOf(gap, unit, [a, b])(a.function_) == PairRanges(gap, unit, a, b)
  {
    var f := a.function_;
    GroupOfPair(a, b, f);
    var xs := [a, b];
    assert GroupsOf(gap, unit, xs)(f) == Ranges(gap, unit, f, xs, 0);
    PairIsRanges(gap, unit, a, b, xs);
  }

  function PairRanges(gap: nat, unit: nat, a: Register, b: Register): seq<Range> {
    var f := a.function_;
    var endA, endB := Min(a.address + a.words, 65535), Min(b.address + b.words, 65535);
    var span := Max(endA, endB) - a.address;
    if b.address <= endA + gap && span <= Limit(f) then [Range(f, unit, a.address, span, [a, b])]
    else [Range(f, unit, a.address, a.words, [a]), Range(f, unit, b.address, b.words, [b])]
  }

  lemma {:induction false} PairIsRanges(gap: nat, unit: nat, a: Register, b: Register, xs: seq<Register>)
    requires xs == [a, b]
    ensures Ranges(gap, unit, a.function_, xs, 0) == PairRanges(gap, unit, a, b)
  {
    TwoRanges(gap, unit, a.function_, xs);
    PairValues(unit, a, b);
  }

  lemma {:induction false} PairValues(unit: nat, a: Register, b: Register)
    ensures var (f, xs) := (a.function_, [a, b]);
            && RunEnd(xs, 0, 1) == Min(a.address + a.words, 65535)
            && End(b) == Min(b.address + b.words, 65535)
            && RangeOf(f, unit, xs, 0, 2)
               == Range(f, unit, a.address, Max(RunEnd(xs, 0, 1), End(b)) - a.address, [a, b])
            && RangeOf(f, unit, xs, 0, 1) == Range(f, unit, a.address, a.words, [a])
            && RangeOf(f, unit, xs, 1, 2) == Range(f, unit, b.address, b.words, [b])
  {
    var xs := [a, b];
    assert xs[0..1] == [a] && xs[1..2] == [b] && xs[0..2] == xs;
  }

  lemma {:induction false} TwoRanges(gap: nat, unit: nat, f: Function, xs: seq<Register>)
    requires |xs| == 2
    ensures Ranges(gap, unit, f, xs, 0)
            == if Fits(gap, f.MaxSpan(), xs, 0, 1) then [RangeOf(f, unit, xs, 0, 2)]
               else [RangeOf(f, unit, xs, 0, 1), RangeOf(f, unit, xs, 1, 2)]
  {
    var span := f.MaxSpan();
    assert Take(gap, span, xs, 1, 2) == 2 && Take(gap, span, xs, 0, 2) == 2;
    assert Ranges(gap, unit, f, xs, 2) == [];
    assert Ranges(gap, unit, f, xs, 1) == RangesOn(gap, unit, f, xs, 1, 2);
    assert Ranges(gap, unit, f, xs, 0) == RangesOn(gap, unit, f, xs, 0, 1);
  }

  // ----- The source's loops -----

  /** One step of the greedy loop: register `j` joins the open range or closes it. */
  lemma {:induction false} RangesOnStep(gap: nat, unit: nat, f: Function, xs: seq<Register>, i: nat, j: nat)
    requires i < j < |xs|
    ensures RangesOn(gap, unit, f, xs, i, j)
            == if Fits(gap, f.MaxSpan(), xs, i, j) then RangesOn(gap, unit, f, xs, i, j + 1)
               else [RangeOf(f, unit, xs, i, j)] + RangesOn(gap, unit, f, xs, j, j + 1)
  {
  }

  lemma {:induction false} OpenRangeEnd(f: Function, unit: nat, xs: seq<Register>, i: nat, j: nat)
    requires i < j <= |xs|
    ensures var r := RangeOf(f, unit, xs, i, j);
            Min(r.start + r.quantity, MAX_ADDRESS) == RunEnd(xs, i, j) && r.start <= RunEnd(xs, i, j)
  {
    RunEndIsUpperBound(xs, i, j, i);
  }

  lemma {:induction false} RangesOnLast(gap: nat, unit: nat, f: Function, xs: seq<Register>, i: nat)
    requires i < |xs|
    ensures RangesOn(gap, unit, f, xs, i, |xs|) == [RangeOf(f, unit, xs, i, |xs|)]
  {
  }

  /** The source's test and update for joining `reg` to the open range; None when a new range starts. */
  function Joined(curr: Range, reg: Register, gap: nat): Option<Range> {
    var currEnd := Min(curr.start + curr.quantity, MAX_ADDRESS);
    var proposedEnd := Max(currEnd, Min(reg.address + reg.words, MAX_ADDRESS));
    var proposedSpan := Max(proposedEnd - curr.start, 0);
    if reg.address <= Min(currEnd + gap, MAX_ADDRESS) && proposedSpan <= reg.function_.MaxSpan() then
      Some(curr.(quantity := proposedSpan, registers := curr.registers + [reg]))
    else None
  }

  lemma {:induction false} JoinedIsNextRange(gap: nat, unit: nat, f: Function, xs: seq<Register>, i: nat, j: nat)
    requires i < j < |xs| && xs[j].function_ == f
    ensures Joined(RangeOf(f, unit, xs, i, j), xs[j], gap)
            == if Fits(gap, f.MaxSpan(), xs, i, j) then Some(RangeOf(f, unit, xs, i, j + 1)) else None
  {
    OpenRangeEnd(f, unit, xs, i, j);
    assert xs[i..j] + [xs[j]] == xs[i..j + 1];
  }

  function LoneRange(unit: nat, reg: Register): Range {
    Range(reg.function_, unit, reg.address, reg.words, [reg])
  }

  /** The loop over one sorted group: `result` grows, `current` is the open range. */
  method CoalesceGroup(result: seq<Range>, list: seq<Register>, unit: nat, gap: nat, f: Function)
    returns (grown: seq<Range>)
    requires forall r :: r in list ==> r.function_ == f
    ensures grown == result + Ranges(gap, unit, f, list, 0)
  {
    grown := result;
    if list == [] {
      return;
    }
    var current := LoneRange(unit, list[0]);
    assert list[0..1] == [list[0]];
    ghost var s: nat := 0;
    ghost var todo := RangesOn(gap, unit, f, list, 0, 1);
    ghost var goal := result + todo;
    for k := 1 to |list|
      invariant s < k && current == RangeOf(f, unit, list, s, k)
      invariant todo == RangesOn(gap, unit, f, list, s, k)
      invariant grown + todo == goal
    {
      JoinedIsNextRange(gap, unit, f, list, s, k);
      RangesOnStep(gap, unit, f, list, s, k);
      match Joined(current, list[k], gap)
      case Some(wider) =>
        current := wider;
      case None =>
        s, todo := k, RangesOn(gap, unit, f, list, k, k + 1);
        ConcatAssociates(grown, [current], todo);
        grown := grown + [current];
        current := LoneRange(unit, list[k]);
        assert list[k..k + 1] == [list[k]];
    }
    RangesOnLast(gap, unit, f, list, s);
    grown := grown + [current];
  }

  /** `coalesce_registers`; `order` is the order in which the hash map yields the functions present. */
  method CoalesceRegisters(registers: seq<Register>, unit: nat, gap: nat, order: seq<Function>)
    returns (result: seq<Range>)
    requires Distinct(order) && forall f :: f in order <==> exists r :: r in registers && r.function_ == f
    ensures result == Plan(gap, unit, registers)
  {
    ghost var g := GroupsOf(gap, unit, registers);
    result := CollectRanges(registers, unit, gap, order);
    GroupsAreProper(gap, unit, registers);
    forall f | f !in order
      ensures g(f) == []
    {
      AbsentFunctionHasNoRanges(gap, unit, registers, f);
    }
    AllFunctionsInCodeOrder();
    HashOrderDoesNotMatter(g, order, ALL_FUNCTIONS);
    result := SortBy(POLL_KEY, result);
  }

  /** One group: its registers are sorted by address, then coalesced. */
  method CoalesceFunction(result: seq<Range>, registers: seq<Register>, unit: nat, gap: nat, f: Function)
    returns (grown: seq<Range>)
    ensures grown == result + GroupsOf(gap, unit, registers)(f)
  {
    GroupIsSorted(f, registers);
    var list := Group(f, registers);
    grown := CoalesceGroup(result, list, unit, gap, f);
  }

  /** The loop over the groups, in hash order. */
  method CollectRanges(registers: seq<Register>, unit: nat, gap: nat, order: seq<Function>)
    returns (result: seq<Range>)
    ensures result == Collected(GroupsOf(gap, unit, registers), order)
  {
    result := [];
    ghost var g := GroupsOf(gap, unit, registers);
    for i := 0 to |order|
      invariant result == Collected(g, order[..i])
    {
      CollectedSnoc(g, order[..i], order[i]);
      assert order[..i] + [order[i]] == order[..i + 1];
      result := CoalesceFunction(result, registers, unit, gap, order[i]);
    }
    assert order[..|order|] == order;
  }

  lemma {:induction false} CollectedSnoc(g: Function -> seq<Range>, order: seq<Function>, f: Function)
    ensures Collected(g, order + [f]) == Collected(g, order) + g(f)
  {
    if order == [] {
      assert order + [f] == [f];
    } else {
      assert (order + [f])[1..] == order[1..] + [f];
      CollectedSnoc(g, order[1..], f);
    }
  }
}
