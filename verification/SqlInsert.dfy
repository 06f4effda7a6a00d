/**
  Inserts of `sql.rs`: one statement a record, or multi-row statements over chunks of a
  batch. A statement is its columns, its rows of placeholders and nulls, and the values bound
  to the placeholders; what it inserts is read back from those alone.
 */
module SqlInsert {
  import opened Common

  datatype Val = Int(i: int) | Float(bits: int) | Bool(b: bool) | Text(s: string)

  /** A record's fields; `None` is a JSON null. */
  type Record = map<string, Option<Val>>

  datatype Dialect = Sqlite | Postgres | Unsupported

  /** Null, `?` or `$n`. */
  datatype Slot = NullLiteral | Mark | Dollar(n: nat)

  datatype Statement =
    | Insert(cols: seq<string>, rows: seq<seq<Slot>>, params: seq<Val>)
    | DefaultValues

  // ----- What a database makes of a statement -----

  /** Columns that were named, with their values; the others take their defaults. */
  datatype Inserted = Inserted(cols: seq<string>, vals: seq<Option<Val>>)

  datatype RowRead = Unbound | RowRead(vals: seq<Option<Val>>, used: nat)

  /** `used` counts the `?` seen so far; `$n` names its value outright. */
  function ReadRow(slots: seq<Slot>, params: seq<Val>, used: nat): RowRead {
    if slots == [] then RowRead([], used)
    else
      match slots[0]
      case NullLiteral => Consed(None, ReadRow(slots[1..], params, used))
      case Mark =>
        if used < |params| then Consed(Some(params[used]), ReadRow(slots[1..], params, used + 1)) else Unbound
      case Dollar(n) =>
        if 1 <= n <= |params| then Consed(Some(params[n - 1]), ReadRow(slots[1..], params, used)) else Unbound
  }

  function Consed(v: Option<Val>, r: RowRead): RowRead {
    if r.Unbound? then Unbound else RowRead([v] + r.vals, r.used)
  }

  function ReadRows(cols: seq<string>, rows: seq<seq<Slot>>, params: seq<Val>, used: nat): Option<seq<Inserted>> {
    if rows == [] then Some([])
    else
      var r := ReadRow(rows[0], params, used);
      if r.Unbound? then None
      else
        var more := ReadRows(cols, rows[1..], params, r.used);
        if more.None? then None else Some([Inserted(cols, r.vals)] + more.value)
  }

  function Execute(s: Statement): Option<seq<Inserted>> {
    match s
    case DefaultValues => Some([Inserted([], [])])
    case Insert(cols, rows, params) => ReadRows(cols, rows, params, 0)
  }

  function ExecuteAll(ss: seq<Statement>): Option<seq<Inserted>> {
    if ss == [] then Some([])
    else
      var first, more := Execute(ss[0]), ExecuteAll(ss[1..]);
      if first.None? || more.None? then None else Some(first.value + more.value)
  }

  // ----- Building statements (sql.rs:474-528, 573-671, 683-738) -----

  function Bind(record: Record, field: string): Option<Val> {
    if field in record then record[field] else None
  }

  function CellsOf(fields: seq<string>, record: Record): (cells: seq<Option<Val>>)
    ensures |cells| == |fields| && forall i | 0 <= i < |cells| :: cells[i] == Bind(record, fields[i])
  {
    seq(|fields|, i requires 0 <= i < |fields| => Bind(record, fields[i]))
  }

  /** Placeholders of one row, the next parameter being number `next`. */
  function RowSlots(d: Dialect, cells: seq<Option<Val>>, next: nat): seq<Slot> {
    if cells == [] then []
    else if cells[0].None? then [NullLiteral] + RowSlots(d, cells[1..], next)
    else [if d.Sqlite? then Mark else Dollar(next)] + RowSlots(d, cells[1..], next + 1)
  }

  function RowParams(cells: seq<Option<Val>>): (params: seq<Val>)
    ensures |params| <= |cells|
  {
    if cells == [] then []
    else if cells[0].None? then RowParams(cells[1..])
    else [cells[0].value] + RowParams(cells[1..])
  }

  function ChunkSlots(d: Dialect, fields: seq<string>, records: seq<Record>, next: nat): seq<seq<Slot>>
    decreases |records|
  {
    if records == [] then []
    else
      var cells := CellsOf(fields, records[0]);
      [RowSlots(d, cells, next)] + ChunkSlots(d, fields, records[1..], next + |RowParams(cells)|)
  }

  function ChunkParams(fields: seq<string>, records: seq<Record>): seq<Val>
    decreases |records|
  {
    if records == [] then [] else RowParams(CellsOf(fields, records[0])) + ChunkParams(fields, records[1..])
  }

  function ChunkStatement(d: Dialect, fields: seq<string>, records: seq<Record>): Statement {
    Insert(fields, ChunkSlots(d, fields, records, 1), ChunkParams(fields, records))
  }

  /** `(900 / fields.len().max(1)).clamp(1, 256)`. */
  function ChunkSize(fields: nat): (n: nat)
    ensures 1 <= n <= 256
    ensures fields <= 900 ==> n * fields <= 900
    ensures fields > 900 ==> n == 1
    ensures n < 256 && fields <= 900 ==> (n + 1) * fields > 900
  {
    var q := 900 / (if fields == 0 then 1 else fields);
    QuotientFits(900, if fields == 0 then 1 else fields);
    if q < 1 then 1 else if q > 256 then 256 else q
  }

  lemma {:induction false} QuotientFits(n: nat, d: nat)
    requires d > 0
    ensures n / d * d <= n
    ensures d <= n <==> n / d >= 1
    ensures forall k: nat | k <= n / d :: k * d <= n
    ensures (n / d + 1) * d > n
  {
    assert n == n / d * d + n % d;
    assert (n / d + 1) * d == n / d * d + d;
    forall k: nat | k <= n / d
      ensures k * d <= n
    {
      assert k * d <= n / d * d;
    }
    assert n % d < d;
  }

  function Chunks(records: seq<Record>, n: nat): seq<seq<Record>>
    requires n > 0
    decreases |records|
  {
    if records == [] then [] else if |records| <= n then [records] else [records[..n]] + Chunks(records[n..], n)
  }

  function ChunkStatements(d: Dialect, fields: seq<string>, chunks: seq<seq<Record>>): (ss: seq<Statement>)
    ensures |ss| == |chunks| && forall i | 0 <= i < |ss| :: ss[i] == ChunkStatement(d, fields, chunks[i])
  {
    seq(|chunks|, i requires 0 <= i < |chunks| => ChunkStatement(d, fields, chunks[i]))
  }

  predicate ValidName(name: string) {
    name != [] && (Letter(name[0]) || name[0] == '_')
    && forall c | c in name :: Letter(c) || '0' <= c <= '9' || c == '_'
  }

  predicate Letter(c: char) {
    'a' <= c <= 'z' || 'A' <= c <= 'Z'
  }

  datatype Sink = Sink(dialect: Dialect, table: string, fields: seq<string>)

  predicate ValidNames(names: seq<string>) {
    forall i | 0 <= i < |names| :: ValidName(names[i])
  }

  /** Fields whose names start with two underscores are internal. */
  predicate Visible(name: string) {
    !(|name| >= 2 && name[0] == '_' && name[1] == '_')
  }

  function VisibleKeys(record: Record): set<string> {
    set k | k in record && Visible(k)
  }

  function AllKeys(records: seq<Record>): set<string> {
    if records == [] then {} else VisibleKeys(records[0]) + AllKeys(records[1..])
  }

  /** `insert_record`; `sorted` lists a set of names in order. `None` is an error. */
  function InsertRecord(sink: Sink, sorted: set<string> -> seq<string>, record: Record): Option<seq<Statement>> {
    var fields := if sink.fields == [] then sorted(VisibleKeys(record)) else sink.fields;
    if !ValidName(sink.table) || !ValidNames(fields) || sink.dialect.Unsupported? then None
    else if fields == [] then Some([DefaultValues])
    else
      var cells := CellsOf(fields, record);
      Some([Insert(fields, [RowSlots(sink.dialect, cells, 1)], RowParams(cells))])
  }

  function InsertEach(sink: Sink, sorted: set<string> -> seq<string>, records: seq<Record>): Option<seq<Statement>> {
    if records == [] then Some([])
    else
      var first, more := InsertRecord(sink, sorted, records[0]), InsertEach(sink, sorted, records[1..]);
      if first.None? || more.None? then None else Some(first.value + more.value)
  }

  /** `insert_batch`. */
  function InsertBatch(sink: Sink, sorted: set<string> -> seq<string>, records: seq<Record>): Option<seq<Statement>> {
    if records == [] then Some([])
    else if !ValidName(sink.table) then None
    else if |records| == 1 then InsertRecord(sink, sorted, records[0])
    else
      var fields := if sink.fields == [] then sorted(AllKeys(records)) else sink.fields;
      if !ValidNames(fields) then None
      else if fields == [] || sink.dialect.Unsupported? then InsertEach(sink, sorted, records)
      else Some(ChunkStatements(sink.dialect, fields, Chunks(records, ChunkSize(|fields|))))
  }

  // ----- What a statement inserts -----

  /** The rows that records stand for. */
  function RowsOf(fields: seq<string>, records: seq<Record>): (rows: seq<Inserted>)
    ensures |rows| == |records|
    ensures forall i | 0 <= i < |rows| :: rows[i] == Inserted(fields, CellsOf(fields, records[i]))
  {
    seq(|records|, i requires 0 <= i < |records| => Inserted(fields, CellsOf(fields, records[i])))
  }

  /** Reading one slot more at the front; `v` is what it stands for. */
  lemma {:induction false} ReadSlot(slot: Slot, slots: seq<Slot>, params: seq<Val>, used: nat, v: Option<Val>)
    requires slot.NullLiteral? ==> v.None?
    requires slot.Mark? ==> used < |params| && v == Some(params[used])
    requires slot.Dollar? ==> 1 <= slot.n <= |params| && v == Some(params[slot.n - 1])
    ensures ReadRow([slot] + slots, params, used)
            == Consed(v, ReadRow(slots, params, if slot.Mark? then used + 1 else used))
  {
    ConcatSplits([slot], slots);
  }

  /** Numbering goes on where `before` left off, and later values do not disturb it. */
  lemma {:induction false} RowReads(d: Dialect, cells: seq<Option<Val>>, before: seq<Val>, after: seq<Val>)
    requires !d.Unsupported?
    ensures ReadRow(RowSlots(d, cells, |before| + 1), before + (RowParams(cells) + after),
                    if d.Sqlite? then |before| else 0)
            == RowRead(cells, if d.Sqlite? then |before| + |RowParams(cells)| else 0)
  {
    if cells != [] {
      HeadAndTail(cells);
      var params, used := before + (RowParams(cells) + after), if d.Sqlite? then |before| else 0;
      if cells[0].None? {
        RowReads(d, cells[1..], before, after);
        ReadSlot(NullLiteral, RowSlots(d, cells[1..], |before| + 1), params, used, None);
      } else {
        var v := cells[0].value;
        RowReads(d, cells[1..], before + [v], after);
        ShiftValue(before, v, RowParams(cells[1..]), after);
        ReadSlot(if d.Sqlite? then Mark else Dollar(|before| + 1), RowSlots(d, cells[1..], |before| + 2),
                 params, used, Some(v));
      }
    }
  }

  lemma {:induction false} ShiftValue(before: seq<Val>, v: Val, params: seq<Val>, after: seq<Val>)
    ensures before + (([v] + params) + after) == (before + [v]) + (params + after)
    ensures (before + (([v] + params) + after))[|before|] == v
  {
  }

  lemma {:induction false} ChunkReads(d: Dialect, fields: seq<string>, records: seq<Record>, before: seq<Val>)
    requires !d.Unsupported?
    ensures ReadRows(fields, ChunkSlots(d, fields, records, |before| + 1), before + ChunkParams(fields, records),
                     if d.Sqlite? then |before| else 0)
            == Some(RowsOf(fields, records))
    decreases |records|
  {
    if records != [] {
      var cells := CellsOf(fields, records[0]);
      var params, more := RowParams(cells), ChunkParams(fields, records[1..]);
      RowReads(d, cells, before, more);
      ChunkReads(d, fields, records[1..], before + params);
      ConcatAssociates(before, params, more);
      ConcatSplits([RowSlots(d, cells, |before| + 1)], ChunkSlots(d, fields, records[1..], |before| + 1 + |params|));
      RowsOfFirst(fields, records);
    }
  }

  lemma {:induction false} RowsOfFirst(fields: seq<string>, records: seq<Record>)
    requires records != []
    ensures RowsOf(fields, records) == [Inserted(fields, CellsOf(fields, records[0]))] + RowsOf(fields, records[1..])
  {
    var rows := [Inserted(fields, CellsOf(fields, records[0]))] + RowsOf(fields, records[1..]);
    forall i | 0 <= i < |records|
      ensures rows[i] == RowsOf(fields, records)[i]
    {
      if i > 0 {
        assert records[i] == records[1..][i - 1];
      }
    }
  }

  /** A chunk's statement inserts one row a record, in order. */
  lemma {:induction false} ChunkInserts(d: Dialect, fields: seq<string>, records: seq<Record>)
    requires !d.Unsupported?
    ensures Execute(ChunkStatement(d, fields, records)) == Some(RowsOf(fields, records))
  {
    ChunkReads(d, fields, records, []);
    assert [] + ChunkParams(fields, records) == ChunkParams(fields, records);
  }

  lemma {:induction false} SingleIsChunk(sink: Sink, sorted: set<string> -> seq<string>, record: Record)
    requires sink.fields != [] && InsertRecord(sink, sorted, record).Some?
    ensures InsertRecord(sink, sorted, record).value == [ChunkStatement(sink.dialect, sink.fields, [record])]
  {
    var cells := CellsOf(sink.fields, record);
    assert [record][1..] == [] && [record][0] == record;
    assert ChunkParams(sink.fields, []) == [];
    assert ChunkSlots(sink.dialect, sink.fields, [], 1 + |RowParams(cells)|) == [];
    assert ChunkParams(sink.fields, [record]) == RowParams(cells);
    assert ChunkSlots(sink.dialect, sink.fields, [record], 1) == [RowSlots(sink.dialect, cells, 1)];
  }

  lemma {:induction false} OneStatement(s: Statement)
    ensures ExecuteAll([s]) == Execute(s)
  {
    assert [s][1..] == [];
    if Execute(s).Some? {
      assert Execute(s).value + [] == Execute(s).value;
    }
  }

  lemma {:induction false} SinglesInsert(sink: Sink, sorted: set<string> -> seq<string>, records: seq<Record>)
    requires sink.fields != [] && InsertEach(sink, sorted, records).Some?
    ensures ExecuteAll(InsertEach(sink, sorted, records).value) == Some(RowsOf(sink.fields, records))
    decreases |records|
  {
    if records != [] {
      SingleIsChunk(sink, sorted, records[0]);
      ChunkInserts(sink.dialect, sink.fields, [records[0]]);
      var s := ChunkStatement(sink.dialect, sink.fields, [records[0]]);
      var more := InsertEach(sink, sorted, records[1..]).value;
      ConcatSplits([s], more);
      SinglesInsert(sink, sorted, records[1..]);
      RowsOfFirst(sink.fields, records);
      assert RowsOf(sink.fields, [records[0]]) == [Inserted(sink.fields, CellsOf(sink.fields, records[0]))];
    }
  }

  lemma {:induction false} RowsOfConcat(fields: seq<string>, a: seq<Record>, b: seq<Record>)
    ensures RowsOf(fields, a + b) == RowsOf(fields, a) + RowsOf(fields, b)
  {
  }

  function Flat(chunks: seq<seq<Record>>): seq<Record> {
    if chunks == [] then [] else chunks[0] + Flat(chunks[1..])
  }

  lemma {:induction false} ExecuteFirst(s: Statement, ss: seq<Statement>, a: seq<Inserted>, b: seq<Inserted>)
    requires Execute(s) == Some(a) && ExecuteAll(ss) == Some(b)
    ensures ExecuteAll([s] + ss) == Some(a + b)
  {
    ConcatSplits([s], ss);
  }

  /** Chunk statements insert the records of their chunks, in order. */
  lemma {:induction false} StatementsInsert(d: Dialect, fields: seq<string>, chunks: seq<seq<Record>>)
    requires !d.Unsupported?
    ensures ExecuteAll(ChunkStatements(d, fields, chunks)) == Some(RowsOf(fields, Flat(chunks)))
  {
    if chunks != [] {
      ChunkInserts(d, fields, chunks[0]);
      StatementsInsert(d, fields, chunks[1..]);
      var first, more := ChunkStatement(d, fields, chunks[0]), ChunkStatements(d, fields, chunks[1..]);
      ExecuteFirst(first, more, RowsOf(fields, chunks[0]), RowsOf(fields, Flat(chunks[1..])));
      RowsOfConcat(fields, chunks[0], Flat(chunks[1..]));
      assert ChunkStatements(d, fields, chunks) == [first] + more;
    }
  }

  /** The first `j` chunks hold the first `j * n` records. */
  lemma {:induction false} FirstChunks(records: seq<Record>, n: nat, j: nat)
    requires n > 0 && j <= |Chunks(records, n)|
    ensures var done := Min(j * n, |records|);
            0 <= done && Flat(Chunks(records, n)[..j]) == records[..done]
    decreases |records|
  {
    var chunks := Chunks(records, n);
    if j > 0 {
      assert chunks[..j][1..] == chunks[1..][..j - 1];
      MulStep(j, n);
      if |records| <= n {
        assert Flat(chunks[..j][1..]) == [];
      } else {
        ConcatSplits([records[..n]], Chunks(records[n..], n));
        FirstChunks(records[n..], n, j - 1);
        var done := Min((j - 1) * n, |records[n..]|);
        assert records[..n] + records[n..][..done] == records[..n + done];
      }
    }
  }

  lemma {:induction false} ChunksInsert(d: Dialect, fields: seq<string>, records: seq<Record>, n: nat, j: nat)
    requires !d.Unsupported? && n > 0 && j <= |Chunks(records, n)|
    ensures var done := Min(j * n, |records|);
            0 <= done && ExecuteAll(ChunkStatements(d, fields, Chunks(records, n))[..j])
            == Some(RowsOf(fields, records[..done]))
  {
    var chunks := Chunks(records, n);
    StatementsInsert(d, fields, chunks[..j]);
    FirstChunks(records, n, j);
    assert ChunkStatements(d, fields, chunks)[..j] == ChunkStatements(d, fields, chunks[..j]);
  }

  lemma {:induction false} MulStep(j: nat, n: nat)
    requires j >= 1
    ensures j * n == n + (j - 1) * n && (j - 1) * n >= 0
  {
  }

  lemma {:induction false} ChunksCover(records: seq<Record>, n: nat)
    requires n > 0
    ensures |Chunks(records, n)| * n >= |records|
    ensures forall i | 0 <= i < |Chunks(records, n)| :: 1 <= |Chunks(records, n)[i]| <= n
    decreases |records|
  {
    if |records| > n {
      ChunksCover(records[n..], n);
    }
  }

  // ----- Main results -----

  lemma {:induction false} EachIsNoneIff(sink: Sink, sorted: set<string> -> seq<string>, records: seq<Record>)
    requires sink.fields != []
    ensures InsertEach(sink, sorted, records).Some?
            <==> records == [] || (ValidName(sink.table) && ValidNames(sink.fields) && !sink.dialect.Unsupported?)
    decreases |records|
  {
    if records != [] {
      EachIsNoneIff(sink, sorted, records[1..]);
    }
  }

  /**
    With configured fields, a batch is refused exactly when one-by-one inserts are, and
    otherwise inserts exactly the same rows in the same order: one row a record, every
    configured column with the record's value or null.
   */
  lemma {:induction false} BatchRefinesSingles(sink: Sink, sorted: set<string> -> seq<string>, records: seq<Record>)
    requires sink.fields != []
    ensures var batch, each := InsertBatch(sink, sorted, records), InsertEach(sink, sorted, records);
            && (batch.Some? <==> each.Some?)
            && (batch.Some? ==>
                  ExecuteAll(batch.value) == ExecuteAll(each.value) == Some(RowsOf(sink.fields, records)))
  {
    EachIsNoneIff(sink, sorted, records);
    var batch := InsertBatch(sink, sorted, records);
    if InsertEach(sink, sorted, records).Some? {
      SinglesInsert(sink, sorted, records);
      if |records| == 1 {
        SingleIsChunk(sink, sorted, records[0]);
        ChunkInserts(sink.dialect, sink.fields, [records[0]]);
        OneStatement(batch.value[0]);
        assert [records[0]] == records;
      } else if |records| > 1 {
        var n := ChunkSize(|sink.fields|);
        ChunksCover(records, n);
        ChunksInsert(sink.dialect, sink.fields, records, n, |batch.value|);
        assert batch.value[..|batch.value|] == batch.value;
        assert records[..|records|] == records;
      }
    }
  }

  /** Stopping after any number of statements, as a failing one does, leaves a prefix of the batch. */
  lemma {:induction false} FailureLeavesAPrefix(sink: Sink, sorted: set<string> -> seq<string>, records: seq<Record>,
                                                j: nat)
    requires sink.fields != [] && |records| > 1
    requires var batch := InsertBatch(sink, sorted, records); batch.Some? && j <= |batch.value|
    ensures var done := Min(j * ChunkSize(|sink.fields|), |records|);
            0 <= done && ExecuteAll(InsertBatch(sink, sorted, records).value[..j])
            == Some(RowsOf(sink.fields, records[..done]))
  {
    EachIsNoneIff(sink, sorted, records);
    ChunksInsert(sink.dialect, sink.fields, records, ChunkSize(|sink.fields|), j);
  }

  lemma {:induction false} ChunkParamsBound(fields: seq<string>, records: seq<Record>)
    ensures |ChunkParams(fields, records)| <= |records| * |fields|
    decreases |records|
  {
    if records != [] {
      ChunkParamsBound(fields, records[1..]);
      MulStep(|records|, |fields|);
    }
  }

  lemma {:induction false} ChunkStaysInLimits(d: Dialect, fields: seq<string>, chunk: seq<Record>)
    requires |chunk| <= ChunkSize(|fields|)
    ensures |ChunkSlots(d, fields, chunk, 1)| <= 256
    ensures |ChunkParams(fields, chunk)| <= if |fields| <= 900 then 900 else |fields|
  {
    var n := ChunkSize(|fields|);
    ChunkParamsBound(fields, chunk);
    MulMonotone(|chunk|, n, |fields|);
    SlotsCount(d, fields, chunk, 1);
  }

  /** Every statement of a batch has at most 256 rows, and at most 900 parameters if there are at most 900 fields. */
  lemma {:induction false} BatchesStayInLimits(sink: Sink, sorted: set<string> -> seq<string>, records: seq<Record>,
                                               i: nat)
    requires sink.fields != []
    requires var batch := InsertBatch(sink, sorted, records); batch.Some? && i < |batch.value|
    ensures var s := InsertBatch(sink, sorted, records).value[i];
            && s.Insert? && |s.rows| <= 256
            && |s.params| <= if |sink.fields| <= 900 then 900 else |sink.fields|
  {
    EachIsNoneIff(sink, sorted, records);
    if |records| == 1 {
      SingleIsChunk(sink, sorted, records[0]);
      ChunkStaysInLimits(sink.dialect, sink.fields, [records[0]]);
    } else {
      var n := ChunkSize(|sink.fields|);
      BatchRefinesSingles(sink, sorted, records);
      ChunksCover(records, n);
      ChunkStaysInLimits(sink.dialect, sink.fields, Chunks(records, n)[i]);
    }
  }

  lemma {:induction false} SlotsCount(d: Dialect, fields: seq<string>, records: seq<Record>, next: nat)
    ensures |ChunkSlots(d, fields, records, next)| == |records|
    decreases |records|
  {
    if records != [] {
      SlotsCount(d, fields, records[1..], next + |RowParams(CellsOf(fields, records[0]))|);
    }
  }

  // ----- Without configured fields -----

  /** The rows of one-by-one inserts: each record names its own columns. */
  function OwnRow(sorted: set<string> -> seq<string>, record: Record): Inserted {
    var fields := sorted(VisibleKeys(record));
    Inserted(fields, CellsOf(fields, record))
  }

  function OwnRows(sorted: set<string> -> seq<string>, records: seq<Record>): (rows: seq<Inserted>)
    ensures |rows| == |records| && forall i | 0 <= i < |rows| :: rows[i] == OwnRow(sorted, records[i])
  {
    seq(|records|, i requires 0 <= i < |records| => OwnRow(sorted, records[i]))
  }

  lemma {:induction false} OwnRowInserted(sink: Sink, sorted: set<string> -> seq<string>, record: Record)
    requires sink.fields == [] && InsertRecord(sink, sorted, record).Some?
    ensures |InsertRecord(sink, sorted, record).value| == 1
    ensures Execute(InsertRecord(sink, sorted, record).value[0]) == Some([OwnRow(sorted, record)])
  {
    var fields := sorted(VisibleKeys(record));
    if fields != [] {
      var configured := sink.(fields := fields);
      assert InsertRecord(sink, sorted, record) == InsertRecord(configured, sorted, record);
      SingleIsChunk(configured, sorted, record);
      ChunkInserts(sink.dialect, fields, [record]);
      assert RowsOf(fields, [record]) == [OwnRow(sorted, record)];
    }
  }

  lemma {:induction false} OwnRowsInserted(sink: Sink, sorted: set<string> -> seq<string>, records: seq<Record>)
    requires sink.fields == [] && InsertEach(sink, sorted, records).Some?
    ensures ExecuteAll(InsertEach(sink, sorted, records).value) == Some(OwnRows(sorted, records))
    decreases |records|
  {
    if records != [] {
      OwnRowInserted(sink, sorted, records[0]);
      OwnRowsInserted(sink, sorted, records[1..]);
      var first, more := InsertRecord(sink, sorted, records[0]).value, InsertEach(sink, sorted, records[1..]).value;
      assert first == [first[0]];
      ConcatSplits(first, more);
      assert OwnRows(sorted, records) == [OwnRow(sorted, records[0])] + OwnRows(sorted, records[1..]);
    }
  }

  /** Listing a set keeps its elements. */
  ghost predicate ListsElements(sorted: set<string> -> seq<string>) {
    forall names :: (forall x :: x in sorted(names) <==> x in names)
  }

  lemma {:induction false} ListingIsInjective(sorted: set<string> -> seq<string>, a: set<string>, b: set<string>)
    requires ListsElements(sorted) && sorted(a) == sorted(b)
    ensures a == b
  {
    assert forall x :: x in a <==> x in sorted(a);
    assert forall x :: x in b <==> x in sorted(b);
  }

  lemma {:induction false} KeysWithin(records: seq<Record>, i: nat)
    requires i < |records|
    ensures VisibleKeys(records[i]) <= AllKeys(records)
  {
    if i > 0 {
      KeysWithin(records[1..], i - 1);
    }
  }

  predicate SameKeys(records: seq<Record>) {
    forall i | 0 <= i < |records| :: VisibleKeys(records[i]) == AllKeys(records)
  }

  lemma {:induction false} BatchWithoutFields(sink: Sink, sorted: set<string> -> seq<string>, records: seq<Record>)
    requires sink.fields == [] && |records| > 1 && sorted(AllKeys(records)) != [] && !sink.dialect.Unsupported?
    requires InsertBatch(sink, sorted, records).Some?
    ensures ExecuteAll(InsertBatch(sink, sorted, records).value) == Some(RowsOf(sorted(AllKeys(records)), records))
  {
    var fields := sorted(AllKeys(records));
    var configured := sink.(fields := fields);
    assert InsertBatch(sink, sorted, records) == InsertBatch(configured, sorted, records);
    BatchRefinesSingles(configured, sorted, records);
  }

  /**
    Without configured fields a batch inserts the same rows as one-by-one inserts exactly when
    all its records have the same fields: otherwise the batch names a column that a record
    lacks and stores null where its own insert would leave the column's default.
   */
  lemma {:induction false} UnsetFieldsAgreeIff(sink: Sink, sorted: set<string> -> seq<string>, records: seq<Record>)
    requires sink.fields == [] && ListsElements(sorted) && |records| > 1
    requires InsertBatch(sink, sorted, records).Some? && InsertEach(sink, sorted, records).Some?
    ensures ExecuteAll(InsertBatch(sink, sorted, records).value) == ExecuteAll(InsertEach(sink, sorted, records).value)
            <==> SameKeys(records)
  {
    var fields := sorted(AllKeys(records));
    OwnRowsInserted(sink, sorted, records);
    if fields == [] {
      forall i | 0 <= i < |records|
        ensures VisibleKeys(records[i]) == AllKeys(records)
      {
        KeysWithin(records, i);
        assert forall x :: x in AllKeys(records) ==> x in fields;
      }
    } else {
      assert InsertRecord(sink, sorted, records[0]).Some?;
      BatchWithoutFields(sink, sorted, records);
      var batch, own := RowsOf(fields, records), OwnRows(sorted, records);
      if batch == own {
        forall i | 0 <= i < |records|
          ensures VisibleKeys(records[i]) == AllKeys(records)
        {
          assert batch[i] == own[i];
          ListingIsInjective(sorted, VisibleKeys(records[i]), AllKeys(records));
        }
      }
    }
  }

  /** One record with a field `a` and one with a field `b`: the batch stores nulls that single inserts do not name. */
  lemma {:induction false} MissingFieldsBecomeNull(sorted: set<string> -> seq<string>, x: Val, y: Val)
    requires ListsElements(sorted)
    ensures var sink := Sink(Sqlite, "t", []);
            var records: seq<Record> := [map["a" := Some(x)], map["b" := Some(y)]];
            var batch, each := InsertBatch(sink, sorted, records), InsertEach(sink, sorted, records);
            batch.Some? && each.Some? && ExecuteAll(batch.value) != ExecuteAll(each.value)
  {
    var sink := Sink(Sqlite, "t", []);
    var a: Record, b: Record := map["a" := Some(x)], map["b" := Some(y)];
    var records := [a, b];
    assert ValidName("t") && ValidName("a") && ValidName("b");
    assert records[1..] == [b] && records[1..][1..] == [];
    assert AllKeys([]) == {};
    assert AllKeys([b]) == VisibleKeys(b);
    assert "a" in VisibleKeys(a) && "a" !in VisibleKeys(b);
    KeysWithin(records, 0);
    assert forall k | k in AllKeys(records) :: k == "a" || k == "b";
    NamesAreValid(sorted, AllKeys(records));
    NamesAreValid(sorted, VisibleKeys(a));
    NamesAreValid(sorted, VisibleKeys(b));
    assert InsertEach(sink, sorted, []) == Some([]);
    assert InsertEach(sink, sorted, [b]).Some?;
    assert InsertEach(sink, sorted, records).Some?;
    assert VisibleKeys(records[1]) != AllKeys(records);
    UnsetFieldsAgreeIff(sink, sorted, records);
  }

  lemma {:induction false} NamesAreValid(sorted: set<string> -> seq<string>, names: set<string>)
    requires ListsElements(sorted) && forall n | n in names :: ValidName(n)
    ensures ValidNames(sorted(names))
  {
    forall i | 0 <= i < |sorted(names)|
      ensures ValidName(sorted(names)[i])
    {
      assert sorted(names)[i] in sorted(names);
    }
  }

  // ----- Value by value -----

  /**
    The executed batch, cell by cell and for any fields that are configured: row `i` has the value
    `v` in column `j` exactly if record `i` has `v` under that field, and null otherwise.
   */
  lemma {:induction false} BatchStoresValues(sink: Sink, sorted: set<string> -> seq<string>, records: seq<Record>)
    requires sink.fields != [] && InsertBatch(sink, sorted, records).Some?
    ensures var rows := ExecuteAll(InsertBatch(sink, sorted, records).value);
            && rows.Some? && |rows.value| == |records|
            && forall i, j | 0 <= i < |records| && 0 <= j < |sink.fields| ::
                 && rows.value[i].cols == sink.fields && |rows.value[i].vals| == |sink.fields|
                 && forall v :: rows.value[i].vals[j] == Some(v)
                                <==> sink.fields[j] in records[i] && records[i][sink.fields[j]] == Some(v)
  {
    BatchRefinesSingles(sink, sorted, records);
    var rows := RowsOf(sink.fields, records);
    forall i, j | 0 <= i < |records| && 0 <= j < |sink.fields|
      ensures rows[i].cols == sink.fields && |rows[i].vals| == |sink.fields|
      ensures forall v :: rows[i].vals[j] == Some(v)
                          <==> sink.fields[j] in records[i] && records[i][sink.fields[j]] == Some(v)
    {
      assert rows[i] == Inserted(sink.fields, CellsOf(sink.fields, records[i]));
    }
  }

  /** What is refused when fields are configured, and that an empty batch is nothing to do. */
  lemma {:induction false} BatchIsRefusedIff(sink: Sink, sorted: set<string> -> seq<string>, records: seq<Record>)
    requires sink.fields != []
    ensures InsertBatch(sink, sorted, records).None?
            <==> records != [] && (sink.dialect.Unsupported? || !ValidName(sink.table)
                                   || exists j :: 0 <= j < |sink.fields| && !ValidName(sink.fields[j]))
    ensures records == [] ==> InsertBatch(sink, sorted, records) == Some([])
  {
    if sink.dialect.Unsupported? {
      EachIsNoneIff(sink, sorted, records);
    }
  }

  /** So many records go into one statement, for some numbers of fields. */
  lemma {:induction false} ChunkSizes()
    ensures ChunkSize(0) == 256 && ChunkSize(3) == 256 && ChunkSize(4) == 225 && ChunkSize(10) == 90
    ensures ChunkSize(450) == 2 && ChunkSize(900) == 1 && ChunkSize(901) == 1
  {
  }

  /** ASCII letters, digits and the underscore, by their codes. */
  predicate NameCode(n: int) {
    65 <= n <= 90 || 97 <= n <= 122 || 48 <= n <= 57 || n == 95
  }

  /** A name consists of such characters, at least one, and does not begin with a digit. */
  lemma {:induction false} NamesAre(name: string)
    ensures ValidName(name) <==>
              && name != [] && !(48 <= name[0] as int <= 57)
              && forall i | 0 <= i < |name| :: NameCode(name[i] as int)
  {
    if ValidName(name) {
      forall i | 0 <= i < |name|
        ensures NameCode(name[i] as int)
      {
        assert name[i] in name;
      }
    }
    if name != [] && forall i | 0 <= i < |name| :: NameCode(name[i] as int) {
      forall c | c in name
        ensures Letter(c) || '0' <= c <= '9' || c == '_'
      {
        var i :| 0 <= i < |name| && name[i] == c;
        assert NameCode(name[i] as int);
      }
      assert NameCode(name[0] as int);
    }
  }

  /** SQLite gets a question mark for every value, PostgreSQL a number; nulls are written out. */
  lemma {:induction false} PlaceholdersAre(d: Dialect, cells: seq<Option<Val>>, next: nat, j: nat)
    requires !d.Unsupported? && j < |cells|
    ensures |RowSlots(d, cells, next)| == |cells|
    ensures var slot := RowSlots(d, cells, next)[j];
            && (slot.NullLiteral? <==> cells[j].None?)
            && (cells[j].Some? ==> if d == Sqlite then slot.Mark? else slot.Dollar?)
            && (slot.Dollar? ==> next <= slot.n <= next + j)
  {
    SlotsMatch(d, cells, next);
    if j > 0 {
      PlaceholdersAre(d, cells[1..], if cells[0].None? then next else next + 1, j - 1);
    }
  }

  lemma {:induction false} SlotsMatch(d: Dialect, cells: seq<Option<Val>>, next: nat)
    ensures |RowSlots(d, cells, next)| == |cells|
  {
    if cells != [] {
      SlotsMatch(d, cells[1..], if cells[0].None? then next else next + 1);
    }
  }

  /**
    A record on its own without configured fields: one statement, whose columns are the record's
    keys that do not start with two underscores, with their values; defaults if there are none.
   */
  lemma {:induction false} OwnColumns(sink: Sink, sorted: set<string> -> seq<string>, record: Record)
    requires sink.fields == [] && ListsElements(sorted) && InsertRecord(sink, sorted, record).Some?
    ensures |InsertRecord(sink, sorted, record).value| == 1
    ensures var rows := Execute(InsertRecord(sink, sorted, record).value[0]);
            && rows.Some? && |rows.value| == 1 && |rows.value[0].vals| == |rows.value[0].cols|
            && (forall k :: k in rows.value[0].cols <==> k in record && !("__" <= k))
            && (forall j | 0 <= j < |rows.value[0].cols| :: rows.value[0].vals[j] == record[rows.value[0].cols[j]])
  {
    OwnRowInserted(sink, sorted, record);
    var keys := VisibleKeys(record);
    forall k
      ensures k in sorted(keys) <==> k in record && !("__" <= k)
    {
      assert k in sorted(keys) <==> k in keys;
      TwoUnderscores(k);
    }
    var row := OwnRow(sorted, record);
    forall j | 0 <= j < |row.cols|
      ensures row.cols[j] in record && row.vals[j] == record[row.cols[j]]
    {
      assert row.cols[j] in sorted(keys);
    }
  }

  lemma {:induction false} TwoUnderscores(k: string)
    ensures "__" <= k <==> |k| >= 2 && k[0] == '_' && k[1] == '_'
  {
    if |k| >= 2 {
      assert k[..2] == [k[0], k[1]];
      assert "__"[0] == '_' && "__"[1] == '_';
    }
  }

  // ----- The source's loops -----

  lemma {:induction false} StepRow(d: Dialect, cells: seq<Option<Val>>, next: nat, slots: seq<Slot>, vals: seq<Val>)
    requires cells != []
    ensures var empty := cells[0].None?;
            && slots + RowSlots(d, cells, next)
               == (slots + [if empty then NullLiteral else if d.Sqlite? then Mark else Dollar(next)])
                  + RowSlots(d, cells[1..], if empty then next else next + 1)
            && vals + RowParams(cells) == (if empty then vals else vals + [cells[0].value]) + RowParams(cells[1..])
  {
    if cells[0].None? {
      ConcatAssociates(slots, [NullLiteral], RowSlots(d, cells[1..], next));
    } else {
      ConcatAssociates(slots, [if d.Sqlite? then Mark else Dollar(next)], RowSlots(d, cells[1..], next + 1));
      ConcatAssociates(vals, [cells[0].value], RowParams(cells[1..]));
    }
  }

  lemma {:induction false} CellsOfRest(fields: seq<string>, record: Record)
    requires fields != []
    ensures CellsOf(fields, record)[1..] == CellsOf(fields[1..], record)
  {
  }

  /** The inner loop: the placeholders of one row and the values they bind. */
  method BuildRow(d: Dialect, fields: seq<string>, record: Record, first: nat)
    returns (slots: seq<Slot>, vals: seq<Val>)
    ensures slots == RowSlots(d, CellsOf(fields, record), first) && vals == RowParams(CellsOf(fields, record))
  {
    slots, vals := [], [];
    var left, next := fields, first;
    ghost var cells := CellsOf(fields, record);
    assert [] + RowSlots(d, cells, first) == RowSlots(d, cells, first) && [] + RowParams(cells) == RowParams(cells);
    while left != []
      invariant RowSlots(d, cells, first) == slots + RowSlots(d, CellsOf(left, record), next)
      invariant RowParams(cells) == vals + RowParams(CellsOf(left, record))
      decreases |left|
    {
      StepRow(d, CellsOf(left, record), next, slots, vals);
      CellsOfRest(left, record);
      var val := Bind(record, left[0]);
      if val.Some? {
        slots, vals, next := slots + [if d.Sqlite? then Mark else Dollar(next)], vals + [val.value], next + 1;
      } else {
        slots := slots + [NullLiteral];
      }
      left := left[1..];
    }
  }

  lemma {:induction false} StepChunk(d: Dialect, fields: seq<string>, records: seq<Record>, next: nat,
                                     rows: seq<seq<Slot>>, vals: seq<Val>)
    requires records != []
    ensures var cells := CellsOf(fields, records[0]);
            && rows + ChunkSlots(d, fields, records, next)
               == (rows + [RowSlots(d, cells, next)]) + ChunkSlots(d, fields, records[1..], next + |RowParams(cells)|)
            && vals + ChunkParams(fields, records) == (vals + RowParams(cells)) + ChunkParams(fields, records[1..])
  {
    var cells := CellsOf(fields, records[0]);
    ConcatAssociates(rows, [RowSlots(d, cells, next)], ChunkSlots(d, fields, records[1..], next + |RowParams(cells)|));
    ConcatAssociates(vals, RowParams(cells), ChunkParams(fields, records[1..]));
  }

  /** The loop over the records of a chunk. */
  method BuildChunk(d: Dialect, fields: seq<string>, chunk: seq<Record>) returns (s: Statement)
    ensures s == ChunkStatement(d, fields, chunk)
  {
    var rows: seq<seq<Slot>>, allVals: seq<Val>, left, paramIdx: nat := [], [], chunk, 1;
    ghost var goalRows, goalVals := ChunkSlots(d, fields, chunk, 1), ChunkParams(fields, chunk);
    assert [] + goalRows == goalRows && [] + goalVals == goalVals;
    while left != []
      invariant goalRows == rows + ChunkSlots(d, fields, left, paramIdx)
      invariant goalVals == allVals + ChunkParams(fields, left)
      decreases |left|
    {
      StepChunk(d, fields, left, paramIdx, rows, allVals);
      var slots, vals := BuildRow(d, fields, left[0], paramIdx);
      rows, allVals, paramIdx := rows + [slots], allVals + vals, paramIdx + |vals|;
      left := left[1..];
    }
    s := Insert(fields, rows, allVals);
  }

  lemma {:induction false} FirstChunk(records: seq<Record>, n: nat)
    requires n > 0 && records != []
    ensures var k := Min(n, |records|);
            Chunks(records, n) == [records[..k]] + Chunks(records[k..], n)
  {
    if |records| <= n {
      assert records[..|records|] == records && records[|records|..] == [];
    }
  }

  /** The loop over chunks of `insert_batch`, for configured fields and a supported dialect. */
  method BuildBatch(d: Dialect, fields: seq<string>, records: seq<Record>) returns (ss: seq<Statement>)
    ensures ss == ChunkStatements(d, fields, Chunks(records, ChunkSize(|fields|)))
  {
    var n := ChunkSize(|fields|);
    ss := [];
    var left := records;
    ghost var goal := Chunks(records, n);
    ghost var done: seq<seq<Record>> := [];
    assert [] + goal == goal;
    while left != []
      invariant goal == done + Chunks(left, n)
      invariant ss == ChunkStatements(d, fields, done)
      decreases |left|
    {
      FirstChunk(left, n);
      var k := Min(n, |left|);
      var s := BuildChunk(d, fields, left[..k]);
      ConcatAssociates(done, [left[..k]], Chunks(left[k..], n));
      done := done + [left[..k]];
      ss, left := ss + [s], left[k..];
    }
    assert done + [] == done;
  }
}
