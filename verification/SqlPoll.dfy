/**
  Incremental polling of `sql.rs`: every poll asks for the rows above the tracked index values,
  in their order and up to a limit, and then moves the index to the last row it got. The
  database may give any answer that the query allows.
 */
module SqlPoll {
  import opened Common

  /** A row's non-null columns. */
  type Row = map<string, int>
  /** The tracked index columns with their current values. */
  type Index = seq<(string, int)>

  // ----- The query (sql.rs:259-296) -----

  /** The WHERE clause: above the index in every column. */
  predicate Eligible(row: Row, index: Index) {
    forall i | 0 <= i < |index| :: index[i].0 in row && row[index[i].0] > index[i].1
  }

  /** The ORDER BY clause: column by column, ascending. */
  predicate Ordered(a: Row, b: Row, index: Index) {
    index == [] ||
    var k := index[0].0;
    k in a && k in b && (a[k] < b[k] || (a[k] == b[k] && Ordered(a, b, index[1..])))
  }

  /** `rows` is an answer to the query; `limit` 0 is no limit. */
  predicate Answers(table: set<Row>, index: Index, limit: nat, rows: seq<Row>) {
    && (forall i | 0 <= i < |rows| :: rows[i] in table && Eligible(rows[i], index))
    && (forall i, j | 0 <= i < j < |rows| :: rows[i] != rows[j] && Ordered(rows[i], rows[j], index))
    && (limit > 0 ==> |rows| <= limit)
    && (forall r | r in table && Eligible(r, index) && r !in rows ::
          limit > 0 && |rows| == limit && forall i | 0 <= i < |rows| :: Ordered(rows[i], r, index))
  }

  // ----- Moving the index (sql.rs:302-310) -----

  function AdvanceOne(pair: (string, int), row: Row): (string, int) {
    if pair.0 in row then (pair.0, row[pair.0]) else pair
  }

  function Advance(index: Index, row: Row): (r: Index)
    ensures |r| == |index| && forall i | 0 <= i < |r| :: r[i] == AdvanceOne(index[i], row)
  {
    seq(|index|, i requires 0 <= i < |index| => AdvanceOne(index[i], row))
  }

  /** Last row wins. */
  function AdvanceAll(index: Index, rows: seq<Row>): Index
    decreases |rows|
  {
    if rows == [] then index else AdvanceAll(Advance(index, rows[0]), rows[1..])
  }

  /** `advance_index`, in place. */
  method AdvanceIndex(index: array<(string, int)>, rows: seq<Row>)
    modifies index
    ensures index[..] == AdvanceAll(old(index[..]), rows)
  {
    var left := rows;
    while left != []
      invariant AdvanceAll(old(index[..]), rows) == AdvanceAll(index[..], left)
      decreases |left|
    {
      var row := left[0];
      ghost var before := index[..];
      for j := 0 to index.Length
        invariant index[j..] == before[j..]
        invariant forall i | 0 <= i < j :: index[i] == AdvanceOne(before[i], row)
      {
        assert index[j] == index[j..][0] == before[j];
        if index[j].0 in row {
          index[j] := (index[j].0, row[index[j].0]);
        }
      }
      assert index[..] == Advance(before, row);
      left := left[1..];
    }
  }

  /** Each column goes to its value in the last row that has it, and stays if none does; no column is lost. */
  lemma {:induction false} IndexFollowsRows(index: Index, rows: seq<Row>, i: nat)
    requires i < |index|
    ensures var (r, k) := (AdvanceAll(index, rows), index[i].0);
            && |r| == |index| && r[i].0 == k
            && ((forall j | 0 <= j < |rows| :: k !in rows[j]) ==> r[i].1 == index[i].1)
            && (forall j | 0 <= j < |rows| && k in rows[j] && (forall m | j < m < |rows| :: k !in rows[m]) ::
                  r[i].1 == rows[j][k])
    decreases |rows|
  {
    if rows != [] {
      var next, rest := Advance(index, rows[0]), rows[1..];
      assert next[i] == AdvanceOne(index[i], rows[0]);
      IndexFollowsRows(next, rest, i);
      var k := index[i].0;
      forall j | 0 <= j < |rows| && k in rows[j] && (forall m | j < m < |rows| :: k !in rows[m])
        ensures AdvanceAll(index, rows)[i].1 == rows[j][k]
      {
        forall m | 0 <= m < |rest|
          ensures rest[m] == rows[m + 1]
        {
        }
        if j > 0 {
          assert rest[j - 1] == rows[j];
        }
      }
    }
  }

  // ----- Runs -----

  datatype State = State(table: set<Row>, index: Index, emitted: seq<Row>)

  datatype Event = Poll(rows: seq<Row>) | FailedPoll | Insert(row: Row) | Delete(row: Row)

  predicate Enabled(s: State, limit: nat, e: Event) {
    e.Poll? ==> Answers(s.table, s.index, limit, e.rows)
  }

  /** `poll_once`, and what others do to the table meanwhile. */
  function Next(s: State, e: Event): State {
    match e
    case Poll(rows) => s.(index := AdvanceAll(s.index, rows), emitted := s.emitted + rows)
    case FailedPoll => s
    case Insert(row) => s.(table := s.table + {row})
    case Delete(row) => s.(table := s.table - {row})
  }

  predicate Runs(s: State, limit: nat, events: seq<Event>)
    decreases |events|
  {
    events == [] || (Enabled(s, limit, events[0]) && Runs(Next(s, events[0]), limit, events[1..]))
  }

  function After(s: State, events: seq<Event>): State
    decreases |events|
  {
    if events == [] then s else After(Next(s, events[0]), events[1..])
  }

  // ----- Exactly once -----

  /** Lower in every index column. */
  predicate Below(a: Row, b: Row, index: Index) {
    forall i | 0 <= i < |index| :: index[i].0 in a && index[i].0 in b && a[index[i].0] < b[index[i].0]
  }

  /** At or below the index in every column. */
  predicate AtMost(row: Row, index: Index) {
    forall i | 0 <= i < |index| :: index[i].0 in row && row[index[i].0] <= index[i].1
  }

  /** Of any two rows above the index, one is below the other in every index column. */
  predicate Chain(table: set<Row>, index: Index) {
    forall a, b | a in table && b in table && a != b && Eligible(a, index) && Eligible(b, index) ::
      Below(a, b, index) || Below(b, a, index)
  }

  /** With one column: no two rows share its value. */
  predicate Distinct(table: set<Row>, k: string) {
    forall a, b | a in table && b in table && k in a && k in b && a[k] == b[k] :: a == b
  }

  lemma {:induction false} DistinctIsChain(table: set<Row>, k: string, v: int)
    requires Distinct(table, k)
    ensures Chain(table, [(k, v)])
  {
    var index := [(k, v)];
    forall a, b | a in table && b in table && a != b && Eligible(a, index) && Eligible(b, index)
      ensures Below(a, b, index) || Below(b, a, index)
    {
      assert index[0] == (k, v);
    }
  }

  /** `index` has the columns of `first` and has only grown. */
  predicate Grown(first: Index, index: Index) {
    |index| == |first| && forall i | 0 <= i < |index| :: index[i].0 == first[i].0 && first[i].1 <= index[i].1
  }

  /** Strictly ascending in every column, above `first` and up to `index`. */
  predicate Climbs(rows: seq<Row>, first: Index, index: Index) {
    && (forall i | 0 <= i < |rows| :: Eligible(rows[i], first) && AtMost(rows[i], index))
    && (forall i, j | 0 <= i < j < |rows| :: Below(rows[i], rows[j], first))
  }

  /** Every row of the table above `first` was emitted or is still above the index. */
  predicate Complete(s: State, first: Index) {
    forall r | r in s.table && Eligible(r, first) :: r in s.emitted || Eligible(r, s.index)
  }

  predicate Inv(s: State, first: Index) {
    && first != [] && Grown(first, s.index) && Chain(s.table, first)
    && Climbs(s.emitted, first, s.index) && Complete(s, first)
  }

  /** An insertion that the source can no longer see: above `first`, not above the index, and new. */
  predicate Late(s: State, first: Index, e: Event) {
    e.Insert? && Eligible(e.row, first) && !Eligible(e.row, s.index) && e.row !in s.emitted
  }

  /** After rows that have every index column, the index is the last of them. */
  lemma {:induction false} AdvanceAllLast(index: Index, rows: seq<Row>)
    requires forall i, j | 0 <= i < |index| && 0 <= j < |rows| :: index[i].0 in rows[j]
    ensures var r := AdvanceAll(index, rows);
            && |r| == |index|
            && forall i | 0 <= i < |r| ::
                 r[i] == (index[i].0, if rows == [] then index[i].1 else rows[|rows| - 1][index[i].0])
    decreases |rows|
  {
    if rows != [] {
      AdvanceAllLast(Advance(index, rows[0]), rows[1..]);
    }
  }

  lemma {:induction false} AnswersHaveColumns(table: set<Row>, index: Index, limit: nat, rows: seq<Row>)
    requires Answers(table, index, limit, rows)
    ensures forall i, j | 0 <= i < |index| && 0 <= j < |rows| ::
              index[i].0 in rows[j] && rows[j][index[i].0] > index[i].1
  {
  }

  /** After an answer a row is above the index exactly if the last returned row is below it. */
  lemma {:induction false} AfterAnswer(table: set<Row>, index: Index, limit: nat, rows: seq<Row>)
    requires Answers(table, index, limit, rows) && rows != []
    ensures var after := AdvanceAll(index, rows);
            && Grown(index, after)
            && (forall r: Row :: Eligible(r, after) <==> Below(rows[|rows| - 1], r, index))
            && (forall r: Row :: AtMost(r, after) <==>
                  forall i | 0 <= i < |index| :: index[i].0 in r && r[index[i].0] <= rows[|rows| - 1][index[i].0])
  {
    AnswersHaveColumns(table, index, limit, rows);
    AdvanceAllLast(index, rows);
  }

  /** Rows that are comparable in every column are sorted in every column. */
  lemma {:induction false} OrderedIsBelow(a: Row, b: Row, index: Index)
    requires index != [] && Ordered(a, b, index) && (Below(a, b, index) || Below(b, a, index))
    ensures Below(a, b, index)
  {
    assert index[0].0 in a && index[0].0 in b;
  }

  lemma {:induction false} AnswerClimbs(table: set<Row>, index: Index, limit: nat, rows: seq<Row>)
    requires index != [] && Chain(table, index) && Answers(table, index, limit, rows)
    ensures forall i, j | 0 <= i < j < |rows| :: Below(rows[i], rows[j], index)
    ensures forall r | r in table && Eligible(r, index) && r !in rows :: Eligible(r, AdvanceAll(index, rows))
  {
    forall i, j | 0 <= i < j < |rows|
      ensures Below(rows[i], rows[j], index)
    {
      OrderedIsBelow(rows[i], rows[j], index);
    }
    if rows != [] {
      AfterAnswer(table, index, limit, rows);
      forall r | r in table && Eligible(r, index) && r !in rows
        ensures Eligible(r, AdvanceAll(index, rows))
      {
        var last := rows[|rows| - 1];
        assert last in rows;
        OrderedIsBelow(last, r, index);
      }
    }
  }

  lemma {:induction false} ChainAbove(table: set<Row>, first: Index, index: Index)
    requires Chain(table, first) && Grown(first, index)
    ensures Chain(table, index)
  {
    forall a, b | a in table && b in table && a != b && Eligible(a, index) && Eligible(b, index)
      ensures Below(a, b, index) || Below(b, a, index)
    {
      StillEligible(a, first, index);
      StillEligible(b, first, index);
      SameColumns(a, b, first, index);
      SameColumns(b, a, first, index);
    }
  }

  lemma {:induction false} StillEligible(r: Row, first: Index, index: Index)
    requires Grown(first, index) && Eligible(r, index)
    ensures Eligible(r, first)
  {
    forall i | 0 <= i < |first|
      ensures first[i].0 in r && r[first[i].0] > first[i].1
    {
      assert index[i].0 == first[i].0;
    }
  }

  lemma {:induction false} SameColumns(a: Row, b: Row, first: Index, index: Index)
    requires Grown(first, index)
    ensures Below(a, b, index) <==> Below(a, b, first)
  {
    forall i | 0 <= i < |first|
      ensures index[i].0 == first[i].0
    {
    }
  }

  lemma {:induction false} ClimbsOn(a: seq<Row>, b: seq<Row>, first: Index, mid: Index, index: Index)
    requires Grown(first, mid) && Grown(mid, index) && Climbs(a, first, mid) && Climbs(b, mid, index)
    ensures Climbs(a + b, first, index)
  {
    var rows := a + b;
    forall i | 0 <= i < |rows|
      ensures Eligible(rows[i], first) && AtMost(rows[i], index)
    {
      if i < |a| {
        StillAtMost(a[i], mid, index);
      } else {
        StillEligible(b[i - |a|], first, mid);
      }
    }
    forall i, j | 0 <= i < j < |rows|
      ensures Below(rows[i], rows[j], first)
    {
      if i < |a| <= j {
        MidIsBetween(a[i], b[j - |a|], first, mid);
      } else if |a| <= i {
        SameColumns(b[i - |a|], b[j - |a|], first, mid);
      }
    }
  }

  lemma {:induction false} StillAtMost(r: Row, mid: Index, index: Index)
    requires Grown(mid, index) && AtMost(r, mid)
    ensures AtMost(r, index)
  {
    forall i | 0 <= i < |index|
      ensures index[i].0 in r && r[index[i].0] <= index[i].1
    {
      assert mid[i].0 == index[i].0;
    }
  }

  lemma {:induction false} MidIsBetween(a: Row, b: Row, first: Index, mid: Index)
    requires Grown(first, mid) && AtMost(a, mid) && Eligible(b, mid)
    ensures Below(a, b, first)
  {
    forall i | 0 <= i < |first|
      ensures first[i].0 in a && first[i].0 in b && a[first[i].0] < b[first[i].0]
    {
      assert mid[i].0 == first[i].0;
    }
  }

  lemma {:induction false} GrownTwice(first: Index, mid: Index, index: Index)
    requires Grown(first, mid) && Grown(mid, index)
    ensures Grown(first, index)
  {
    forall i | 0 <= i < |index|
      ensures index[i].0 == first[i].0 && first[i].1 <= index[i].1
    {
      assert mid[i].0 == first[i].0;
    }
  }

  /** The rows of an answer climb from the old index to the new one. */
  lemma {:induction false} AnswerIsASegment(table: set<Row>, index: Index, limit: nat, rows: seq<Row>)
    requires index != [] && Chain(table, index) && Answers(table, index, limit, rows)
    ensures Grown(index, AdvanceAll(index, rows)) && Climbs(rows, index, AdvanceAll(index, rows))
  {
    AnswerClimbs(table, index, limit, rows);
    if rows != [] {
      AfterAnswer(table, index, limit, rows);
      var last := rows[|rows| - 1];
      forall j | 0 <= j < |rows|
        ensures AtMost(rows[j], AdvanceAll(index, rows))
      {
        assert j == |rows| - 1 || Below(rows[j], last, index);
        assert Eligible(last, index);
      }
    }
  }

  lemma {:induction false} PollKeepsInv(s: State, first: Index, limit: nat, rows: seq<Row>)
    requires Inv(s, first) && Answers(s.table, s.index, limit, rows)
    ensures Inv(Next(s, Poll(rows)), first)
  {
    var index := AdvanceAll(s.index, rows);
    ChainAbove(s.table, first, s.index);
    AnswerIsASegment(s.table, s.index, limit, rows);
    AnswerClimbs(s.table, s.index, limit, rows);
    ClimbsOn(s.emitted, rows, first, s.index, index);
    GrownTwice(first, s.index, index);
  }

  /** Inserting keeps the rows comparable. */
  predicate Fresh(s: State, first: Index, e: Event) {
    e.Insert? ==> Chain(s.table + {e.row}, first)
  }

  /** A step keeps everything exactly when it does not insert a row behind the index. */
  lemma {:induction false} StepKeepsInvIff(s: State, first: Index, limit: nat, e: Event)
    requires Inv(s, first) && Enabled(s, limit, e) && Fresh(s, first, e)
    ensures Inv(Next(s, e), first) <==> !Late(s, first, e)
  {
    if e.Poll? {
      PollKeepsInv(s, first, limit, e.rows);
    }
    if Late(s, first, e) {
      assert e.row in Next(s, e).table;
    }
  }

  /** No insertion is late or incomparable to a row of the table. */
  predicate Orderly(s: State, first: Index, events: seq<Event>)
    decreases |events|
  {
    events == [] ||
    (Fresh(s, first, events[0]) && !Late(s, first, events[0]) && Orderly(Next(s, events[0]), first, events[1..]))
  }

  /** A source that starts at `first` and has emitted nothing. */
  predicate Initial(s: State, first: Index) {
    first != [] && s.index == first && s.emitted == [] && Chain(s.table, first)
  }

  lemma {:induction false} RunsKeepInv(s: State, first: Index, limit: nat, events: seq<Event>)
    requires Inv(s, first) && Runs(s, limit, events) && Orderly(s, first, events)
    ensures Inv(After(s, events), first)
    decreases |events|
  {
    if events != [] {
      StepKeepsInvIff(s, first, limit, events[0]);
      RunsKeepInv(Next(s, events[0]), first, limit, events[1..]);
    }
  }

  /**
    With any number of index columns in which the rows form a chain, over every run of polls,
    failed polls, deletions and insertions above the index, whatever the limit: emission
    strictly ascends in every column, so no row comes twice, and every row of the table above
    the initial index has been emitted or is still above the tracked one.
   */
  lemma {:induction false} ExactlyOnce(s: State, first: Index, limit: nat, events: seq<Event>)
    requires Initial(s, first) && Runs(s, limit, events) && Orderly(s, first, events)
    ensures var n := After(s, events);
            && (forall i, j | 0 <= i < j < |n.emitted| :: Below(n.emitted[i], n.emitted[j], first))
            && (forall r | r in n.table && Eligible(r, first) :: r in n.emitted || Eligible(r, n.index))
            && (forall r | r in n.emitted :: Eligible(r, first) && AtMost(r, n.index))
  {
    RunsKeepInv(s, first, limit, events);
  }

  /** A poll that is not cut off by the limit leaves no row behind. */
  lemma {:induction false} ShortPollDrains(s: State, first: Index, limit: nat, rows: seq<Row>)
    requires Inv(s, first) && Answers(s.table, s.index, limit, rows) && (limit == 0 || |rows| < limit)
    ensures forall r | r in s.table && Eligible(r, first) :: r in Next(s, Poll(rows)).emitted
  {
  }

  // ----- Without a limit -----

  lemma {:induction false} OrderedByNames(a: Row, b: Row, first: Index, index: Index)
    requires Grown(first, index)
    ensures Ordered(a, b, index) <==> Ordered(a, b, first)
    decreases |first|
  {
    if first != [] {
      assert index[0].0 == first[0].0;
      forall i | 0 <= i < |first[1..]|
        ensures index[1..][i].0 == first[1..][i].0 && first[1..][i].1 <= index[1..][i].1
      {
        assert index[i + 1].0 == first[i + 1].0;
      }
      OrderedByNames(a, b, first[1..], index[1..]);
    }
  }

  /** In order, each row once, above `first`, and not above the first column of the index. */
  predicate Sequence(rows: seq<Row>, first: Index, index: Index)
    requires first != [] && Grown(first, index)
  {
    && (forall i | 0 <= i < |rows| ::
          Eligible(rows[i], first) && first[0].0 in rows[i] && rows[i][first[0].0] <= index[0].1)
    && (forall i, j | 0 <= i < j < |rows| :: rows[i] != rows[j] && Ordered(rows[i], rows[j], first))
  }

  predicate UnlimitedInv(s: State, first: Index) {
    first != [] && Grown(first, s.index) && Sequence(s.emitted, first, s.index) && Complete(s, first)
  }

  lemma {:induction false} AnswerIsASequence(s: State, first: Index, rows: seq<Row>)
    requires first != [] && Grown(first, s.index) && Answers(s.table, s.index, 0, rows)
    ensures var index := AdvanceAll(s.index, rows);
            Grown(s.index, index) && Grown(first, index) && Sequence(rows, first, index)
    ensures forall i | 0 <= i < |rows| :: rows[i][first[0].0] > s.index[0].1
  {
    var index := AdvanceAll(s.index, rows);
    AnswersHaveColumns(s.table, s.index, 0, rows);
    AdvanceAllLast(s.index, rows);
    GrownTwice(first, s.index, index);
    assert s.index[0].0 == first[0].0;
    forall i | 0 <= i < |rows|
      ensures Eligible(rows[i], first) && rows[i][first[0].0] <= index[0].1
    {
      StillEligible(rows[i], first, s.index);
      assert i == |rows| - 1 || Ordered(rows[i], rows[|rows| - 1], s.index);
    }
    forall i, j | 0 <= i < j < |rows|
      ensures rows[i] != rows[j] && Ordered(rows[i], rows[j], first)
    {
      OrderedByNames(rows[i], rows[j], first, s.index);
    }
  }

  lemma {:induction false} SequenceOn(a: seq<Row>, b: seq<Row>, first: Index, mid: Index, index: Index)
    requires first != [] && Grown(first, mid) && Grown(mid, index) && Grown(first, index)
    requires Sequence(a, first, mid) && Sequence(b, first, index)
    requires forall j | 0 <= j < |b| :: b[j][first[0].0] > mid[0].1
    ensures Sequence(a + b, first, index)
  {
    var rows, k := a + b, first[0].0;
    assert mid[0].0 == k && index[0].0 == k && mid[0].1 <= index[0].1;
    forall i, j | 0 <= i < j < |rows|
      ensures rows[i] != rows[j] && Ordered(rows[i], rows[j], first)
    {
      if i < |a| <= j {
        assert rows[i] == a[i] && rows[j] == b[j - |a|];
        assert a[i][k] < b[j - |a|][k];
      }
    }
  }

  lemma {:induction false} StepKeepsUnlimitedInvIff(s: State, first: Index, e: Event)
    requires UnlimitedInv(s, first) && Enabled(s, 0, e)
    ensures UnlimitedInv(Next(s, e), first) <==> !Late(s, first, e)
  {
    if e.Poll? {
      AnswerIsASequence(s, first, e.rows);
      SequenceOn(s.emitted, e.rows, first, s.index, AdvanceAll(s.index, e.rows));
    }
    if Late(s, first, e) {
      assert e.row in Next(s, e).table;
    }
  }

  /** No insertion is late. */
  predicate Timely(s: State, first: Index, events: seq<Event>)
    decreases |events|
  {
    events == [] || (!Late(s, first, events[0]) && Timely(Next(s, events[0]), first, events[1..]))
  }

  lemma {:induction false} RunsKeepUnlimitedInv(s: State, first: Index, events: seq<Event>)
    requires UnlimitedInv(s, first) && Runs(s, 0, events) && Timely(s, first, events)
    ensures UnlimitedInv(After(s, events), first)
    decreases |events|
  {
    if events != [] {
      StepKeepsUnlimitedInvIff(s, first, events[0]);
      RunsKeepUnlimitedInv(Next(s, events[0]), first, events[1..]);
    }
  }

  /**
    Without a limit no chain is needed: for any rows and index columns, over every run without
    late insertions, rows are emitted in the order of the query, none twice, and every row of the
    table above the initial index has been emitted or is still above the tracked one.
   */
  lemma {:induction false} ExactlyOnceUnlimited(s: State, first: Index, events: seq<Event>)
    requires first != [] && s.index == first && s.emitted == [] && Runs(s, 0, events) && Timely(s, first, events)
    ensures var n := After(s, events);
            && (forall i, j | 0 <= i < j < |n.emitted| ::
                  n.emitted[i] != n.emitted[j] && Ordered(n.emitted[i], n.emitted[j], first))
            && (forall r | r in n.table && Eligible(r, first) :: r in n.emitted || Eligible(r, n.index))
            && (forall r | r in n.emitted :: Eligible(r, first) && !Eligible(r, n.index))
  {
    RunsKeepUnlimitedInv(s, first, events);
    var n := After(s, events);
    forall r | r in n.emitted
      ensures Eligible(r, first) && !Eligible(r, n.index)
    {
      assert n.index[0].0 == first[0].0;
    }
  }

  // ----- Rows that are lost -----

  /** The index grows in every column, so what is not above it never will be. */
  lemma {:induction false} IneligibleStays(s: State, limit: nat, e: Event, row: Row)
    requires Enabled(s, limit, e) && !Eligible(row, s.index)
    ensures !Eligible(row, Next(s, e).index)
    ensures row in Next(s, e).emitted ==> row in s.emitted
  {
    if e.Poll? {
      AnswersHaveColumns(s.table, s.index, limit, e.rows);
      AdvanceAllLast(s.index, e.rows);
      var i :| 0 <= i < |s.index| && !(s.index[i].0 in row && row[s.index[i].0] > s.index[i].1);
      assert Next(s, e).index[i].0 == s.index[i].0 && Next(s, e).index[i].1 >= s.index[i].1;
    }
  }

  /** With any index columns: a row that is not above the index is not emitted in any later run. */
  lemma {:induction false} PassedRowsAreLost(s: State, limit: nat, events: seq<Event>, row: Row)
    requires Runs(s, limit, events) && !Eligible(row, s.index) && row !in s.emitted
    ensures row !in After(s, events).emitted
    decreases |events|
  {
    if events != [] {
      IneligibleStays(s, limit, events[0], row);
      PassedRowsAreLost(Next(s, events[0]), limit, events[1..], row);
    }
  }

  /** The row has every index column. */
  predicate HasColumns(row: Row, index: Index) {
    forall i | 0 <= i < |index| :: index[i].0 in row
  }

  lemma {:induction false} OrderedTotal(a: Row, b: Row, index: Index)
    requires HasColumns(a, index) && HasColumns(b, index)
    ensures Ordered(a, b, index) || Ordered(b, a, index)
    decreases |index|
  {
    if index != [] {
      RestHasColumns(a, index);
      RestHasColumns(b, index);
      OrderedTotal(a, b, index[1..]);
    }
  }

  lemma {:induction false} RestHasColumns(r: Row, index: Index)
    requires index != [] && HasColumns(r, index)
    ensures index[0].0 in r && HasColumns(r, index[1..])
  {
    forall i | 0 <= i < |index[1..]|
      ensures index[1..][i].0 in r
    {
      assert index[1..][i] == index[i + 1];
    }
  }

  lemma {:induction false} OrderedTransitive(a: Row, b: Row, c: Row, index: Index)
    requires Ordered(a, b, index) && Ordered(b, c, index)
    ensures Ordered(a, c, index)
    decreases |index|
  {
    if index != [] && a[index[0].0] == b[index[0].0] == c[index[0].0] {
      OrderedTransitive(a, b, c, index[1..]);
    }
  }

  lemma {:induction false} FirstRow(rows: set<Row>, index: Index) returns (m: Row)
    requires rows != {} && forall r | r in rows :: HasColumns(r, index)
    ensures m in rows && forall r | r in rows :: Ordered(m, r, index)
    decreases |rows|
  {
    var x :| x in rows;
    OrderedTotal(x, x, index);
    m := x;
    if rows != {x} {
      var n := FirstRow(rows - {x}, index);
      OrderedTotal(x, n, index);
      if Ordered(x, n, index) {
        forall r | r in rows - {x}
          ensures Ordered(x, r, index)
        {
          OrderedTransitive(x, n, r, index);
        }
      } else {
        m := n;
      }
    }
  }

  /** Each row once, in the order of the query. */
  ghost predicate Sorted(q: seq<Row>, index: Index) {
    forall i, j | 0 <= i < j < |q| :: q[i] != q[j] && Ordered(q[i], q[j], index)
  }

  lemma {:induction false} SortRows(rows: set<Row>, index: Index) returns (q: seq<Row>)
    requires forall r | r in rows :: HasColumns(r, index)
    ensures Sorted(q, index) && forall r :: r in q <==> r in rows
    decreases |rows|
  {
    if rows == {} {
      q := [];
    } else {
      var m := FirstRow(rows, index);
      var more := SortRows(rows - {m}, index);
      q := [m] + more;
      forall i, j | 0 <= i < j < |q|
        ensures q[i] != q[j] && Ordered(q[i], q[j], index)
      {
        assert q[j] == more[j - 1] && more[j - 1] in more;
        if i > 0 {
          assert q[i] == more[i - 1];
        }
      }
    }
  }

  /** Two rows of which neither is below the other: an answer that stops at the first loses the second. */
  lemma {:induction false} AnswerUpTo(table: set<Row>, index: Index, a: Row, b: Row) returns (rows: seq<Row>)
    requires a in table && b in table && a != b && Eligible(a, index) && Eligible(b, index) && Ordered(a, b, index)
    ensures rows != [] && rows[|rows| - 1] == a && b !in rows && Answers(table, index, |rows|, rows)
  {
    var before := set x | x in table && Eligible(x, index) && x != a && x != b && Ordered(x, a, index);
    var q := SortRows(before, index);
    rows := q + [a];
    forall i, j | 0 <= i < j < |rows|
      ensures rows[i] != rows[j] && Ordered(rows[i], rows[j], index)
    {
      assert rows[i] == q[i] && q[i] in before;
    }
    forall r | r in table && Eligible(r, index) && r !in rows
      ensures forall i | 0 <= i < |rows| :: Ordered(rows[i], r, index)
    {
      OrderedTotal(a, r, index);
      assert r !in q && r != a by {
        assert rows[|q|] == a;
        assert forall x | x in q :: x in rows;
      }
      assert Ordered(a, r, index);
      forall i | 0 <= i < |rows|
        ensures Ordered(rows[i], r, index)
      {
        if i < |q| {
          assert q[i] in before;
          OrderedTransitive(q[i], a, r, index);
        }
      }
    }
    forall i | 0 <= i < |rows|
      ensures rows[i] in table && Eligible(rows[i], index)
    {
      if i < |q| {
        assert q[i] in before;
      }
    }
  }

  /** No answer, whatever the limit, puts a row of the table out of reach that it does not return. */
  ghost predicate NothingLost(table: set<Row>, index: Index) {
    forall limit: nat, rows: seq<Row>, r: Row ::
      Answers(table, index, limit, rows) && r in table && Eligible(r, index) && r !in rows
      ==> Eligible(r, AdvanceAll(index, rows))
  }

  /** Without a chain some answer to the query loses a row. */
  lemma {:induction false} IncomparableRowsAreLost(table: set<Row>, index: Index)
    returns (limit: nat, rows: seq<Row>, lost: Row)
    requires index != [] && !Chain(table, index)
    ensures Answers(table, index, limit, rows) && lost in table && Eligible(lost, index)
    ensures lost !in rows && !Eligible(lost, AdvanceAll(index, rows))
  {
    var a, b :| a in table && b in table && a != b && Eligible(a, index) && Eligible(b, index)
                && !Below(a, b, index) && !Below(b, a, index);
    OrderedTotal(a, b, index);
    if !Ordered(a, b, index) {
      a, b := b, a;
    }
    rows := AnswerUpTo(table, index, a, b);
    limit, lost := |rows|, b;
    AfterAnswer(table, index, limit, rows);
  }

  /**
    Polls can lose no row, whatever the limit and the database's choice, if and only if the rows
    above the index form a chain. With one column that is: no two of them share its value.
   */
  lemma {:induction false} NothingLostIff(table: set<Row>, index: Index)
    requires index != []
    ensures NothingLost(table, index) <==> Chain(table, index)
  {
    if Chain(table, index) {
      forall limit: nat, rows: seq<Row>, r: Row |
        Answers(table, index, limit, rows) && r in table && Eligible(r, index) && r !in rows
        ensures Eligible(r, AdvanceAll(index, rows))
      {
        AnswerClimbs(table, index, limit, rows);
      }
    } else {
      var limit, rows, lost := IncomparableRowsAreLost(table, index);
    }
  }

  /**
    With two columns the WHERE clause asks for more in both, so a row that is later in the
    order but lower in the second column is passed over for good.
   */
  lemma {:induction false} TwoColumnsLoseRows()
    ensures var a: Row := map["a" := 1, "b" := 5];
            var b: Row := map["a" := 2, "b" := 3];
            var s := State({a, b}, [("a", 0), ("b", 0)], []);
            && Eligible(b, s.index) && Answers(s.table, s.index, 1, [a])
            && !Eligible(b, Next(s, Poll([a])).index) && Answers(s.table, Next(s, Poll([a])).index, 1, [])
  {
    var a: Row := map["a" := 1, "b" := 5];
    var b: Row := map["a" := 2, "b" := 3];
    var s := State({a, b}, [("a", 0), ("b", 0)], []);
    assert a["a"] == 1 && b["a"] == 2;
    assert Ordered(a, b, s.index);
    var index := Next(s, Poll([a])).index;
    assert [a][1..] == [];
    assert index == AdvanceAll(Advance(s.index, a), []);
    assert index == [("a", 1), ("b", 5)];
    assert index[0] == ("a", 1) && index[1] == ("b", 5);
    assert !Eligible(a, index) && !Eligible(b, index);
  }

  // ----- The source object -----

  class SqlSource {
    const index: array<(string, int)>
    ghost var emitted: seq<Row>

    constructor (pairs: array<(string, int)>)
      ensures index == pairs && emitted == []
    {
      index, emitted := pairs, [];
    }

    /** `poll_once`: `answer` is what the database gave, `None` when the query failed. */
    method PollOnce(answer: Option<seq<Row>>) returns (rows: Option<seq<Row>>)
      modifies this, index
      ensures rows == answer
      ensures forall table ::
                var e := if answer.None? then FailedPoll else Poll(answer.value);
                State(table, index[..], emitted) == Next(State(table, old(index[..]), old(emitted)), e)
    {
      if answer.Some? {
        AdvanceIndex(index, answer.value);
        emitted := emitted + answer.value;
      }
      rows := answer;
    }
  }
}
