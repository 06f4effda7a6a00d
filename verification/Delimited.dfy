/**
  The delimited codec of `codec.rs`: quoting cells as section 2 of RFC 4180 does, joining
  them into a line, and splitting a line back into fields.
 */
module Delimited {
  import opened Common

  const QUOTE: char := '"'

  /** The White_Space property of Unicode, which trimming uses. */
  predicate IsSpace(c: char) {
    var n := c as int;
    || 0x09 <= n <= 0x0D || n == 0x20 || n == 0x85 || n == 0xA0 || n == 0x1680 || 0x2000 <= n <= 0x200A
    || n == 0x2028 || n == 0x2029 || n == 0x202F || n == 0x205F || n == 0x3000
  }

  predicate Blank(s: string) {
    forall i | 0 <= i < |s| :: IsSpace(s[i])
  }

  function TrimStart(s: string): string {
    if s != [] && IsSpace(s[0]) then TrimStart(s[1..]) else s
  }

  function TrimEnd(s: string): string {
    if s != [] && IsSpace(s[|s| - 1]) then TrimEnd(s[..|s| - 1]) else s
  }

  function Trim(s: string): string {
    TrimEnd(TrimStart(s))
  }

  // ----- Splitting (codec.rs:69-111) -----

  datatype Field = Field(text: string, quoted: bool)

  function Close(current: string, quoted: bool): Field {
    Field(if quoted then current else Trim(current), quoted)
  }

  /** The scan from a state of the loop: the fields still to come. */
  function Scan(line: string, d: char, current: string, quoted: bool, inQuotes: bool): (fields: seq<Field>)
    ensures fields != []
    decreases |line|
  {
    if line == [] then [Close(current, quoted)]
    else
      var c, rest := line[0], line[1..];
      if inQuotes then
        if c == QUOTE then
          if rest != [] && rest[0] == QUOTE then Scan(rest[1..], d, current + [QUOTE], quoted, true)
          else Scan(rest, d, current, quoted, false)
        else Scan(rest, d, current + [c], quoted, true)
      else if c == QUOTE && Blank(current) then Scan(rest, d, [], true, true)
      else if c == d then [Close(current, quoted)] + Scan(rest, d, [], false, false)
      else Scan(rest, d, current + [c], quoted, false)
  }

  function Split(line: string, d: char): seq<Field> {
    Scan(line, d, [], false, false)
  }

  // ----- Quoting and joining (codec.rs:113-119, 171-186) -----

  predicate NeedsQuotes(cell: string, d: char) {
    d in cell || QUOTE in cell || '\n' in cell || '\r' in cell
  }

  function Doubled(s: string): string {
    if s == [] then [] else DoubledChar(s[0]) + Doubled(s[1..])
  }

  function DoubledChar(c: char): string {
    if c == QUOTE then [QUOTE, QUOTE] else [c]
  }

  function QuoteCell(cell: string, d: char): string {
    if NeedsQuotes(cell, d) then [QUOTE] + (Doubled(cell) + [QUOTE]) else cell
  }

  /** A cell is quoted when it needs to be, unless it is a number, a boolean or missing. */
  datatype Cell = Quotable(s: string) | Raw(s: string)

  function CellText(cell: Cell, d: char): string {
    if cell.Raw? then cell.s else QuoteCell(cell.s, d)
  }

  function Line(cells: seq<Cell>, d: char): string {
    if cells == [] then []
    else if |cells| == 1 then CellText(cells[0], d)
    else CellText(cells[0], d) + ([d] + Line(cells[1..], d))
  }

  /** A JSON value as the encoder sees it. */
  datatype Value = Null | Str(s: string) | Number(text: string) | Bool(b: bool) | Other(json: string)

  function CellOf(record: map<string, Value>, header: string): Cell {
    if header !in record then Raw("")
    else
      match record[header]
      case Null => Raw("")
      case Str(s) => Quotable(s)
      case Number(text) => Raw(text)
      case Bool(b) => Raw(if b then "true" else "false")
      case Other(json) => Quotable(json)
  }

  function Cells(headers: seq<string>, record: map<string, Value>): (cells: seq<Cell>)
    ensures |cells| == |headers| && forall i | 0 <= i < |cells| :: cells[i] == CellOf(record, headers[i])
  {
    seq(|headers|, i requires 0 <= i < |headers| => CellOf(record, headers[i]))
  }

  function Encode(headers: seq<string>, record: map<string, Value>, d: char): string {
    Line(Cells(headers, record), d)
  }

  // ----- What one cell becomes -----

  /** The pieces of an unquoted text. */
  function RawFields(s: string, d: char, current: string): (fields: seq<Field>)
    ensures fields != []
  {
    if s == [] then [Close(current, false)]
    else if s[0] == d then [Close(current, false)] + RawFields(s[1..], d, [])
    else RawFields(s[1..], d, current + [s[0]])
  }

  function FieldsOf(cell: Cell, d: char): seq<Field> {
    if cell.Raw? then RawFields(cell.s, d, [])
    else [if NeedsQuotes(cell.s, d) then Field(cell.s, true) else Field(Trim(cell.s), false)]
  }

  function AllFields(cells: seq<Cell>, d: char): seq<Field> {
    if cells == [] then [] else FieldsOf(cells[0], d) + AllFields(cells[1..], d)
  }

  /** What may come after a cell: the end, or a delimiter and the next cell. */
  function Onwards(rest: string, d: char, current: string, quoted: bool): seq<Field>
    requires rest == [] || rest[0] == d
  {
    [Close(current, quoted)] + if rest == [] then [] else Split(rest[1..], d)
  }

  lemma {:induction false} ScanOnwards(rest: string, d: char, current: string, quoted: bool)
    requires d != QUOTE && (rest == [] || rest[0] == d)
    ensures Scan(rest, d, current, quoted, false) == Onwards(rest, d, current, quoted)
  {
  }

  lemma {:induction false} ScanOne(c: char, d: char, current: string, more: string)
    ensures Scan(DoubledChar(c) + more, d, current, true, true) == Scan(more, d, current + [c], true, true)
  {
  }

  /** Inside quotes, doubled text stands for itself. */
  lemma {:induction false} ScanDoubled(cell: string, d: char, current: string, rest: string)
    ensures Scan(Doubled(cell) + rest, d, current, true, true) == Scan(rest, d, current + cell, true, true)
    decreases |cell|
  {
    if cell == [] {
      assert Doubled(cell) + rest == rest && current + cell == current;
    } else {
      ConcatAssociates(DoubledChar(cell[0]), Doubled(cell[1..]), rest);
      ScanOne(cell[0], d, current, Doubled(cell[1..]) + rest);
      ScanDoubled(cell[1..], d, current + [cell[0]], rest);
      ConcatAssociates(current, [cell[0]], cell[1..]);
      HeadAndTail(cell);
    }
  }

  lemma {:induction false} ScanQuoted(cell: string, d: char, rest: string)
    requires rest == [] || rest[0] != QUOTE
    ensures Scan(Doubled(cell) + ([QUOTE] + rest), d, [], true, true) == Scan(rest, d, cell, true, false)
  {
    ScanDoubled(cell, d, [], [QUOTE] + rest);
    assert [] + cell == cell;
    ConcatSplits([QUOTE], rest);
  }

  /** Text without a quote: each delimiter in it closes a field. */
  lemma {:induction false} ScanRaw(s: string, d: char, current: string, rest: string)
    requires d != QUOTE && QUOTE !in s && (rest == [] || rest[0] == d)
    ensures Scan(s + rest, d, current, false, false)
            == RawFields(s, d, current) + if rest == [] then [] else Split(rest[1..], d)
    decreases |s|
  {
    if s == [] {
      assert s + rest == rest;
      ScanOnwards(rest, d, current, false);
    } else {
      assert s[0] in s;
      assert (s + rest)[1..] == s[1..] + rest;
      if s[0] == d {
        ScanRaw(s[1..], d, [], rest);
        ConcatAssociates([Close(current, false)], RawFields(s[1..], d, []),
                         if rest == [] then [] else Split(rest[1..], d));
      } else {
        ScanRaw(s[1..], d, current + [s[0]], rest);
      }
    }
  }

  lemma {:induction false} RawIsWhole(s: string, d: char, current: string)
    requires d !in s
    ensures RawFields(s, d, current) == [Close(current + s, false)]
    decreases |s|
  {
    if s == [] {
      assert current + s == current;
    } else {
      RawIsWhole(s[1..], d, current + [s[0]]);
      assert current + [s[0]] + s[1..] == current + s;
    }
  }

  predicate GoodCell(cell: Cell) {
    cell.Raw? ==> QUOTE !in cell.s
  }

  lemma {:induction false} ScanCell(cell: Cell, d: char, rest: string)
    requires d != QUOTE && GoodCell(cell) && (rest == [] || rest[0] == d)
    ensures Split(CellText(cell, d) + rest, d) == FieldsOf(cell, d) + if rest == [] then [] else Split(rest[1..], d)
  {
    if cell.Raw? {
      ScanRaw(cell.s, d, [], rest);
    } else if NeedsQuotes(cell.s, d) {
      ScanOpening(cell.s, d, rest);
      ScanQuoted(cell.s, d, rest);
      ScanOnwards(rest, d, cell.s, true);
    } else {
      ScanRaw(cell.s, d, [], rest);
      RawIsWhole(cell.s, d, []);
      assert [] + cell.s == cell.s;
    }
  }

  lemma {:induction false} ScanOpening(s: string, d: char, rest: string)
    ensures Split([QUOTE] + (Doubled(s) + [QUOTE]) + rest, d) == Scan(Doubled(s) + ([QUOTE] + rest), d, [], true, true)
  {
    var line := [QUOTE] + (Doubled(s) + [QUOTE]) + rest;
    assert line[1..] == Doubled(s) + ([QUOTE] + rest);
  }

  /**
    Splitting a joined line gives the fields of each cell, in order: one field for a quotable
    cell, verbatim if it was quoted and trimmed if not, and for a raw one a field for every
    piece between delimiters.
   */
  lemma {:induction false} SplitOfLine(cells: seq<Cell>, d: char)
    requires d != QUOTE && cells != [] && forall i | 0 <= i < |cells| :: GoodCell(cells[i])
    ensures Split(Line(cells, d), d) == AllFields(cells, d)
  {
    if |cells| == 1 {
      ScanCell(cells[0], d, []);
      assert CellText(cells[0], d) + [] == CellText(cells[0], d);
      assert AllFields(cells[1..], d) == [];
    } else {
      var rest := [d] + Line(cells[1..], d);
      ScanCell(cells[0], d, rest);
      ConcatSplits([d], Line(cells[1..], d));
      SplitOfLine(cells[1..], d);
    }
  }

  // ----- One field a cell -----

  predicate Whole(cell: Cell, d: char) {
    cell.Raw? ==> d !in cell.s
  }

  predicate AllWhole(cells: seq<Cell>, d: char) {
    forall i | 0 <= i < |cells| :: Whole(cells[i], d)
  }

  lemma {:induction false} RawIsCut(s: string, d: char, current: string)
    ensures |RawFields(s, d, current)| >= 1
    ensures d in s ==> |RawFields(s, d, current)| >= 2
  {
    if s != [] {
      RawIsCut(s[1..], d, if s[0] == d then [] else current + [s[0]]);
    }
  }

  lemma {:induction false} FieldsAreCounted(cells: seq<Cell>, d: char)
    ensures |AllFields(cells, d)| >= |cells|
    ensures |AllFields(cells, d)| == |cells| <==> AllWhole(cells, d)
  {
    if cells != [] {
      FieldsAreCounted(cells[1..], d);
      if cells[0].Raw? {
        RawIsCut(cells[0].s, d, []);
        if Whole(cells[0], d) {
          RawIsWhole(cells[0].s, d, []);
        }
      }
      assert AllWhole(cells, d) <==> Whole(cells[0], d) && AllWhole(cells[1..], d);
    }
  }

  lemma {:induction false} FieldAt(cells: seq<Cell>, d: char, i: nat)
    requires i < |cells| && AllWhole(cells, d)
    ensures |AllFields(cells, d)| == |cells| && AllFields(cells, d)[i] == FieldsOf(cells[i], d)[0]
  {
    FieldsAreCounted(cells, d);
    FieldsAreCounted(cells[1..], d);
    assert Whole(cells[0], d);
    if cells[0].Raw? {
      RawIsWhole(cells[0].s, d, []);
    }
    if i > 0 {
      FieldAt(cells[1..], d, i - 1);
    }
  }

  /** Numbers print without quotes. */
  predicate GoodValue(v: Value) {
    v.Number? ==> QUOTE !in v.text
  }

  /**
    An encoded record splits into one field a header exactly when no number or boolean in it
    contains the delimiter, and then field by field: strings that were quoted come back
    verbatim, everything else trimmed.
   */
  lemma {:induction false} EncodedRecordSplits(headers: seq<string>, record: map<string, Value>, d: char)
    requires d != QUOTE && headers != [] && forall h | h in record :: GoodValue(record[h])
    ensures var cells := Cells(headers, record);
            var fields := Split(Encode(headers, record, d), d);
            && (|fields| == |headers| <==> AllWhole(cells, d))
            && (AllWhole(cells, d) ==> forall i | 0 <= i < |headers| ::
                  fields[i] == if cells[i].Quotable? && NeedsQuotes(cells[i].s, d) then Field(cells[i].s, true)
                               else Field(Trim(cells[i].s), false))
  {
    var cells := Cells(headers, record);
    SplitOfLine(cells, d);
    FieldsAreCounted(cells, d);
    if AllWhole(cells, d) {
      forall i | 0 <= i < |headers|
        ensures AllFields(cells, d)[i] ==
                if cells[i].Quotable? && NeedsQuotes(cells[i].s, d) then Field(cells[i].s, true)
                                          else Field(Trim(cells[i].s), false)
      {
        FieldAt(cells, d, i);
        assert Whole(cells[i], d);
        if cells[i].Raw? {
          RawIsWhole(cells[i].s, d, []);
          assert [] + cells[i].s == cells[i].s;
        }
      }
    }
  }

  // ----- Field by field -----

  /** The characters that count as white space, one by one. */
  const SPACES: set<int> := {
    9, 10, 11, 12, 13, 32, 133, 160, 5760, 8192, 8193, 8194, 8195, 8196, 8197, 8198, 8199, 8200, 8201, 8202,
    8232, 8233, 8239, 8287, 12288 }

  lemma {:induction false} SpacesAre(c: char)
    ensures IsSpace(c) <==> c as int in SPACES
  {
  }

  lemma {:induction false} TrimStartIs(s: string) returns (i: nat)
    ensures i <= |s| && TrimStart(s) == s[i..] && Blank(s[..i]) && (i < |s| ==> !IsSpace(s[i]))
  {
    if s != [] && IsSpace(s[0]) {
      var k := TrimStartIs(s[1..]);
      i := k + 1;
      assert s[1..][k..] == s[i..];
      forall j | 0 <= j < i
        ensures IsSpace(s[..i][j])
      {
        assert j > 0 ==> s[j] == s[1..][..k][j - 1];
      }
    } else {
      i := 0;
      assert s[0..] == s;
    }
  }

  lemma {:induction false} TrimEndIs(s: string) returns (j: nat)
    ensures j <= |s| && TrimEnd(s) == s[..j] && Blank(s[j..]) && (j > 0 ==> !IsSpace(s[j - 1]))
  {
    var n := |s|;
    if s != [] && IsSpace(s[n - 1]) {
      j := TrimEndIs(s[..n - 1]);
      assert s[..n - 1][..j] == s[..j];
      forall k | 0 <= k < n - j
        ensures IsSpace(s[j..][k])
      {
        assert k < n - 1 - j ==> s[j + k] == s[..n - 1][j..][k];
      }
    } else {
      j := n;
      assert s[..n] == s;
    }
  }

  /** Trimming takes white space off both ends, all of it and nothing else. */
  lemma {:induction false} TrimIs(s: string) returns (i: nat, j: nat)
    ensures i <= j <= |s| && Trim(s) == s[i..j] && Blank(s[..i]) && Blank(s[j..])
    ensures Trim(s) != [] ==> !IsSpace(Trim(s)[0]) && !IsSpace(Trim(s)[|Trim(s)| - 1])
  {
    i := TrimStartIs(s);
    var k := TrimEndIs(s[i..]);
    j := i + k;
    assert s[i..][..k] == s[i..j];
    assert s[i..][k..] == s[j..];
  }

  lemma {:induction false} NothingToTrim(s: string)
    requires s != [] ==> !IsSpace(s[0]) && !IsSpace(s[|s| - 1])
    ensures Trim(s) == s
  {
  }

  /** The delimiter, a double quote or a line break. */
  predicate Special(s: string, d: char) {
    exists i | 0 <= i < |s| :: s[i] == d || s[i] == '"' || s[i] as int == 10 || s[i] as int == 13
  }

  lemma {:induction false} SpecialNeedsQuotes(s: string, d: char)
    ensures NeedsQuotes(s, d) <==> Special(s, d)
  {
    if NeedsQuotes(s, d) {
      var c :| c in s && (c == d || c == '"' || c as int == 10 || c as int == 13);
      var i :| 0 <= i < |s| && s[i] == c;
    }
    if Special(s, d) {
      var i :| 0 <= i < |s| && (s[i] == d || s[i] == '"' || s[i] as int == 10 || s[i] as int == 13);
      assert s[i] in s;
    }
  }

  /** The text of a number or a truth value, which is not quoted. */
  function BareText(v: Value): string {
    if v.Number? then v.text else if v == Bool(true) then "true" else if v == Bool(false) then "false" else ""
  }

  /** What the field of a header comes back as. */
  function FieldFor(record: map<string, Value>, header: string, d: char): Field {
    if header !in record then Field("", false)
    else
      match record[header]
      case Str(s) => if Special(s, d) then Field(s, true) else Field(Trim(s), false)
      case Other(json) => if Special(json, d) then Field(json, true) else Field(Trim(json), false)
      case Bool(b) => Field(if b then "true" else "false", false)
      case Number(text) => Field(Trim(text), false)
      case Null => Field("", false)
  }

  /**
    Value by value: the encoded record splits into one field a header exactly when no number and
    no truth value spells the delimiter, and then nothing comes back as an empty field, a truth
    value as its name, texts verbatim and marked as quoted if they hold something special, and
    everything else trimmed.
   */
  lemma {:induction false} EncodedValues(headers: seq<string>, record: map<string, Value>, d: char)
    requires d != QUOTE && headers != [] && forall h | h in record :: GoodValue(record[h])
    ensures var fields := Split(Encode(headers, record, d), d);
            && (|fields| == |headers| <==>
                  forall i | 0 <= i < |headers| && headers[i] in record :: d !in BareText(record[headers[i]]))
            && (|fields| == |headers| ==>
                  forall i | 0 <= i < |headers| :: fields[i] == FieldFor(record, headers[i], d))
  {
    EncodedRecordSplits(headers, record, d);
    var cells := Cells(headers, record);
    forall i | 0 <= i < |headers|
      ensures Whole(cells[i], d) <==> (headers[i] in record ==> d !in BareText(record[headers[i]]))
      ensures FieldFor(record, headers[i], d)
              == if cells[i].Quotable? && NeedsQuotes(cells[i].s, d) then Field(cells[i].s, true)
                 else Field(Trim(cells[i].s), false)
    {
      CellMeans(record, headers[i], d);
    }
  }

  lemma {:induction false} CellMeans(record: map<string, Value>, h: string, d: char)
    ensures var cell := CellOf(record, h);
            && (Whole(cell, d) <==> (h in record ==> d !in BareText(record[h])))
            && FieldFor(record, h, d)
               == if cell.Quotable? && NeedsQuotes(cell.s, d) then Field(cell.s, true) else Field(Trim(cell.s), false)
  {
    SpecialNeedsQuotes(CellOf(record, h).s, d);
    NothingToTrim("");
    NothingToTrim("true");
    NothingToTrim("false");
  }

  /** A minus sign as delimiter cuts a negative number in two. */
  lemma {:induction false} NegativeNumberIsCut()
    ensures |Split(Encode(["n"], map["n" := Number("-5")], '-'), '-')| == 2
  {
  }

  // ----- The double quote as delimiter -----

  lemma {:induction false} FirstFieldGrows(line: string, d: char, current: string, inQuotes: bool)
    ensures var first := Scan(line, d, current, true, inQuotes)[0];
            first.quoted && (!Blank(current) ==> |first.text| >= |current|)
    decreases |line|
  {
    if line != [] {
      var c, rest := line[0], line[1..];
      if inQuotes {
        if c != QUOTE {
          StaysNonBlank(current, c);
          FirstFieldGrows(rest, d, current + [c], true);
        } else if rest != [] && rest[0] == QUOTE {
          StaysNonBlank(current, QUOTE);
          FirstFieldGrows(rest[1..], d, current + [QUOTE], true);
        } else {
          FirstFieldGrows(rest, d, current, false);
        }
      } else if c == QUOTE && Blank(current) {
        FirstFieldGrows(rest, d, [], true);
      } else if c != d {
        StaysNonBlank(current, c);
        FirstFieldGrows(rest, d, current + [c], false);
      }
    }
  }

  lemma {:induction false} StaysNonBlank(s: string, c: char)
    ensures !Blank(s) ==> !Blank(s + [c])
  {
    if !Blank(s) {
      var i :| 0 <= i < |s| && !IsSpace(s[i]);
      assert (s + [c])[i] == s[i];
    }
  }

  lemma {:induction false} ScanPlain(s: string, d: char, current: string, rest: string)
    requires QUOTE !in s && d !in s
    ensures Scan(s + rest, d, current, false, false) == Scan(rest, d, current + s, false, false)
    decreases |s|
  {
    if s == [] {
      assert s + rest == rest && current + s == current;
    } else {
      assert s[0] in s;
      assert (s + rest)[1..] == s[1..] + rest;
      ScanPlain(s[1..], d, current + [s[0]], rest);
      assert current + [s[0]] + s[1..] == current + s;
    }
  }

  /** Before a double quote that delimits, only a cell that is neither quoted nor blank survives. */
  predicate Survives(cell: string) {
    !NeedsQuotes(cell, QUOTE) && !Blank(cell)
  }

  function Quotables(cells: seq<string>): (r: seq<Cell>)
    ensures |r| == |cells| && forall i | 0 <= i < |r| :: r[i] == Quotable(cells[i])
  {
    seq(|cells|, i requires 0 <= i < |cells| => Quotable(cells[i]))
  }

  lemma {:induction false} LastCell(cell: string, d: char)
    ensures Split(QuoteCell(cell, d), d) == FieldsOf(Quotable(cell), d)
  {
    assert [] + cell == cell;
    if NeedsQuotes(cell, d) {
      ScanOpening(cell, d, []);
      ScanQuoted(cell, d, []);
      assert [QUOTE] + (Doubled(cell) + [QUOTE]) + [] == QuoteCell(cell, d);
    } else {
      ScanPlain(cell, d, [], []);
      assert cell + [] == cell;
    }
  }

  lemma {:induction false} CellBeforeQuote(cell: string, more: string)
    ensures var fields := Split(QuoteCell(cell, QUOTE) + ([QUOTE] + more), QUOTE);
            if Survives(cell) then fields == FieldsOf(Quotable(cell), QUOTE) + Split(more, QUOTE)
            else fields[0] != FieldsOf(Quotable(cell), QUOTE)[0]
  {
    var rest := [QUOTE] + more;
    ConcatSplits([QUOTE], more);
    assert [] + cell == cell;
    if NeedsQuotes(cell, QUOTE) {
      ScanOpening(cell, QUOTE, rest);
      ScanEscape(cell, QUOTE, more);
      assert QUOTE in cell + [QUOTE] && (cell + [QUOTE])[|cell|] == QUOTE;
      FirstFieldGrows(more, QUOTE, cell + [QUOTE], true);
    } else {
      ScanPlain(cell, QUOTE, [], rest);
      if Blank(cell) {
        FirstFieldGrows(more, QUOTE, [], true);
      }
    }
  }

  /** A closing quote followed by a quote is an escape, so the field goes on. */
  lemma {:induction false} ScanEscape(cell: string, d: char, more: string)
    ensures Scan(Doubled(cell) + ([QUOTE] + ([QUOTE] + more)), d, [], true, true)
            == Scan(more, d, cell + [QUOTE], true, true)
  {
    ScanDoubled(cell, d, [], [QUOTE] + ([QUOTE] + more));
    assert [] + cell == cell;
    ConcatSplits([QUOTE], [QUOTE] + more);
    ConcatSplits([QUOTE], more);
  }

  lemma {:induction false} QuotedLines(cells: seq<string>)
    requires cells != []
    ensures Split(Line(Quotables(cells), QUOTE), QUOTE) == AllFields(Quotables(cells), QUOTE)
            <==> forall i | 0 <= i < |cells| - 1 :: Survives(cells[i])
  {
    var qs := Quotables(cells);
    if |cells| == 1 {
      LastCell(cells[0], QUOTE);
      assert AllFields(qs[1..], QUOTE) == [];
    } else {
      assert qs[1..] == Quotables(cells[1..]);
      var more := Line(qs[1..], QUOTE);
      CellBeforeQuote(cells[0], more);
      QuotedLines(cells[1..]);
      var first, left, right := FieldsOf(qs[0], QUOTE), Split(more, QUOTE), AllFields(qs[1..], QUOTE);
      ConcatSplits(first, left);
      ConcatSplits(first, right);
      SurviveStep(cells);
    }
  }

  lemma {:induction false} SurviveStep(cells: seq<string>)
    requires |cells| >= 2
    ensures (forall i | 0 <= i < |cells| - 1 :: Survives(cells[i]))
            <==> Survives(cells[0]) && forall i | 0 <= i < |cells[1..]| - 1 :: Survives(cells[1..][i])
  {
    if Survives(cells[0]) && forall i | 0 <= i < |cells[1..]| - 1 :: Survives(cells[1..][i]) {
      forall i | 0 <= i < |cells| - 1
        ensures Survives(cells[i])
      {
        if i > 0 {
          assert cells[i] == cells[1..][i - 1];
        }
      }
    }
  }

  /**
    Splitting the joined quoted cells gives one field a cell, in order, exactly when the
    delimiter is not the double quote, or it is and every cell but the last is neither blank
    nor in need of quotes.
   */
  lemma {:induction false} RoundTripIff(cells: seq<string>, d: char)
    requires cells != []
    ensures Split(Line(Quotables(cells), d), d) == AllFields(Quotables(cells), d)
            <==> d != QUOTE || forall i | 0 <= i < |cells| - 1 :: Survives(cells[i])
  {
    if d == QUOTE {
      QuotedLines(cells);
    } else {
      SplitOfLine(Quotables(cells), d);
    }
  }

  /** Two empty cells joined by a double quote are read as one quoted cell. */
  lemma {:induction false} EmptyCellsMerge()
    ensures Line(Quotables(["", ""]), QUOTE) == [QUOTE]
    ensures Split([QUOTE], QUOTE) == [Field("", true)]
    ensures |AllFields(Quotables(["", ""]), QUOTE)| == 2
  {
    var cells := Quotables(["", ""]);
    assert cells[1..] == [Quotable("")] && cells[1..][1..] == [];
    assert Line(cells[1..], QUOTE) == "";
    assert [QUOTE][1..] == [];
    assert Scan([], QUOTE, [], true, true) == [Field("", true)];
    FieldsAreCounted(cells, QUOTE);
  }

  // ----- Lines that were not written by the encoder -----

  lemma {:induction false} BlankGrows(ws: string, c: char)
    requires Blank(ws) && IsSpace(c)
    ensures Blank(ws + [c])
  {
  }

  /** White space at the start of a field is taken like any text. */
  lemma {:induction false} ScanBlank(ws: string, d: char, current: string, rest: string)
    requires Blank(ws) && Blank(current) && d !in ws
    ensures Scan(ws + rest, d, current, false, false) == Scan(rest, d, current + ws, false, false)
    ensures Blank(current + ws)
    decreases |ws|
  {
    if ws == [] {
      ConcatNil(rest);
      ConcatNil(current);
    } else {
      assert IsSpace(ws[0]) && ws[0] != QUOTE && ws[0] in ws;
      assert (ws + rest)[0] == ws[0] && (ws + rest)[1..] == ws[1..] + rest;
      BlankGrows(current, ws[0]);
      ScanBlank(ws[1..], d, current + [ws[0]], rest);
      assert current + [ws[0]] + ws[1..] == current + ws;
    }
  }

  /** After text that is not blank, quotes are text too. */
  lemma {:induction false} ScanInside(s: string, d: char, current: string, quoted: bool)
    requires !Blank(current) && d !in s
    ensures Scan(s, d, current, quoted, false) == [Close(current + s, quoted)]
    decreases |s|
  {
    if s == [] {
      ConcatNil(current);
    } else {
      assert s[0] in s;
      StaysNonBlank(current, s[0]);
      ScanInside(s[1..], d, current + [s[0]], quoted);
      assert current + [s[0]] + s[1..] == current + s;
    }
  }

  /**
    A quoted text may have white space before it, which is dropped, and text after it, which is
    joined on; without a closing quote it goes on to the end of the line.
   */
  lemma {:induction false} QuotedByHand(ws: string, s: string, t: string, d: char)
    requires d != QUOTE && Blank(ws) && d !in ws && !Blank(s) && d !in t && (t == [] || t[0] != QUOTE)
    ensures Split(ws + ([QUOTE] + (Doubled(s) + ([QUOTE] + t))), d) == [Field(s + t, true)]
    ensures Split(ws + ([QUOTE] + (Doubled(s) + [])), d) == [Field(s, true)]
  {
    var line := Doubled(s) + ([QUOTE] + t);
    OpenQuote(ws, line, d);
    ScanQuoted(s, d, t);
    ScanInside(t, d, s, true);
    OpenQuote(ws, Doubled(s) + [], d);
    ScanDoubled(s, d, [], []);
    ConcatNil(s);
  }

  lemma {:induction false} OpenQuote(ws: string, rest: string, d: char)
    requires d != QUOTE && Blank(ws) && d !in ws
    ensures Split(ws + ([QUOTE] + rest), d) == Scan(rest, d, [], true, true)
  {
    ScanBlank(ws, d, [], [QUOTE] + rest);
    ConcatNil(ws);
    ConcatSplits([QUOTE], rest);
  }

  /** A quote after other text in a field is no more than a character. */
  lemma {:induction false} QuoteInside(u: string, v: string, d: char)
    requires !Blank(u) && QUOTE !in u && d !in u && d !in v
    ensures Split(u + v, d) == [Field(Trim(u + v), false)]
  {
    ScanPlain(u, d, [], v);
    ConcatNil(u);
    ScanInside(v, d, u, false);
  }

  // ----- The source's loop -----

  lemma {:induction false} Continue(done: seq<Field>, f: Field, left: seq<Field>)
    ensures (done + [f]) + left == done + ([f] + left)
  {
  }

  /** `split_quoted`. */
  method SplitQuoted(line: string, d: char) returns (fields: seq<Field>)
    ensures fields == Split(line, d)
  {
    fields := [];
    var current, quoted, inQuotes := "", false, false;
    var chars := line;
    ghost var goal := Split(line, d);
    while chars != []
      invariant goal == fields + Scan(chars, d, current, quoted, inQuotes)
      decreases |chars|
    {
      var c := chars[0];
      if inQuotes && c == QUOTE && |chars| > 1 && chars[1] == QUOTE {
        assert chars[1..][1..] == chars[2..];
        current, chars := current + [QUOTE], chars[2..];
      } else {
        if inQuotes {
          if c == QUOTE {
            inQuotes := false;
          } else {
            current := current + [c];
          }
        } else if c == QUOTE && Blank(current) {
          current, quoted, inQuotes := "", true, true;
        } else if c == d {
          Continue(fields, Close(current, quoted), Scan(chars[1..], d, [], false, false));
          fields := fields + [Close(current, quoted)];
          current, quoted := "", false;
        } else {
          current := current + [c];
        }
        chars := chars[1..];
      }
    }
    fields := fields + [Close(current, quoted)];
  }
}
