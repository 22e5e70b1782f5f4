/** From the rows a line program stands for to the rows its rewriting stands for. */
module LineMeaning {
  import opened Words
  import opened Results
  import opened LineProgram
  import opened LineCodec
  import opened Locations
  import opened DebugLines
  import opened LineRewriting
  import opened LineReading

  function Reads(rows: seq<InputRow>): (r: seq<ReadRow>)
    ensures |r| == |rows| && forall i :: 0 <= i < |r| ==> r[i] == rows[i].read
  {
    if rows == [] then [] else Reads(rows[..|rows| - 1]) + [rows[|rows| - 1].read]
  }

  /** The rows with their ranges are the rows the program stands for. */
  lemma {:induction false} RowsAreDecoded(ops: seq<Opcode>, table: Table)
    ensures Read(ops, NewReader(table), table).Ok? <==> Decode(ops, Fresh(table, 0), table).Ok?
    ensures Read(ops, NewReader(table), table).Ok? ==>
      Decode(ops, Fresh(table, 0), table) == Ok(Reads(RowsIn(ops, table)))
  {
    ReadIsDecode(ops, NewReader(table), table);
    if Read(ops, NewReader(table), table).Ok? {
      assert Decode(ops, Fresh(table, 0), table).value == Reads(RowsIn(ops, table));
    }
  }

  // ---------- Sequences ----------

  lemma {:induction false} NumberGrows(rows: seq<InputRow>, k: nat, l: nat, u: LocationUpdater)
    requires k <= l <= |rows|
    ensures Number(rows, k, u) <= Number(rows, l, u)
    ensures Number(rows, k, u) == Number(rows, l, u) <==> forall m :: k <= m < l ==> !Spends(rows, m, u)
    decreases l
  {
    hide Spends;
    if k < l {
      NumberGrows(rows, k, l - 1, u);
    }
  }

  ghost predicate Numbered(r: Reader) {
    && r.row.sequenceId == SequenceEnds(r.rows, |r.rows|)
    && forall k :: 0 <= k < |r.rows| ==> r.rows[k].read.row.sequenceId == SequenceEnds(r.rows, k)
  }

  lemma StartsNumbered(table: Table)
    ensures Numbered(NewReader(table))
  {
  }

  lemma {:induction false} ReadOneNumbers(op: Opcode, r: Reader, table: Table)
    requires Numbered(r) && ReadOne(op, r, table).Ok?
    ensures Numbered(ReadOne(op, r, table).value)
  {
    hide Execute;
    ExecuteKeeps(op, r.row, table);
    var after := ReadOne(op, r, table).value;
    forall k | 0 <= k <= |r.rows| ensures SequenceEnds(after.rows, k) == SequenceEnds(r.rows, k) {
      EndsInPrefix(r.rows, after.rows, k);
    }
  }

  /** A plain reader numbers rows by the sequence ends before them. */
  lemma {:induction false} DecodedNumbers(ops: seq<Opcode>, r: Reader, table: Table)
    requires Numbered(r) && Read(ops, r, table).Ok?
    ensures Numbered(Read(ops, r, table).value)
  {
    hide Numbered, ReadOne;
    if ops != [] {
      ReadOneNumbers(ops[0], r, table);
      DecodedNumbers(ops[1..], ReadOne(ops[0], r, table).value, table);
    }
  }

  /** How many sequences end before row k. */
  function SequenceEnds(rows: seq<InputRow>, k: nat): nat
    requires k <= |rows|
  {
    if k == 0 then 0 else SequenceEnds(rows, k - 1) + if rows[k - 1].read.endsSequence then 1 else 0
  }

  lemma {:induction false} EndsInPrefix(a: seq<InputRow>, b: seq<InputRow>, k: nat)
    requires a <= b && k <= |a|
    ensures SequenceEnds(a, k) == SequenceEnds(b, k)
  {
    if k > 0 {
      EndsInPrefix(a, b, k - 1);
    }
  }

  lemma {:induction false} EndsGrow(rows: seq<InputRow>, k: nat, l: nat)
    requires k <= l <= |rows|
    ensures SequenceEnds(rows, k) <= SequenceEnds(rows, l)
    ensures SequenceEnds(rows, k) == SequenceEnds(rows, l) <==> forall m :: k <= m < l ==> !rows[m].read.endsSequence
    decreases l
  {
    if k < l {
      EndsGrow(rows, k, l - 1);
    }
  }

  /** Two rows of different input sequences get one number exactly when every end of a sequence between them is
      omitted or repeated. */
  lemma {:induction false} SequencesJoined(ops: seq<Opcode>, k: nat, l: nat, table: Table, u: LocationUpdater)
    requires Read(ops, NewReader(table), table).Ok? && k <= l < |RowsIn(ops, table)|
    ensures
      var rows := RowsIn(ops, table);
      && (rows[k].read.row.sequenceId == rows[l].read.row.sequenceId
          <==> forall m :: k <= m < l ==> !rows[m].read.endsSequence)
      && (Number(rows, k, u) == Number(rows, l, u)
          <==> forall m :: k <= m < l && rows[m].read.endsSequence ==> IsOmitted(rows, m) || Repeats(rows, m, u))
  {
    hide IsOmitted, Repeats, Read, SequenceEnds, Number;
    var rows := RowsIn(ops, table);
    StartsNumbered(table);
    DecodedNumbers(ops, NewReader(table), table);
    assert rows[k].read.row.sequenceId == SequenceEnds(rows, k) && rows[l].read.row.sequenceId == SequenceEnds(rows, l);
    EndsGrow(rows, k, l);
    NumberGrows(rows, k, l, u);
    assert forall m :: k <= m < l ==>
      (Spends(rows, m, u) <==> rows[m].read.endsSequence && !(IsOmitted(rows, m) || Repeats(rows, m, u)));
  }

  // ---------- The image of the rows ----------

  ghost predicate IsStoredFirst(row: Row, input: seq<InputRow>, u: LocationUpdater) {
    exists k :: 0 <= k < |input| && IsFirstAt(input, k, u, row.addr) && row == Stored(input, k, u)
  }

  /** The rows are those at the new addresses, each the first that goes there, in the order of the addresses. */
  ghost predicate IsSortedImage(rows: seq<Row>, input: seq<InputRow>, u: LocationUpdater) {
    && (forall i, j :: 0 <= i < j < |rows| ==> rows[i].addr < rows[j].addr)
    && (forall i :: 0 <= i < |rows| ==> IsStoredFirst(rows[i], input, u))
    && (forall k :: 0 <= k < |input| && Lands(input, k, u) ==>
          exists i :: 0 <= i < |rows| && rows[i].addr == Target(input, k, u))
  }

  lemma {:induction false} SortedImage(ops: seq<Opcode>, table: Table, u: LocationUpdater)
    requires CollectAll(ops, Begin(table), table, u).Ok? && Read(ops, NewReader(table), table).Ok?
    requires ReadPlainly(RowsIn(ops, table), table, u)
    ensures IsSortedImage(RowsToWrite(ops, table, u), RowsIn(ops, table), u)
  {
    hide RowsToWrite, Lands, Target, IsFirstAt, Stored, FirstWins, Survivors, CollectAll, Read, Number, IsOmitted;
    hide InStep, Agree;
    ReadsBeside(ops, table, u);
    SortedFirstWinsImage(ops, table, u);
    var info := CollectAll(ops, Begin(table), table, u).value.info;
    var rows, input := RowsToWrite(ops, table, u), RowsIn(ops, table);
    assert StoresFirsts(info, input, u);
    hide Beside;
    forall i | 0 <= i < |rows| ensures IsStoredFirst(rows[i], input, u) {
      var a := rows[i].addr;
      assert a in info && info[a] == rows[i];
      var k :| 0 <= k < |input| && IsFirstAt(input, k, u, a) && info[a] == Stored(input, k, u);
    }
    forall k | 0 <= k < |input| && Lands(input, k, u)
      ensures exists i :: 0 <= i < |rows| && rows[i].addr == Target(input, k, u) {
      var row := info[Target(input, k, u)];
      assert row in rows && row.addr == Target(input, k, u);
    }
  }

  /** The first input row that goes to the row's address, with only its address and sequence number changed. */
  ghost predicate IsMovedFirst(row: Row, input: seq<InputRow>, u: LocationUpdater) {
    exists k :: 0 <= k < |input| && IsFirstAt(input, k, u, row.addr)
                && row == input[k].read.row.(addr := row.addr, sequenceId := row.sequenceId)
  }

  /** Row i of the output is input row k, and the next one is input row l. */
  ghost predicate GoesOnTo(out: seq<ReadRow>, i: int, k: int, l: int, input: seq<InputRow>, u: LocationUpdater) {
    && 0 <= i < |out| - 1 && 0 <= k < |input| && 0 <= l < |input|
    && IsFirstAt(input, k, u, out[i].row.addr) && IsFirstAt(input, l, u, out[i + 1].row.addr)
  }

  /** A sequence ends from the one row to the other, in either order, with an end neither omitted nor repeated. */
  ghost predicate SpentBetween(input: seq<InputRow>, k: nat, l: nat, u: LocationUpdater)
    requires k < |input| && l < |input|
  {
    exists m: nat :: (k <= m < l || l <= m < k) && Spends(input, m, u)
  }

  /** What a reader of the rewritten program gets, told from what a reader of the original gets: the same rows at
      their new addresses, each the first that goes there, in the order of the addresses; and a sequence goes on from
      one row to the next exactly when every end of a sequence between the two in the input is omitted or repeated. */
  ghost predicate IsImage(out: seq<ReadRow>, input: seq<InputRow>, u: LocationUpdater) {
    && (forall i, j :: 0 <= i < j < |out| ==> out[i].row.addr < out[j].row.addr)
    && (forall i :: 0 <= i < |out| ==> IsMovedFirst(out[i].row, input, u))
    && (forall k :: 0 <= k < |input| && Lands(input, k, u) ==>
          exists i :: 0 <= i < |out| && out[i].row.addr == Target(input, k, u))
    && (forall i, k, l :: GoesOnTo(out, i, k, l, input, u) ==> (out[i].endsSequence <==> SpentBetween(input, k, l, u)))
    && (out != [] ==> out[|out| - 1].endsSequence)
  }

  /** Two rows cannot both be the first. */
  lemma {:induction false} FirstIsUnique(rows: seq<InputRow>, k: nat, l: nat, u: LocationUpdater, addr: Word)
    requires k < |rows| && l < |rows| && IsFirstAt(rows, k, u, addr) && IsFirstAt(rows, l, u, addr)
    ensures k == l
  {
    hide Lands, Target;
  }

  lemma {:induction false} NumberBound(rows: seq<InputRow>, k: nat, u: LocationUpdater)
    requires k <= |rows|
    ensures Number(rows, k, u) <= SequenceEnds(rows, k)
  {
    hide IsOmitted, Repeats;
    if k > 0 {
      NumberBound(rows, k - 1, u);
    }
  }

  lemma {:induction false} SpentIffNumbersDiffer(input: seq<InputRow>, k: nat, l: nat, u: LocationUpdater)
    requires k < |input| && l < |input|
    ensures SpentBetween(input, k, l, u) <==> Number(input, k, u) != Number(input, l, u)
  {
    hide Spends;
    if k <= l {
      NumberGrows(input, k, l, u);
    } else {
      NumberGrows(input, l, k, u);
    }
  }

  lemma {:induction false} StoredNumber(r: Reader, k: nat, u: LocationUpdater)
    requires Numbered(r) && k < |r.rows|
    ensures Stored(r.rows, k, u).sequenceId == Number(r.rows, k, u)
  {
    hide SequenceEnds, Number, Target;
    NumberBound(r.rows, k, u);
    assert r.rows[k].read.row.sequenceId == SequenceEnds(r.rows, k);
  }

  lemma {:induction false} ImageReadsBack(rows: seq<Row>, r: Reader, u: LocationUpdater)
    requires Numbered(r) && IsSortedImage(rows, r.rows, u)
    ensures IsImage(RenumberedFrom(rows, 0), r.rows, u)
  {
    hide IsFirstAt, SpentBetween, Lands, Target, Numbered, Stored, GoesOnTo, IsMovedFirst, IsStoredFirst, Renumbered;
    var out := RenumberedFrom(rows, 0);
    forall i | 0 <= i < |out| ensures out[i].row.addr == rows[i].addr && IsMovedFirst(out[i].row, r.rows, u) {
      ReadAsStored(rows, i, r.rows, u);
    }
    forall i, k, l | GoesOnTo(out, i, k, l, r.rows, u)
      ensures 0 <= i < |out| && 0 <= k < |r.rows| && 0 <= l < |r.rows|
      ensures out[i].endsSequence <==> SpentBetween(r.rows, k, l, u)
    {
      GoesOn(rows, i, k, l, r, u);
    }
    forall k | 0 <= k < |r.rows| && Lands(r.rows, k, u)
      ensures exists i :: 0 <= i < |out| && out[i].row.addr == Target(r.rows, k, u)
    {
      var i :| 0 <= i < |rows| && rows[i].addr == Target(r.rows, k, u);
    }
    if out != [] {
      LastCloses(rows);
    }
  }

  lemma {:induction false} LastCloses(rows: seq<Row>)
    requires 0 < |rows|
    ensures RenumberedFrom(rows, 0)[|rows| - 1].endsSequence
  {
    assert RenumberedFrom(rows, 0)[|rows| - 1] == Renumbered(rows, |rows| - 1);
  }

  lemma {:induction false} ReadAsStored(rows: seq<Row>, i: nat, input: seq<InputRow>, u: LocationUpdater)
    requires i < |rows| && IsSortedImage(rows, input, u)
    ensures
      var row := RenumberedFrom(rows, 0)[i].row;
      row.addr == rows[i].addr && IsMovedFirst(row, input, u)
  {
    hide IsFirstAt, Target, Number;
    assert RenumberedFrom(rows, 0)[i] == Renumbered(rows, i);
    var k :| 0 <= k < |input| && IsFirstAt(input, k, u, rows[i].addr) && rows[i] == Stored(input, k, u);
  }

  lemma {:induction false} GoesOn(rows: seq<Row>, i: int, k: int, l: int, r: Reader, u: LocationUpdater)
    requires Numbered(r) && IsSortedImage(rows, r.rows, u)
    requires GoesOnTo(RenumberedFrom(rows, 0), i, k, l, r.rows, u)
    ensures 0 <= i < |rows| && 0 <= k < |r.rows| && 0 <= l < |r.rows|
    ensures RenumberedFrom(rows, 0)[i].endsSequence <==> SpentBetween(r.rows, k, l, u)
  {
    hide *;
    GoesOnInRows(rows, i, k, l, r.rows, u);
    StoredAs(rows, i, k, r, u);
    StoredAs(rows, i + 1, l, r, u);
    SpentIffNumbersDiffer(r.rows, k, l, u);
  }

  lemma {:induction false} GoesOnInRows(rows: seq<Row>, i: int, k: int, l: int, input: seq<InputRow>,
                                        u: LocationUpdater)
    requires GoesOnTo(RenumberedFrom(rows, 0), i, k, l, input, u)
    ensures 0 <= i < |rows| - 1 && 0 <= k < |input| && 0 <= l < |input|
    ensures IsFirstAt(input, k, u, rows[i].addr) && IsFirstAt(input, l, u, rows[i + 1].addr)
    ensures RenumberedFrom(rows, 0)[i].endsSequence <==> rows[i].sequenceId != rows[i + 1].sequenceId
  {
    hide IsFirstAt;
    var out := RenumberedFrom(rows, 0);
    assert out[i] == Renumbered(rows, i) && out[i + 1] == Renumbered(rows, i + 1);
  }

  lemma {:induction false} StoredAs(rows: seq<Row>, i: nat, k: nat, r: Reader, u: LocationUpdater)
    requires i < |rows| && k < |r.rows| && Numbered(r) && IsSortedImage(rows, r.rows, u)
    requires IsFirstAt(r.rows, k, u, rows[i].addr)
    ensures rows[i].sequenceId == Number(r.rows, k, u)
  {
    hide IsFirstAt, Numbered, Number;
    var j :| 0 <= j < |r.rows| && IsFirstAt(r.rows, j, u, rows[i].addr) && rows[i] == Stored(r.rows, j, u);
    FirstIsUnique(r.rows, j, k, u, rows[i].addr);
    StoredNumber(r, k, u);
  }

  /** The rewriting of a line program whose rows are read plainly means the sorted first-wins image of what the program
      means. */
  lemma {:induction false} RewritingKeepsMeaning(ops: seq<Opcode>, table: Table, u: LocationUpdater)
    requires Rewritten(ops, table, u).Ok? && FewRuns(RowsToWrite(ops, table, u))
    requires Read(ops, NewReader(table), table).Ok? && ReadPlainly(RowsIn(ops, table), table, u)
    ensures Decode(ops, Fresh(table, 0), table) == Ok(Reads(RowsIn(ops, table)))
    ensures Decode(Rewritten(ops, table, u).value, Fresh(table, 0), table).Ok?
    ensures IsImage(Decode(Rewritten(ops, table, u).value, Fresh(table, 0), table).value, RowsIn(ops, table), u)
  {
    RowsAreDecoded(ops, table);
    assert CollectAll(ops, Begin(table), table, u).Ok?;
    hide RowsToWrite, Rewritten, Read, RowsIn, ReadPlainly, CollectAll, Decode;
    SortedImage(ops, table, u);
    RewrittenReadsBack(ops, table, u);
    DecodedNumbers(ops, NewReader(table), table);
    ImageReadsBack(RowsToWrite(ops, table, u), Read(ops, NewReader(table), table).value, u);
  }

  // ---------- Rows that say nothing ----------

  /** A decoded row that is not omitted and whose address goes somewhere lands exactly when it has a line and an
      address. */
  lemma {:induction false} LandsIff(rows: seq<InputRow>, k: nat, u: LocationUpdater)
    requires k < |rows| && !IsOmitted(rows, k) && Target(rows, k, u) != 0
    ensures Lands(rows, k, u) <==> rows[k].read.row.line != 0 && rows[k].read.row.addr != 0
  {
    hide IsOmitted, LocationUpdater.LineTarget;
  }

  /** Every row written, and every row the output decodes to, has a line and an address. */
  lemma {:induction false} WrittenRowsSaySomething(ops: seq<Opcode>, table: Table, u: LocationUpdater)
    requires Rewritten(ops, table, u).Ok?
    ensures forall i :: 0 <= i < |RowsToWrite(ops, table, u)| ==>
              RowsToWrite(ops, table, u)[i].line != 0 && RowsToWrite(ops, table, u)[i].addr != 0
    ensures
      var out := Decode(Rewritten(ops, table, u).value, Fresh(table, 0), table);
      out.Ok? ==> forall i :: 0 <= i < |out.value| ==> out.value[i].row.line != 0 && out.value[i].row.addr != 0
  {
    SortedFirstWinsImage(ops, table, u);
    RewrittenReadsBack(ops, table, u);
    hide RowsToWrite, Rewritten, Decode, FewRuns;
    var rows := RowsToWrite(ops, table, u);
    assert forall i :: 0 <= i < |rows| ==> RenumberedFrom(rows, 0)[i] == Renumbered(rows, i);
  }
}
