/** Reading a line program back as rows, and the round trip with the diffs that are written. */
module LineCodec {
  import opened Words
  import opened Results
  import opened LineProgram

  /** The registers after opcodes none of which completes a row or fails. */
  ghost function Quiet(ops: seq<Opcode>, row: Row, table: Table): Option<Row> {
    if ops == [] then Some(row)
    else match Execute(ops[0], row, table)
      case Ok(step) => if step.ready then None else Quiet(ops[1..], step.row, table)
      case Err(_) => None
  }

  lemma {:induction false} QuietConcat(a: seq<Opcode>, b: seq<Opcode>, row: Row, table: Table)
    requires Quiet(a, row, table).Some?
    ensures Quiet(a + b, row, table) == Quiet(b, Quiet(a, row, table).value, table)
  {
    if a == [] {
      assert a + b == b;
    } else {
      assert (a + b)[1..] == a[1..] + b;
      QuietConcat(a[1..], b, Execute(a[0], row, table).value.row, table);
    }
  }

  /** The registers after the opcodes for the first k compared registers. */
  ghost function After(k: nat, row: Row, prev: Row): Row {
    Row(if k > 0 then row.addr else prev.addr,
        if k > 1 then row.line else prev.line,
        if k > 2 then row.col else prev.col,
        if k > 3 then row.file else prev.file,
        if k > 4 then row.isa else prev.isa,
        if k > 5 then row.discriminator else prev.discriminator,
        if k > 6 then row.isStmt else prev.isStmt,
        if k > 7 then row.basicBlock else prev.basicBlock,
        k > 8 && row.prologueEnd, prev.epilogueBegin, prev.sequenceId)
  }

  lemma {:induction false} PieceExecutes(k: nat, row: Row, prev: Row, table: Table)
    requires k < FIELDS && Diff(row, prev, false).Ok? && Needed(k, row, prev)
    ensures Execute(PieceOp(k, row, prev), After(k, row, prev), table) == Ok(Step(After(k + 1, row, prev), false))
  {
    match k {
      case 0 =>
      case 1 => DeltaRestores(prev.line, row.line);
      case 2 =>
      case 3 =>
      case 4 =>
      case 5 =>
      case 6 =>
      case 7 =>
      case _ =>
    }
  }

  lemma {:induction false} PieceIsQuiet(k: nat, row: Row, prev: Row, table: Table)
    requires k < FIELDS && Diff(row, prev, false).Ok?
    ensures Quiet(Piece(k, row, prev), After(k, row, prev), table) == Some(After(k + 1, row, prev))
  {
    if Needed(k, row, prev) {
      PieceExecutes(k, row, prev, table);
      assert [PieceOp(k, row, prev)][1..] == [];
    }
  }

  lemma {:induction false} PiecesAreQuiet(k: nat, row: Row, prev: Row, table: Table)
    requires k <= FIELDS && Diff(row, prev, false).Ok?
    ensures Quiet(Pieces(k, row, prev), prev.AfterLine(), table) == Some(After(k, row, prev))
  {
    if k > 0 {
      PiecesAreQuiet(k - 1, row, prev, table);
      PieceIsQuiet(k - 1, row, prev, table);
      QuietConcat(Pieces(k - 1, row, prev), Piece(k - 1, row, prev), prev.AfterLine(), table);
    }
  }

  /** The body of a diff turns the old registers, after their line was reported,
      into the new row without reporting anything. */
  lemma {:induction false} DiffBodyIsQuiet(row: Row, prev: Row, table: Table)
    requires Diff(row, prev, false).Ok?
    ensures Quiet(DiffBody(row, prev), prev.AfterLine(), table) == Some(row.(sequenceId := prev.sequenceId))
  {
    PiecesAreQuiet(FIELDS, row, prev, table);
  }

  // ---------- Reading ----------

  datatype ReadRow = ReadRow(row: Row, endsSequence: bool)

  /** The registers a reader continues with after reporting a row. */
  function Next(row: Row, endsSequence: bool, table: Table): Result<Row, Fault> {
    if !endsSequence then Ok(row.AfterLine())
    else if row.sequenceId as int + 1 >= NO_SEQUENCE then Err(AssertSequenceId)
    else Ok(Fresh(table, row.sequenceId + 1))
  }

  /** The rows a line program stands for: `update` after every opcode, a reset after every row,
      and a fresh state with the next sequence number after every end of a sequence. */
  function Decode(ops: seq<Opcode>, row: Row, table: Table): Result<seq<ReadRow>, Fault> {
    if ops == [] then Ok([])
    else
      var step :- Execute(ops[0], row, table);
      if !step.ready then Decode(ops[1..], step.row, table)
      else
        var next :- Next(step.row, EndsSequence(ops[0]), table);
        var rest :- Decode(ops[1..], next, table);
        Ok([ReadRow(step.row, EndsSequence(ops[0]))] + rest)
  }

  lemma {:induction false} DecodeQuiet(quiet: seq<Opcode>, rest: seq<Opcode>, row: Row, table: Table)
    requires Quiet(quiet, row, table).Some?
    ensures Decode(quiet + rest, row, table) == Decode(rest, Quiet(quiet, row, table).value, table)
  {
    if quiet == [] {
      assert quiet + rest == rest;
    } else {
      assert (quiet + rest)[1..] == quiet[1..] + rest;
      DecodeQuiet(quiet[1..], rest, Execute(quiet[0], row, table).value.row, table);
    }
  }

  // ---------- Writing ----------

  /** The state row i is written relative to. */
  function Before(rows: seq<Row>, i: nat, table: Table): Row
    requires i < |rows|
  {
    if i == 0 || rows[i - 1].sequenceId != rows[i].sequenceId then Fresh(table, NO_SEQUENCE) else rows[i - 1]
  }

  predicate ClosesRun(rows: seq<Row>, i: nat)
    requires i < |rows|
  {
    i + 1 == |rows| || rows[i + 1].sequenceId != rows[i].sequenceId
  }

  /** The opcodes written for the rows from i on. */
  function EncodeFrom(rows: seq<Row>, i: nat, table: Table): Result<seq<Opcode>, Fault>
    requires i <= |rows|
    decreases |rows| - i
  {
    if i == |rows| then Ok([])
    else if !rows[i].NeedToEmit() then Err(AssertNeedToEmit)
    else
      var ops :- Diff(rows[i], Before(rows, i, table), ClosesRun(rows, i));
      var rest :- EncodeFrom(rows, i + 1, table);
      Ok(ops + rest)
  }

  /** The number of maximal same-sequence runs that start after row 0 and at or before row i. */
  function RunNumber(rows: seq<Row>, i: nat): (n: nat)
    requires i < |rows|
    ensures n <= i
  {
    if i == 0 then 0
    else RunNumber(rows, i - 1) + if rows[i - 1].sequenceId != rows[i].sequenceId then 1 else 0
  }

  /** Row i as a reader sees it: the same registers, in the sequence that its run is. */
  function Renumbered(rows: seq<Row>, i: nat): ReadRow
    requires i < |rows|
  {
    ReadRow(rows[i].(sequenceId := Wrap(RunNumber(rows, i))), ClosesRun(rows, i))
  }

  function RenumberedFrom(rows: seq<Row>, i: nat): (r: seq<ReadRow>)
    requires i <= |rows|
    ensures |r| == |rows| - i
    ensures forall k :: 0 <= k < |r| ==> r[k] == Renumbered(rows, i + k)
    decreases |rows| - i
  {
    if i == |rows| then [] else [Renumbered(rows, i)] + RenumberedFrom(rows, i + 1)
  }

  /** The state the reader is in when row i is next. */
  function Incoming(rows: seq<Row>, i: nat, table: Table): Row
    requires i < |rows|
  {
    Before(rows, i, table).AfterLine().(sequenceId := Wrap(RunNumber(rows, i)))
  }

  /** The runs can be numbered by identifiers below the reserved one. */
  predicate FewRuns(rows: seq<Row>) {
    rows == [] || RunNumber(rows, |rows| - 1) + 1 < NO_SEQUENCE
  }

  lemma {:induction false} RunNumbersGrow(rows: seq<Row>, i: nat, j: nat)
    requires i <= j < |rows|
    ensures RunNumber(rows, i) <= RunNumber(rows, j)
    decreases j
  {
    if i < j {
      RunNumbersGrow(rows, i, j - 1);
    }
  }

  lemma NextIncoming(rows: seq<Row>, i: nat, table: Table)
    requires i + 1 < |rows| && RunNumber(rows, i + 1) < NO_SEQUENCE
    ensures var r := Renumbered(rows, i); Next(r.row, r.endsSequence, table) == Ok(Incoming(rows, i + 1, table))
  {
  }

  lemma ExecuteCloser(row: Row, endSequence: bool, table: Table)
    ensures Execute(Closer(endSequence), row, table) == Ok(Step(row, true))
    ensures EndsSequence(Closer(endSequence)) == endSequence
  {
  }

  /** Reading the last opcode of a diff. */
  lemma {:induction false} DecodeCloser(row: Row, endSequence: bool, rest: seq<Opcode>, table: Table)
    ensures Decode([Closer(endSequence)] + rest, row, table) ==
            match Next(row, endSequence, table)
            case Err(fault) => Err(fault)
            case Ok(next) =>
              match Decode(rest, next, table)
              case Err(fault) => Err(fault)
              case Ok(read) => Ok([ReadRow(row, endSequence)] + read)
  {
    hide Execute, Next, Closer, EndsSequence;
    ExecuteCloser(row, endSequence, table);
    assert ([Closer(endSequence)] + rest)[1..] == rest;
  }

  /** A diff depends on neither sequence number. */
  lemma {:induction false} PiecesIgnoreSequence(k: nat, row: Row, prev: Row, a: Word, b: Word)
    requires k <= FIELDS
    ensures Pieces(k, row.(sequenceId := a), prev.(sequenceId := b)) == Pieces(k, row, prev)
  {
    if k > 0 {
      PiecesIgnoreSequence(k - 1, row, prev, a, b);
    }
  }

  /** One written diff, read from the state its row was written against. */
  lemma {:induction false} DiffReadsAsRow(rows: seq<Row>, i: nat, table: Table)
    requires i < |rows|
    requires Diff(rows[i], Before(rows, i, table), ClosesRun(rows, i)).Ok?
    ensures Quiet(DiffBody(rows[i], Before(rows, i, table)), Incoming(rows, i, table), table)
         == Some(Renumbered(rows, i).row)
  {
    var n := Wrap(RunNumber(rows, i));
    var prev := Before(rows, i, table).(sequenceId := n);
    PiecesIgnoreSequence(FIELDS, rows[i], Before(rows, i, table), n, n);
    DiffBodyIsQuiet(rows[i].(sequenceId := n), prev, table);
  }

  /** Reading one written diff, its last opcode included. */
  lemma {:induction false} DecodeDiff(rows: seq<Row>, i: nat, table: Table)
    requires i < |rows| && EncodeFrom(rows, i, table).Ok?
    ensures EncodeFrom(rows, i + 1, table).Ok?
    ensures
      var r := Renumbered(rows, i);
      Decode(EncodeFrom(rows, i, table).value, Incoming(rows, i, table), table) ==
      match Next(r.row, r.endsSequence, table)
      case Err(fault) => Err(fault)
      case Ok(next) =>
        match Decode(EncodeFrom(rows, i + 1, table).value, next, table)
        case Err(fault) => Err(fault)
        case Ok(read) => Ok([r] + read)
  {
    hide Decode, Next, Quiet, Closer, DiffBody;
    var body := DiffBody(rows[i], Before(rows, i, table));
    var closer := Closer(ClosesRun(rows, i));
    var rest := EncodeFrom(rows, i + 1, table).value;
    var r := Renumbered(rows, i);
    assert EncodeFrom(rows, i, table).value == body + ([closer] + rest);
    DiffReadsAsRow(rows, i, table);
    DecodeQuiet(body, [closer] + rest, Incoming(rows, i, table), table);
    DecodeCloser(r.row, r.endsSequence, rest, table);
  }

  /** Line-table round trip: the opcodes written for any rows read back as exactly those rows, field for
      field, one per diff, with a sequence end exactly on the last row of each maximal run; unless there are more
      runs than identifiers. */
  lemma {:induction false} DecodeEncode(rows: seq<Row>, i: nat, table: Table)
    requires i < |rows| && RunNumber(rows, i) < NO_SEQUENCE
    requires EncodeFrom(rows, i, table).Ok?
    ensures Decode(EncodeFrom(rows, i, table).value, Incoming(rows, i, table), table)
         == if FewRuns(rows) then Ok(RenumberedFrom(rows, i)) else Err(AssertSequenceId)
    decreases |rows| - i
  {
    hide Incoming, Diff, Fresh;
    DecodeDiff(rows, i, table);
    RunNumbersGrow(rows, i, |rows| - 1);
    var r := Renumbered(rows, i);
    if ClosesRun(rows, i) && RunNumber(rows, i) + 1 >= NO_SEQUENCE {
      assert Next(r.row, r.endsSequence, table) == Err(AssertSequenceId);
    } else if i + 1 < |rows| {
      NextIncoming(rows, i, table);
      hide Next;
      DecodeEncode(rows, i + 1, table);
    } else {
      assert EncodeFrom(rows, |rows|, table).value == [] && RenumberedFrom(rows, |rows|) == [];
    }
  }

  function Encode(rows: seq<Row>, table: Table): Result<seq<Opcode>, Fault> {
    EncodeFrom(rows, 0, table)
  }

  lemma {:induction false} LineTableRoundTrip(rows: seq<Row>, table: Table)
    requires Encode(rows, table).Ok?
    ensures Decode(Encode(rows, table).value, Fresh(table, 0), table)
         == if FewRuns(rows) then Ok(RenumberedFrom(rows, 0)) else Err(AssertSequenceId)
  {
    if rows != [] {
      DecodeEncode(rows, 0, table);
      assert Incoming(rows, 0, table) == Fresh(table, 0);
    }
  }

  /** What the three checks of the writing loop ask of row i and the row after it in its run. */
  predicate Writable(rows: seq<Row>, i: nat)
    requires i < |rows|
  {
    && rows[i].NeedToEmit() && !rows[i].epilogueBegin
    && (ClosesRun(rows, i) || !rows[i].basicBlock || rows[i + 1].basicBlock)
  }

  predicate WritableFrom(rows: seq<Row>, i: nat) {
    forall k :: i <= k < |rows| ==> Writable(rows, k)
  }

  lemma {:induction false} EncodeFromSucceeds(rows: seq<Row>, i: nat, table: Table)
    requires i < |rows|
    requires !Before(rows, i, table).epilogueBegin
    ensures EncodeFrom(rows, i, table).Ok?
       <==> WritableFrom(rows, i) && (rows[i].basicBlock || !Before(rows, i, table).basicBlock)
    decreases |rows| - i
  {
    if i + 1 < |rows| && !rows[i].epilogueBegin {
      EncodeFromSucceeds(rows, i + 1, table);
    }
    assert WritableFrom(rows, i) <==> Writable(rows, i) && WritableFrom(rows, i + 1);
  }

  /** None of the writing loop's checks fails exactly when every row is writable: in particular, when
      basicBlock never goes from true to false between neighbours of one run. */
  lemma {:induction false} EncodeSucceedsIff(rows: seq<Row>, table: Table)
    ensures Encode(rows, table).Ok? <==> WritableFrom(rows, 0)
  {
    if rows != [] {
      EncodeFromSucceeds(rows, 0, table);
    }
  }

  // ---------- Special opcodes ----------

  /** The special opcode for a line step and an address step, by the formula of section 6.2.5.1 of DWARF 4. */
  function SpecialOpcode(lineStep: int, addressSteps: nat, table: Table): int {
    lineStep - table.lineBase + table.lineRange * addressSteps + table.opcodeBase
  }

  /** Reading it makes exactly those steps and reports a row. */
  lemma {:induction false} SpecialOpcodeSteps(op: Opcode, lineStep: int, addressSteps: nat, row: Row, table: Table)
    requires table.lineBase <= lineStep < table.lineBase + table.lineRange
    requires op.code == SpecialOpcode(lineStep, addressSteps, table) && op.code >= table.opcodeBase
    requires op.code == 11 || op.code > SET_ISA
    ensures Execute(op, row, table) == Ok(Step(row.(line := Wrap(row.line + lineStep),
                                                    addr := Wrap(row.addr + addressSteps * table.minInstLength)), true))
  {
    var adjusted := AdjustOpcode(op.code, table);
    assert adjusted == lineStep - table.lineBase + table.lineRange * addressSteps;
    DivModIs(adjusted, table.lineRange, addressSteps, lineStep - table.lineBase);
  }

  lemma {:induction false} DivModIs(n: nat, d: nat, q: nat, r: nat)
    requires d > 0 && n == r + d * q && r < d
    ensures n / d == q && n % d == r
  {
    var e := n / d - q;
    assert d * e == d * (n / d) - d * q;
    SmallMultipleIsZero(d, e);
  }

  lemma SmallMultipleIsZero(d: int, e: int)
    requires d > 0 && -d < d * e < d
    ensures e == 0
  {
  }

  /** const_add_pc advances the address as special opcode 255 does, and nothing else. */
  lemma ConstAddPcIsSpecial255(constAdd: Opcode, special: Opcode, row: Row, table: Table)
    requires constAdd.code == CONST_ADD_PC && special.code == 255 && table.opcodeBase < 256
    ensures Execute(special, row, table).Ok? && Execute(constAdd, row, table)
         == Ok(Step(row.(addr := Execute(special, row, table).value.row.addr), false))
  {
  }
}
