/** The rows that updateDebugLines keeps, told from the rows that the line program it reads stands for.
    The reading loop resets its registers on other occasions than a plain reader does; where that shows
    is the subject of this module. */
module LineReading {
  import opened Words
  import opened Results
  import opened LineProgram
  import opened LineCodec
  import opened Locations
  import opened DebugLines

  // ---------- A plain reader ----------

  // A row, and whether a set_address came between it and the row before.
  datatype InputRow = InputRow(read: ReadRow, startsRange: bool)

  datatype Reader = Reader(row: Row, rows: seq<InputRow>, inNewRange: bool)

  function NewReader(table: Table): Reader {
    Reader(Fresh(table, 0), [], false)
  }

  function ReadOne(op: Opcode, r: Reader, table: Table): Result<Reader, Fault> {
    var step :- Execute(op, r.row, table);
    var inNewRange := r.inNewRange || StartsNewRange(op);
    if !step.ready then Ok(Reader(step.row, r.rows, inNewRange))
    else
      var next :- Next(step.row, EndsSequence(op), table);
      Ok(Reader(next, r.rows + [InputRow(ReadRow(step.row, EndsSequence(op)), inNewRange)], false))
  }

  function Read(ops: seq<Opcode>, r: Reader, table: Table): Result<Reader, Fault> {
    if ops == [] then Ok(r)
    else
      var next :- ReadOne(ops[0], r, table);
      Read(ops[1..], next, table)
  }

  /** What is read is what the program stands for. */
  lemma {:induction false} ReadIsDecode(ops: seq<Opcode>, r: Reader, table: Table)
    ensures Read(ops, r, table).Ok? <==> Decode(ops, r.row, table).Ok?
    ensures Read(ops, r, table).Ok? ==>
      var rows := Read(ops, r, table).value.rows;
      var decoded := Decode(ops, r.row, table).value;
      && |rows| == |r.rows| + |decoded| && r.rows <= rows
      && forall i :: 0 <= i < |decoded| ==> rows[|r.rows| + i].read == decoded[i]
  {
    hide Execute, Next, StartsNewRange, EndsSequence;
    if ops != [] && ReadOne(ops[0], r, table).Ok? {
      ReadIsDecode(ops[1..], ReadOne(ops[0], r, table).value, table);
    }
  }

  lemma {:induction false} ReadSnoc(ops: seq<Opcode>, r: Reader, table: Table)
    requires ops != []
    ensures Read(ops, r, table) == match Read(ops[..|ops| - 1], r, table)
                                   case Ok(before) => ReadOne(ops[|ops| - 1], before, table)
                                   case Err(fault) => Err(fault)
  {
    hide ReadOne;
    if |ops| == 1 {
      assert ops[1..] == [] && ops[..0] == [];
    } else {
      assert ops[..|ops| - 1][1..] == ops[1..][..|ops| - 2];
      match ReadOne(ops[0], r, table) {
        case Ok(next) => ReadSnoc(ops[1..], next, table);
        case Err(_) =>
      }
    }
  }

  lemma {:induction false} CollectSnoc(ops: seq<Opcode>, c: Collector, table: Table, u: LocationUpdater)
    requires ops != []
    ensures CollectAll(ops, c, table, u) == match CollectAll(ops[..|ops| - 1], c, table, u)
                                            case Ok(before) => Collect(ops[|ops| - 1], before, table, u)
                                            case Err(fault) => Err(fault)
  {
    hide Collect;
    if |ops| == 1 {
      assert ops[1..] == [] && ops[..0] == [];
    } else {
      assert ops[..|ops| - 1][1..] == ops[1..][..|ops| - 2];
      match Collect(ops[0], c, table, u) {
        case Ok(next) => CollectSnoc(ops[1..], next, table, u);
        case Err(_) =>
      }
    }
  }

  // ---------- Which input rows are kept ----------

  /** From a row at a tombstone address on, rows are omitted until a set_address. */
  predicate IsOmitted(rows: seq<InputRow>, k: nat)
    requires k < |rows|
  {
    IsTombstone(rows[k].read.row.addr) || (!rows[k].startsRange && k > 0 && IsOmitted(rows, k - 1))
  }

  function Target(rows: seq<InputRow>, k: nat, u: LocationUpdater): Word
    requires k < |rows|
  {
    u.LineTarget(rows[k].read.row.addr)
  }

  /** The row is not omitted, says something, and is at something that still exists. */
  predicate Lands(rows: seq<InputRow>, k: nat, u: LocationUpdater)
    requires k < |rows|
  {
    !IsOmitted(rows, k) && Target(rows, k, u) != 0 && rows[k].read.row.NeedToEmit()
  }

  predicate Repeats(rows: seq<InputRow>, k: nat, u: LocationUpdater)
    requires k < |rows|
  {
    Lands(rows, k, u) && exists j :: 0 <= j < k && Lands(rows, j, u) && Target(rows, j, u) == Target(rows, k, u)
  }

  /** Row k is the first that goes to this address. */
  predicate IsFirstAt(rows: seq<InputRow>, k: nat, u: LocationUpdater, addr: Word)
    requires k < |rows|
  {
    Lands(rows, k, u) && Target(rows, k, u) == addr && !Repeats(rows, k, u)
  }

  /** Row k ends a sequence for the reading loop: the end is neither omitted nor repeated. */
  predicate Spends(rows: seq<InputRow>, k: nat, u: LocationUpdater)
    requires k < |rows|
  {
    rows[k].read.endsSequence && !IsOmitted(rows, k) && !Repeats(rows, k, u)
  }

  /** The sequence number the loop gives row k. */
  function Number(rows: seq<InputRow>, k: nat, u: LocationUpdater): (n: nat)
    requires k <= |rows|
  {
    if k == 0 then 0 else Number(rows, k - 1, u) + if Spends(rows, k - 1, u) then 1 else 0
  }

  // ---------- Where the loop reads what a plain reader reads ----------

  /** After row k the loop has a plain reader's registers, if it read the row from them or omitted it: an omitted row
      makes it start afresh, a dropped one leaves the prologue flag, and a repeated one even skips the end. */
  predicate LeavesInStep(rows: seq<InputRow>, k: nat, table: Table, u: LocationUpdater)
    requires k < |rows|
  {
    var row, ends := rows[k].read.row, rows[k].read.endsSequence;
    if IsOmitted(rows, k) then ends || row.AfterLine() == Fresh(table, row.sequenceId)
    else if !Lands(rows, k, u) then ends || !row.prologueEnd
    else !Repeats(rows, k, u) || (!ends && !row.prologueEnd)
  }

  /** Row k is omitted whatever the other registers hold: by the range it is in, or by its own set_address. */
  predicate OmittedByRange(rows: seq<InputRow>, k: nat)
    requires k < |rows|
  {
    if rows[k].startsRange then IsOmitted(rows, k) else k > 0 && IsOmitted(rows, k - 1)
  }

  /** Every row follows one that left the registers in step, or is omitted anyway. */
  predicate ReadPlainly(rows: seq<InputRow>, table: Table, u: LocationUpdater) {
    forall k :: 0 < k < |rows| ==> LeavesInStep(rows, k - 1, table, u) || OmittedByRange(rows, k)
  }

  // ---------- More rows change nothing about the rows before ----------

  lemma {:induction false} OmittedInPrefix(a: seq<InputRow>, b: seq<InputRow>, k: nat)
    requires a <= b && k < |a|
    ensures IsOmitted(a, k) == IsOmitted(b, k)
  {
    if k > 0 {
      OmittedInPrefix(a, b, k - 1);
    }
  }

  lemma {:induction false} LandsInPrefix(a: seq<InputRow>, b: seq<InputRow>, k: nat, u: LocationUpdater)
    requires a <= b && k < |a|
    ensures Lands(a, k, u) == Lands(b, k, u) && Target(a, k, u) == Target(b, k, u)
    ensures Repeats(a, k, u) == Repeats(b, k, u)
  {
    hide LocationUpdater.LineTarget, IsOmitted;
    OmittedInPrefix(a, b, k);
    forall j | 0 <= j < k ensures IsOmitted(a, j) == IsOmitted(b, j) && Lands(a, j, u) == Lands(b, j, u)
                               && Target(a, j, u) == Target(b, j, u) {
      OmittedInPrefix(a, b, j);
    }
    if Repeats(a, k, u) {
      var j :| 0 <= j < k && Lands(a, j, u) && Target(a, j, u) == Target(a, k, u);
      assert Lands(b, j, u) && Target(b, j, u) == Target(b, k, u);
    }
    if Repeats(b, k, u) {
      var j :| 0 <= j < k && Lands(b, j, u) && Target(b, j, u) == Target(b, k, u);
      assert Lands(a, j, u) && Target(a, j, u) == Target(a, k, u);
    }
  }

  lemma {:induction false} NumberInPrefix(a: seq<InputRow>, b: seq<InputRow>, k: nat, u: LocationUpdater)
    requires a <= b && k <= |a|
    ensures Number(a, k, u) == Number(b, k, u)
  {
    hide IsOmitted, Repeats;
    if k > 0 {
      NumberInPrefix(a, b, k - 1, u);
      OmittedInPrefix(a, b, k - 1);
      LandsInPrefix(a, b, k - 1, u);
    }
  }

  lemma {:induction false} ReadPlainlyInPrefix(a: seq<InputRow>, b: seq<InputRow>, table: Table, u: LocationUpdater)
    requires a <= b
    ensures ReadPlainly(b, table, u) ==> ReadPlainly(a, table, u)
  {
    hide IsOmitted, Lands, Repeats;
    if ReadPlainly(b, table, u) {
      forall k | 0 < k < |a| ensures LeavesInStep(a, k - 1, table, u) || OmittedByRange(a, k) {
        assert LeavesInStep(b, k - 1, table, u) || OmittedByRange(b, k);
        OmittedInPrefix(a, b, k - 1);
        OmittedInPrefix(a, b, k);
        LandsInPrefix(a, b, k - 1, u);
      }
    }
  }

  // ---------- The loop beside the plain reader ----------

  /** Row k as the loop stores it. */
  function Stored(rows: seq<InputRow>, k: nat, u: LocationUpdater): Row
    requires k < |rows|
  {
    rows[k].read.row.(addr := Target(rows, k, u), sequenceId := Wrap(Number(rows, k, u)))
  }

  /** What is stored is, for each address some row goes to, the first such row. */
  ghost predicate StoresFirsts(info: map<Word, Row>, rows: seq<InputRow>, u: LocationUpdater) {
    && (forall k :: 0 <= k < |rows| && Lands(rows, k, u) ==> Target(rows, k, u) in info)
    && (forall a :: a in info ==>
          exists k :: 0 <= k < |rows| && IsFirstAt(rows, k, u, a) && info[a] == Stored(rows, k, u))
  }

  predicate Agree(loop: Row, plain: Row) {
    loop == plain.(sequenceId := loop.sequenceId)
  }

  predicate InStep(r: Reader, table: Table, u: LocationUpdater) {
    r.rows == [] || LeavesInStep(r.rows, |r.rows| - 1, table, u)
  }

  /** What holds of the two readers after every opcode. */
  ghost predicate Beside(c: Collector, r: Reader, table: Table, u: LocationUpdater) {
    && c.sequenceId == c.state.sequenceId == Number(r.rows, |r.rows|, u)
    && c.omitting == (r.rows != [] && IsOmitted(r.rows, |r.rows| - 1) && !r.inNewRange)
    && (InStep(r, table, u) ==> Agree(c.state, r.row))
    && (r.inNewRange ==> c.state.addr == r.row.addr)
    && StoresFirsts(c.info, r.rows, u)
  }

  /** One opcode on two sets of registers. */
  lemma ExecuteTogether(op: Opcode, a: Row, b: Row, table: Table)
    ensures Execute(op, a, table).Ok? == Execute(op, b, table).Ok?
    ensures Execute(op, a, table).Ok? ==> Execute(op, a, table).value.ready == Execute(op, b, table).value.ready
    ensures Execute(op, a, table).Ok? && Execute(op, a, table).value.ready ==> !StartsNewRange(op)
  {
  }

  lemma ExtendedAgrees(op: Opcode, a: Row, b: Row, table: Table)
    requires op.code == EXTENDED && Execute(op, a, table).Ok? && Execute(op, b, table).Ok?
    ensures Agree(a, b) ==> Agree(Execute(op, a, table).value.row, Execute(op, b, table).value.row)
    ensures a.addr == b.addr || StartsNewRange(op) ==>
              Execute(op, a, table).value.row.addr == Execute(op, b, table).value.row.addr
  {
  }

  lemma {:induction false} StandardAgrees(op: Opcode, a: Row, b: Row, table: Table)
    requires EXTENDED < op.code <= ADVANCE_LINE && Execute(op, a, table).Ok? && Execute(op, b, table).Ok?
    ensures Agree(a, b) ==> Agree(Execute(op, a, table).value.row, Execute(op, b, table).value.row)
    ensures a.addr == b.addr ==> Execute(op, a, table).value.row.addr == Execute(op, b, table).value.row.addr
  {
    hide AddressStep, AdjustOpcode;
  }

  lemma {:induction false} SettingAgrees(op: Opcode, a: Row, b: Row, table: Table)
    requires ADVANCE_LINE < op.code <= SET_BASIC_BLOCK && Execute(op, a, table).Ok? && Execute(op, b, table).Ok?
    ensures Agree(a, b) ==> Agree(Execute(op, a, table).value.row, Execute(op, b, table).value.row)
    ensures a.addr == b.addr ==> Execute(op, a, table).value.row.addr == Execute(op, b, table).value.row.addr
  {
    hide AddressStep, AdjustOpcode;
  }

  lemma {:induction false} AdvancingAgrees(op: Opcode, a: Row, b: Row, table: Table)
    requires SET_BASIC_BLOCK < op.code <= SET_PROLOGUE_END && Execute(op, a, table).Ok? && Execute(op, b, table).Ok?
    ensures Agree(a, b) ==> Agree(Execute(op, a, table).value.row, Execute(op, b, table).value.row)
    ensures a.addr == b.addr ==> Execute(op, a, table).value.row.addr == Execute(op, b, table).value.row.addr
  {
    hide AddressStep, AdjustOpcode;
  }

  lemma {:induction false} SpecialAgrees(op: Opcode, a: Row, b: Row, table: Table)
    requires op.code > SET_PROLOGUE_END && Execute(op, a, table).Ok? && Execute(op, b, table).Ok?
    ensures Agree(a, b) ==> Agree(Execute(op, a, table).value.row, Execute(op, b, table).value.row)
    ensures a.addr == b.addr ==> Execute(op, a, table).value.row.addr == Execute(op, b, table).value.row.addr
  {
    hide AddressStep, AdjustOpcode;
  }

  lemma {:induction false} ExecuteAgrees(op: Opcode, a: Row, b: Row, table: Table)
    requires Execute(op, a, table).Ok? && Execute(op, b, table).Ok?
    ensures Agree(a, b) ==> Agree(Execute(op, a, table).value.row, Execute(op, b, table).value.row)
    ensures a.addr == b.addr || StartsNewRange(op) ==>
              Execute(op, a, table).value.row.addr == Execute(op, b, table).value.row.addr
  {
    hide Execute, Agree;
    if op.code == EXTENDED {
      ExtendedAgrees(op, a, b, table);
    } else if op.code <= ADVANCE_LINE {
      StandardAgrees(op, a, b, table);
    } else if op.code <= SET_BASIC_BLOCK {
      SettingAgrees(op, a, b, table);
    } else if op.code <= SET_PROLOGUE_END {
      AdvancingAgrees(op, a, b, table);
    } else {
      SpecialAgrees(op, a, b, table);
    }
  }

  lemma {:induction false} StoredInPrefix(a: seq<InputRow>, b: seq<InputRow>, k: nat, u: LocationUpdater)
    requires a <= b && k < |a|
    ensures Lands(a, k, u) == Lands(b, k, u) && Target(a, k, u) == Target(b, k, u)
    ensures Repeats(a, k, u) == Repeats(b, k, u) && Stored(a, k, u) == Stored(b, k, u)
  {
    hide Lands, Repeats, Number, LocationUpdater.LineTarget;
    LandsInPrefix(a, b, k, u);
    NumberInPrefix(a, b, k, u);
  }

  /** Storing a row that is the first at its address, or leaving out one that is not. */
  lemma {:induction false} StoresMore(info: map<Word, Row>, rows: seq<InputRow>, row: InputRow, u: LocationUpdater)
    requires StoresFirsts(info, rows, u)
    ensures
      var more := rows + [row];
      var k := |rows|;
      && (Lands(more, k, u) ==> (Repeats(more, k, u) <==> Target(more, k, u) in info))
      && var kept := Lands(more, k, u) && !Repeats(more, k, u);
         StoresFirsts(if kept then info[Target(more, k, u) := Stored(more, k, u)] else info, more, u)
  {
    hide Lands, Target, Stored, Number;
    var more := rows + [row];
    var k := |rows|;
    forall j | 0 <= j < k ensures Lands(rows, j, u) == Lands(more, j, u) && Target(rows, j, u) == Target(more, j, u)
                               && Repeats(rows, j, u) == Repeats(more, j, u)
                               && Stored(rows, j, u) == Stored(more, j, u) {
      StoredInPrefix(rows, more, j, u);
    }
    if Lands(more, k, u) {
      var a := Target(more, k, u);
      if a in info {
        var j :| 0 <= j < k && IsFirstAt(rows, j, u, a) && info[a] == Stored(rows, j, u);
        assert Lands(more, j, u) && Target(more, j, u) == a;
      }
    }
    var kept := Lands(more, k, u) && !Repeats(more, k, u);
    var stored := if kept then info[Target(more, k, u) := Stored(more, k, u)] else info;
    forall a | a in stored
      ensures exists j :: 0 <= j < |more| && IsFirstAt(more, j, u, a) && stored[a] == Stored(more, j, u)
    {
      if Lands(more, k, u) && !Repeats(more, k, u) && a == Target(more, k, u) {
        assert IsFirstAt(more, k, u, a);
      } else {
        var j :| 0 <= j < k && IsFirstAt(rows, j, u, a) && info[a] == Stored(rows, j, u);
        assert IsFirstAt(more, j, u, a);
      }
    }
  }

  /** A row that both readers omit. */
  lemma {:induction false} OmittedBeside(op: Opcode, step: Step, c: Collector, next: Reader, table: Table,
                                         u: LocationUpdater)
    requires step.ready && next.rows != [] && !next.inNewRange
    requires (c.omitting && !StartsNewRange(op)) || IsTombstone(step.row.addr)
    requires
      var k := |next.rows| - 1;
      && IsOmitted(next.rows, k)
      && next.rows[k].read.endsSequence == EndsSequence(op)
      && Next(next.rows[k].read.row, EndsSequence(op), table) == Ok(next.row)
      && c.sequenceId == Number(next.rows[..k], k, u)
      && StoresFirsts(c.info, next.rows[..k], u)
    ensures CollectStep(op, step, c, table, u).Ok? && Beside(CollectStep(op, step, c, table, u).value, next, table, u)
  {
    hide CollectRow, Repeats, StoresFirsts, LocationUpdater.LineTarget;
    var k := |next.rows| - 1;
    var before := next.rows[..k];
    assert next.rows == before + [next.rows[k]];
    StoresMore(c.info, before, next.rows[k], u);
    NumberInPrefix(before, next.rows, k, u);
  }

  /** A row that neither omits, read from the same registers. */
  lemma {:induction false} KeptBeside(op: Opcode, row: Row, c: Collector, next: Reader, table: Table,
                                      u: LocationUpdater)
    requires next.rows != [] && !next.inNewRange && !c.omitting && row.sequenceId == c.sequenceId
    requires
      var k := |next.rows| - 1;
      && !IsOmitted(next.rows, k) && Agree(row, next.rows[k].read.row)
      && next.rows[k].read.endsSequence == EndsSequence(op)
      && Next(next.rows[k].read.row, EndsSequence(op), table) == Ok(next.row)
      && c.sequenceId == Number(next.rows[..k], k, u)
      && StoresFirsts(c.info, next.rows[..k], u)
    requires CollectRow(op, row, c, table, u).Ok?
    ensures Beside(CollectRow(op, row, c, table, u).value, next, table, u)
  {
    hide StoresFirsts, IsOmitted, LocationUpdater.LineTarget, IsTombstone;
    var k := |next.rows| - 1;
    var before := next.rows[..k];
    assert next.rows == before + [next.rows[k]];
    StoresMore(c.info, before, next.rows[k], u);
    NumberInPrefix(before, next.rows, k, u);
    assert Repeats(next.rows, k, u) ==> Lands(next.rows, k, u);
    hide Repeats;
  }

  lemma {:induction false} StepBeside(op: Opcode, c: Collector, r: Reader, table: Table, u: LocationUpdater)
    requires Beside(c, r, table, u) && Collect(op, c, table, u).Ok? && ReadOne(op, r, table).Ok?
    requires ReadPlainly(ReadOne(op, r, table).value.rows, table, u)
    ensures Beside(Collect(op, c, table, u).value, ReadOne(op, r, table).value, table, u)
  {
    hide Execute, CollectRow, LeavesInStep, Agree, StoresFirsts, IsTombstone, Next, Fresh;
    ExecuteTogether(op, c.state, r.row, table);
    ExecuteAgrees(op, c.state, r.row, table);
    ExecuteKeeps(op, c.state, table);
    var step := Execute(op, c.state, table).value;
    var next := ReadOne(op, r, table).value;
    if step.ready {
      var k := |r.rows|;
      assert next.rows[..k] == r.rows;
      if k > 0 {
        OmittedInPrefix(r.rows, next.rows, k - 1);
        LandsInPrefix(r.rows, next.rows, k - 1, u);
      }
      SameFate(op, c, r, next, table, u);
      if IsOmitted(next.rows, k) {
        OmittedBeside(op, step, c, next, table, u);
      } else {
        KeptBeside(op, step.row, c.(omitting := false), next, table, u);
      }
    }
  }

  /** Both readers omit the same rows. */
  lemma {:induction false} SameFate(op: Opcode, c: Collector, r: Reader, next: Reader, table: Table, u: LocationUpdater)
    requires Beside(c, r, table, u) && ReadOne(op, r, table) == Ok(next) && |next.rows| == |r.rows| + 1
    requires ReadPlainly(next.rows, table, u)
    requires Execute(op, c.state, table).Ok?
    ensures
      var row, plain := Execute(op, c.state, table).value.row, next.rows[|r.rows|].read.row;
      && (IsOmitted(next.rows, |r.rows|) <==> (c.omitting && !StartsNewRange(op)) || IsTombstone(row.addr))
      && (IsOmitted(next.rows, |r.rows|) || Agree(row, plain))
  {
    hide Execute, Next, StoresFirsts, IsTombstone, Fresh;
    ExecuteTogether(op, c.state, r.row, table);
    ExecuteAgrees(op, c.state, r.row, table);
    var k := |r.rows|;
    assert r.rows <= next.rows;
    if k > 0 {
      assert LeavesInStep(next.rows, k - 1, table, u) || OmittedByRange(next.rows, k);
      OmittedInPrefix(r.rows, next.rows, k - 1);
      LandsInPrefix(r.rows, next.rows, k - 1, u);
    }
  }

  /** After a row read beside a plain reader, the registers agree exactly when the row leaves them in step. */
  lemma {:induction false} StepTells(op: Opcode, c: Collector, r: Reader, next: Reader, table: Table,
                                     u: LocationUpdater)
    requires Beside(c, r, table, u) && Collect(op, c, table, u).Ok?
    requires ReadOne(op, r, table) == Ok(next) && |next.rows| == |r.rows| + 1 && ReadPlainly(next.rows, table, u)
    ensures Agree(Collect(op, c, table, u).value.state, next.row) <==> LeavesInStep(next.rows, |r.rows|, table, u)
  {
    hide Execute, StoresFirsts, IsTombstone, Next, ReadPlainly, IsOmitted, LocationUpdater.LineTarget;
    StepBeside(op, c, r, table, u);
    SameFate(op, c, r, next, table, u);
    ExecuteTogether(op, c.state, r.row, table);
    ExecuteKeeps(op, c.state, table);
    if !LeavesInStep(next.rows, |r.rows|, table, u) {
      OutOfStep(op, Execute(op, c.state, table).value, c, next, table, u);
    }
  }

  lemma {:induction false} OutOfStep(op: Opcode, step: Step, c: Collector, next: Reader, table: Table,
                                     u: LocationUpdater)
    requires step.ready && next.rows != [] && CollectStep(op, step, c, table, u).Ok?
    requires
      var k := |next.rows| - 1;
      var row := next.rows[k].read.row;
      && next.rows[k].read.endsSequence == EndsSequence(op)
      && Next(row, EndsSequence(op), table) == Ok(next.row)
      && (IsOmitted(next.rows, k) <==> (c.omitting && !StartsNewRange(op)) || IsTombstone(step.row.addr))
      && (IsOmitted(next.rows, k) || Agree(step.row, row))
      && StoresFirsts(c.info, next.rows[..k], u)
      && !LeavesInStep(next.rows, k, table, u)
    ensures !Agree(CollectStep(op, step, c, table, u).value.state, next.row)
  {
    hide StoresFirsts, IsTombstone, IsOmitted, LocationUpdater.LineTarget;
    var k := |next.rows| - 1;
    assert next.rows == next.rows[..k] + [next.rows[k]];
    StoresMore(c.info, next.rows[..k], next.rows[k], u);
    hide Repeats;
  }

  // ---------- Whole programs ----------

  lemma {:induction false} ReadsBeside(ops: seq<Opcode>, table: Table, u: LocationUpdater)
    requires CollectAll(ops, Begin(table), table, u).Ok? && Read(ops, NewReader(table), table).Ok?
    requires ReadPlainly(Read(ops, NewReader(table), table).value.rows, table, u)
    ensures Beside(CollectAll(ops, Begin(table), table, u).value, Read(ops, NewReader(table), table).value, table, u)
    decreases |ops|
  {
    hide Beside, Collect, ReadOne, ReadPlainly;
    if ops == [] {
      BesideAtStart(table, u);
    } else {
      var n := |ops| - 1;
      CollectSnoc(ops, Begin(table), table, u);
      ReadSnoc(ops, NewReader(table), table);
      var r := Read(ops[..n], NewReader(table), table).value;
      ReadsOn(ops[n], r, table);
      ReadPlainlyInPrefix(r.rows, Read(ops, NewReader(table), table).value.rows, table, u);
      ReadsBeside(ops[..n], table, u);
      StepBeside(ops[n], CollectAll(ops[..n], Begin(table), table, u).value, r, table, u);
    }
  }

  lemma BesideAtStart(table: Table, u: LocationUpdater)
    ensures Beside(Begin(table), NewReader(table), table, u)
  {
  }

  lemma {:induction false} ReadsOn(op: Opcode, r: Reader, table: Table)
    requires ReadOne(op, r, table).Ok?
    ensures r.rows <= ReadOne(op, r, table).value.rows && |ReadOne(op, r, table).value.rows| <= |r.rows| + 1
  {
    hide Execute;
  }

  /** Reading the first p opcodes. */
  lemma {:induction false} ReadUpTo(ops: seq<Opcode>, p: nat, table: Table, u: LocationUpdater)
    requires p <= |ops| && CollectAll(ops, Begin(table), table, u).Ok? && Read(ops, NewReader(table), table).Ok?
    ensures CollectAll(ops[..p], Begin(table), table, u).Ok? && Read(ops[..p], NewReader(table), table).Ok?
    ensures Read(ops[..p], NewReader(table), table).value.rows <= Read(ops, NewReader(table), table).value.rows
    decreases |ops|
  {
    hide Collect, ReadOne;
    if p == |ops| {
      assert ops[..p] == ops;
    } else {
      var n := |ops| - 1;
      CollectSnoc(ops, Begin(table), table, u);
      ReadSnoc(ops, NewReader(table), table);
      ReadsOn(ops[n], Read(ops[..n], NewReader(table), table).value, table);
      ReadUpTo(ops[..n], p, table, u);
      assert ops[..n][..p] == ops[..p];
    }
  }

  function RowsIn(ops: seq<Opcode>, table: Table): seq<InputRow>
    requires Read(ops, NewReader(table), table).Ok?
  {
    Read(ops, NewReader(table), table).value.rows
  }

  /** Opcode p completes a row: the k-th, counted from one. */
  ghost predicate Completes(ops: seq<Opcode>, p: nat, k: nat, table: Table) {
    && p < |ops| && Read(ops[..p], NewReader(table), table).Ok? && Read(ops[..p + 1], NewReader(table), table).Ok?
    && k == |RowsIn(ops[..p + 1], table)| == |RowsIn(ops[..p], table)| + 1
  }

  /** Wherever a row of the program begins, the loop has a plain reader's registers, or will omit the row anyway. */
  ghost predicate AgreesAtRows(ops: seq<Opcode>, table: Table, u: LocationUpdater)
    requires CollectAll(ops, Begin(table), table, u).Ok? && Read(ops, NewReader(table), table).Ok?
  {
    forall p: nat, k: nat :: Completes(ops, p, k, table) && k < |RowsIn(ops, table)| ==>
      var loop := CollectAll(ops[..p + 1], Begin(table), table, u);
      OmittedByRange(RowsIn(ops, table), k)
      || (loop.Ok? && Agree(loop.value.state, Read(ops[..p + 1], NewReader(table), table).value.row))
  }

  lemma {:induction false} CompletedBy(ops: seq<Opcode>, k: nat, table: Table) returns (p: nat)
    requires Read(ops, NewReader(table), table).Ok? && 0 < k <= |RowsIn(ops, table)|
    ensures Completes(ops, p, k, table)
    decreases |ops|
  {
    hide ReadOne;
    var n := |ops| - 1;
    ReadSnoc(ops, NewReader(table), table);
    ReadsOn(ops[n], Read(ops[..n], NewReader(table), table).value, table);
    if k == |RowsIn(ops[..n], table)| + 1 {
      assert ops[..n + 1] == ops;
      p := n;
    } else {
      p := CompletedBy(ops[..n], k, table);
      assert ops[..n][..p] == ops[..p] && ops[..n][..p + 1] == ops[..p + 1];
    }
  }

  /** At the start of row k the registers agree exactly when row k - 1 left them in step. */
  lemma {:induction false} AgreesAtRow(ops: seq<Opcode>, p: nat, k: nat, table: Table, u: LocationUpdater)
    requires CollectAll(ops, Begin(table), table, u).Ok? && Read(ops, NewReader(table), table).Ok?
    requires Completes(ops, p, k, table) && k <= |RowsIn(ops, table)| && ReadPlainly(RowsIn(ops, table)[..k], table, u)
    ensures CollectAll(ops[..p + 1], Begin(table), table, u).Ok?
    ensures Agree(CollectAll(ops[..p + 1], Begin(table), table, u).value.state,
                  Read(ops[..p + 1], NewReader(table), table).value.row)
       <==> LeavesInStep(RowsIn(ops, table), k - 1, table, u)
  {
    hide Collect, ReadOne, Agree, ReadPlainly, LeavesInStep, Beside;
    ReadUpTo(ops, p, table, u);
    ReadUpTo(ops, p + 1, table, u);
    var rows := RowsIn(ops[..p + 1], table);
    assert rows == RowsIn(ops, table)[..k];
    var done := ops[..p + 1];
    assert done[..p] == ops[..p];
    CollectSnoc(done, Begin(table), table, u);
    ReadSnoc(done, NewReader(table), table);
    var r := Read(ops[..p], NewReader(table), table).value;
    ReadsOn(ops[p], r, table);
    ReadPlainlyInPrefix(r.rows, rows, table, u);
    ReadsBeside(ops[..p], table, u);
    var next := Read(done, NewReader(table), table).value;
    StepTells(ops[p], CollectAll(ops[..p], Begin(table), table, u).value, r, next, table, u);
    SameInPrefix(rows, RowsIn(ops, table), k - 1, table, u);
  }

  lemma {:induction false} SameInPrefix(a: seq<InputRow>, b: seq<InputRow>, k: nat, table: Table, u: LocationUpdater)
    requires a <= b && k < |a|
    ensures LeavesInStep(a, k, table, u) == LeavesInStep(b, k, table, u)
  {
    hide IsOmitted, Lands, Repeats;
    OmittedInPrefix(a, b, k);
    LandsInPrefix(a, b, k, u);
  }

  /** Over a whole program: every row that is not omitted anyway begins with a plain reader's registers exactly when
      the rows, as a plain reader sees them, are such that each leaves the registers in step. */
  lemma {:induction false} AgreesIffReadPlainly(ops: seq<Opcode>, table: Table, u: LocationUpdater)
    requires CollectAll(ops, Begin(table), table, u).Ok? && Read(ops, NewReader(table), table).Ok?
    ensures AgreesAtRows(ops, table, u) <==> ReadPlainly(RowsIn(ops, table), table, u)
  {
    hide Collect, ReadOne, Agree, LeavesInStep, OmittedByRange, Read, RowsIn;
    var rows := RowsIn(ops, table);
    if ReadPlainly(rows, table, u) {
      forall p: nat, k: nat | Completes(ops, p, k, table) && k < |rows|
        ensures OmittedByRange(rows, k)
             || (CollectAll(ops[..p + 1], Begin(table), table, u).Ok?
                 && Agree(CollectAll(ops[..p + 1], Begin(table), table, u).value.state,
                          Read(ops[..p + 1], NewReader(table), table).value.row)) {
        ReadPlainlyInPrefix(rows[..k], rows, table, u);
        AgreesAtRow(ops, p, k, table, u);
      }
    } else {
      assert rows[..|rows|] == rows;
      var k := FirstOutOfStep(rows, |rows|, table, u);
      var p := CompletedBy(ops, k, table);
      AgreesAtRow(ops, p, k, table, u);
      assert Completes(ops, p, k, table);
    }
  }

  lemma {:induction false} FirstOutOfStep(rows: seq<InputRow>, n: nat, table: Table, u: LocationUpdater)
    returns (k: nat)
    requires n <= |rows| && !ReadPlainly(rows[..n], table, u)
    ensures 0 < k < |rows| && ReadPlainly(rows[..k], table, u)
    ensures !LeavesInStep(rows, k - 1, table, u) && !OmittedByRange(rows, k)
  {
    hide LeavesInStep, OmittedByRange;
    var m := n - 1;
    if ReadPlainly(rows[..m], table, u) {
      k := m;
      var j :| 0 < j < n && !(LeavesInStep(rows[..n], j - 1, table, u) || OmittedByRange(rows[..n], j));
      StepInPrefix(rows[..n], rows, j, table, u);
      if j < m {
        StepInPrefix(rows[..m], rows, j, table, u);
      }
    } else {
      k := FirstOutOfStep(rows, m, table, u);
    }
  }

  lemma {:induction false} StepInPrefix(a: seq<InputRow>, b: seq<InputRow>, k: nat, table: Table, u: LocationUpdater)
    requires a <= b && 0 < k < |a|
    ensures LeavesInStep(a, k - 1, table, u) == LeavesInStep(b, k - 1, table, u)
    ensures OmittedByRange(a, k) == OmittedByRange(b, k)
  {
    SameInPrefix(a, b, k - 1, table, u);
    OmittedInPrefix(a, b, k - 1);
    OmittedInPrefix(a, b, k);
  }
}
