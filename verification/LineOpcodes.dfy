/** The line-number opcodes by their numbers in the DWARF 4 standard (sections 6.2.2, 6.2.5.2, 6.2.5.3 and 7.21). */
module LineOpcodes {
  import opened Words
  import opened Results
  import opened LineProgram
  import opened LineCodec

  // ---------- Reading ----------

  /** Section 6.2.2: the registers at the start of a sequence. */
  lemma InitialRegisters(table: Table, n: Word)
    ensures
      var row := Fresh(table, n);
      && row.addr == 0 && row.file == 1 && row.line == 1 && row.col == 0 && row.isStmt == table.defaultIsStmt
      && !row.basicBlock && !row.prologueEnd && !row.epilogueBegin && row.isa == 0 && row.discriminator == 0
      && row.sequenceId == n
  {
  }

  /** Advancing the address after setting it, by either opcode, is setting the sum. */
  lemma {:induction false} AdvancePcAdds(a: Word, n: nat, op: Opcode, set_: Opcode, sum: Opcode, row: Row, table: Table)
    requires op.code in {2, 9} && op.data == n
    requires set_.code == 0 && set_.subCode == 2 && set_.data == a
    requires sum.code == 0 && sum.subCode == 2 && sum.data == (a + n) % 0x1_0000_0000
    ensures Execute(set_, row, table).Ok?
    ensures Execute(op, Execute(set_, row, table).value.row, table) == Execute(sum, row, table)
    ensures Execute(sum, row, table) == Ok(Step(row.(addr := (a + n) % 0x1_0000_0000), false))
  {
  }

  /** Section 6.2.5.2: what a standard opcode sets, besides the address. */
  lemma {:induction false} StandardOpcodes(op: Opcode, row: Row, table: Table)
    ensures op.code == 1 ==> Execute(op, row, table) == Ok(Step(row, true))
    ensures op.code == 3 ==>
      Execute(op, row, table) == Ok(Step(row.(line := (row.line + op.sdata) % 0x1_0000_0000), false))
    ensures op.code == 4 ==> Execute(op, row, table) == Ok(Step(row.(file := op.data % 0x1_0000_0000), false))
    ensures op.code == 5 ==> Execute(op, row, table) == Ok(Step(row.(col := op.data % 0x1_0000_0000), false))
    ensures op.code == 6 ==> Execute(op, row, table) == Ok(Step(row.(isStmt := !row.isStmt), false))
    ensures op.code == 7 ==> Execute(op, row, table) == Ok(Step(row.(basicBlock := true), false))
    ensures op.code == 10 ==> Execute(op, row, table) == Ok(Step(row.(prologueEnd := true), false))
    ensures op.code == 12 ==> Execute(op, row, table) == Ok(Step(row.(isa := op.data % 0x1_0000_0000), false))
  {
    hide AddressStep, AdjustOpcode;
  }

  /** Section 6.2.5.3: the extended opcodes; an unknown one changes nothing. */
  lemma {:induction false} ExtendedOpcodes(op: Opcode, row: Row, table: Table)
    requires op.code == 0
    ensures op.subCode == 1 ==> Execute(op, row, table) == Ok(Step(row, true))
    ensures op.subCode == 3 ==> Execute(op, row, table) == Err(DefineFile)
    ensures op.subCode == 4 ==>
      Execute(op, row, table) == Ok(Step(row.(discriminator := op.data % 0x1_0000_0000), false))
    ensures op.subCode !in {1, 2, 3, 4} ==> Execute(op, row, table) == Ok(Step(row, false))
    ensures EndsSequence(op) <==> op.subCode == 1
    ensures StartsNewRange(op) <==> op.subCode == 2
  {
  }

  /** Every other number is a special opcode from the base of the table on, and unknown below it. */
  lemma {:induction false} OtherOpcodes(op: Opcode, row: Row, table: Table)
    requires op.code == 11 || op.code > 12
    ensures op.code < table.opcodeBase ==> Execute(op, row, table) == Err(UnknownOpcode)
    ensures op.code >= table.opcodeBase ==> Execute(op, row, table).Ok? && Execute(op, row, table).value.ready
    ensures !EndsSequence(op) && !StartsNewRange(op)
  {
    hide AddressStep, AdjustOpcode;
  }

  // ---------- Writing ----------

  /** Where an opcode may stand in a diff. */
  function Rank(op: Opcode): Option<nat> {
    if op.code == 0 then (if op.subCode == 2 then Some(0) else if op.subCode == 4 then Some(5) else None)
    else if op.code == 3 then Some(1)
    else if op.code == 5 then Some(2)
    else if op.code == 4 then Some(3)
    else if op.code == 12 then Some(4)
    else if op.code == 6 then Some(6)
    else if op.code == 7 then Some(7)
    else if op.code == 10 then Some(8)
    else None
  }

  /** The length of an extended opcode counts its number and an operand of four bytes, if it has one. Operands fit, and
      those that an opcode does not have are zero. */
  predicate WellFormed(op: Opcode) {
    && op.extLen == (if op.code != 0 then 0 else if op.subCode == 1 then 1 else 5)
    && op.data < 0x1_0000_0000 && -0x8000_0000 <= op.sdata < 0x8000_0000
    && (op.code != 3 ==> op.sdata == 0) && (op.code != 0 ==> op.subCode == 0)
    && (op.code in {1, 3, 6, 7, 10} || (op.code == 0 && op.subCode == 1) ==> op.data == 0)
  }

  function Count(b: bool): nat {
    if b then 1 else 0
  }

  /** How many registers a diff has to change; the prologue flag has been reset. */
  function Differences(row: Row, prev: Row): nat {
    Count(row.addr != prev.addr) + Count(row.line != prev.line) + Count(row.col != prev.col)
    + Count(row.file != prev.file) + Count(row.isa != prev.isa) + Count(row.discriminator != prev.discriminator)
    + Count(row.isStmt != prev.isStmt)
    + Count(row.basicBlock != prev.basicBlock) + Count(row.prologueEnd)
  }

  function DifferencesUpTo(k: nat, row: Row, prev: Row): nat
    requires k <= FIELDS
  {
    if k == 0 then 0 else DifferencesUpTo(k - 1, row, prev) + Count(Needed(k - 1, row, prev))
  }

  lemma {:induction false} PiecesInOrder(k: nat, row: Row, prev: Row)
    requires k <= FIELDS
    ensures
      var ops := Pieces(k, row, prev);
      && |ops| == DifferencesUpTo(k, row, prev)
      && (forall i :: 0 <= i < |ops| ==> WellFormed(ops[i]) && Rank(ops[i]).Some? && Rank(ops[i]).value < k)
      && forall i, j :: 0 <= i < j < |ops| ==> Rank(ops[i]).value < Rank(ops[j]).value
  {
    hide Needed;
    if k > 0 {
      PiecesInOrder(k - 1, row, prev);
      hide Rank, WellFormed;
      PieceRank(k - 1, row, prev);
    }
  }

  lemma {:induction false} PieceRank(k: nat, row: Row, prev: Row)
    requires k < FIELDS
    ensures Rank(PieceOp(k, row, prev)) == Some(k) && WellFormed(PieceOp(k, row, prev))
  {
  }

  /** A diff has one opcode for each register that differs and one that ends it, in the order address, line, column,
      file, isa, discriminator, statement, block, prologue. */
  lemma {:induction false} DiffIsShortest(row: Row, prev: Row, endSequence: bool)
    requires Diff(row, prev, endSequence).Ok?
    ensures
      var ops := Diff(row, prev, endSequence).value;
      var n := Differences(row, prev);
      && |ops| == n + 1
      && (forall i :: 0 <= i < |ops| ==> WellFormed(ops[i]))
      && (forall i :: 0 <= i < n ==> Rank(ops[i]).Some?)
      && (forall i, j :: 0 <= i < j < n ==> Rank(ops[i]).value < Rank(ops[j]).value)
      && (if endSequence then ops[n].code == 0 && ops[n].subCode == 1 else ops[n].code == 1)
  {
    PiecesInOrder(FIELDS, row, prev);
    hide Rank, Pieces;
    assert DifferencesUpTo(FIELDS, row, prev) == Differences(row, prev) by {
      CountAll(row, prev);
    }
  }

  lemma {:induction false} CountAll(row: Row, prev: Row)
    ensures DifferencesUpTo(9, row, prev) == Differences(row, prev)
  {
    hide Count, Needed, DifferencesUpTo, Differences;
    var c0 := CountOneMore(0, row, prev);
    var c1 := CountOneMore(1, row, prev);
    var c2 := CountOneMore(2, row, prev);
    var c3 := CountOneMore(3, row, prev);
    var c4 := CountOneMore(4, row, prev);
    var c5 := CountOneMore(5, row, prev);
    var c6 := CountOneMore(6, row, prev);
    var c7 := CountOneMore(7, row, prev);
    var c8 := CountOneMore(8, row, prev);
    assert DifferencesUpTo(9, row, prev) == c0 + c1 + c2 + c3 + c4 + c5 + c6 + c7 + c8;
    DifferencesAre(row, prev);
  }

  lemma CountOneMore(k: nat, row: Row, prev: Row) returns (c: nat)
    requires k < 9
    ensures c == Count(Needed(k, row, prev))
    ensures DifferencesUpTo(k + 1, row, prev) == DifferencesUpTo(k, row, prev) + c
    ensures DifferencesUpTo(0, row, prev) == 0
  {
    c := Count(Needed(k, row, prev));
  }

  lemma DifferencesAre(row: Row, prev: Row)
    ensures Differences(row, prev)
         == Count(Needed(0, row, prev)) + Count(Needed(1, row, prev)) + Count(Needed(2, row, prev))
          + Count(Needed(3, row, prev)) + Count(Needed(4, row, prev)) + Count(Needed(5, row, prev))
          + Count(Needed(6, row, prev)) + Count(Needed(7, row, prev)) + Count(Needed(8, row, prev))
  {
  }
}
