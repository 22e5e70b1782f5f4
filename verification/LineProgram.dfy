/** The line-number state machine of wasm-debug.cpp and the opcodes it reads and writes.
    Registers and opcodes are those of sections 6.2.2 and 6.2.5 of the DWARF 4 standard. */
module LineProgram {
  import opened Words
  import opened Results

  datatype Opcode = Opcode(code: Byte, extLen: nat, subCode: nat, data: nat, sdata: int)

  // A zero LineRange would be a division by zero in the source.
  type Divisor = x: int | 1 <= x < 0x100 witness 1

  datatype Table = Table(defaultIsStmt: bool, minInstLength: Byte, opcodeBase: Byte, lineBase: int, lineRange: Divisor)

  // A copy of the registers; sequenceId NO_SEQUENCE marks a state outside any sequence.
  datatype Row = Row(addr: Word, line: Word, col: Word, file: Word, isa: Word, discriminator: Word,
                     isStmt: bool, basicBlock: bool, prologueEnd: bool, epilogueBegin: bool, sequenceId: Word)
  {
    predicate NeedToEmit() {
      line != 0 && addr != 0
    }

    function AfterLine(): Row {
      this.(prologueEnd := false)
    }
  }

  function Fresh(table: Table, sequenceId: Word): Row {
    Row(0, 1, 0, 1, 0, 0, table.defaultIsStmt, false, false, false, sequenceId)
  }

  datatype Fault = DefineFile | UnknownOpcode | AssertBasicBlock | EpilogueBegin | AssertSequenceId | AssertNeedToEmit

  // Standard opcodes.
  const EXTENDED: Byte := 0
  const COPY: Byte := 1
  const ADVANCE_PC: Byte := 2
  const ADVANCE_LINE: Byte := 3
  const SET_FILE: Byte := 4
  const SET_COLUMN: Byte := 5
  const NEGATE_STMT: Byte := 6
  const SET_BASIC_BLOCK: Byte := 7
  const CONST_ADD_PC: Byte := 8
  const FIXED_ADVANCE_PC: Byte := 9
  const SET_PROLOGUE_END: Byte := 10
  const SET_ISA: Byte := 12

  // Extended opcodes.
  const END_SEQUENCE: nat := 1
  const SET_ADDRESS: nat := 2
  const DEFINE_FILE: nat := 3
  const SET_DISCRIMINATOR: nat := 4

  predicate StartsNewRange(op: Opcode) {
    op.code == EXTENDED && op.subCode == SET_ADDRESS
  }

  predicate EndsSequence(op: Opcode) {
    op.code == EXTENDED && op.subCode == END_SEQUENCE
  }

  function Item(code: Byte): Opcode {
    Opcode(code, 0, 0, 0, 0)
  }

  function ExtendedItem(subCode: nat, extLen: nat): Opcode {
    Opcode(EXTENDED, extLen, subCode, 0, 0)
  }

  /** uint8_t subtraction, then the address and line steps of a special opcode. */
  function AdjustOpcode(from: Byte, table: Table): Byte {
    (from - table.opcodeBase) % 0x100
  }

  function AddressStep(adjusted: Byte, table: Table): nat {
    adjusted / table.lineRange * table.minInstLength
  }

  datatype Step = Step(row: Row, ready: bool)

  function Quietly(row: Row): Result<Step, Fault> {
    Ok(Step(row, false))
  }

  /** What one opcode does to the registers, and whether a row is complete after it. */
  function Execute(op: Opcode, row: Row, table: Table): Result<Step, Fault> {
    if op.code == EXTENDED then
      if op.subCode == SET_ADDRESS then Quietly(row.(addr := Wrap(op.data)))
      else if op.subCode == END_SEQUENCE then Ok(Step(row, true))
      else if op.subCode == SET_DISCRIMINATOR then Quietly(row.(discriminator := Wrap(op.data)))
      else if op.subCode == DEFINE_FILE then Err(DefineFile)
      else Quietly(row)
    else if op.code == SET_COLUMN then Quietly(row.(col := Wrap(op.data)))
    else if op.code == SET_PROLOGUE_END then Quietly(row.(prologueEnd := true))
    else if op.code == COPY then Ok(Step(row, true))
    else if op.code == ADVANCE_PC then Quietly(row.(addr := Wrap(row.addr + op.data)))
    else if op.code == ADVANCE_LINE then Quietly(row.(line := Wrap(row.line + op.sdata)))
    else if op.code == SET_FILE then Quietly(row.(file := Wrap(op.data)))
    else if op.code == NEGATE_STMT then Quietly(row.(isStmt := !row.isStmt))
    else if op.code == SET_BASIC_BLOCK then Quietly(row.(basicBlock := true))
    else if op.code == CONST_ADD_PC then
      Quietly(row.(addr := Wrap(row.addr + AddressStep(AdjustOpcode(255, table), table))))
    else if op.code == FIXED_ADVANCE_PC then Quietly(row.(addr := Wrap(row.addr + op.data)))
    else if op.code == SET_ISA then Quietly(row.(isa := Wrap(op.data)))
    else if op.code < table.opcodeBase then Err(UnknownOpcode)
    else
      var adjusted := AdjustOpcode(op.code, table);
      Ok(Step(row.(line := Wrap(row.line + table.lineBase + adjusted % table.lineRange),
                   addr := Wrap(row.addr + AddressStep(adjusted, table))), true))
  }

  const FIELDS := 9

  /** Whether a diff spends an opcode on the k-th of the registers it compares. */
  predicate Needed(k: nat, row: Row, prev: Row)
    requires k < FIELDS
  {
    match k
    case 0 => row.addr != prev.addr
    case 1 => row.line != prev.line
    case 2 => row.col != prev.col
    case 3 => row.file != prev.file
    case 4 => row.isa != prev.isa
    case 5 => row.discriminator != prev.discriminator
    case 6 => row.isStmt != prev.isStmt
    case 7 => row.basicBlock != prev.basicBlock
    case _ => row.prologueEnd
  }

  function PieceOp(k: nat, row: Row, prev: Row): Opcode
    requires k < FIELDS
  {
    match k
    case 0 => ExtendedItem(SET_ADDRESS, 5).(data := row.addr)
    case 1 => Item(ADVANCE_LINE).(sdata := AsSigned(Wrap(row.line - prev.line)))
    case 2 => Item(SET_COLUMN).(data := row.col)
    case 3 => Item(SET_FILE).(data := row.file)
    case 4 => Item(SET_ISA).(data := row.isa)
    case 5 => ExtendedItem(SET_DISCRIMINATOR, 5).(data := row.discriminator)
    case 6 => Item(NEGATE_STMT)
    case 7 => Item(SET_BASIC_BLOCK)
    case _ => Item(SET_PROLOGUE_END)
  }

  function Piece(k: nat, row: Row, prev: Row): seq<Opcode>
    requires k < FIELDS
  {
    if Needed(k, row, prev) then [PieceOp(k, row, prev)] else []
  }

  /** The opcodes of a diff for its first k registers; all of them come before the closing opcode. */
  function Pieces(k: nat, row: Row, prev: Row): seq<Opcode>
    requires k <= FIELDS
  {
    if k == 0 then [] else Pieces(k - 1, row, prev) + Piece(k - 1, row, prev)
  }

  function DiffBody(row: Row, prev: Row): seq<Opcode> {
    Pieces(FIELDS, row, prev)
  }

  function Closer(endSequence: bool): Opcode {
    if endSequence then ExtendedItem(END_SEQUENCE, 1) else Item(COPY)
  }

  /** emitDiff: the opcodes that turn `prev` into `row`, or the check that stops it. */
  function Diff(row: Row, prev: Row, endSequence: bool): Result<seq<Opcode>, Fault> {
    if row.basicBlock != prev.basicBlock && !row.basicBlock then Err(AssertBasicBlock)
    else if row.epilogueBegin != prev.epilogueBegin then Err(EpilogueBegin)
    else Ok(DiffBody(row, prev) + [Closer(endSequence)])
  }

  lemma Appended(ops: seq<Opcode>, k: nat, row: Row, prev: Row)
    requires k < FIELDS
    ensures ops + Pieces(k + 1, row, prev) == ops + Pieces(k, row, prev) + Piece(k, row, prev)
  {
  }

  /** The mutable registers. */
  class LineState {
    var addr: Word
    var line: Word
    var col: Word
    var file: Word
    var isa: Word
    var discriminator: Word
    var isStmt: bool
    var basicBlock: bool
    var prologueEnd: bool
    var epilogueBegin: bool
    var sequenceId: Word

    function Registers(): Row
      reads this
    {
      Row(addr, line, col, file, isa, discriminator, isStmt, basicBlock, prologueEnd, epilogueBegin, sequenceId)
    }

    constructor (table: Table, sequenceId: Word)
      ensures Registers() == Fresh(table, sequenceId)
    {
      addr, line, col, file, isa, discriminator := 0, 1, 0, 1, 0, 0;
      isStmt := table.defaultIsStmt;
      basicBlock, prologueEnd, epilogueBegin := false, false, false;
      this.sequenceId := sequenceId;
    }

    constructor Copy(other: Row)
      ensures Registers() == other
    {
      addr, line, col, file, isa, discriminator :=
        other.addr, other.line, other.col, other.file, other.isa, other.discriminator;
      isStmt, basicBlock, prologueEnd, epilogueBegin :=
        other.isStmt, other.basicBlock, other.prologueEnd, other.epilogueBegin;
      sequenceId := other.sequenceId;
    }

    method Update(op: Opcode, table: Table) returns (ready: Result<bool, Fault>)
      modifies this
      ensures match Execute(op, old(Registers()), table)
              case Ok(step) => ready == Ok(step.ready) && Registers() == step.row
              case Err(fault) => ready == Err(fault) && Registers() == old(Registers())
    {
      ready := Ok(false);
      if op.code == EXTENDED {
        if op.subCode == SET_ADDRESS {
          addr := Wrap(op.data);
        } else if op.subCode == END_SEQUENCE {
          return Ok(true);
        } else if op.subCode == SET_DISCRIMINATOR {
          discriminator := Wrap(op.data);
        } else if op.subCode == DEFINE_FILE {
          return Err(DefineFile);
        }
      } else if op.code == SET_COLUMN {
        col := Wrap(op.data);
      } else if op.code == SET_PROLOGUE_END {
        prologueEnd := true;
      } else if op.code == COPY {
        return Ok(true);
      } else if op.code == ADVANCE_PC || op.code == FIXED_ADVANCE_PC {
        addr := Wrap(addr + op.data);
      } else if op.code == ADVANCE_LINE {
        line := Wrap(line + op.sdata);
      } else if op.code == SET_FILE {
        file := Wrap(op.data);
      } else if op.code == NEGATE_STMT {
        isStmt := !isStmt;
      } else if op.code == SET_BASIC_BLOCK {
        basicBlock := true;
      } else if op.code == CONST_ADD_PC {
        addr := Wrap(addr + AddressStep(AdjustOpcode(255, table), table));
      } else if op.code == SET_ISA {
        isa := Wrap(op.data);
      } else if op.code < table.opcodeBase {
        return Err(UnknownOpcode);
      } else {
        var adjusted := AdjustOpcode(op.code, table);
        line := Wrap(line + table.lineBase + adjusted % table.lineRange);
        addr := Wrap(addr + AddressStep(adjusted, table));
        return Ok(true);
      }
    }

    /** Appends to the opcodes already written, as the source does to its vector. */
    method EmitDiff(prev: Row, newOpcodes: seq<Opcode>, endSequence: bool) returns (r: Result<seq<Opcode>, Fault>)
      ensures match Diff(Registers(), prev, endSequence)
              case Ok(ops) => r == Ok(newOpcodes + ops)
              case Err(fault) => r == Err(fault)
    {
      var ops := EmitPosition(prev, newOpcodes);
      ops := EmitContext(prev, ops, newOpcodes);
      if basicBlock != prev.basicBlock {
        if !basicBlock {
          return Err(AssertBasicBlock);
        }
        ops := ops + [Item(SET_BASIC_BLOCK)];
      }
      Appended(newOpcodes, 7, Registers(), prev);
      if prologueEnd {
        ops := ops + [Item(SET_PROLOGUE_END)];
      }
      Appended(newOpcodes, 8, Registers(), prev);
      if epilogueBegin != prev.epilogueBegin {
        return Err(EpilogueBegin);
      }
      ops := ops + [Closer(endSequence)];
      assert ops == newOpcodes + (DiffBody(Registers(), prev) + [Closer(endSequence)]);
      return Ok(ops);
    }

    /** The first half of emitDiff. */
    method EmitPosition(prev: Row, newOpcodes: seq<Opcode>) returns (ops: seq<Opcode>)
      ensures ops == newOpcodes + Pieces(4, Registers(), prev)
    {
      ops := newOpcodes;
      if addr != prev.addr {
        ops := ops + [ExtendedItem(SET_ADDRESS, 5).(data := addr)];
      }
      Appended(newOpcodes, 0, Registers(), prev);
      if line != prev.line {
        ops := ops + [Item(ADVANCE_LINE).(sdata := AsSigned(Wrap(line - prev.line)))];
      }
      Appended(newOpcodes, 1, Registers(), prev);
      if col != prev.col {
        ops := ops + [Item(SET_COLUMN).(data := col)];
      }
      Appended(newOpcodes, 2, Registers(), prev);
      if file != prev.file {
        ops := ops + [Item(SET_FILE).(data := file)];
      }
      Appended(newOpcodes, 3, Registers(), prev);
    }

    method EmitContext(prev: Row, soFar: seq<Opcode>, ghost newOpcodes: seq<Opcode>) returns (ops: seq<Opcode>)
      requires soFar == newOpcodes + Pieces(4, Registers(), prev)
      ensures ops == newOpcodes + Pieces(7, Registers(), prev)
    {
      ops := soFar;
      if isa != prev.isa {
        ops := ops + [Item(SET_ISA).(data := isa)];
      }
      Appended(newOpcodes, 4, Registers(), prev);
      if discriminator != prev.discriminator {
        ops := ops + [ExtendedItem(SET_DISCRIMINATOR, 5).(data := discriminator)];
      }
      Appended(newOpcodes, 5, Registers(), prev);
      if isStmt != prev.isStmt {
        ops := ops + [Item(NEGATE_STMT)];
      }
      Appended(newOpcodes, 6, Registers(), prev);
    }

    method ResetAfterLine()
      modifies this
      ensures Registers() == old(Registers()).AfterLine()
    {
      prologueEnd := false;
    }
  }
}
