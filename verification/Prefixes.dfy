/** The legacy-prefix handlers of BeaEngine: each changes the decoder's state, dispatches on the next
    byte, and undoes part of its change when that returns (section 2.1.1 of the Intel SDM, volume 2A). */
module Prefixes {
  import opened Words

  datatype Mark = NotUsed | InUse | Superfluous | Invalid

  // The decoder's state, and the Prefix record as one mark for each prefix byte.
  datatype State = State(eip: nat, nbPrefix: nat, number: nat, prefRepe: bool, prefRepne: bool, segmentFs: bool,
                         operandSize: nat, originalOperandSize: nat, addressSize: Word, opcode: Byte,
                         marks: map<Byte, Mark>)

  const LOCK: Byte := 0xF0
  const REPNE: Byte := 0xF2
  const REPE: Byte := 0xF3
  const FS: Byte := 0x64
  const OPERAND_SIZE: Byte := 0x66
  const ADDRESS_SIZE: Byte := 0x67

  predicate IsPrefix(b: Byte) {
    b in {LOCK, REPNE, REPE, 0x2E, 0x3E, 0x26, FS, 0x65, 0x36, OPERAND_SIZE, ADDRESS_SIZE}
  }

  // What a handler may not read past, and the machine it decodes for.
  datatype Machine = Machine(memory: nat -> Byte, limit: nat, architecture: nat)

  function ShiftLeft1(x: Word): Word {
    Wrap(2 * x)
  }

  function ShiftRight1(x: Word): Word {
    x / 2
  }

  function MarkFor(b: Byte): Mark {
    if b == LOCK then Invalid else if b == REPNE || b == REPE then Superfluous else InUse
  }

  // ---------- The handlers ----------

  /** What a handler does before it dispatches. */
  function Enter(b: Byte, s: State, m: Machine): State {
    var t := s.(marks := s.marks[b := MarkFor(b)], eip := s.eip + 1, number := s.number + 1, nbPrefix := s.nbPrefix + 1,
                opcode := m.memory(s.eip + 1));
    if b == REPNE then t.(prefRepne := true)
    else if b == REPE then t.(prefRepe := true)
    else if b == FS then t.(segmentFs := true)
    else if b == OPERAND_SIZE then
      t.(originalOperandSize := s.operandSize,
         operandSize := if m.architecture == 16 then 32 else if s.operandSize != 64 then 16 else 64)
    else if b == ADDRESS_SIZE then
      t.(addressSize := if m.architecture == 16 then ShiftLeft1(s.addressSize) else ShiftRight1(s.addressSize))
    else t
  }

  /** What it does when the dispatch has returned. */
  function Leave(b: Byte, s: State, m: Machine): State {
    if b == LOCK then s.(operandSize := 32)
    else if b == REPNE then s.(prefRepne := false)
    else if b == REPE then s.(prefRepe := false)
    else if b == OPERAND_SIZE then s.(operandSize := if m.architecture == 16 then 16 else 32)
    else if b == ADDRESS_SIZE then
      s.(addressSize := if m.architecture == 16 then ShiftRight1(s.addressSize) else ShiftLeft1(s.addressSize))
    else s
  }

  /** Dispatch on the byte at EIP; Security refuses a prefix at or past the limit. */
  function Dispatch(s: State, m: Machine, handler: State -> State): State
    decreases m.limit - s.eip
  {
    var b := m.memory(s.eip);
    if !IsPrefix(b) then handler(s)
    else if s.eip >= m.limit then s
    else Leave(b, Dispatch(Enter(b, s, m), m, handler), m)
  }

  class Decoder {
    const machine: Machine
    const handler: State -> State
    var state: State

    constructor (machine: Machine, handler: State -> State, state: State)
      ensures this.machine == machine && this.handler == handler && this.state == state
    {
      this.machine, this.handler, this.state := machine, handler, state;
    }

    /** The part all prefix handlers share. */
    method Step(b: Byte, mark: Mark)
      modifies this
      ensures state == old(state).(marks := old(state).marks[b := mark], eip := old(state).eip + 1,
                                   number := old(state).number + 1, nbPrefix := old(state).nbPrefix + 1,
                                   opcode := machine.memory(old(state).eip + 1))
    {
      state := state.(marks := state.marks[b := mark]);
      state := state.(eip := state.eip + 1);
      state := state.(number := state.number + 1);
      state := state.(nbPrefix := state.nbPrefix + 1);
      state := state.(opcode := machine.memory(state.eip));
    }

    method DispatchByte()
      modifies this
      ensures state == Dispatch(old(state), machine, handler)
      decreases machine.limit - state.eip, 1
    {
      var b := machine.memory(state.eip);
      if !IsPrefix(b) {
        state := handler(state);
      } else if state.eip < machine.limit {
        HandlePrefix(b);
      }
    }

    method HandlePrefix(b: Byte)
      requires b == machine.memory(state.eip) && IsPrefix(b) && state.eip < machine.limit
      modifies this
      ensures state == Dispatch(old(state), machine, handler)
      decreases machine.limit - state.eip, 0
    {
      ghost var before := state;
      Step(b, MarkFor(b));
      if b == REPNE {
        state := state.(prefRepne := true);
      } else if b == REPE {
        state := state.(prefRepe := true);
      } else if b == FS {
        state := state.(segmentFs := true);
      } else if b == OPERAND_SIZE {
        state := state.(originalOperandSize := state.operandSize);
        if machine.architecture == 16 {
          state := state.(operandSize := 32);
        } else if state.operandSize != 64 {
          state := state.(operandSize := 16);
        }
      } else if b == ADDRESS_SIZE {
        state := state.(addressSize := if machine.architecture == 16 then ShiftLeft1(state.addressSize)
                                       else ShiftRight1(state.addressSize));
      }
      assert state == Enter(b, before, machine);
      DispatchByte();
      state := Leave(b, state, machine);
    }
  }

  // ---------- A run of prefixes ----------

  function Bytes(m: Machine, from: nat, n: nat): (r: seq<Byte>)
    ensures |r| == n && forall i :: 0 <= i < n ==> r[i] == m.memory(from + i)
  {
    if n == 0 then [] else Bytes(m, from, n - 1) + [m.memory(from + n - 1)]
  }

  /** A prefix that Security lets through. */
  predicate PrefixAt(m: Machine, i: nat) {
    IsPrefix(m.memory(i)) && i < m.limit
  }

  /** n such prefixes, and then another byte or the limit. */
  ghost predicate PrefixRun(m: Machine, from: nat, n: nat) {
    && (forall i :: from <= i < from + n ==> PrefixAt(m, i))
    && !PrefixAt(m, from + n)
  }

  /** What happens at the end of the run: the opcode's handler, unless Security refuses one prefix more. */
  function Innermost(s: State, m: Machine, handler: State -> State): State {
    if IsPrefix(m.memory(s.eip)) then s else handler(s)
  }

  function EnterAll(s: State, m: Machine, n: nat): State
    decreases n
  {
    if n == 0 then s else EnterAll(Enter(m.memory(s.eip), s, m), m, n - 1)
  }

  /** The handlers return innermost first. */
  function LeaveAll(bytes: seq<Byte>, s: State, m: Machine): State {
    if bytes == [] then s else Leave(bytes[0], LeaveAll(bytes[1..], s, m), m)
  }

  /** The nest of handlers is a fold in, the opcode's handler, and a fold out. */
  lemma {:induction false} NestIsFold(s: State, m: Machine, handler: State -> State, n: nat)
    requires PrefixRun(m, s.eip, n)
    ensures Dispatch(s, m, handler) == LeaveAll(Bytes(m, s.eip, n), Innermost(EnterAll(s, m, n), m, handler), m)
    decreases n
  {
    if n > 0 {
      var b := m.memory(s.eip);
      assert PrefixAt(m, s.eip);
      var t := Enter(b, s, m);
      assert PrefixRun(m, t.eip, n - 1);
      NestIsFold(t, m, handler, n - 1);
      assert Bytes(m, s.eip, n)[1..] == Bytes(m, t.eip, n - 1);
    }
  }

  function Count(bytes: seq<Byte>, b: Byte): nat {
    if bytes == [] then 0 else Count(bytes[1..], b) + if bytes[0] == b then 1 else 0
  }

  function Shifted(x: Word, k: nat, left: bool): Word
    decreases k
  {
    if k == 0 then x else Shifted(if left then ShiftLeft1(x) else ShiftRight1(x), k - 1, left)
  }

  lemma BytesFirst(m: Machine, from: nat, n: nat)
    requires n > 0
    ensures Bytes(m, from, n) == [m.memory(from)] + Bytes(m, from + 1, n - 1)
    ensures Bytes(m, from, n)[1..] == Bytes(m, from + 1, n - 1)
    ensures forall b :: b in Bytes(m, from, n) <==> b == m.memory(from) || b in Bytes(m, from + 1, n - 1)
  {
  }

  lemma EnterState(b: Byte, s: State, m: Machine)
    ensures
      var t := Enter(b, s, m);
      && t.eip == s.eip + 1 && t.nbPrefix == s.nbPrefix + 1 && t.number == s.number + 1
      && t.prefRepe == (s.prefRepe || b == REPE) && t.prefRepne == (s.prefRepne || b == REPNE)
      && t.segmentFs == (s.segmentFs || b == FS) && t.opcode == m.memory(t.eip)
      && t.addressSize == (if b != ADDRESS_SIZE then s.addressSize
                           else if m.architecture == 16 then ShiftLeft1(s.addressSize) else ShiftRight1(s.addressSize))
      && t.operandSize == (if b != OPERAND_SIZE then s.operandSize
                           else if m.architecture == 16 then 32 else if s.operandSize == 64 then 64 else 16)
      && t.marks == s.marks[b := MarkFor(b)]
  {
  }

  /** What the opcode's handler finds. */
  lemma {:induction false} EnterAllState(s: State, m: Machine, n: nat)
    ensures
      var t := EnterAll(s, m, n);
      var bytes := Bytes(m, s.eip, n);
      && t.eip == s.eip + n && t.nbPrefix == s.nbPrefix + n && t.number == s.number + n
      && (t.prefRepe <==> s.prefRepe || REPE in bytes)
      && (t.prefRepne <==> s.prefRepne || REPNE in bytes)
      && (t.segmentFs <==> s.segmentFs || FS in bytes)
      && t.addressSize == Shifted(s.addressSize, Count(bytes, ADDRESS_SIZE), m.architecture == 16)
      && (n > 0 ==> t.opcode == m.memory(t.eip))
    decreases n
  {
    if n > 0 {
      var b := m.memory(s.eip);
      var next := Enter(b, s, m);
      var bytes := Bytes(m, s.eip, n);
      EnterAllState(next, m, n - 1);
      BytesFirst(m, s.eip, n);
      EnterState(b, s, m);
      hide Enter, Bytes;
    }
  }

  /** The operand size it finds, and which prefixes are marked. */
  lemma {:induction false} EnterAllMarks(s: State, m: Machine, n: nat)
    ensures
      var t := EnterAll(s, m, n);
      var bytes := Bytes(m, s.eip, n);
      && t.operandSize == (if OPERAND_SIZE !in bytes then s.operandSize
                           else if m.architecture == 16 then 32 else if s.operandSize == 64 then 64 else 16)
      && (forall b :: b in bytes ==> b in t.marks && t.marks[b] == MarkFor(b))
      && (forall b :: b !in bytes ==> (b in t.marks <==> b in s.marks) && (b in s.marks ==> t.marks[b] == s.marks[b]))
    decreases n
  {
    if n > 0 {
      var b := m.memory(s.eip);
      EnterState(b, s, m);
      EnterAllMarks(Enter(b, s, m), m, n - 1);
      BytesFirst(m, s.eip, n);
      hide Enter, Bytes, MarkFor, Count, Shifted;
    }
  }

  /** What a run's handlers leave, once the opcode's handler has returned. */
  lemma {:induction false} LeaveAllState(bytes: seq<Byte>, s: State, m: Machine)
    ensures
      var t := LeaveAll(bytes, s, m);
      && t == s.(prefRepe := t.prefRepe, prefRepne := t.prefRepne, operandSize := t.operandSize,
           addressSize := t.addressSize)
      && t.prefRepe == (s.prefRepe && REPE !in bytes)
      && t.prefRepne == (s.prefRepne && REPNE !in bytes)
      && t.operandSize == OperandSizeAfter(bytes, s.operandSize, m)
  {
    if bytes != [] {
      LeaveAllState(bytes[1..], s, m);
      assert bytes == [bytes[0]] + bytes[1..];
    }
  }

  /** The outermost 66h or F0h decides. */
  function OperandSizeAfter(bytes: seq<Byte>, size: nat, m: Machine): nat {
    if bytes == [] then size
    else if bytes[0] == LOCK then 32
    else if bytes[0] == OPERAND_SIZE then (if m.architecture == 16 then 16 else 32)
    else OperandSizeAfter(bytes[1..], size, m)
  }

  lemma {:induction false} ShiftedMore(x: Word, k: nat, left: bool)
    ensures Shifted(x, k + 1, left)
         == if left then ShiftLeft1(Shifted(x, k, left)) else ShiftRight1(Shifted(x, k, left))
    decreases k
  {
    if k > 0 {
      ShiftedMore(if left then ShiftLeft1(x) else ShiftRight1(x), k - 1, left);
    }
  }

  lemma {:induction false} LeaveAllAddress(bytes: seq<Byte>, s: State, m: Machine)
    ensures LeaveAll(bytes, s, m).addressSize == Shifted(s.addressSize, Count(bytes, ADDRESS_SIZE),
      m.architecture != 16)
  {
    if bytes != [] {
      LeaveAllAddress(bytes[1..], s, m);
      ShiftedMore(s.addressSize, Count(bytes[1..], ADDRESS_SIZE), m.architecture != 16);
    }
  }

  /** None of k shifts loses a bit. */
  predicate KeepsBits(x: Word, k: nat, left: bool)
    decreases k
  {
    k == 0 || (if left then 2 * x < 0x1_0000_0000 && KeepsBits(2 * x, k - 1, left)
               else x % 2 == 0 && KeepsBits(x / 2, k - 1, left))
  }

  /** k shifts one way and k back give the value back exactly when no bit was shifted out. */
  lemma {:induction false} ShiftedBack(x: Word, k: nat, left: bool)
    ensures Shifted(Shifted(x, k, left), k, !left) <= x
    ensures Shifted(Shifted(x, k, left), k, !left) == x <==> KeepsBits(x, k, left)
    decreases k
  {
    if k > 0 {
      var y := if left then ShiftLeft1(x) else ShiftRight1(x);
      ShiftedBack(y, k - 1, left);
      var back := Shifted(Shifted(y, k - 1, left), k - 1, !left);
      ShiftedMore(Shifted(y, k - 1, left), k - 1, !left);
      assert Shifted(Shifted(x, k, left), k, !left) == if left then ShiftRight1(back) else ShiftLeft1(back);
      hide Shifted;
      if left {
        LeftStep(x, back, KeepsBits(Wrap(2 * x), k - 1, left));
      } else {
        RightStep(x, back, KeepsBits(x / 2, k - 1, left));
      }
    }
  }

  lemma {:induction false} LeftStep(x: Word, back: Word, kept: bool)
    requires back <= Wrap(2 * x) && (back == Wrap(2 * x) <==> kept)
    ensures ShiftRight1(back) <= x && (ShiftRight1(back) == x <==> 2 * x < 0x1_0000_0000 && kept)
  {
    assert Wrap(2 * x) == if 2 * x < 0x1_0000_0000 then 2 * x else 2 * x - 0x1_0000_0000;
  }

  lemma {:induction false} RightStep(x: Word, back: Word, kept: bool)
    requires back <= x / 2 && (back == x / 2 <==> kept)
    ensures ShiftLeft1(back) <= x && (ShiftLeft1(back) == x <==> x % 2 == 0 && kept)
  {
    assert Wrap(2 * back) == 2 * back;
  }

  /** The handler leaves the fields alone that the prefixes restore. */
  ghost predicate LeavesAlone(handler: State -> State) {
    forall s :: handler(s).prefRepe == s.prefRepe && handler(s).prefRepne == s.prefRepne
                && handler(s).addressSize == s.addressSize
  }

  /** After a run of prefixes and an opcode whose handler leaves those fields alone, the rep flags are cleared if
      their prefix occurred, and the address size is what it was exactly when no 67h shifted out a bit. */
  lemma {:induction false} PrefixRunRestores(s: State, m: Machine, handler: State -> State, n: nat)
    requires PrefixRun(m, s.eip, n) && LeavesAlone(handler)
    ensures
      var t := Dispatch(s, m, handler);
      var bytes := Bytes(m, s.eip, n);
      && t.prefRepe == (s.prefRepe && REPE !in bytes)
      && t.prefRepne == (s.prefRepne && REPNE !in bytes)
      && (t.addressSize == s.addressSize <==>
            KeepsBits(s.addressSize, Count(bytes, ADDRESS_SIZE), m.architecture == 16))
      && t.eip == Innermost(EnterAll(s, m, n), m, handler).eip
      && t.operandSize == OperandSizeAfter(bytes, Innermost(EnterAll(s, m, n), m, handler).operandSize, m)
  {
    NestIsFold(s, m, handler, n);
    EnterAllState(s, m, n);
    var bytes := Bytes(m, s.eip, n);
    var inner := Innermost(EnterAll(s, m, n), m, handler);
    LeaveAllState(bytes, inner, m);
    LeaveAllAddress(bytes, inner, m);
    ShiftedBack(s.addressSize, Count(bytes, ADDRESS_SIZE), m.architecture == 16);
  }

  // ---------- The prefixes by their values ----------

  /** Section 2.1.1 of the Intel SDM, volume 2A. */
  lemma PrefixValues(b: Byte)
    ensures IsPrefix(b) <==> b in {0xF0, 0xF2, 0xF3, 0x2E, 0x36, 0x3E, 0x26, 0x64, 0x65, 0x66, 0x67}
    ensures MarkFor(0xF0) == Invalid && MarkFor(0xF2) == MarkFor(0xF3) == Superfluous
    ensures b in {0x2E, 0x36, 0x3E, 0x26, 0x64, 0x65, 0x66, 0x67} ==> MarkFor(b) == InUse
  {
  }

  /** One prefix around an opcode whose handler h changes anything: what h finds, and what is changed after it. */
  lemma {:induction false} OnePrefix(s: State, m: Machine, h: State -> State)
    requires IsPrefix(m.memory(s.eip)) && s.eip < m.limit && !IsPrefix(m.memory(s.eip + 1))
    ensures
      var b := m.memory(s.eip);
      var t := s.(eip := s.eip + 1, number := s.number + 1, nbPrefix := s.nbPrefix + 1,
                  opcode := m.memory(s.eip + 1), marks := s.marks[b := MarkFor(b)]);
      var size := if m.architecture == 16 then 32 else if s.operandSize == 64 then 64 else 16;
      var half, twice := s.addressSize / 2, 2 * s.addressSize % 0x1_0000_0000;
      && (b in {0x2E, 0x36, 0x3E, 0x26, 0x65} ==> Dispatch(s, m, h) == h(t))
      && (b == 0x64 ==> Dispatch(s, m, h) == h(t.(segmentFs := true)))
      && (b == 0xF0 ==> Dispatch(s, m, h) == h(t).(operandSize := 32))
      && (b == 0xF2 ==> Dispatch(s, m, h) == h(t.(prefRepne := true)).(prefRepne := false))
      && (b == 0xF3 ==> Dispatch(s, m, h) == h(t.(prefRepe := true)).(prefRepe := false))
      && (b == 0x66 ==> Dispatch(s, m, h) == h(t.(operandSize := size, originalOperandSize := s.operandSize))
                                             .(operandSize := if m.architecture == 16 then 16 else 32))
      && (b == 0x67 && m.architecture == 16 ==>
            var after := h(t.(addressSize := twice));
            Dispatch(s, m, h) == after.(addressSize := after.addressSize / 2))
      && (b == 0x67 && m.architecture != 16 ==>
            var after := h(t.(addressSize := half));
            Dispatch(s, m, h) == after.(addressSize := 2 * after.addressSize % 0x1_0000_0000))
  {
    var b := m.memory(s.eip);
    var t := Enter(b, s, m);
    assert Dispatch(t, m, h) == h(t);
    assert Dispatch(s, m, h) == Leave(b, h(t), m);
  }

  /** The operand size that is saved for later is the one before the run if 66h came once, and the changed one if it
      came again. */
  lemma {:induction false} OriginalSizeSaved(s: State, m: Machine, n: nat)
    ensures
      var t := EnterAll(s, m, n);
      var times := Count(Bytes(m, s.eip, n), 0x66);
      && (times == 0 ==> t.originalOperandSize == s.originalOperandSize && t.operandSize == s.operandSize)
      && (times == 1 ==> t.originalOperandSize == s.operandSize)
      && (times > 1 ==> t.originalOperandSize == t.operandSize)
      && (times > 0 ==> t.operandSize == Overridden(s.operandSize, m))
    decreases n
  {
    hide Enter, Bytes;
    if n > 0 {
      BytesFirst(m, s.eip, n);
      SizesEntered(m.memory(s.eip), s, m);
      OriginalSizeSaved(Enter(m.memory(s.eip), s, m), m, n - 1);
    }
  }

  lemma SizesEntered(b: Byte, s: State, m: Machine)
    ensures
      var t := Enter(b, s, m);
      && t.eip == s.eip + 1
      && (b == 0x66 ==> t.originalOperandSize == s.operandSize && t.operandSize == Overridden(s.operandSize, m))
      && (b != 0x66 ==> t.originalOperandSize == s.originalOperandSize && t.operandSize == s.operandSize)
  {
  }

  function Overridden(size: nat, m: Machine): nat {
    if m.architecture == 16 then 32 else if size == 64 then 64 else 16
  }
}
