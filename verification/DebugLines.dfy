/** updateDebugLines of wasm-debug.cpp: a line program is read, every row is moved to where its
    instruction now is, and the rows are written again in the order of their new addresses. */
module DebugLines {
  import opened Words
  import opened Results
  import opened LineProgram
  import opened LineCodec
  import opened Locations
  import opened Lists

  // ---------- Reading and moving ----------

  /** The local variables of the reading loop. */
  datatype Collector = Collector(state: Row, newAddrs: seq<Word>, info: map<Word, Row>, omitting: bool,
                                 sequenceId: Word)

  function Begin(table: Table): Collector {
    Collector(Fresh(table, 0), [], map[], false, 0)
  }

  /** The end of the loop body, which an omitted or repeated row does not reach. */
  function CloseSequence(op: Opcode, c: Collector, table: Table): Result<Collector, Fault> {
    if !EndsSequence(op) then Ok(c)
    else if c.sequenceId + 1 >= NO_SEQUENCE then Err(AssertSequenceId)
    else Ok(c.(sequenceId := c.sequenceId + 1, state := Fresh(table, c.sequenceId + 1)))
  }

  /** A completed row that is not omitted. */
  function CollectRow(op: Opcode, row: Row, c: Collector, table: Table, u: LocationUpdater): Result<Collector, Fault> {
    var newAddr := u.LineTarget(row.addr);
    if newAddr == 0 || !row.NeedToEmit() then CloseSequence(op, c.(state := row), table)
    else if newAddr in c.info then Ok(c.(state := row))
    else CloseSequence(op, c.(newAddrs := c.newAddrs + [newAddr], info := c.info[newAddr := row.(addr := newAddr)],
                              state := row.AfterLine()), table)
  }

  /** The loop body after `update`. */
  function CollectStep(op: Opcode, step: Step, c: Collector, table: Table,
                       u: LocationUpdater): Result<Collector, Fault> {
    var omitting := c.omitting && !StartsNewRange(op);
    if !step.ready then Ok(c.(state := step.row, omitting := omitting))
    else if omitting || IsTombstone(step.row.addr) then Ok(c.(state := Fresh(table, c.sequenceId), omitting := true))
    else CollectRow(op, step.row, c.(omitting := false), table, u)
  }

  function Collect(op: Opcode, c: Collector, table: Table, u: LocationUpdater): Result<Collector, Fault> {
    var step :- Execute(op, c.state, table);
    CollectStep(op, step, c, table, u)
  }

  function CollectAll(ops: seq<Opcode>, c: Collector, table: Table, u: LocationUpdater): Result<Collector, Fault> {
    if ops == [] then Ok(c)
    else
      var next :- Collect(ops[0], c, table, u);
      CollectAll(ops[1..], next, table, u)
  }

  // ---------- Sorting ----------

  predicate StrictlySorted(s: seq<Word>) {
    forall i, j :: 0 <= i < j < |s| ==> s[i] < s[j]
  }

  lemma {:induction false} FirstStaysFirst(x: Word, s: seq<Word>, rest: seq<Word>)
    requires s != [] && StrictlySorted(s) && s[0] < x && forall y :: y in rest ==> y == x || y in s[1..]
    ensures forall k :: 0 <= k < |rest| ==> s[0] < rest[k]
  {
    forall k | 0 <= k < |rest| ensures s[0] < rest[k] {
      assert rest[k] in rest;
      if rest[k] != x {
        var i :| 0 <= i < |s[1..]| && s[1..][i] == rest[k];
        assert s[0] < s[i + 1];
      }
    }
  }

  function Insert(x: Word, s: seq<Word>): (r: seq<Word>)
    requires StrictlySorted(s) && x !in s
    ensures StrictlySorted(r) && forall y :: y in r <==> y == x || y in s
  {
    if s == [] then [x]
    else if x < s[0] then [x] + s
    else
      var rest := Insert(x, s[1..]);
      FirstStaysFirst(x, s, rest);
      [s[0]] + rest
  }

  /** std::sort on addresses without repeats. */
  function Sort(s: seq<Word>): (r: seq<Word>)
    requires Distinct(s)
    ensures StrictlySorted(r) && forall y :: y in r <==> y in s
  {
    if s == [] then []
    else
      assert s[0] !in s[1..];
      Insert(s[0], Sort(s[1..]))
  }

  lemma NonEmptyHasMember(s: seq<Word>)
    ensures s != [] ==> s[0] in s
  {
  }

  /** There is one strictly sorted sequence of given elements. */
  lemma {:induction false} SortedIsUnique(a: seq<Word>, b: seq<Word>)
    requires StrictlySorted(a) && StrictlySorted(b)
    requires forall x :: x in a <==> x in b
    ensures a == b
  {
    NonEmptyHasMember(a);
    NonEmptyHasMember(b);
    if a != [] {
      assert a[0] in b;
      assert b[0] in a;
      assert a[0] == b[0];
      forall x ensures x in a[1..] <==> x in b[1..] {
        assert x in a[1..] <==> x in a && x != a[0];
        assert x in b[1..] <==> x in b && x != b[0];
      }
      SortedIsUnique(a[1..], b[1..]);
    }
  }

  // ---------- The whole rewriting ----------

  /** What every iteration of the reading loop keeps. */
  ghost predicate Inv(c: Collector) {
    && Distinct(c.newAddrs)
    && (forall a :: a in c.newAddrs <==> a in c.info)
    && (forall a :: a in c.info ==> c.info[a].addr == a && c.info[a].NeedToEmit() && !c.info[a].epilogueBegin)
    && !c.state.epilogueBegin && c.state.sequenceId == c.sequenceId < NO_SEQUENCE
  }

  lemma {:induction false} RowKeepsInv(op: Opcode, row: Row, c: Collector, table: Table, u: LocationUpdater)
    requires Inv(c) && !row.epilogueBegin && row.sequenceId == c.sequenceId
    requires CollectRow(op, row, c, table, u).Ok?
    ensures Inv(CollectRow(op, row, c, table, u).value)
  {
    hide LocationUpdater.LineTarget, EndsSequence;
    var newAddr := u.LineTarget(row.addr);
    assert newAddr !in c.info ==> newAddr !in c.newAddrs;
  }

  lemma {:induction false} StepKeepsInv(op: Opcode, step: Step, c: Collector, table: Table, u: LocationUpdater)
    requires Inv(c) && !step.row.epilogueBegin && step.row.sequenceId == c.sequenceId
    requires CollectStep(op, step, c, table, u).Ok?
    ensures Inv(CollectStep(op, step, c, table, u).value)
  {
    hide CollectRow, StartsNewRange, IsTombstone;
    var omitting := c.omitting && !StartsNewRange(op);
    if step.ready && !omitting && !IsTombstone(step.row.addr) {
      RowKeepsInv(op, step.row, c.(omitting := false), table, u);
    }
  }

  lemma ExecuteKeeps(op: Opcode, row: Row, table: Table)
    requires Execute(op, row, table).Ok?
    ensures var r := Execute(op, row, table).value.row;
      r.epilogueBegin == row.epilogueBegin && r.sequenceId == row.sequenceId
  {
  }

  lemma {:induction false} CollectKeepsInv(op: Opcode, c: Collector, table: Table, u: LocationUpdater)
    requires Inv(c) && Collect(op, c, table, u).Ok?
    ensures Inv(Collect(op, c, table, u).value)
  {
    hide Execute, CollectStep;
    ExecuteKeeps(op, c.state, table);
    StepKeepsInv(op, Execute(op, c.state, table).value, c, table, u);
  }

  lemma {:induction false} CollectAllKeepsInv(ops: seq<Opcode>, c: Collector, table: Table, u: LocationUpdater)
    requires Inv(c) && CollectAll(ops, c, table, u).Ok?
    ensures Inv(CollectAll(ops, c, table, u).value)
  {
    hide Execute, CollectStep, Inv;
    if ops != [] {
      CollectKeepsInv(ops[0], c, table, u);
      CollectAllKeepsInv(ops[1..], Collect(ops[0], c, table, u).value, table, u);
    }
  }

  function RowsOf(addrs: seq<Word>, info: map<Word, Row>): (rows: seq<Row>)
    requires forall a :: a in addrs ==> a in info
    ensures |rows| == |addrs|
    ensures forall i :: 0 <= i < |rows| ==> rows[i] == info[addrs[i]]
  {
    seq(|addrs|, i requires 0 <= i < |addrs| => info[addrs[i]])
  }

  /** The rows to write, in order. */
  function SortedRows(c: Collector): (rows: seq<Row>)
    requires Inv(c)
  {
    RowsOf(Sort(c.newAddrs), c.info)
  }

  function RowsToWrite(ops: seq<Opcode>, table: Table, u: LocationUpdater): (rows: seq<Row>)
    requires CollectAll(ops, Begin(table), table, u).Ok?
  {
    CollectAllKeepsInv(ops, Begin(table), table, u);
    SortedRows(CollectAll(ops, Begin(table), table, u).value)
  }

  function Rewritten(ops: seq<Opcode>, table: Table, u: LocationUpdater): Result<seq<Opcode>, Fault> {
    var _ :- CollectAll(ops, Begin(table), table, u);
    Encode(RowsToWrite(ops, table, u), table)
  }

  // ---------- The loops ----------

  datatype LineTable = LineTable(header: Table, opcodes: seq<Opcode>)

  /** The reading loop. */
  method ReadRows(table: Table, ops: seq<Opcode>, u: LocationUpdater) returns (r: Result<Collector, Fault>)
    ensures r == CollectAll(ops, Begin(table), table, u)
  {
    hide Execute, LocationUpdater.LineTarget, IsTombstone, StartsNewRange, EndsSequence, Fresh;
    var sequenceId: Word := 0;
    var state := new LineState(table, sequenceId);
    var newAddrs: seq<Word> := [];
    var newAddrInfo: map<Word, Row> := map[];
    var omittingRange := false;
    var i := 0;
    while i < |ops|
      invariant 0 <= i <= |ops|
      invariant fresh(state)
      invariant CollectAll(ops, Begin(table), table, u)
             == CollectAll(ops[i..], Collector(state.Registers(), newAddrs, newAddrInfo, omittingRange, sequenceId),
                  table, u)
    {
      var op := ops[i];
      i := i + 1;
      if StartsNewRange(op) {
        omittingRange := false;
      }
      var ready := state.Update(op, table);
      if ready.Err? {
        return Err(ready.error);
      }
      if ready.value {
        if IsTombstone(state.addr) {
          omittingRange := true;
        }
        if omittingRange {
          state := new LineState(table, sequenceId);
          continue;
        }
        var newAddr := u.LineTarget(state.addr);
        if newAddr != 0 && state.Registers().NeedToEmit() {
          if newAddr in newAddrInfo {
            continue;
          }
          newAddrs := newAddrs + [newAddr];
          newAddrInfo := newAddrInfo[newAddr := state.Registers().(addr := newAddr)];
          state.ResetAfterLine();
        }
        if EndsSequence(op) {
          if sequenceId + 1 >= NO_SEQUENCE {
            return Err(AssertSequenceId);
          }
          sequenceId := sequenceId + 1;
          state := new LineState(table, sequenceId);
        }
      }
    }
    return Ok(Collector(state.Registers(), newAddrs, newAddrInfo, omittingRange, sequenceId));
  }

  /** The writing loop. */
  method WriteRows(table: Table, rows: seq<Row>) returns (r: Result<seq<Opcode>, Fault>)
    ensures r == Encode(rows, table)
  {
    var newOpcodes: seq<Opcode> := [];
    assert forall rest: seq<Opcode> :: [] + rest == rest && rest + [] == rest;
    var i := 0;
    while i < |rows|
      invariant 0 <= i <= |rows|
      invariant Encode(rows, table) == match EncodeFrom(rows, i, table)
                                       case Ok(rest) => Ok(newOpcodes + rest)
                                       case Err(fault) => Err(fault)
    {
      var state := new LineState.Copy(rows[i]);
      if !state.Registers().NeedToEmit() {
        return Err(AssertNeedToEmit);
      }
      var lastState := Fresh(table, NO_SEQUENCE);
      if i != 0 {
        lastState := rows[i - 1];
        if lastState.sequenceId != state.sequenceId {
          lastState := Fresh(table, NO_SEQUENCE);
        }
      }
      var endSequence := i + 1 == |rows| || rows[i + 1].sequenceId != state.sequenceId;
      ghost var before := newOpcodes;
      var emitted := state.EmitDiff(lastState, newOpcodes, endSequence);
      if emitted.Err? {
        return Err(emitted.error);
      }
      newOpcodes := emitted.value;
      i := i + 1;
      ghost var ops := Diff(rows[i - 1], lastState, endSequence).value;
      assert forall rest :: before + (ops + rest) == newOpcodes + rest;
    }
    assert newOpcodes + [] == newOpcodes;
    return Ok(newOpcodes);
  }

  /** All line tables, each in place; the first fault aborts. */
  method UpdateDebugLines(tables: array<LineTable>, u: LocationUpdater) returns (r: Option<Fault>)
    modifies tables
    ensures forall i :: 0 <= i < tables.Length ==> tables[i].header == old(tables[i].header)
    ensures r.None? <==> forall i :: 0 <= i < tables.Length ==>
              Rewritten(old(tables[i].opcodes), old(tables[i].header), u).Ok?
    ensures r.None? ==> forall i :: 0 <= i < tables.Length ==>
              Rewritten(old(tables[i].opcodes), old(tables[i].header), u) == Ok(tables[i].opcodes)
  {
    for i := 0 to tables.Length
      invariant forall k :: 0 <= k < tables.Length ==> tables[k].header == old(tables[k].header)
      invariant forall k :: i <= k < tables.Length ==> tables[k] == old(tables[k])
      invariant forall k :: 0 <= k < i ==>
                  Rewritten(old(tables[k].opcodes), old(tables[k].header), u) == Ok(tables[k].opcodes)
    {
      var table := tables[i];
      var collected := ReadRows(table.header, table.opcodes, u);
      if collected.Err? {
        return Some(collected.error);
      }
      CollectAllKeepsInv(table.opcodes, Begin(table.header), table.header, u);
      var written := WriteRows(table.header, SortedRows(collected.value));
      if written.Err? {
        return Some(written.error);
      }
      tables[i] := table.(opcodes := written.value);
    }
    return None;
  }
}
