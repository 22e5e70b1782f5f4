/** Line programs for which the rewriting of wasm-debug.cpp does not keep what they stand for. */
module LineWitnesses {
  import opened Words
  import opened Results
  import opened LineProgram
  import opened LineCodec
  import opened Locations
  import opened DebugLines
  import opened LineRewriting
  import opened LineReading
  import opened LineMeaning
  import opened LineFixpoint
  import opened AddressMaps

  function SetAddress(addr: Word): Opcode {
    ExtendedItem(SET_ADDRESS, 5).(data := addr)
  }

  lemma {:induction false} DecodeQuietly(ops: seq<Opcode>, k: nat, row: Row, next: Row, table: Table)
    requires k < |ops| && Execute(ops[k], row, table) == Ok(Step(next, false))
    ensures Decode(ops[k..], row, table) == Decode(ops[k + 1..], next, table)
  {
    hide Execute;
    assert ops[k..][1..] == ops[k + 1..];
  }

  lemma {:induction false} DecodeRow(ops: seq<Opcode>, k: nat, row: Row, next: Row, rest: seq<ReadRow>, table: Table)
    requires k < |ops| && Execute(ops[k], row, table) == Ok(Step(row, true))
    requires Next(row, EndsSequence(ops[k]), table) == Ok(next)
    requires Decode(ops[k + 1..], next, table).Ok? && Decode(ops[k + 1..], next, table).value == rest
    ensures Decode(ops[k..], row, table).Ok?
    ensures Decode(ops[k..], row, table).value == [ReadRow(row, EndsSequence(ops[k]))] + rest
  {
    hide Execute, Next, EndsSequence;
    assert ops[k..][1..] == ops[k + 1..];
  }

  // A row at an address, as it is at the start of a sequence but for its line.
  function PlainRow(addr: Word, line: Word, sequenceId: Word): Row {
    Row(addr, line, 0, 1, 0, 0, true, false, false, false, sequenceId)
  }

  // ---------- A dropped row leaves its prologue flag ----------

  const FLAG_LEFT := [Item(SET_PROLOGUE_END), SetAddress(5), Item(COPY), SetAddress(10), Item(COPY)]

  lemma {:induction false} SwappedLists()
    ensures Spans(SWAPPED.functions) == SWAPPED.functions[0].exprs && Delimiters(SWAPPED.functions) == []
  {
    assert SWAPPED.functions[..0] == [];
  }

  lemma {:induction false} DroppedTarget()
    ensures SWAPPED.LineTarget(5) == 0
  {
    SwappedLists();
    hide Spans, Delimiters, Find, Starts, Ends, FuncAtStart, FuncAtEnd;
    var exprs := SWAPPED.functions[0].exprs;
    assert Starts(exprs)[0].0 == 10 && Starts(exprs)[1].0 == 20;
    assert Ends(exprs)[0].0 == 11 && Ends(exprs)[1].0 == 21;
    assert SWAPPED.OldExprStart(5) == None && SWAPPED.OldExprEnd(5) == None && SWAPPED.OldDelimiter(5) == None;
    assert FuncAtEnd(SWAPPED.functions, 5) == None && FuncAtStart(SWAPPED.functions, 5) == None;
  }

  lemma {:induction false} FlagLeftCollected(table: Table)
    requires table.defaultIsStmt
    ensures exists c :: CollectAll(FLAG_LEFT, Begin(table), table, SWAPPED) == Ok(c)
              && c.newAddrs == [200] && c.info == map[200 := ROW_200.(prologueEnd := true)]
  {
    SwappedTargets();
    DroppedTarget();
    hide LocationUpdater.LineTarget;
    var ops := FLAG_LEFT;
    var c0 := Begin(table);
    var c1 := c0.(state := c0.state.(prologueEnd := true));
    var c2 := c1.(state := c1.state.(addr := 5));
    var c4 := c2.(state := c2.state.(addr := 10));
    var c5 := c4.(newAddrs := [200], info := map[200 := ROW_200.(prologueEnd := true)], state := c4.state.AfterLine());
    assert [] + [200] == [200];
    assert Collect(ops[0], c0, table, SWAPPED) == Ok(c1);
    assert Collect(ops[1], c1, table, SWAPPED) == Ok(c2);
    assert Collect(ops[2], c2, table, SWAPPED) == Ok(c2);
    assert Collect(ops[3], c2, table, SWAPPED) == Ok(c4);
    assert Collect(ops[4], c4, table, SWAPPED) == Ok(c5);
    CollectAt(ops, 0, c0, c1, table, SWAPPED);
    CollectAt(ops, 1, c1, c2, table, SWAPPED);
    CollectAt(ops, 2, c2, c2, table, SWAPPED);
    CollectAt(ops, 3, c2, c4, table, SWAPPED);
    CollectAt(ops, 4, c4, c5, table, SWAPPED);
    assert ops[0..] == ops;
  }

  lemma {:induction false} FlagLeftRead(table: Table)
    requires table.defaultIsStmt
    ensures Decode(FLAG_LEFT, Fresh(table, 0), table).Ok?
    ensures Decode(FLAG_LEFT, Fresh(table, 0), table).value
         == [ReadRow(PlainRow(5, 1, 0).(prologueEnd := true), false), ReadRow(PlainRow(10, 1, 0), false)]
  {
    var ops := FLAG_LEFT;
    var s0 := Fresh(table, 0);
    var s1 := s0.(prologueEnd := true);
    var s2 := s1.(addr := 5);
    var s3 := PlainRow(5, 1, 0);
    var s4 := PlainRow(10, 1, 0);
    DecodeRow(ops, 4, s4, s4, [], table);
    DecodeQuietly(ops, 3, s3, s4, table);
    DecodeRow(ops, 2, s2, s3, [ReadRow(s4, false)], table);
    DecodeQuietly(ops, 1, s1, s2, table);
    DecodeQuietly(ops, 0, s0, s1, table);
    assert ops[0..] == ops;
  }

  /** A row that goes nowhere leaves its prologue flag to the row after it, which did not have it. */
  lemma {:induction false} PrologueFlagIsLeft(table: Table)
    requires table.defaultIsStmt
    ensures CollectAll(FLAG_LEFT, Begin(table), table, SWAPPED).Ok?
    ensures RowsToWrite(FLAG_LEFT, table, SWAPPED) == [ROW_200.(prologueEnd := true)]
    ensures Decode(FLAG_LEFT, Fresh(table, 0), table).Ok?
    ensures Decode(FLAG_LEFT, Fresh(table, 0), table).value
         == [ReadRow(PlainRow(5, 1, 0).(prologueEnd := true), false), ReadRow(PlainRow(10, 1, 0), false)]
  {
    FlagLeftCollected(table);
    FlagLeftRead(table);
    hide CollectAll, Decode, SWAPPED, FLAG_LEFT;
    CollectAllKeepsInv(FLAG_LEFT, Begin(table), table, SWAPPED);
    SortedIsUnique(Sort(CollectAll(FLAG_LEFT, Begin(table), table, SWAPPED).value.newAddrs), [200]);
  }

  // ---------- A repeated end of a sequence is no end ----------

  const END_REPEATED := [SetAddress(10), Item(ADVANCE_LINE).(sdata := 7), Item(COPY), ExtendedItem(END_SEQUENCE, 1),
                         SetAddress(20), Item(COPY)]

  lemma {:induction false} EndRepeatedCollected(table: Table)
    requires table.defaultIsStmt
    ensures exists c :: CollectAll(END_REPEATED, Begin(table), table, SWAPPED) == Ok(c)
              && c.newAddrs == [200, 100] && c.info == map[200 := PlainRow(200, 8, 0), 100 := PlainRow(100, 8, 0)]
  {
    SwappedTargets();
    hide LocationUpdater.LineTarget;
    var ops := END_REPEATED;
    var c0 := Begin(table);
    var c1 := c0.(state := c0.state.(addr := 10));
    var c2 := c1.(state := PlainRow(10, 8, 0));
    var c3 := c2.(newAddrs := [200], info := map[200 := PlainRow(200, 8, 0)]);
    var c5 := c3.(state := PlainRow(20, 8, 0));
    var c6 := c5.(newAddrs := [200, 100], info := map[200 := PlainRow(200, 8, 0), 100 := PlainRow(100, 8, 0)]);
    assert [] + [200] == [200] && [200] + [100] == [200, 100];
    assert Collect(ops[0], c0, table, SWAPPED) == Ok(c1);
    assert Collect(ops[1], c1, table, SWAPPED) == Ok(c2);
    assert Collect(ops[2], c2, table, SWAPPED) == Ok(c3);
    assert Collect(ops[3], c3, table, SWAPPED) == Ok(c3);
    assert Collect(ops[4], c3, table, SWAPPED) == Ok(c5);
    assert Collect(ops[5], c5, table, SWAPPED) == Ok(c6);
    CollectAt(ops, 0, c0, c1, table, SWAPPED);
    CollectAt(ops, 1, c1, c2, table, SWAPPED);
    CollectAt(ops, 2, c2, c3, table, SWAPPED);
    CollectAt(ops, 3, c3, c3, table, SWAPPED);
    CollectAt(ops, 4, c3, c5, table, SWAPPED);
    CollectAt(ops, 5, c5, c6, table, SWAPPED);
    assert ops[0..] == ops;
  }

  lemma {:induction false} EndRepeatedRead(table: Table)
    requires table.defaultIsStmt
    ensures Decode(END_REPEATED, Fresh(table, 0), table).Ok?
    ensures Decode(END_REPEATED, Fresh(table, 0), table).value
         == [ReadRow(PlainRow(10, 8, 0), false), ReadRow(PlainRow(10, 8, 0), true), ReadRow(PlainRow(20, 1, 1), false)]
  {
    var ops := END_REPEATED;
    var s0 := Fresh(table, 0);
    var s1 := s0.(addr := 10);
    var s2 := PlainRow(10, 8, 0);
    var s4 := Fresh(table, 1);
    var s5 := PlainRow(20, 1, 1);
    DecodeRow(ops, 5, s5, s5, [], table);
    DecodeQuietly(ops, 4, s4, s5, table);
    DecodeRow(ops, 3, s2, s4, [ReadRow(s5, false)], table);
    DecodeRow(ops, 2, s2, s2, [ReadRow(s2, true), ReadRow(s5, false)], table);
    DecodeQuietly(ops, 1, s1, s2, table);
    DecodeQuietly(ops, 0, s0, s1, table);
    assert ops[0..] == ops;
  }

  /** The end of a sequence at an address already taken ends nothing: the row after it, of the next sequence, is kept
      in the first one, with the line of the row before it. */
  lemma {:induction false} RepeatedEndJoins(table: Table)
    requires table.defaultIsStmt
    ensures CollectAll(END_REPEATED, Begin(table), table, SWAPPED).Ok?
    ensures RowsToWrite(END_REPEATED, table, SWAPPED) == [PlainRow(100, 8, 0), PlainRow(200, 8, 0)]
    ensures Decode(END_REPEATED, Fresh(table, 0), table).Ok?
    ensures Decode(END_REPEATED, Fresh(table, 0), table).value
         == [ReadRow(PlainRow(10, 8, 0), false), ReadRow(PlainRow(10, 8, 0), true), ReadRow(PlainRow(20, 1, 1), false)]
  {
    EndRepeatedCollected(table);
    EndRepeatedRead(table);
    hide CollectAll, Decode, SWAPPED, END_REPEATED;
    CollectAllKeepsInv(END_REPEATED, Begin(table), table, SWAPPED);
    SortedIsUnique(Sort(CollectAll(END_REPEATED, Begin(table), table, SWAPPED).value.newAddrs), [100, 200]);
  }

  // ---------- An omitted row takes registers with it ----------

  const LINE_LOST := [Item(ADVANCE_LINE).(sdata := 7), Item(COPY), SetAddress(10), Item(COPY)]

  lemma {:induction false} LineLostCollected(table: Table)
    requires table.defaultIsStmt
    ensures exists c :: CollectAll(LINE_LOST, Begin(table), table, SWAPPED) == Ok(c)
              && c.newAddrs == [200] && c.info == map[200 := PlainRow(200, 1, 0)]
  {
    SwappedTargets();
    hide LocationUpdater.LineTarget;
    var ops := LINE_LOST;
    var c0 := Begin(table);
    var c1 := c0.(state := PlainRow(0, 8, 0));
    var c2 := c0.(omitting := true);
    var c3 := c0.(state := PlainRow(10, 1, 0));
    var c4 := c3.(newAddrs := [200], info := map[200 := PlainRow(200, 1, 0)]);
    assert [] + [200] == [200];
    assert Collect(ops[0], c0, table, SWAPPED) == Ok(c1);
    assert Collect(ops[1], c1, table, SWAPPED) == Ok(c2);
    assert Collect(ops[2], c2, table, SWAPPED) == Ok(c3);
    assert Collect(ops[3], c3, table, SWAPPED) == Ok(c4);
    CollectAt(ops, 0, c0, c1, table, SWAPPED);
    CollectAt(ops, 1, c1, c2, table, SWAPPED);
    CollectAt(ops, 2, c2, c3, table, SWAPPED);
    CollectAt(ops, 3, c3, c4, table, SWAPPED);
    assert ops[0..] == ops;
  }

  lemma {:induction false} LineLostRead(table: Table)
    requires table.defaultIsStmt
    ensures Decode(LINE_LOST, Fresh(table, 0), table).Ok?
    ensures Decode(LINE_LOST, Fresh(table, 0), table).value
         == [ReadRow(PlainRow(0, 8, 0), false), ReadRow(PlainRow(10, 8, 0), false)]
  {
    var ops := LINE_LOST;
    var s1 := PlainRow(0, 8, 0);
    var s3 := PlainRow(10, 8, 0);
    DecodeRow(ops, 3, s3, s3, [], table);
    DecodeQuietly(ops, 2, s1, s3, table);
    DecodeRow(ops, 1, s1, s1, [ReadRow(s3, false)], table);
    DecodeQuietly(ops, 0, Fresh(table, 0), s1, table);
    assert ops[0..] == ops;
  }

  /** After an omitted row that ends no sequence, the rows of the next range are read from fresh registers. */
  lemma {:induction false} OmittedRowLosesLine(table: Table)
    requires table.defaultIsStmt
    ensures CollectAll(LINE_LOST, Begin(table), table, SWAPPED).Ok?
    ensures RowsToWrite(LINE_LOST, table, SWAPPED) == [PlainRow(200, 1, 0)]
    ensures Decode(LINE_LOST, Fresh(table, 0), table).Ok?
    ensures Decode(LINE_LOST, Fresh(table, 0), table).value
         == [ReadRow(PlainRow(0, 8, 0), false), ReadRow(PlainRow(10, 8, 0), false)]
  {
    LineLostCollected(table);
    LineLostRead(table);
    hide CollectAll, Decode, SWAPPED, LINE_LOST;
    CollectAllKeepsInv(LINE_LOST, Begin(table), table, SWAPPED);
    SortedIsUnique(Sort(CollectAll(LINE_LOST, Begin(table), table, SWAPPED).value.newAddrs), [200]);
  }

  // ---------- A row at a tombstone is not rewritten again ----------

  // A rewriting moves an expression to the last address but one, and the binary so written is read back.
  const AT_THE_TOP := Function(0, FuncLocation(0xFFFF_FF00, 0xFFFF_FF01, 0), [(1, Span(0xFFFF_FFFE, 0xFFFF_FFFF))], [])
  const TOP := Layout(map[1 := Span(0xFFFF_FFFE, 0xFFFF_FFFF)], map[], map[0 := AT_THE_TOP.loc])
  const TO_TOP := LocationUpdater([Function(0, FuncLocation(1, 2, 12), [(1, Span(10, 11))], [])], TOP, map[], map[])
  const STAYING := LocationUpdater([AT_THE_TOP], TOP, map[], map[])
  const ONE_ROW := [SetAddress(10), Item(COPY)]

  lemma {:induction false} TopDescribed()
    ensures Describes([AT_THE_TOP], TOP)
  {
    SingleFunction(AT_THE_TOP);
    assert AT_THE_TOP in [AT_THE_TOP] && AT_THE_TOP.exprs[0] in AT_THE_TOP.exprs;
  }

  lemma {:induction false} TopTarget()
    ensures TO_TOP.LineTarget(10) == 0xFFFF_FFFE
  {
    var f := TO_TOP.functions[0];
    assert TO_TOP.functions[..0] == [];
    assert Spans(TO_TOP.functions) == f.exprs;
    assert Starts(f.exprs) == [(10, 1)];
  }

  lemma {:induction false} OneRowCollected(table: Table)
    requires table.defaultIsStmt
    ensures exists c :: CollectAll(ONE_ROW, Begin(table), table, TO_TOP) == Ok(c)
              && c.newAddrs == [0xFFFF_FFFE] && c.info == map[0xFFFF_FFFE := PlainRow(0xFFFF_FFFE, 1, 0)]
  {
    TopTarget();
    hide LocationUpdater.LineTarget;
    var ops := ONE_ROW;
    var c0 := Begin(table);
    var c1 := c0.(state := PlainRow(10, 1, 0));
    var c2 := c1.(newAddrs := [0xFFFF_FFFE], info := map[0xFFFF_FFFE := PlainRow(0xFFFF_FFFE, 1, 0)]);
    assert [] + [0xFFFF_FFFE] == [0xFFFF_FFFE];
    assert Collect(ops[0], c0, table, TO_TOP) == Ok(c1);
    assert Collect(ops[1], c1, table, TO_TOP) == Ok(c2);
    CollectAt(ops, 0, c0, c1, table, TO_TOP);
    CollectAt(ops, 1, c1, c2, table, TO_TOP);
    assert ops[0..] == ops;
  }

  lemma {:induction false} OneRowWritten(table: Table)
    requires table.defaultIsStmt
    ensures CollectAll(ONE_ROW, Begin(table), table, TO_TOP).Ok?
    ensures RowsToWrite(ONE_ROW, table, TO_TOP) == [PlainRow(0xFFFF_FFFE, 1, 0)]
  {
    OneRowCollected(table);
    hide CollectAll, TO_TOP, ONE_ROW;
    CollectAllKeepsInv(ONE_ROW, Begin(table), table, TO_TOP);
    SortedIsUnique(Sort(CollectAll(ONE_ROW, Begin(table), table, TO_TOP).value.newAddrs), [0xFFFF_FFFE]);
  }

  /** The binary read back and rewritten without a change loses the row. */
  lemma {:induction false} RowAtTombstoneIsLost(table: Table)
    requires table.defaultIsStmt
    ensures STAYING.newLocations == TO_TOP.newLocations && Describes(STAYING.functions, TO_TOP.newLocations)
    ensures Rewritten(ONE_ROW, table, TO_TOP).Ok?
    ensures Rewritten(Rewritten(ONE_ROW, table, TO_TOP).value, table, STAYING) != Rewritten(ONE_ROW, table, TO_TOP)
  {
    TopDescribed();
    OneRowWritten(table);
    assert NoBasicBlocks(ONE_ROW);
    NoBasicBlocksNoFailure(ONE_ROW, table, TO_TOP);
    hide CollectAll, ONE_ROW, Rewritten, RowsToWrite, Describes;
    RewritingAgainChangesNothing(ONE_ROW, table, TO_TOP, STAYING);
    assert RowsToWrite(ONE_ROW, table, TO_TOP)[0].addr == 0xFFFF_FFFE;
  }
}
