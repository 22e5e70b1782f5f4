/** What updateDebugLines promises about whole line programs. */
module LineRewriting {
  import opened Words
  import opened Results
  import opened Lists
  import opened LineProgram
  import opened LineCodec
  import opened Locations
  import opened DebugLines

  // ---------- Which rows survive ----------

  /** The row, if any, that an opcode completes outside an omitted range and that still has an address. */
  ghost function Surviving(op: Opcode, step: Step, c: Collector, u: LocationUpdater): Option<(Word, Row)> {
    if step.ready && !(c.omitting && !StartsNewRange(op)) && !IsTombstone(step.row.addr)
       && u.LineTarget(step.row.addr) != 0 && step.row.NeedToEmit()
    then Some((u.LineTarget(step.row.addr), step.row)) else None
  }

  /** All surviving rows in input order, each with its new address; repeats included. */
  ghost function Survivors(ops: seq<Opcode>, c: Collector, table: Table, u: LocationUpdater): seq<(Word, Row)> {
    if ops == [] then []
    else match Execute(ops[0], c.state, table)
      case Err(_) => []
      case Ok(step) =>
        (match Surviving(ops[0], step, c, u) case Some(r) => [r] case None => [])
        + match CollectStep(ops[0], step, c, table, u)
          case Ok(next) => Survivors(ops[1..], next, table, u)
          case Err(_) => []
  }

  ghost predicate IsFirst(rows: seq<(Word, Row)>, i: nat)
    requires i < |rows|
  {
    forall j :: 0 <= j < i ==> rows[j].0 != rows[i].0
  }

  /** `info` extends `before` by the first of the rows for each further address. */
  ghost predicate FirstWins(before: map<Word, Row>, rows: seq<(Word, Row)>, info: map<Word, Row>) {
    && (forall a :: a in before ==> a in info && info[a] == before[a])
    && (forall i :: 0 <= i < |rows| ==> rows[i].0 in info)
    && (forall i :: 0 <= i < |rows| && IsFirst(rows, i) && rows[i].0 !in before ==>
          info[rows[i].0] == rows[i].1.(addr := rows[i].0))
    && (forall a :: a in info && a !in before ==> exists i :: 0 <= i < |rows| && rows[i].0 == a)
  }

  lemma {:induction false} IsFirstPrepended(row: (Word, Row), rows: seq<(Word, Row)>, i: nat)
    requires 0 < i <= |rows| && IsFirst([row] + rows, i)
    ensures IsFirst(rows, i - 1) && rows[i - 1].0 != row.0
  {
    var all := [row] + rows;
    assert all[0].0 != all[i].0;
    forall j | 0 <= j < i - 1 ensures rows[j].0 != rows[i - 1].0 {
      assert all[j + 1].0 != all[i].0;
    }
  }

  lemma {:induction false} FirstWinsPrepended(before: map<Word, Row>, row: (Word, Row), rows: seq<(Word, Row)>,
                                              info: map<Word, Row>)
    requires FirstWins(if row.0 in before then before else before[row.0 := row.1.(addr := row.0)], rows, info)
    ensures FirstWins(before, [row] + rows, info)
  {
    hide IsFirst;
    var all := [row] + rows;
    forall i | 0 <= i < |all| && IsFirst(all, i) && all[i].0 !in before
      ensures info[all[i].0] == all[i].1.(addr := all[i].0)
    {
      if i > 0 {
        IsFirstPrepended(row, rows, i);
        assert all[i] == rows[i - 1];
      }
    }
    forall a | a in info && a !in before ensures exists i :: 0 <= i < |all| && all[i].0 == a {
      if a == row.0 {
        assert all[0].0 == a;
      } else {
        var i :| 0 <= i < |rows| && rows[i].0 == a;
        assert all[i + 1].0 == a;
      }
    }
  }

  lemma StepInfo(op: Opcode, step: Step, c: Collector, table: Table, u: LocationUpdater)
    requires CollectStep(op, step, c, table, u).Ok?
    ensures CollectStep(op, step, c, table, u).value.info ==
            match Surviving(op, step, c, u)
            case Some(r) => if r.0 in c.info then c.info else c.info[r.0 := r.1.(addr := r.0)]
            case None => c.info
  {
  }

  lemma {:induction false} SurvivorsWin(ops: seq<Opcode>, c: Collector, table: Table, u: LocationUpdater)
    requires CollectAll(ops, c, table, u).Ok?
    ensures FirstWins(c.info, Survivors(ops, c, table, u), CollectAll(ops, c, table, u).value.info)
  {
    hide Execute, CollectStep, Surviving;
    if ops != [] {
      hide FirstWins;
      var step := Execute(ops[0], c.state, table).value;
      var next := CollectStep(ops[0], step, c, table, u).value;
      var rest := Survivors(ops[1..], next, table, u);
      SurvivorsWin(ops[1..], next, table, u);
      StepInfo(ops[0], step, c, table, u);
      match Surviving(ops[0], step, c, u) {
        case Some(r) => FirstWinsPrepended(c.info, r, rest, CollectAll(ops, c, table, u).value.info);
        case None => assert [] + rest == rest;
      }
    }
  }

  /** The rows to write are the image of the surviving rows under the new addresses, in the order of those
      addresses and without repeats; where several rows meet, the first one read is kept. */
  lemma {:induction false} SortedFirstWinsImage(ops: seq<Opcode>, table: Table, u: LocationUpdater)
    requires CollectAll(ops, Begin(table), table, u).Ok?
    ensures
      var info := CollectAll(ops, Begin(table), table, u).value.info;
      var rows := RowsToWrite(ops, table, u);
      && FirstWins(map[], Survivors(ops, Begin(table), table, u), info)
      && (forall i, j :: 0 <= i < j < |rows| ==> rows[i].addr < rows[j].addr)
      && (forall i :: 0 <= i < |rows| ==> rows[i].addr in info && rows[i] == info[rows[i].addr])
      && (forall a :: a in info ==> info[a] in rows && info[a].addr == a)
      && (forall i :: 0 <= i < |rows| ==> rows[i].NeedToEmit() && !rows[i].epilogueBegin)
  {
    hide CollectAll, Survivors, FirstWins, Insert, IsTombstone;
    CollectAllKeepsInv(ops, Begin(table), table, u);
    SurvivorsWin(ops, Begin(table), table, u);
    var c := CollectAll(ops, Begin(table), table, u).value;
    var sorted := Sort(c.newAddrs);
    forall a | a in c.info ensures c.info[a] in SortedRows(c) {
      assert a in sorted;
      var i :| 0 <= i < |sorted| && sorted[i] == a;
      assert SortedRows(c)[i] == c.info[a];
    }
  }

  /** A row at a tombstone address makes the loop drop it and every later row up to the next set_address. */
  lemma {:induction false} OmittedTail(ops: seq<Opcode>, c: Collector, table: Table, u: LocationUpdater)
    requires CollectAll(ops, c, table, u).Ok?
    requires forall op :: op in ops ==> !StartsNewRange(op)
    requires c.omitting
    ensures
      var d := CollectAll(ops, c, table, u).value;
      d.omitting && d.newAddrs == c.newAddrs && d.info == c.info && d.sequenceId == c.sequenceId
    ensures Survivors(ops, c, table, u) == []
  {
    if ops != [] {
      OmittedTail(ops[1..], Collect(ops[0], c, table, u).value, table, u);
    }
  }

  lemma {:induction false} TombstonedRange(op: Opcode, ops: seq<Opcode>, c: Collector, table: Table, u: LocationUpdater)
    requires CollectAll([op] + ops, c, table, u).Ok?
    requires Execute(op, c.state, table).Ok? && Execute(op, c.state, table).value.ready
    requires IsTombstone(Execute(op, c.state, table).value.row.addr)
    requires forall op' :: op' in ops ==> !StartsNewRange(op')
    ensures
      var d := CollectAll([op] + ops, c, table, u).value; d.newAddrs == c.newAddrs && d.info == c.info
    ensures Survivors([op] + ops, c, table, u) == []
  {
    assert ([op] + ops)[1..] == ops;
    OmittedTail(ops, Collect(op, c, table, u).value, table, u);
  }

  /** A sequence number is spent exactly on an end of a sequence that is neither in an omitted range nor a
      repeat of an address already taken. A repeat leaves every register as it was, even at such an end. */
  lemma SequenceEndsIff(op: Opcode, step: Step, c: Collector, table: Table, u: LocationUpdater)
    requires CollectStep(op, step, c, table, u).Ok? && step.ready
    ensures
      var next := CollectStep(op, step, c, table, u).value;
      match FateOf(op, step, c, u)
      case Omitted => next.sequenceId == c.sequenceId && next.state == Fresh(table, c.sequenceId)
      case Repeated => next.sequenceId == c.sequenceId && next.state == step.row
      case _ =>
        if EndsSequence(op) then next.sequenceId == c.sequenceId + 1 && next.state == Fresh(table, next.sequenceId)
        else next.sequenceId == c.sequenceId && next.state.addr == step.row.addr && next.state.line == step.row.line
  {
  }

  // ---------- Which rows share a sequence number ----------

  datatype Fate = Omitted | Dropped | Repeated | Kept

  ghost function FateOf(op: Opcode, step: Step, c: Collector, u: LocationUpdater): Fate {
    if (c.omitting && !StartsNewRange(op)) || IsTombstone(step.row.addr) then Omitted
    else match Surviving(op, step, c, u)
      case None => Dropped
      case Some(r) => if r.0 in c.info then Repeated else Kept
  }

  /** A row the loop completes, with the registers it then has, and what becomes of it. */
  datatype Event = Event(row: Row, endsSequence: bool, fate: Fate)
  {
    predicate Spends() {
      endsSequence && (fate == Dropped || fate == Kept)
    }
  }

  ghost function Events(ops: seq<Opcode>, c: Collector, table: Table, u: LocationUpdater): seq<Event> {
    if ops == [] then []
    else match Execute(ops[0], c.state, table)
      case Err(_) => []
      case Ok(step) =>
        (if step.ready then [Event(step.row, EndsSequence(ops[0]), FateOf(ops[0], step, c, u))] else [])
        + match CollectStep(ops[0], step, c, table, u)
          case Ok(next) => Events(ops[1..], next, table, u)
          case Err(_) => []
  }

  ghost function Landing(events: seq<Event>, u: LocationUpdater): seq<(Word, Row)> {
    if events == [] then []
    else (if events[0].fate == Repeated || events[0].fate == Kept
          then [(u.LineTarget(events[0].row.addr), events[0].row)] else []) + Landing(events[1..], u)
  }

  /** The surviving rows are the completed rows that are neither omitted nor dropped. */
  lemma {:induction false} SurvivorsAreEvents(ops: seq<Opcode>, c: Collector, table: Table, u: LocationUpdater)
    requires CollectAll(ops, c, table, u).Ok?
    ensures Survivors(ops, c, table, u) == Landing(Events(ops, c, table, u), u)
  {
    hide Execute, CollectStep, LocationUpdater.LineTarget, IsTombstone;
    if ops != [] {
      var step := Execute(ops[0], c.state, table).value;
      var next := CollectStep(ops[0], step, c, table, u).value;
      var rest := Events(ops[1..], next, table, u);
      SurvivorsAreEvents(ops[1..], next, table, u);
      if step.ready {
        var event := Event(step.row, EndsSequence(ops[0]), FateOf(ops[0], step, c, u));
        assert ([event] + rest)[1..] == rest;
      } else {
        assert [] + rest == rest && Surviving(ops[0], step, c, u) == None;
      }
    }
  }

  lemma {:induction false} StepNumbers(op: Opcode, c: Collector, table: Table, u: LocationUpdater)
    requires Collect(op, c, table, u).Ok? && c.state.sequenceId == c.sequenceId
    ensures
      var step, next := Execute(op, c.state, table).value, Collect(op, c, table, u).value;
      && next.state.sequenceId == next.sequenceId && step.row.sequenceId == c.sequenceId
      && var spends := step.ready && Event(step.row, EndsSequence(op), FateOf(op, step, c, u)).Spends();
         next.sequenceId == c.sequenceId + if spends then 1 else 0
  {
    hide Execute, LocationUpdater.LineTarget, IsTombstone;
    ExecuteKeepsNumber(op, c.state, table);
  }

  lemma ExecuteKeepsNumber(op: Opcode, row: Row, table: Table)
    requires Execute(op, row, table).Ok?
    ensures Execute(op, row, table).value.row.sequenceId == row.sequenceId
    ensures !Execute(op, row, table).value.ready ==> !EndsSequence(op)
  {
  }

  /** From row i to row j every end of a sequence is omitted or repeated. */
  ghost predicate NoneSpent(events: seq<Event>, i: nat, j: nat)
    requires i <= j <= |events|
  {
    forall k :: i <= k < j && events[k].endsSequence ==> events[k].fate == Omitted || events[k].fate == Repeated
  }

  lemma {:induction false} NoneSpentPrepended(e: Event, rest: seq<Event>, i: nat, j: nat)
    requires i <= j <= |rest|
    ensures NoneSpent([e] + rest, i + 1, j + 1) == NoneSpent(rest, i, j)
    ensures NoneSpent([e] + rest, 0, j + 1) == (!e.Spends() && NoneSpent(rest, 0, j))
  {
    var all := [e] + rest;
    assert all[0] == e && forall k :: 0 <= k < |rest| ==> rest[k] == all[k + 1];
    if NoneSpent(all, i + 1, j + 1) {
      assert forall k :: i <= k < j ==> rest[k] == all[k + 1];
    }
    if NoneSpent(all, 0, j + 1) {
      assert forall k :: 0 <= k < j ==> rest[k] == all[k + 1];
    }
  }

  lemma {:induction false} SharedFromStart(ops: seq<Opcode>, c: Collector, table: Table, u: LocationUpdater, j: nat)
    requires CollectAll(ops, c, table, u).Ok? && c.state.sequenceId == c.sequenceId && j < |Events(ops, c, table, u)|
    ensures
      var events := Events(ops, c, table, u);
      && events[j].row.sequenceId >= c.sequenceId
      && (events[j].row.sequenceId == c.sequenceId <==> NoneSpent(events, 0, j))
  {
    hide Execute, CollectStep, FateOf, NoneSpent, Event.Spends;
    StepNumbers(ops[0], c, table, u);
    var step := Execute(ops[0], c.state, table).value;
    var next := CollectStep(ops[0], step, c, table, u).value;
    var rest := Events(ops[1..], next, table, u);
    if !step.ready {
      assert Events(ops, c, table, u) == rest;
      SharedFromStart(ops[1..], next, table, u, j);
    } else if j > 0 {
      SharedFromStart(ops[1..], next, table, u, j - 1);
      NoneSpentPrepended(Event(step.row, EndsSequence(ops[0]), FateOf(ops[0], step, c, u)), rest, 0, j - 1);
    } else {
      NoneSpentAtOnce(Events(ops, c, table, u));
    }
  }

  lemma NoneSpentAtOnce(events: seq<Event>)
    ensures NoneSpent(events, 0, 0)
  {
  }

  lemma {:induction false} EventsStep(ops: seq<Opcode>, c: Collector, table: Table, u: LocationUpdater)
    requires CollectAll(ops, c, table, u).Ok? && c.state.sequenceId == c.sequenceId && ops != []
    ensures
      var step, next := Execute(ops[0], c.state, table), Collect(ops[0], c, table, u);
      && step.Ok? && next.Ok? && CollectAll(ops[1..], next.value, table, u).Ok?
      && next.value.state.sequenceId == next.value.sequenceId
      && var rest := Events(ops[1..], next.value, table, u);
         Events(ops, c, table, u)
         == if !step.value.ready then rest
            else [Event(step.value.row, EndsSequence(ops[0]), FateOf(ops[0], step.value, c, u))] + rest
  {
    hide Execute, CollectStep, FateOf, Event.Spends;
    StepNumbers(ops[0], c, table, u);
    var rest := Events(ops[1..], Collect(ops[0], c, table, u).value, table, u);
    assert [] + rest == rest;
  }

  /** Over a whole run: two rows get the same sequence number exactly when every end of a sequence from the one to
      the other is omitted or repeated. */
  lemma {:induction false} NumbersShared(ops: seq<Opcode>, c: Collector, table: Table, u: LocationUpdater, i: nat,
                                         j: nat)
    requires CollectAll(ops, c, table, u).Ok? && c.state.sequenceId == c.sequenceId
    requires i <= j < |Events(ops, c, table, u)|
    ensures
      var events := Events(ops, c, table, u);
      events[i].row.sequenceId == events[j].row.sequenceId <==> NoneSpent(events, i, j)
  {
    hide *;
    if i == 0 {
      SharedFromStart(ops, c, table, u, j);
      SharedFromStart(ops, c, table, u, 0);
      NoneSpentAtOnce(Events(ops, c, table, u));
    } else {
      NoEvents(c, table, u);
      EventsStep(ops, c, table, u);
      var step := Execute(ops[0], c.state, table).value;
      var next := Collect(ops[0], c, table, u).value;
      var first := if step.ready then 1 else 0;
      NumbersShared(ops[1..], next, table, u, i - first, j - first);
      if step.ready {
        NoneSpentPrepended(Event(step.row, EndsSequence(ops[0]), FateOf(ops[0], step, c, u)),
                           Events(ops[1..], next, table, u), i - 1, j - 1);
      }
    }
  }

  lemma NoEvents(c: Collector, table: Table, u: LocationUpdater)
    ensures Events([], c, table, u) == []
  {
  }

  // ---------- When the reading loop fails ----------

  /** The two fatal opcodes: define_file, and a number below the base that is no standard opcode. */
  predicate IsFatal(op: Opcode, table: Table) {
    if op.code == EXTENDED then op.subCode == DEFINE_FILE
    else op.code < table.opcodeBase && (op.code == 11 || op.code > SET_ISA)
  }

  lemma {:induction false} FailsIffFatal(op: Opcode, row: Row, table: Table)
    ensures Execute(op, row, table).Err? <==> IsFatal(op, table)
  {
    hide AdjustOpcode, AddressStep, Wrap;
  }

  /** The sequence numbers spent by a run. */
  ghost function Spent(events: seq<Event>): nat {
    if events == [] then 0 else Spent(events[1..]) + if events[0].Spends() then 1 else 0
  }

  lemma {:induction false} SpentPrepended(e: Event, rest: seq<Event>)
    ensures Spent([e] + rest) == Spent(rest) + if e.Spends() then 1 else 0
    ensures Spent([]) == 0
  {
    assert ([e] + rest)[1..] == rest;
  }

  lemma CollectStepFailsIff(op: Opcode, step: Step, c: Collector, table: Table, u: LocationUpdater)
    requires c.sequenceId < NO_SEQUENCE
    ensures
      var e := Event(step.row, EndsSequence(op), FateOf(op, step, c, u));
      var spends := step.ready && e.Spends();
      var r := CollectStep(op, step, c, table, u);
      && (r.Err? <==> spends && c.sequenceId + 1 >= NO_SEQUENCE)
      && (r.Ok? ==> r.value.sequenceId == c.sequenceId + (if spends then 1 else 0) && r.value.sequenceId < NO_SEQUENCE)
  {
    hide LocationUpdater.LineTarget, IsTombstone;
  }

  /** Reading fails exactly when an opcode is fatal or the sequences that end use up the identifiers. */
  lemma {:induction false} ReadingFailsIff(ops: seq<Opcode>, c: Collector, table: Table, u: LocationUpdater)
    requires c.sequenceId < NO_SEQUENCE
    ensures CollectAll(ops, c, table, u).Err? <==>
      (exists op :: op in ops && IsFatal(op, table)) || c.sequenceId + Spent(Events(ops, c, table, u)) >= NO_SEQUENCE
  {
    hide Execute, CollectStep, FateOf, Event.Spends, IsFatal;
    if ops != [] {
      FailsIffFatal(ops[0], c.state, table);
      if Execute(ops[0], c.state, table).Ok? {
        var step := Execute(ops[0], c.state, table).value;
        var event := Event(step.row, EndsSequence(ops[0]), FateOf(ops[0], step, c, u));
        CollectStepFailsIff(ops[0], step, c, table, u);
        assert [event] + [] == [event];
        SpentPrepended(event, []);
        if CollectStep(ops[0], step, c, table, u).Ok? {
          var next := CollectStep(ops[0], step, c, table, u).value;
          var rest := Events(ops[1..], next, table, u);
          ReadingFailsIff(ops[1..], next, table, u);
          SpentPrepended(event, rest);
          assert [] + rest == rest;
        }
      }
    }
  }

  // ---------- What the written table says ----------

  /** Read back, a rewritten program says exactly its sorted rows, each with the registers it was kept with. */
  lemma {:induction false} RewrittenReadsBack(ops: seq<Opcode>, table: Table, u: LocationUpdater)
    requires Rewritten(ops, table, u).Ok?
    ensures Decode(Rewritten(ops, table, u).value, Fresh(table, 0), table)
         == if FewRuns(RowsToWrite(ops, table, u)) then Ok(RenumberedFrom(RowsToWrite(ops, table, u), 0))
            else Err(AssertSequenceId)
  {
    LineTableRoundTrip(RowsToWrite(ops, table, u), table);
  }

  lemma {:induction false} SortKeepsLength(s: seq<Word>)
    requires Distinct(s)
    ensures |Sort(s)| == |s|
  {
    if s != [] {
      assert s[0] !in s[1..];
      SortKeepsLength(s[1..]);
      InsertLength(s[0], Sort(s[1..]));
    }
  }

  lemma {:induction false} InsertLength(x: Word, s: seq<Word>)
    requires StrictlySorted(s) && x !in s
    ensures |Insert(x, s)| == |s| + 1
  {
    if s != [] && x > s[0] {
      InsertLength(x, s[1..]);
    }
  }

  // ---------- When the writing loop fails ----------

  /** Nothing sets the basic_block register. */
  predicate NoBasicBlocks(ops: seq<Opcode>) {
    forall op :: op in ops ==> op.code != SET_BASIC_BLOCK
  }

  lemma {:induction false} NoBasicBlockRows(ops: seq<Opcode>, c: Collector, table: Table, u: LocationUpdater)
    requires CollectAll(ops, c, table, u).Ok? && NoBasicBlocks(ops)
    requires !c.state.basicBlock && forall a :: a in c.info ==> !c.info[a].basicBlock
    ensures forall a :: a in CollectAll(ops, c, table, u).value.info ==>
              !CollectAll(ops, c, table, u).value.info[a].basicBlock
  {
    if ops != [] {
      var next := Collect(ops[0], c, table, u).value;
      assert !Execute(ops[0], c.state, table).value.row.basicBlock;
      NoBasicBlockRows(ops[1..], next, table, u);
    }
  }

  /** Once a program has been read, writing it fails in exactly one way: basic_block goes from true to false
      between two neighbours, in the new order, of one sequence. */
  lemma {:induction false} RewritingFailsIff(ops: seq<Opcode>, table: Table, u: LocationUpdater)
    requires CollectAll(ops, Begin(table), table, u).Ok?
    ensures
      var rows := RowsToWrite(ops, table, u);
      Rewritten(ops, table, u).Err? <==>
      exists i :: 0 <= i < |rows| - 1 && rows[i].sequenceId == rows[i + 1].sequenceId
                  && rows[i].basicBlock && !rows[i + 1].basicBlock
  {
    SortedFirstWinsImage(ops, table, u);
    var rows := RowsToWrite(ops, table, u);
    EncodeSucceedsIff(rows, table);
    if !WritableFrom(rows, 0) {
      var i :| 0 <= i < |rows| && !Writable(rows, i);
      assert rows[i].addr in CollectAll(ops, Begin(table), table, u).value.info;
      assert rows[i + 1].sequenceId == rows[i].sequenceId;
    }
    if i :| 0 <= i < |rows| - 1 && rows[i].sequenceId == rows[i + 1].sequenceId
            && rows[i].basicBlock && !rows[i + 1].basicBlock {
      assert !Writable(rows, i);
    }
  }

  lemma {:induction false} NoBasicBlocksNoFailure(ops: seq<Opcode>, table: Table, u: LocationUpdater)
    requires CollectAll(ops, Begin(table), table, u).Ok? && NoBasicBlocks(ops)
    ensures Rewritten(ops, table, u).Ok?
  {
    SortedFirstWinsImage(ops, table, u);
    NoBasicBlockRows(ops, Begin(table), table, u);
    RewritingFailsIff(ops, table, u);
  }

  // Two expressions whose order a rewriting reverses, and a sequence whose second row starts a basic block.
  const SWAPPED := LocationUpdater(
    [Function(0, FuncLocation(1, 2, 40), [(1, Span(10, 11)), (2, Span(20, 21))], [])],
    Layout(map[1 := Span(200, 201), 2 := Span(100, 101)], map[], map[]), map[], map[])
  const TWO_ROWS := [ExtendedItem(SET_ADDRESS, 5).(data := 10), Item(COPY), Item(SET_BASIC_BLOCK),
                     ExtendedItem(SET_ADDRESS, 5).(data := 20), Item(COPY)]

  lemma {:induction false} SwappedTargets()
    ensures SWAPPED.LineTarget(10) == 200 && SWAPPED.LineTarget(20) == 100
  {
    var f := SWAPPED.functions[0];
    assert SWAPPED.functions[..0] == [];
    assert Spans(SWAPPED.functions) == f.exprs;
    var starts := Starts(f.exprs);
    assert starts == [(10, 1), (20, 2)];
    assert starts[..1] == [(10, 1)];
  }

  lemma {:induction false} CollectAt(ops: seq<Opcode>, k: nat, c: Collector, next: Collector, table: Table,
                                     u: LocationUpdater)
    requires k < |ops| && Collect(ops[k], c, table, u) == Ok(next)
    ensures CollectAll(ops[k..], c, table, u) == CollectAll(ops[k + 1..], next, table, u)
  {
    hide Collect;
    assert ops[k..][1..] == ops[k + 1..];
  }

  const ROW_200 := Row(200, 1, 0, 1, 0, 0, true, false, false, false, 0)
  const ROW_100 := Row(100, 1, 0, 1, 0, 0, true, true, false, false, 0)

  lemma {:induction false} SwappedRows(table: Table)
    requires table.defaultIsStmt
    ensures exists c :: CollectAll(TWO_ROWS, Begin(table), table, SWAPPED) == Ok(c)
              && c.newAddrs == [200, 100] && c.info == map[200 := ROW_200, 100 := ROW_100]
  {
    SwappedTargets();
    var c0 := Begin(table);
    var c1 := c0.(state := c0.state.(addr := 10));
    var c2 := c1.(newAddrs := [200], info := map[200 := ROW_200]);
    var c3 := c2.(state := c2.state.(basicBlock := true));
    var c4 := c3.(state := c3.state.(addr := 20));
    var c5 := c4.(newAddrs := [200, 100], info := map[200 := ROW_200, 100 := ROW_100]);
    var ops := TWO_ROWS;
    assert [] + [200] == [200] && [200] + [100] == [200, 100];
    assert Collect(ops[0], c0, table, SWAPPED) == Ok(c1);
    assert Collect(ops[1], c1, table, SWAPPED) == Ok(c2);
    assert Collect(ops[2], c2, table, SWAPPED) == Ok(c3);
    assert Collect(ops[3], c3, table, SWAPPED) == Ok(c4);
    assert Collect(ops[4], c4, table, SWAPPED) == Ok(c5);
    CollectAt(ops, 0, c0, c1, table, SWAPPED);
    CollectAt(ops, 1, c1, c2, table, SWAPPED);
    CollectAt(ops, 2, c2, c3, table, SWAPPED);
    CollectAt(ops, 3, c3, c4, table, SWAPPED);
    CollectAt(ops, 4, c4, c5, table, SWAPPED);
    assert ops[0..] == ops;
  }

  lemma {:induction false} SwappedOrder(table: Table)
    requires table.defaultIsStmt
    ensures CollectAll(TWO_ROWS, Begin(table), table, SWAPPED).Ok?
    ensures RowsToWrite(TWO_ROWS, table, SWAPPED) == [ROW_100, ROW_200]
  {
    SwappedRows(table);
    hide CollectAll, SWAPPED, TWO_ROWS, Insert;
    CollectAllKeepsInv(TWO_ROWS, Begin(table), table, SWAPPED);
    var c := CollectAll(TWO_ROWS, Begin(table), table, SWAPPED).value;
    SortedIsUnique(Sort(c.newAddrs), [100, 200]);
  }

  /** The assert on basic_block is not always met. */
  lemma {:induction false} BasicBlockAssertCanFail(table: Table)
    requires table.defaultIsStmt
    ensures Rewritten(TWO_ROWS, table, SWAPPED).Err?
  {
    hide CollectAll, SWAPPED, TWO_ROWS, Rewritten, RowsToWrite;
    SwappedOrder(table);
    RewritingFailsIff(TWO_ROWS, table, SWAPPED);
    var rows := RowsToWrite(TWO_ROWS, table, SWAPPED);
    assert rows[0] == ROW_100 && rows[1] == ROW_200;
  }
}
