/** A rewritten line program is stable: rewriting it again, with its addresses left where they are,
    gives it back. */
module LineFixpoint {
  import opened Words
  import opened Results
  import opened LineProgram
  import opened LineCodec
  import opened AddressMaps
  import opened Locations
  import opened DebugLines
  import opened LineRewriting

  lemma {:induction false} CollectQuiet(quiet: seq<Opcode>, rest: seq<Opcode>, c: Collector, table: Table,
                                        u: LocationUpdater)
    requires !c.omitting && Quiet(quiet, c.state, table).Some?
    ensures CollectAll(quiet + rest, c, table, u)
         == CollectAll(rest, c.(state := Quiet(quiet, c.state, table).value), table, u)
  {
    if quiet == [] {
      assert quiet + rest == rest;
    } else {
      assert (quiet + rest)[1..] == quiet[1..] + rest;
      CollectQuiet(quiet[1..], rest, Collect(quiet[0], c, table, u).value, table, u);
    }
  }

  /** Rows as a rewriting leaves them: in address order, writable, and in sequences that can be numbered. */
  ghost predicate Ordered(rows: seq<Row>) {
    && (forall i, j :: 0 <= i < j < |rows| ==> rows[i].addr < rows[j].addr)
    && WritableFrom(rows, 0)
  }

  function Addresses(rows: seq<Row>): (r: seq<Word>)
    ensures |r| == |rows|
    ensures forall i :: 0 <= i < |r| ==> r[i] == rows[i].addr
  {
    seq(|rows|, i requires 0 <= i < |rows| => rows[i].addr)
  }

  /** The map fixes every address of the rows that is not a tombstone. */
  ghost predicate Fixes(v: LocationUpdater, rows: seq<Row>) {
    forall i :: 0 <= i < |rows| && !IsTombstone(rows[i].addr) ==> v.LineTarget(rows[i].addr) == rows[i].addr
  }

  ghost predicate NoTombstones(rows: seq<Row>) {
    forall i :: 0 <= i < |rows| ==> !IsTombstone(rows[i].addr)
  }

  /** The map from addresses that reading the first i rows back builds. */
  ghost function InfoUpTo(rows: seq<Row>, i: nat): (m: map<Word, Row>)
    requires i <= |rows|
    ensures forall a :: a in m ==> exists k :: 0 <= k < i && rows[k].addr == a
  {
    if i == 0 then map[] else InfoUpTo(rows, i - 1)[rows[i - 1].addr := Renumbered(rows, i - 1).row]
  }

  /** The reading loop's variables when row i comes next. */
  ghost function Midway(rows: seq<Row>, i: nat, table: Table): Collector
    requires i < |rows|
  {
    Collector(Incoming(rows, i, table), Addresses(rows)[..i], InfoUpTo(rows, i), false, Wrap(RunNumber(rows, i)))
  }

  /** The loop's variables once the first i rows, the last one included, have been read back. */
  ghost function Done(rows: seq<Row>, table: Table): Collector
    requires 0 < |rows|
  {
    var n := Wrap(RunNumber(rows, |rows| - 1) + 1);
    Collector(Fresh(table, n), Addresses(rows), InfoUpTo(rows, |rows|), false, n)
  }

  lemma {:induction false} CollectKept(op: Opcode, row: Row, c: Collector, table: Table, v: LocationUpdater)
    requires Execute(op, c.state, table) == Ok(Step(row, true)) && !c.omitting
    requires !IsTombstone(row.addr) && row.NeedToEmit() && v.LineTarget(row.addr) == row.addr && row.addr !in c.info
    ensures Collect(op, c, table, v) == CloseSequence(op,
      c.(newAddrs := c.newAddrs + [row.addr], info := c.info[row.addr := row], state := row.AfterLine()), table)
  {
    assert row.(addr := row.addr) == row;
  }

  lemma {:induction false} NewAddress(rows: seq<Row>, i: nat)
    requires i < |rows| && Ordered(rows)
    ensures rows[i].addr !in InfoUpTo(rows, i) && rows[i].NeedToEmit()
  {
    assert Writable(rows, i);
  }

  /** The loop's variables after row i has been stored, before a sequence is closed. */
  ghost function AfterStoring(rows: seq<Row>, i: nat): Collector
    requires i < |rows|
  {
    Collector(Renumbered(rows, i).row.AfterLine(), Addresses(rows)[..i + 1], InfoUpTo(rows, i + 1), false,
      Wrap(RunNumber(rows, i)))
  }

  lemma {:induction false} CloseMidway(rows: seq<Row>, i: nat, table: Table)
    requires i + 1 < |rows| && i + 1 < NO_SEQUENCE
    ensures CloseSequence(Closer(ClosesRun(rows, i)), AfterStoring(rows, i), table) == Ok(Midway(rows, i + 1, table))
  {
    hide InfoUpTo, Addresses;
    NextIncoming(rows, i, table);
  }

  lemma {:induction false} CloseLast(rows: seq<Row>, i: nat, table: Table)
    requires i + 1 == |rows| < NO_SEQUENCE
    ensures CloseSequence(Closer(ClosesRun(rows, i)), AfterStoring(rows, i), table) == Ok(Done(rows, table))
  {
    hide InfoUpTo;
    assert Addresses(rows)[..i + 1] == Addresses(rows);
  }

  lemma {:induction false} CollectCloser(rows: seq<Row>, i: nat, table: Table, v: LocationUpdater)
    requires i < |rows| && i + 1 < NO_SEQUENCE && Ordered(rows) && Fixes(v, rows) && !IsTombstone(rows[i].addr)
    ensures Collect(Closer(ClosesRun(rows, i)), Midway(rows, i, table).(state := Renumbered(rows, i).row), table, v)
         == Ok(if i + 1 < |rows| then Midway(rows, i + 1, table) else Done(rows, table))
  {
    hide Collect, CloseSequence, Execute, Closer, LocationUpdater.LineTarget, Done, RunNumber, Writable;
    var row := Renumbered(rows, i).row;
    var c := Midway(rows, i, table).(state := row);
    ExecuteCloser(row, ClosesRun(rows, i), table);
    NewAddress(rows, i);
    CollectKept(Closer(ClosesRun(rows, i)), row, c, table, v);
    assert Addresses(rows)[..i] + [row.addr] == Addresses(rows)[..i + 1];
    if i + 1 < |rows| {
      CloseMidway(rows, i, table);
    } else {
      CloseLast(rows, i, table);
    }
  }

  /** Reading back the opcodes of rows i to m-1, none of which is at a tombstone, keeps them all. */
  lemma {:induction false} CollectUpTo(rows: seq<Row>, i: nat, m: nat, table: Table, v: LocationUpdater)
    requires i <= m < |rows| && m < NO_SEQUENCE && Ordered(rows) && Fixes(v, rows)
    requires forall k :: i <= k < m ==> !IsTombstone(rows[k].addr)
    requires EncodeFrom(rows, i, table).Ok?
    ensures EncodeFrom(rows, m, table).Ok?
    ensures CollectAll(EncodeFrom(rows, i, table).value, Midway(rows, i, table), table, v)
         == CollectAll(EncodeFrom(rows, m, table).value, Midway(rows, m, table), table, v)
    decreases m - i
  {
    hide Collect, CloseSequence, Execute, DiffBody, Quiet, LocationUpdater.LineTarget, Ordered, Fixes, Done;
    hide WritableFrom;
    if i < m {
      CollectOneRow(rows, i, table, v);
      CollectUpTo(rows, i + 1, m, table, v);
    }
  }

  lemma {:induction false} CollectOneRow(rows: seq<Row>, i: nat, table: Table, v: LocationUpdater)
    requires i < |rows| && i + 1 < NO_SEQUENCE && Ordered(rows) && Fixes(v, rows) && !IsTombstone(rows[i].addr)
    requires EncodeFrom(rows, i, table).Ok?
    ensures EncodeFrom(rows, i + 1, table).Ok?
    ensures CollectAll(EncodeFrom(rows, i, table).value, Midway(rows, i, table), table, v)
         == CollectAll(EncodeFrom(rows, i + 1, table).value,
                       if i + 1 < |rows| then Midway(rows, i + 1, table) else Done(rows, table), table, v)
  {
    hide Collect, CloseSequence, Execute, DiffBody, Quiet, LocationUpdater.LineTarget, Ordered, Fixes, Done;
    hide WritableFrom;
    var body := DiffBody(rows[i], Before(rows, i, table));
    var closer := Closer(ClosesRun(rows, i));
    var rest := EncodeFrom(rows, i + 1, table).value;
    assert EncodeFrom(rows, i, table).value == body + ([closer] + rest);
    DiffReadsAsRow(rows, i, table);
    CollectQuiet(body, [closer] + rest, Midway(rows, i, table), table, v);
    CollectCloser(rows, i, table, v);
    assert ([closer] + rest)[1..] == rest;
  }

  lemma {:induction false} CollectEncoded(rows: seq<Row>, table: Table, v: LocationUpdater)
    requires 0 < |rows| < NO_SEQUENCE && Ordered(rows) && Fixes(v, rows) && NoTombstones(rows)
    requires Encode(rows, table).Ok?
    ensures CollectAll(Encode(rows, table).value, Begin(table), table, v) == Ok(Done(rows, table))
  {
    hide Collect, CloseSequence, Execute, LocationUpdater.LineTarget, Ordered, Fixes, WritableFrom, Done;
    var last := |rows| - 1;
    assert Midway(rows, 0, table) == Begin(table);
    CollectUpTo(rows, 0, last, table, v);
    CollectOneRow(rows, last, table, v);
    assert EncodeFrom(rows, |rows|, table) == Ok([]);
  }

  // ---------- The rows read back are written the same way ----------

  lemma {:induction false} InfoUpToIs(rows: seq<Row>, n: nat, k: nat)
    requires k < n <= |rows| && forall i, j :: 0 <= i < j < |rows| ==> rows[i].addr < rows[j].addr
    ensures rows[k].addr in InfoUpTo(rows, n) && InfoUpTo(rows, n)[rows[k].addr] == Renumbered(rows, k).row
  {
    if k < n - 1 {
      InfoUpToIs(rows, n - 1, k);
    }
  }

  /** The same registers, with sequence numbers that change in the same places. */
  ghost predicate SameRows(a: seq<Row>, b: seq<Row>) {
    && |a| == |b|
    && (forall k :: 0 <= k < |a| ==> b[k] == a[k].(sequenceId := b[k].sequenceId))
    && (forall k :: 0 < k < |a| ==>
          (b[k - 1].sequenceId == b[k].sequenceId <==> a[k - 1].sequenceId == a[k].sequenceId))
  }

  lemma {:induction false} SameRowsSameOpcodes(a: seq<Row>, b: seq<Row>, i: nat, table: Table)
    requires SameRows(a, b) && i <= |a|
    ensures EncodeFrom(b, i, table) == EncodeFrom(a, i, table)
    decreases |a| - i
  {
    if i < |a| {
      SameRowsSameOpcodes(a, b, i + 1, table);
      var prev := Before(a, i, table);
      PiecesIgnoreSequence(FIELDS, a[i], prev, b[i].sequenceId, Before(b, i, table).sequenceId);
      assert Before(b, i, table) == prev.(sequenceId := Before(b, i, table).sequenceId);
      assert ClosesRun(b, i) == ClosesRun(a, i) by {
        if i + 1 < |a| {
          assert b[i + 1 - 1].sequenceId == b[i + 1].sequenceId <==> a[i + 1 - 1].sequenceId == a[i + 1].sequenceId;
        }
      }
    }
  }

  lemma {:induction false} RenumberedSameRows(rows: seq<Row>, b: seq<Row>)
    requires |b| == |rows| < NO_SEQUENCE
    requires forall k :: 0 <= k < |rows| ==> b[k] == Renumbered(rows, k).row
    ensures SameRows(rows, b)
  {
    forall k | 0 < k < |rows|
      ensures b[k - 1].sequenceId == b[k].sequenceId <==> rows[k - 1].sequenceId == rows[k].sequenceId
    {
      assert b[k - 1] == Renumbered(rows, k - 1).row && b[k] == Renumbered(rows, k).row;
    }
  }

  lemma {:induction false} DoneRows(rows: seq<Row>, table: Table)
    requires 0 < |rows| < NO_SEQUENCE && Ordered(rows) && Inv(Done(rows, table))
    ensures SameRows(rows, SortedRows(Done(rows, table)))
  {
    hide Renumbered, SameRows, WritableFrom;
    var addrs := Addresses(rows);
    SortedIsUnique(Sort(addrs), addrs);
    var c := Done(rows, table);
    assert c.newAddrs == addrs && c.info == InfoUpTo(rows, |rows|);
    forall k | 0 <= k < |rows| ensures SortedRows(c)[k] == Renumbered(rows, k).row {
      InfoUpToIs(rows, |rows|, k);
    }
    RenumberedSameRows(rows, SortedRows(c));
  }

  /** Increasing non-zero addresses are at least the number of rows up to them. */
  lemma {:induction false} AddressesAreHigh(rows: seq<Row>, i: nat)
    requires i < |rows| && Ordered(rows)
    ensures rows[i].addr >= i + 1
  {
    assert Writable(rows, i);
    if i > 0 {
      AddressesAreHigh(rows, i - 1);
    }
  }

  lemma {:induction false} RowsFit(rows: seq<Row>)
    requires Ordered(rows) && NoTombstones(rows)
    ensures |rows| < NO_SEQUENCE
  {
    if rows != [] {
      AddressesAreHigh(rows, |rows| - 1);
    }
  }

  /** Rewriting rows' own opcodes under a map that leaves their addresses alone changes nothing. */
  lemma {:induction false} StableWithoutTombstones(rows: seq<Row>, table: Table, v: LocationUpdater)
    requires Ordered(rows) && Fixes(v, rows) && NoTombstones(rows)
    requires Encode(rows, table).Ok?
    ensures Rewritten(Encode(rows, table).value, table, v) == Encode(rows, table)
  {
    RowsFit(rows);
    hide Collect, Ordered, Fixes, NoTombstones, SameRows;
    var out := Encode(rows, table).value;
    if rows == [] {
      assert Sort([]) == [];
    } else {
      CollectEncoded(rows, table, v);
      CollectAllKeepsInv(out, Begin(table), table, v);
      DoneRows(rows, table);
      SameRowsSameOpcodes(rows, SortedRows(Done(rows, table)), 0, table);
    }
  }

  // ---------- Tombstoned rows do not survive a second rewriting ----------

  /** A diff's opcodes before the last one never report a row, whatever the registers are; a new address is set. */
  lemma {:induction false} PiecesNeverReport(k: nat, row: Row, prev: Row, s: Row, table: Table)
    requires k <= FIELDS
    ensures Quiet(Pieces(k, row, prev), s, table).Some?
    ensures k > 0 && row.addr != prev.addr ==> Quiet(Pieces(k, row, prev), s, table).value.addr == row.addr
  {
    if k > 0 {
      PiecesNeverReport(k - 1, row, prev, s, table);
      var mid := Quiet(Pieces(k - 1, row, prev), s, table).value;
      QuietConcat(Pieces(k - 1, row, prev), Piece(k - 1, row, prev), s, table);
      PieceNeverReports(k - 1, row, prev, mid, table);
    }
  }

  lemma {:induction false} PieceNeverReports(k: nat, row: Row, prev: Row, s: Row, table: Table)
    requires k < FIELDS
    ensures Quiet(Piece(k, row, prev), s, table).Some?
    ensures k > 0 ==> Quiet(Piece(k, row, prev), s, table).value.addr == s.addr
    ensures k == 0 && row.addr != prev.addr ==> Quiet(Piece(k, row, prev), s, table).value.addr == row.addr
  {
    if Needed(k, row, prev) {
      PieceOpNeverReports(k, row, prev, s, table);
      assert [PieceOp(k, row, prev)][1..] == [];
    }
  }

  lemma {:induction false} PieceOpNeverReports(k: nat, row: Row, prev: Row, s: Row, table: Table)
    requires k < FIELDS
    ensures
      var r := Execute(PieceOp(k, row, prev), s, table);
      r.Ok? && !r.value.ready && r.value.row.addr == if k == 0 then row.addr else s.addr
  {
    if k < 4 {
      EarlyPieceNeverReports(k, row, prev, s, table);
    } else {
      LatePieceNeverReports(k, row, prev, s, table);
    }
  }

  lemma {:induction false} EarlyPieceNeverReports(k: nat, row: Row, prev: Row, s: Row, table: Table)
    requires k < 4
    ensures
      var r := Execute(PieceOp(k, row, prev), s, table);
      r.Ok? && !r.value.ready && r.value.row.addr == if k == 0 then row.addr else s.addr
  {
    match k {
      case 0 =>
      case 1 =>
      case 2 =>
      case _ =>
    }
  }

  lemma {:induction false} LatePieceNeverReports(k: nat, row: Row, prev: Row, s: Row, table: Table)
    requires 4 <= k < FIELDS
    ensures
      var r := Execute(PieceOp(k, row, prev), s, table);
      r.Ok? && !r.value.ready && r.value.row.addr == s.addr
  {
    match k {
      case 4 =>
      case 5 =>
      case 6 =>
      case 7 =>
      case _ =>
    }
  }

  lemma {:induction false} CollectQuietAny(quiet: seq<Opcode>, rest: seq<Opcode>, c: Collector, table: Table,
                                           u: LocationUpdater)
    returns (omitting: bool)
    requires Quiet(quiet, c.state, table).Some?
    ensures CollectAll(quiet + rest, c, table, u)
         == CollectAll(rest, c.(state := Quiet(quiet, c.state, table).value, omitting := omitting), table, u)
  {
    if quiet == [] {
      assert quiet + rest == rest;
      omitting := c.omitting;
    } else {
      assert (quiet + rest)[1..] == quiet[1..] + rest;
      omitting := CollectQuietAny(quiet[1..], rest, Collect(quiet[0], c, table, u).value, table, u);
    }
  }

  /** Reading back rows that are all at tombstones stores nothing. */
  lemma {:induction false} CollectTombstones(rows: seq<Row>, i: nat, c: Collector, table: Table, v: LocationUpdater)
    requires i <= |rows| && Ordered(rows) && EncodeFrom(rows, i, table).Ok?
    requires forall k :: i <= k < |rows| ==> IsTombstone(rows[k].addr)
    ensures CollectAll(EncodeFrom(rows, i, table).value, c, table, v).Ok?
    ensures CollectAll(EncodeFrom(rows, i, table).value, c, table, v).value.newAddrs == c.newAddrs
    decreases |rows| - i
  {
    if i < |rows| {
      hide Execute, DiffBody, Quiet, LocationUpdater.LineTarget, WritableFrom, Closer;
      var prev := Before(rows, i, table);
      var body := DiffBody(rows[i], prev);
      var closer := Closer(ClosesRun(rows, i));
      var rest := EncodeFrom(rows, i + 1, table).value;
      assert EncodeFrom(rows, i, table).value == body + ([closer] + rest);
      NewAddressSet(rows, i, c.state, table);
      var omitting := CollectQuietAny(body, [closer] + rest, c, table, v);
      var mid := c.(state := Quiet(body, c.state, table).value, omitting := omitting);
      ExecuteCloser(mid.state, ClosesRun(rows, i), table);
      var next := mid.(state := Fresh(table, c.sequenceId), omitting := true);
      assert Collect(closer, mid, table, v) == Ok(next);
      assert ([closer] + rest)[1..] == rest;
      CollectTombstones(rows, i + 1, next, table, v);
    }
  }

  lemma {:induction false} NewAddressSet(rows: seq<Row>, i: nat, s: Row, table: Table)
    requires i < |rows| && Ordered(rows)
    ensures var body := DiffBody(rows[i], Before(rows, i, table));
      Quiet(body, s, table).Some? && Quiet(body, s, table).value.addr == rows[i].addr
  {
    hide Quiet, Pieces;
    assert Writable(rows, i);
    PiecesNeverReport(FIELDS, rows[i], Before(rows, i, table), s, table);
  }

  /** One opcode of a written program completes a row for each row written. */
  ghost function Closers(ops: seq<Opcode>): nat {
    if ops == [] then 0
    else Closers(ops[1..]) + if ops[0].code == COPY || EndsSequence(ops[0]) then 1 else 0
  }

  lemma {:induction false} ClosersConcat(a: seq<Opcode>, b: seq<Opcode>)
    ensures Closers(a + b) == Closers(a) + Closers(b)
  {
    if a == [] {
      assert a + b == b;
    } else {
      assert (a + b)[1..] == a[1..] + b;
      ClosersConcat(a[1..], b);
    }
  }

  lemma {:induction false} PiecesHaveNoCloser(k: nat, row: Row, prev: Row)
    requires k <= FIELDS
    ensures Closers(Pieces(k, row, prev)) == 0
  {
    if k > 0 {
      PiecesHaveNoCloser(k - 1, row, prev);
      var p := Piece(k - 1, row, prev);
      ClosersConcat(Pieces(k - 1, row, prev), p);
      assert p == [] || p[1..] == [];
    }
  }

  lemma {:induction false} ClosersOfEncoded(rows: seq<Row>, i: nat, table: Table)
    requires i <= |rows| && EncodeFrom(rows, i, table).Ok?
    ensures Closers(EncodeFrom(rows, i, table).value) == |rows| - i
    decreases |rows| - i
  {
    if i < |rows| {
      hide Pieces;
      var prev := Before(rows, i, table);
      var closer := Closer(ClosesRun(rows, i));
      PiecesHaveNoCloser(FIELDS, rows[i], prev);
      ClosersConcat(DiffBody(rows[i], prev), [closer]);
      assert [closer][1..] == [];
      ClosersConcat(DiffBody(rows[i], prev) + [closer], EncodeFrom(rows, i + 1, table).value);
      ClosersOfEncoded(rows, i + 1, table);
    }
  }

  lemma {:induction false} UnstableWithTombstones(rows: seq<Row>, table: Table, v: LocationUpdater)
    requires Ordered(rows) && Fixes(v, rows) && !NoTombstones(rows)
    requires Encode(rows, table).Ok?
    ensures Rewritten(Encode(rows, table).value, table, v) != Encode(rows, table)
  {
    var out := Encode(rows, table).value;
    var m := FirstTombstone(rows, 0);
    if m > 0 {
      AddressesAreHigh(rows, m - 1);
    }
    assert Midway(rows, 0, table) == Begin(table) by { hide LocationUpdater.LineTarget; }
    CollectUpTo(rows, 0, m, table, v);
    CollectTombstones(rows, m, Midway(rows, m, table), table, v);
    var c := CollectAll(out, Begin(table), table, v).value;
    assert c.newAddrs == Addresses(rows)[..m];
    CollectAllKeepsInv(out, Begin(table), table, v);
    if Rewritten(out, table, v) == Ok(out) {
      SortKeepsLength(c.newAddrs);
      ClosersOfEncoded(SortedRows(c), 0, table);
      ClosersOfEncoded(rows, 0, table);
      assert false;
    }
  }

  lemma {:induction false} FirstTombstone(rows: seq<Row>, i: nat) returns (m: nat)
    requires i <= |rows| && Ordered(rows) && exists k :: i <= k < |rows| && IsTombstone(rows[k].addr)
    ensures i <= m < |rows|
    ensures forall k :: i <= k < m ==> !IsTombstone(rows[k].addr)
    ensures forall k :: m <= k < |rows| ==> IsTombstone(rows[k].addr)
    decreases |rows| - i
  {
    if IsTombstone(rows[i].addr) {
      assert Writable(rows, i);
      m := i;
    } else {
      m := FirstTombstone(rows, i + 1);
    }
  }

  // ---------- The fixed point ----------

  /** What a rewriting wrote is left as it is by a second one, under any map that fixes its (non-tombstone)
      addresses, exactly when none of its rows was moved to a tombstone address. */
  lemma {:induction false} RewritingIsStable(ops: seq<Opcode>, table: Table, u: LocationUpdater, v: LocationUpdater)
    requires Rewritten(ops, table, u).Ok?
    requires Fixes(v, RowsToWrite(ops, table, u))
    ensures Rewritten(Rewritten(ops, table, u).value, table, v) == Rewritten(ops, table, u)
       <==> NoTombstones(RowsToWrite(ops, table, u))
  {
    hide Fixes, NoTombstones, RowsToWrite;
    SortedFirstWinsImage(ops, table, u);
    var rows := RowsToWrite(ops, table, u);
    EncodeSucceedsIff(rows, table);
    assert Ordered(rows);
    if NoTombstones(rows) {
      StableWithoutTombstones(rows, table, v);
    } else {
      UnstableWithTombstones(rows, table, v);
    }
  }

  lemma {:induction false} SurvivorsAreMoved(ops: seq<Opcode>, c: Collector, table: Table, u: LocationUpdater, i: nat)
    requires i < |Survivors(ops, c, table, u)|
    ensures Survivors(ops, c, table, u)[i].0 == u.LineTarget(Survivors(ops, c, table, u)[i].1.addr)
    ensures Survivors(ops, c, table, u)[i].0 != 0
  {
    hide Execute, CollectStep, LocationUpdater.LineTarget;
    if ops != [] {
      var step := Execute(ops[0], c.state, table).value;
      var first := match Surviving(ops[0], step, c, u) case Some(r) => [r] case None => [];
      if i >= |first| {
        SurvivorsAreMoved(ops[1..], CollectStep(ops[0], step, c, table, u).value, table, u, i - |first|);
      }
    }
  }

  lemma {:induction false} RowsAreKnown(ops: seq<Opcode>, table: Table, u: LocationUpdater, functions: seq<Function>)
    requires CollectAll(ops, Begin(table), table, u).Ok? && Describes(functions, u.newLocations)
    ensures forall i :: 0 <= i < |RowsToWrite(ops, table, u)| ==> Known(functions, RowsToWrite(ops, table, u)[i].addr)
  {
    hide LocationUpdater.LineTarget, Describes, Known, RowsToWrite, IsFirst;
    SortedFirstWinsImage(ops, table, u);
    var rows := RowsToWrite(ops, table, u);
    var survivors := Survivors(ops, Begin(table), table, u);
    forall i | 0 <= i < |rows| ensures Known(functions, rows[i].addr) {
      assert rows[i].addr in CollectAll(ops, Begin(table), table, u).value.info;
      var k :| 0 <= k < |survivors| && survivors[k].0 == rows[i].addr;
      SurvivorsAreMoved(ops, Begin(table), table, u, k);
      LineTargetsAreKnown(u, functions, survivors[k].1.addr);
    }
  }

  /** A line program rewritten for a new binary is what rewriting it for that binary, read back and not changed
      again, gives; unless a row was moved to a tombstone address. */
  lemma {:induction false} RewritingAgainChangesNothing(ops: seq<Opcode>, table: Table, u: LocationUpdater,
                                                        v: LocationUpdater)
    requires Rewritten(ops, table, u).Ok?
    requires v.newLocations == u.newLocations && Describes(v.functions, u.newLocations)
    ensures Rewritten(Rewritten(ops, table, u).value, table, v) == Rewritten(ops, table, u)
       <==> NoTombstones(RowsToWrite(ops, table, u))
  {
    assert CollectAll(ops, Begin(table), table, u).Ok?;
    hide Describes, Known, RowsToWrite, Rewritten, NoTombstones, LocationUpdater.LineTarget;
    RowsAreKnown(ops, table, u, v.functions);
    var rows := RowsToWrite(ops, table, u);
    forall i | 0 <= i < |rows| ensures v.LineTarget(rows[i].addr) == rows[i].addr {
      UnchangedLayoutKeepsLines(v, rows[i].addr);
    }
    RewritingIsStable(ops, table, u, v);
  }
}
