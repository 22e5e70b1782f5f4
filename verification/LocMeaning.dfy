/** What a rewritten location or range list means to its reader. */
module LocMeaning {
  import opened Words
  import opened Results
  import opened Locations
  import opened LocLists

  // ---------- The reader ----------

  /** Which side of the rewriting a reader is on: the base address of a unit differs. */
  datatype Side = Old | New

  function UnitBase(u: LocationUpdater, side: Side, offset: nat): Word {
    if side == Old then u.CompileUnitBasesForLoc(offset).0 else u.CompileUnitBasesForLoc(offset).1
  }

  /** The base address that applies to entry i: the last base entry's of its list, or else its unit's. */
  function ReaderBase(locs: seq<Loc>, i: nat, u: LocationUpdater, side: Side): Word
    requires i < |locs|
  {
    if i == 0 then UnitBase(u, side, locs[i].unitOffset)
    else if locs[i - 1].IsNewBase() then locs[i - 1].end
    else if locs[i - 1].IsEndMarker() then UnitBase(u, side, locs[i].unitOffset)
    else ReaderBase(locs, i - 1, u, side)
  }

  /** The addresses a normal entry stands for, the end excluded. */
  function Resolve(locs: seq<Loc>, i: nat, u: LocationUpdater, side: Side): Span
    requires i < |locs|
  {
    var base := ReaderBase(locs, i, u, side);
    Span(Wrap(locs[i].start + base), Wrap(locs[i].end + base))
  }

  // ---------- Bases ----------

  lemma {:induction false} OldBaseIsReaders(locs: seq<Loc>, i: nat, u: LocationUpdater)
    requires i < |locs|
    ensures !BasesAt(locs, i, u).atStart
    ensures BasesAt(locs, i, u).old_ == ReaderBase(locs, i, u, Old)
  {
    hide LocationUpdater.CompileUnitBasesForLoc;
    if i > 0 {
      OldBaseIsReaders(locs, i - 1, u);
    }
  }

  ghost predicate IsUpdate(locs: seq<Loc>, new_: seq<Loc>, u: LocationUpdater) {
    && |new_| == |locs|
    && forall i :: 0 <= i < |locs| ==> UpdatedAt(locs, i, u) == Some(new_[i])
  }

  predicate SameKind(a: Loc, b: Loc) {
    (a.IsNewBase() <==> b.IsNewBase()) && (a.IsNormal() <==> b.IsNormal())
  }

  /** The offsets written for a surviving span are neither an end marker nor the start of a base entry. The source
      guards against (0, 0) only, which it writes as another empty span. */
  predicate OffsetsAreNoMarker(locs: seq<Loc>, i: nat, u: LocationUpdater)
    requires i < |locs|
  {
    var b := BasesAt(locs, i, u);
    locs[i].IsNormal() && Survives(locs[i], b, u) ==>
      var start, end := NewStart(locs[i], b, u) - b.new_, NewEnd(locs[i], b, u) - b.new_;
      end < 0xFFFF_FFFE || 0 < start < 0xFFFF_FFFE
  }

  /** An entry stays a base entry, an end marker or a normal entry exactly when its offsets are no marker. */
  lemma {:induction false} StructureKept(locs: seq<Loc>, new_: seq<Loc>, i: nat, u: LocationUpdater)
    requires IsUpdate(locs, new_, u) && i < |locs|
    ensures SameKind(locs[i], new_[i]) <==> OffsetsAreNoMarker(locs, i, u)
    ensures !locs[i].IsNormal() ==> SameKind(locs[i], new_[i])
    ensures new_[i].unitOffset == locs[i].unitOffset && new_[i].location == locs[i].location
  {
    hide NewStart, NewEnd, NewBaseFor;
    assert UpdatedAt(locs, i, u) == Some(new_[i]);
  }

  /** The first of the normal entries that end just before entry i. */
  function FirstNormal(locs: seq<Loc>, i: nat): (r: nat)
    requires i <= |locs|
    ensures r <= i && (forall k :: r <= k < i ==> locs[k].IsNormal()) && (r > 0 ==> !locs[r - 1].IsNormal())
  {
    if i == 0 || !locs[i - 1].IsNormal() then i else FirstNormal(locs, i - 1)
  }

  /** None of the entries between the base entry or end marker before entry i and entry i becomes a marker. */
  predicate BaseIsSeen(locs: seq<Loc>, i: nat, u: LocationUpdater)
    requires i < |locs|
  {
    forall k :: FirstNormal(locs, i) <= k < i ==> OffsetsAreNoMarker(locs, k, u)
  }

  lemma {:induction false} NewBaseIsReaders(locs: seq<Loc>, new_: seq<Loc>, i: nat, u: LocationUpdater)
    requires IsUpdate(locs, new_, u) && i < |locs| && BaseIsSeen(locs, i, u)
    ensures BasesAt(locs, i, u).new_ == ReaderBase(new_, i, u, New)
  {
    hide LocationUpdater.CompileUnitBasesForLoc, OffsetsAreNoMarker, UpdatedNormal, NewBaseFor;
    StructureKept(locs, new_, i, u);
    if i > 0 {
      StructureKept(locs, new_, i - 1, u);
      OldBaseIsReaders(locs, i - 1, u);
      assert UpdatedAt(locs, i - 1, u) == Some(new_[i - 1]);
      if locs[i - 1].IsNormal() {
        NewBaseIsReaders(locs, new_, i - 1, u);
      }
    }
  }

  // ---------- Meaning ----------

  /** Where the two ends of what entry i stood for are now, when both are somewhere and still in order. */
  ghost function Moved(locs: seq<Loc>, i: nat, u: LocationUpdater): Option<Span>
    requires i < |locs|
  {
    var was := Resolve(locs, i, u, Old);
    var start, end := u.GetNewStart(was.start), u.GetNewEnd(was.end);
    if start != 0 && end != 0 && start <= end then Some(Span(start, end)) else None
  }

  lemma {:induction false} MovedIs(locs: seq<Loc>, i: nat, u: LocationUpdater)
    requires i < |locs|
    ensures var b := BasesAt(locs, i, u);
      Moved(locs, i, u)
      == if Survives(locs[i], b, u) then Some(Span(NewStart(locs[i], b, u), NewEnd(locs[i], b, u))) else None
  {
    hide LocationUpdater.GetNewStart, LocationUpdater.GetNewEnd;
    OldBaseIsReaders(locs, i, u);
  }

  /** A written offset, read against the base it was written for. */
  lemma OffsetReadsBack(base: Word, x: Word)
    requires base <= x
    ensures Wrap(x - base + base) == x
  {
  }

  /** Location-list meaning: a normal entry whose span survives stands for exactly the new span, and every
      other one for the empty span one past the base; so does a surviving one that is empty and at the base, as its
      offsets would be an end marker. */
  lemma {:induction false} LocListMeaning(locs: seq<Loc>, new_: seq<Loc>, i: nat, u: LocationUpdater)
    requires IsUpdate(locs, new_, u) && i < |locs| && locs[i].IsNormal()
    requires BaseIsSeen(locs, i, u) && OffsetsAreNoMarker(locs, i, u)
    ensures new_[i].IsNormal()
    ensures
      var base := ReaderBase(new_, i, u, New);
      var moved := Moved(locs, i, u);
      Resolve(new_, i, u, New)
      == if moved.Some? && moved.value != Span(base, base) then moved.value else Span(Wrap(base + 1), Wrap(base + 1))
  {
    hide LocationUpdater.CompileUnitBasesForLoc, BaseIsSeen, NewStart, NewEnd, Moved, ReaderBase, BasesAt;
    StructureKept(locs, new_, i, u);
    NewBaseIsReaders(locs, new_, i, u);
    MovedIs(locs, i, u);
    var b := BasesAt(locs, i, u);
    assert UpdatedNormal(locs[i], b, u) == Some(new_[i]);
    if Survives(locs[i], b, u) {
      OffsetReadsBack(b.new_, NewStart(locs[i], b, u));
      OffsetReadsBack(b.new_, NewEnd(locs[i], b, u));
    }
  }

  // An expression that is moved to the last address but one, and an entry for it; the unit has no base.
  const TO_THE_TOP := LocationUpdater(
    [Function(0, FuncLocation(1, 2, 13), [(1, Span(10, 12))], [])],
    Layout(map[1 := Span(0xFFFF_FFFE, 0xFFFF_FFFF)], map[], map[0 := FuncLocation(0xFFFF_FF00, 0xFFFF_FF01, 0)]),
      map[], map[])
  const TOP_LIST := [Loc(10, 12, 7, [])]

  lemma TopLists()
    ensures Spans(TO_THE_TOP.functions) == TO_THE_TOP.functions[0].exprs
  {
    assert TO_THE_TOP.functions[..0] == [];
  }

  lemma TopMoves()
    ensures TO_THE_TOP.GetNewStart(10) == 0xFFFF_FFFE && TO_THE_TOP.GetNewEnd(12) == 0xFFFF_FFFF
  {
    TopLists();
    hide Spans, Find, Starts, Ends, FuncAtStart, FuncAtEnd;
    var exprs := TO_THE_TOP.functions[0].exprs;
    assert Starts(exprs)[0] == (10, 1) && Ends(exprs)[0] == (12, 1);
    assert TO_THE_TOP.OldExprStart(10) == Some(1) && TO_THE_TOP.OldExprEnd(12) == Some(1);
  }

  /** A normal entry can become an end marker, which cuts its list. */
  lemma NormalBecomesEnd()
    ensures TOP_LIST[0].IsNormal()
    ensures UpdatedAt(TOP_LIST, 0, TO_THE_TOP) == Some(Loc(0xFFFF_FFFE, 0xFFFF_FFFF, 7, []))
    ensures UpdatedAt(TOP_LIST, 0, TO_THE_TOP).value.IsEndMarker()
  {
    TopMoves();
    hide LocationUpdater.GetNewStart, LocationUpdater.GetNewEnd;
  }

  // ---------- When the assert on the base fails ----------

  /** The base entry, if any, that applies to entry i. */
  ghost function OpenedBy(locs: seq<Loc>, i: nat): Option<nat>
    requires i < |locs|
  {
    if i == 0 then None
    else if locs[i - 1].IsNewBase() then Some(i - 1)
    else if locs[i - 1].IsEndMarker() then None
    else OpenedBy(locs, i - 1)
  }

  lemma {:induction false} OpenedByIs(locs: seq<Loc>, i: nat, u: LocationUpdater)
    requires i < |locs|
    ensures match OpenedBy(locs, i)
            case None => true
            case Some(p) => p < i && locs[p].IsNewBase() && (forall k :: p < k < i ==> locs[k].IsNormal())
                            && !BasesAt(locs, i, u).atStart
                            && BasesAt(locs, i, u).old_ == locs[p].end
                            && BasesAt(locs, i, u).new_ == NewBaseFor(locs, p, u)
  {
    hide LocationUpdater.CompileUnitBasesForLoc, NewBaseFor;
    if i > 0 {
      OpenedByIs(locs, i - 1, u);
    }
  }

  /** The look-ahead sees every start up to the next base or end. */
  lemma {:induction false} SmallestIsSmallest(locs: seq<Loc>, j: nat, i: nat, base: Word, u: LocationUpdater)
    requires j <= i < |locs| && forall k :: j <= k <= i ==> locs[k].IsNormal()
    ensures u.GetNewStart(Wrap(locs[i].start + base)) == 0
         || Smallest(locs, j, base, u) <= u.GetNewStart(Wrap(locs[i].start + base))
    decreases i - j
  {
    hide LocationUpdater.GetNewStart;
    if j < i {
      SmallestIsSmallest(locs, j + 1, i, base, u);
    }
  }

  /** Entry i is relative to the base entry p, and its start survives. */
  ghost predicate Relative(locs: seq<Loc>, p: nat, i: nat, u: LocationUpdater)
    requires p < |locs|
  {
    && p < i < |locs| && (forall k :: p < k <= i ==> locs[k].IsNormal())
    && u.GetNewStart(Wrap(locs[i].start + locs[p].end)) != 0
  }

  lemma {:induction false} SmallestIsReached(locs: seq<Loc>, p: nat, j: nat, u: LocationUpdater) returns (i: nat)
    requires p < j <= |locs| && (forall k :: p < k < j ==> locs[k].IsNormal())
    requires Smallest(locs, j, locs[p].end, u) != 0xFFFF_FFFF
    ensures j <= i && Relative(locs, p, i, u)
    ensures Smallest(locs, j, locs[p].end, u) == u.GetNewStart(Wrap(locs[i].start + locs[p].end))
    decreases |locs| - j
  {
    hide LocationUpdater.GetNewStart;
    var updated := u.GetNewStart(Wrap(locs[j].start + locs[p].end));
    if updated != 0 && updated < Smallest(locs, j + 1, locs[p].end, u) {
      i := j;
    } else {
      i := SmallestIsReached(locs, p, j + 1, u);
    }
  }

  /** The new base of a base entry is the least of the new starts relative to it; zero if there are none, the highest
      address not counting as one. */
  lemma {:induction false} NewBaseIsLeast(locs: seq<Loc>, p: nat, u: LocationUpdater)
    requires p < |locs| && locs[p].IsNewBase()
    ensures forall i: nat :: Relative(locs, p, i, u) ==>
              NewBaseFor(locs, p, u) <= u.GetNewStart(Wrap(locs[i].start + locs[p].end))
    ensures NewBaseFor(locs, p, u) != 0 ==> exists i: nat ::
              Relative(locs, p, i, u) && NewBaseFor(locs, p, u) == u.GetNewStart(Wrap(locs[i].start + locs[p].end))
    ensures NewBaseFor(locs, p, u) == 0 <==> forall i: nat ::
              Relative(locs, p, i, u) ==> u.GetNewStart(Wrap(locs[i].start + locs[p].end)) == 0xFFFF_FFFF
  {
    hide LocationUpdater.GetNewStart, Smallest;
    forall i: nat | Relative(locs, p, i, u)
      ensures NewBaseFor(locs, p, u) <= u.GetNewStart(Wrap(locs[i].start + locs[p].end))
      ensures Smallest(locs, p + 1, locs[p].end, u) <= u.GetNewStart(Wrap(locs[i].start + locs[p].end))
    {
      SmallestIsSmallest(locs, p + 1, i, locs[p].end, u);
    }
    if Smallest(locs, p + 1, locs[p].end, u) != 0xFFFF_FFFF {
      var i := SmallestIsReached(locs, p, p + 1, u);
    }
  }

  /** Where a base entry applies, the assert holds. */
  lemma {:induction false} BaseEntryMakesItSafe(locs: seq<Loc>, i: nat, u: LocationUpdater)
    requires i < |locs| && locs[i].IsNormal() && OpenedBy(locs, i).Some?
    ensures UpdatedAt(locs, i, u).Some?
  {
    hide LocationUpdater.GetNewStart, LocationUpdater.GetNewEnd, BasesAt, Smallest, OpenedBy;
    var p := OpenedBy(locs, i).value;
    OpenedByIs(locs, i, u);
    SmallestIsSmallest(locs, p + 1, i, locs[p].end, u);
  }

  /** The assert fails for exactly those entries that survive, have no base entry in their list before them,
      and now start below the new base of their unit. */
  lemma {:induction false} AssertFailsIff(locs: seq<Loc>, i: nat, u: LocationUpdater)
    requires i < |locs|
    ensures UpdatedAt(locs, i, u).None? <==>
      && locs[i].IsNormal() && OpenedBy(locs, i).None?
      && Moved(locs, i, u).Some?
      && Moved(locs, i, u).value.start < UnitBase(u, New, locs[ListStart(locs, i)].unitOffset)
  {
    hide LocationUpdater.CompileUnitBasesForLoc, NewStart, NewEnd, Moved, BasesAt, NewBaseFor;
    MovedIs(locs, i, u);
    if locs[i].IsNormal() {
      if OpenedBy(locs, i).Some? {
        BaseEntryMakesItSafe(locs, i, u);
      } else {
        UnitBaseApplies(locs, i, u);
      }
    }
  }

  // A unit whose base moves up, past an expression that moves down; and an entry relative to the unit.
  const OVERTAKEN := LocationUpdater(
    [Function(0, FuncLocation(100, 101, 130), [(1, Span(110, 120))], [])],
    Layout(map[1 := Span(150, 160)], map[], map[0 := FuncLocation(200, 201, 230)]), map[7 := 0], map[0 := (100, 200)])
  const BELOW_BASE := [Loc(10, 20, 7, [])]

  lemma {:induction false} OvertakenLists()
    ensures Spans(OVERTAKEN.functions) == OVERTAKEN.functions[0].exprs
  {
    assert OVERTAKEN.functions[..0] == [];
  }

  lemma {:induction false} OvertakenMoves()
    ensures OVERTAKEN.GetNewStart(110) == 150 && OVERTAKEN.GetNewEnd(120) == 160
    ensures UnitBase(OVERTAKEN, Old, 7) == 100 && UnitBase(OVERTAKEN, New, 7) == 200
  {
    OvertakenLists();
    hide Spans, Find, Starts, Ends, FuncAtStart, FuncAtEnd;
    var exprs := OVERTAKEN.functions[0].exprs;
    assert Starts(exprs)[0] == (110, 1) && Ends(exprs)[0] == (120, 1);
    assert OVERTAKEN.OldExprStart(110) == Some(1) && OVERTAKEN.OldExprEnd(120) == Some(1);
  }

  /** The assert is not always met. */
  lemma {:induction false} BaseAssertCanFail()
    ensures UpdatedAt(BELOW_BASE, 0, OVERTAKEN).None?
  {
    OvertakenMoves();
    hide OVERTAKEN, UpdatedAt, UnitBase;
    assert Resolve(BELOW_BASE, 0, OVERTAKEN, Old) == Span(110, 120);
    AssertFailsIff(BELOW_BASE, 0, OVERTAKEN);
    assert ListStart(BELOW_BASE, 0) == 0;
  }

  /** The first entry of the list that entry i is in. */
  function ListStart(locs: seq<Loc>, i: nat): (r: nat)
    requires i < |locs|
    ensures r <= i
  {
    if i == 0 || (locs[i - 1].IsEndMarker() && !locs[i - 1].IsNewBase()) then i else ListStart(locs, i - 1)
  }

  lemma {:induction false} UnitBaseApplies(locs: seq<Loc>, i: nat, u: LocationUpdater)
    requires i < |locs| && OpenedBy(locs, i).None?
    ensures !BasesAt(locs, i, u).atStart
    ensures BasesAt(locs, i, u).old_ == UnitBase(u, Old, locs[ListStart(locs, i)].unitOffset)
    ensures BasesAt(locs, i, u).new_ == UnitBase(u, New, locs[ListStart(locs, i)].unitOffset)
  {
    hide LocationUpdater.CompileUnitBasesForLoc;
    if i > 0 && !locs[i - 1].IsEndMarker() {
      UnitBaseApplies(locs, i - 1, u);
    }
  }

  // ---------- Ranges ----------

  /** Range ends stay where they are and none appears; entries that were invalid are left as they are; a valid one
      covers the addresses between its new ends if both exist, and otherwise stays invalid. */
  lemma {:induction false} RangeEndsKept(r: Range, u: LocationUpdater)
    ensures UpdatedRange(r, u).IsEnd() <==> r.IsEnd()
    ensures
      var now := UpdatedRange(r, u);
      if IsTombstone(r.start) || IsTombstone(r.end) then now == r
      else if IsTombstone(now.start) || IsTombstone(now.end)
      then now == Range(0, 1) && (IsTombstone(u.GetNewStart(r.start)) || IsTombstone(u.GetNewEnd(r.end)))
      else now.start == u.GetNewStart(r.start) && now.end == u.GetNewEnd(r.end)
  {
    hide LocationUpdater.GetNewStart, LocationUpdater.GetNewEnd;
  }

  // ---------- The markers by their values ----------

  /** Section 2.6.2 of DWARF 4, with the values that are taken for zero: an entry whose start is the highest address is
      a base entry; one whose start and end are both zero or one of the two highest addresses ends its list. */
  lemma {:induction false} MarkersByValue(loc: Loc)
    ensures loc.IsNewBase() <==> loc.start == 0xFFFF_FFFF
    ensures !loc.IsNormal() <==>
      || loc.start == 0xFFFF_FFFF
      || (loc.start in {0, 0xFFFF_FFFE} && loc.end in {0, 0xFFFF_FFFE, 0xFFFF_FFFF})
  {
  }

  /** A range list ends at a pair of zeros, and only there. */
  lemma {:induction false} RangeEndByValue(r: Range, u: LocationUpdater)
    ensures r.IsEnd() <==> r == Range(0, 0)
    ensures r.start in {0, 0xFFFF_FFFE, 0xFFFF_FFFF} || r.end in {0, 0xFFFF_FFFE, 0xFFFF_FFFF} ==>
      UpdatedRange(r, u) == r
  {
  }

  /** A reader adds to an entry the end of the base entry before it, and, after the end of a list, the base of its
      unit. */
  lemma {:induction false} ReaderAdds(locs: seq<Loc>, i: nat, u: LocationUpdater, side: Side)
    requires i < |locs|
    ensures i > 0 && locs[i - 1].start == 0xFFFF_FFFF ==>
      Resolve(locs, i, u, side)
      == Span((locs[i].start + locs[i - 1].end) % 0x1_0000_0000, (locs[i].end + locs[i - 1].end) % 0x1_0000_0000)
    ensures i == 0 || (locs[i - 1].start == 0 && locs[i - 1].end == 0) ==>
      Resolve(locs, i, u, side)
      == Span((locs[i].start + UnitBase(u, side, locs[i].unitOffset)) % 0x1_0000_0000,
              (locs[i].end + UnitBase(u, side, locs[i].unitOffset)) % 0x1_0000_0000)
    ensures i > 0 && 0 < locs[i - 1].start < 0xFFFF_FFFE ==>
      ReaderBase(locs, i, u, side) == ReaderBase(locs, i - 1, u, side)
  {
    hide UnitBase;
  }

  /** What is written for a base entry is one. */
  lemma {:induction false} BaseEntryWritten(locs: seq<Loc>, p: nat, u: LocationUpdater)
    requires p < |locs| && locs[p].start == 0xFFFF_FFFF
    ensures UpdatedAt(locs, p, u)
         == Some(Loc(0xFFFF_FFFF, NewBaseFor(locs, p, u), locs[p].unitOffset, locs[p].location))
  {
    hide NewBaseFor, BasesAt;
  }
}
