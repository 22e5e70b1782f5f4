/** The entries of all compile units of wasm-debug.cpp, and the lists that are relative to a unit: the bases that
    rewriting the entries records are those that the lists are rewritten and read against. */
module CompileUnits {
  import opened Words
  import opened Results
  import opened Locations
  import DieRanges
  import LocLists
  import LocMeaning

  // An entry of a unit, as the loop finds it and as a value.
  datatype Entry = Entry(unit: nat, tag: DieRanges.Tag, attrs: array<DieRanges.Attr>)

  datatype Die = Die(unit: nat, tag: DieRanges.Tag, attrs: seq<DieRanges.Attr>)

  function Value(e: Entry): Die
    reads e.attrs
  {
    Die(e.unit, e.tag, e.attrs[..])
  }

  const NONE := DieRanges.Units(map[], map[])

  /** What all entries record, one after the other. */
  function RecordedAll(dies: seq<Die>, u: LocationUpdater): DieRanges.Units {
    if dies == [] then NONE
    else
      var d := dies[|dies| - 1];
      DieRanges.Recorded(d.tag, u, d.unit, RecordedAll(dies[..|dies| - 1], u), d.attrs)
  }

  predicate CanRewrite(d: Die, u: LocationUpdater, lines: map<Word, Word>) {
    forall k :: 0 <= k < |d.attrs| ==> DieRanges.Rewritten(d.tag, u, lines, d.attrs, k).Ok?
  }

  predicate IsRewritten(d: Die, now: seq<DieRanges.Attr>, u: LocationUpdater, lines: map<Word, Word>) {
    && |now| == |d.attrs|
    && forall k :: 0 <= k < |now| ==> DieRanges.Rewritten(d.tag, u, lines, d.attrs, k) == Ok(now[k])
  }

  /** All entries in place; returns what they recorded, or the first fault. */
  method UpdateEntries(entries: seq<Entry>, u: LocationUpdater, lines: map<Word, Word>, ghost dies: seq<Die>)
    returns (r: Result<DieRanges.Units, DieRanges.Fault>)
    requires forall i, j :: 0 <= i < j < |entries| ==> entries[i].attrs != entries[j].attrs
    requires |dies| == |entries| && forall i :: 0 <= i < |entries| ==> dies[i] == Value(entries[i])
    modifies set e | e in entries :: e.attrs
    ensures r.Ok? <==> forall i :: 0 <= i < |dies| ==> CanRewrite(dies[i], u, lines)
    ensures r.Ok? ==> forall i :: 0 <= i < |dies| ==> IsRewritten(dies[i], entries[i].attrs[..], u, lines)
    ensures r.Ok? ==> r.value == RecordedAll(dies, u)
  {
    hide DieRanges.Rewritten, DieRanges.Recorded;
    var units := NONE;
    for i := 0 to |entries|
      invariant forall j :: i <= j < |entries| ==> dies[j] == Value(entries[j])
      invariant forall j :: 0 <= j < i ==> CanRewrite(dies[j], u, lines)
      invariant forall j :: 0 <= j < i ==> IsRewritten(dies[j], entries[j].attrs[..], u, lines)
      invariant units == RecordedAll(dies[..i], u)
    {
      var e := entries[i];
      assert dies[i] == Value(e) && dies[..i + 1][..i] == dies[..i];
      var recorded := DieRanges.UpdateDie(e.tag, e.attrs, u, lines, e.unit, units);
      if recorded.Err? {
        assert !CanRewrite(dies[i], u, lines);
        return Err(recorded.error);
      }
      units := recorded.value;
    }
    assert dies[..|entries|] == dies;
    return Ok(units);
  }

  // ---------- What is recorded ----------

  predicate RecordsList(d: Die, offset: nat) {
    exists a :: a in d.attrs && a.name == DieRanges.Location && a.offsetForm && a.value == offset
  }

  /** The entry of unit n itself, with a low_pc. */
  predicate RecordsBase(d: Die, n: nat) {
    d.tag == DieRanges.CompileUnit && d.unit == n && exists a :: a in d.attrs && a.name == DieRanges.LowPc
  }

  lemma {:induction false} ListsOfEntry(d: Die, u: LocationUpdater, before: DieRanges.Units, offset: nat)
    ensures
      var after := DieRanges.Recorded(d.tag, u, d.unit, before, d.attrs).locToUnit;
      if RecordsList(d, offset) then offset in after && after[offset] == d.unit
      else (offset in after <==> offset in before.locToUnit)
           && (offset in after ==> after[offset] == before.locToUnit[offset])
    decreases |d.attrs|
  {
    if d.attrs != [] {
      var n := |d.attrs| - 1;
      assert d.attrs == d.attrs[..n] + [d.attrs[n]];
      ListsOfEntry(d.(attrs := d.attrs[..n]), u, before, offset);
    }
  }

  lemma {:induction false} BasesOfOthers(d: Die, u: LocationUpdater, before: DieRanges.Units)
    requires d.tag != DieRanges.CompileUnit
    ensures DieRanges.Recorded(d.tag, u, d.unit, before, d.attrs).unitBases == before.unitBases
    decreases |d.attrs|
  {
    if d.attrs != [] {
      BasesOfOthers(d.(attrs := d.attrs[..|d.attrs| - 1]), u, before);
    }
  }

  lemma {:induction false} BasesOfEntry(d: Die, u: LocationUpdater, before: DieRanges.Units, n: nat)
    ensures
      var after := DieRanges.Recorded(d.tag, u, d.unit, before, d.attrs).unitBases;
      if RecordsBase(d, n) then n in after && after[n] == DieRanges.Lows(d.tag, u, d.attrs)
      else (n in after <==> n in before.unitBases) && (n in after ==> after[n] == before.unitBases[n])
  {
    if d.tag == DieRanges.CompileUnit {
      DieRanges.UnitBasesRecorded(u, d.unit, before, d.attrs);
    } else {
      BasesOfOthers(d, u, before);
    }
  }

  /** The last entry that names a list gives it its unit. */
  lemma {:induction false} ListRecorded(dies: seq<Die>, u: LocationUpdater, offset: nat, l: nat)
    requires l < |dies| && RecordsList(dies[l], offset) && forall j :: l < j < |dies| ==> !RecordsList(dies[j], offset)
    ensures offset in RecordedAll(dies, u).locToUnit && RecordedAll(dies, u).locToUnit[offset] == dies[l].unit
    decreases |dies|
  {
    hide RecordsList, DieRanges.Recorded;
    var n := |dies| - 1;
    ListsOfEntry(dies[n], u, RecordedAll(dies[..n], u), offset);
    if l < n {
      ListRecorded(dies[..n], u, offset, l);
    }
  }

  /** The last entry of a unit's own with a low_pc gives it its bases; without one it has none. */
  lemma {:induction false} BaseRecorded(dies: seq<Die>, u: LocationUpdater, n: nat, k: nat)
    requires k < |dies| && RecordsBase(dies[k], n) && forall j :: k < j < |dies| ==> !RecordsBase(dies[j], n)
    ensures n in RecordedAll(dies, u).unitBases
    ensures RecordedAll(dies, u).unitBases[n] == DieRanges.Lows(dies[k].tag, u, dies[k].attrs)
    decreases |dies|
  {
    hide RecordsBase, DieRanges.Recorded, DieRanges.Lows;
    var last := |dies| - 1;
    BasesOfEntry(dies[last], u, RecordedAll(dies[..last], u), n);
    if k < last {
      BaseRecorded(dies[..last], u, n, k);
    }
  }

  lemma {:induction false} NoBaseRecorded(dies: seq<Die>, u: LocationUpdater, n: nat)
    requires forall j :: 0 <= j < |dies| ==> !RecordsBase(dies[j], n)
    ensures n !in RecordedAll(dies, u).unitBases
    decreases |dies|
  {
    hide RecordsBase, DieRanges.Recorded;
    if dies != [] {
      var last := |dies| - 1;
      BasesOfEntry(dies[last], u, RecordedAll(dies[..last], u), n);
      NoBaseRecorded(dies[..last], u, n);
    }
  }

  // ---------- The lists of a unit ----------

  /** The updater with which the lists are rewritten, after all entries. */
  function AfterEntries(dies: seq<Die>, u: LocationUpdater): LocationUpdater {
    u.(locToUnit := RecordedAll(dies, u).locToUnit, unitBases := RecordedAll(dies, u).unitBases)
  }

  lemma {:induction false} LowOfEntry(d: Die, now: seq<DieRanges.Attr>, u: LocationUpdater, lines: map<Word, Word>)
    requires IsRewritten(d, now, u, lines)
    ensures DieRanges.Lows(d.tag, u, d.attrs) == (DieRanges.Low(d.attrs), DieRanges.Low(now))
  {
    hide DieRanges.MapLow, DieRanges.MapHigh, DieRanges.Lows, DieRanges.Low;
    forall k | 0 <= k < |d.attrs|
      ensures DieRanges.First(d.tag, u, lines, d.attrs[k]).Ok? && now[k].name == d.attrs[k].name
      ensures d.attrs[k].name == DieRanges.LowPc ==> Ok(now[k]) == DieRanges.First(d.tag, u, lines, d.attrs[k])
    {
      assert DieRanges.Rewritten(d.tag, u, lines, d.attrs, k) == Ok(now[k]);
    }
    DieRanges.LowMoves(d.tag, u, lines, d.attrs, now);
  }

  /** A list named by an entry of unit n is rewritten against the low_pc that the unit's entry had, and the one it has
      been given. */
  lemma {:induction false} UnitBaseIsLowPc(dies: seq<Die>, u: LocationUpdater, lines: map<Word, Word>, offset: nat,
                                           l: nat, k: nat, now: seq<DieRanges.Attr>)
    requires l < |dies| && RecordsList(dies[l], offset) && forall j :: l < j < |dies| ==> !RecordsList(dies[j], offset)
    requires k < |dies| && RecordsBase(dies[k], dies[l].unit)
    requires forall j :: k < j < |dies| ==> !RecordsBase(dies[j], dies[l].unit)
    requires IsRewritten(dies[k], now, u, lines)
    ensures LocMeaning.UnitBase(AfterEntries(dies, u), LocMeaning.Old, offset) == DieRanges.Low(dies[k].attrs)
    ensures LocMeaning.UnitBase(AfterEntries(dies, u), LocMeaning.New, offset) == DieRanges.Low(now)
  {
    hide RecordsList, RecordsBase, IsRewritten, DieRanges.Low, DieRanges.Lows;
    ListRecorded(dies, u, offset, l);
    BaseRecorded(dies, u, dies[l].unit, k);
    LowOfEntry(dies[k], now, u, lines);
  }

  /** Entries and lists together: in the lists rewritten after the entries, an entry with no base entry before it is
      read, before and after, against the low_pc of its unit, before and after. */
  lemma {:induction false} ListsFollowLowPc(dies: seq<Die>, u: LocationUpdater, lines: map<Word, Word>, l: nat, k: nat,
                                            now: seq<DieRanges.Attr>, locs: seq<LocLists.Loc>, new_: seq<LocLists.Loc>,
                                            i: nat)
    requires i < |locs| && LocMeaning.OpenedBy(locs, i).None?
    requires LocMeaning.IsUpdate(locs, new_, AfterEntries(dies, u))
    requires LocMeaning.BaseIsSeen(locs, i, AfterEntries(dies, u))
    requires
      var offset := locs[LocMeaning.ListStart(locs, i)].unitOffset;
      && l < |dies| && RecordsList(dies[l], offset) && forall j :: l < j < |dies| ==> !RecordsList(dies[j], offset)
    requires k < |dies| && RecordsBase(dies[k], dies[l].unit)
    requires forall j :: k < j < |dies| ==> !RecordsBase(dies[j], dies[l].unit)
    requires IsRewritten(dies[k], now, u, lines)
    ensures LocMeaning.ReaderBase(locs, i, AfterEntries(dies, u), LocMeaning.Old) == DieRanges.Low(dies[k].attrs)
    ensures LocMeaning.ReaderBase(new_, i, AfterEntries(dies, u), LocMeaning.New) == DieRanges.Low(now)
  {
    hide RecordsList, RecordsBase, IsRewritten, AfterEntries, LocMeaning.IsUpdate, LocMeaning.BaseIsSeen;
    hide LocMeaning.UnitBase;
    hide LocMeaning.OpenedBy, LocMeaning.ReaderBase, LocLists.BasesAt;
    var v := AfterEntries(dies, u);
    UnitBaseIsLowPc(dies, u, lines, locs[LocMeaning.ListStart(locs, i)].unitOffset, l, k, now);
    LocMeaning.UnitBaseApplies(locs, i, v);
    LocMeaning.OldBaseIsReaders(locs, i, v);
    LocMeaning.NewBaseIsReaders(locs, new_, i, v);
  }
}
