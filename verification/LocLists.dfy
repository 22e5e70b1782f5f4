/** updateLoc and updateRanges of wasm-debug.cpp: location and range lists (sections 2.6.2 and 2.17.3
    of the DWARF 4 standard) are rewritten in place, entry by entry. */
module LocLists {
  import opened Words
  import opened Results
  import opened Locations

  datatype Loc = Loc(start: Word, end: Word, unitOffset: nat, location: seq<Byte>)
  {
    /** A base entry: its end is the base of the entries after it. */
    predicate IsNewBase() {
      start == 0xFFFF_FFFF
    }

    predicate IsEndMarker() {
      IsTombstone(start) && IsTombstone(end)
    }

    predicate IsNormal() {
      !IsNewBase() && !IsEndMarker()
    }
  }

  const IGNOREABLE_LOCATION: Word := 1

  // ---------- What one list entry becomes ----------

  /** The loop's variables: bases are (old, new). */
  datatype Bases = Bases(atStart: bool, old_: Word, new_: Word)

  /** The bases in force at entry i. */
  function Opened(b: Bases, loc: Loc, u: LocationUpdater): Bases {
    if b.atStart then
      var unit := u.CompileUnitBasesForLoc(loc.unitOffset);
      Bases(false, unit.0, unit.1)
    else b
  }

  /** The look-ahead: the smallest surviving new start among the entries from j up to the next base or end. */
  function Smallest(locs: seq<Loc>, j: nat, base: Word, u: LocationUpdater): (r: Word)
    requires j <= |locs|
    decreases |locs| - j
  {
    if j == |locs| || !locs[j].IsNormal() then 0xFFFF_FFFF
    else
      var rest := Smallest(locs, j + 1, base, u);
      var updated := u.GetNewStart(Wrap(locs[j].start + base));
      if updated != 0 && updated < rest then updated else rest
  }

  function NewBaseFor(locs: seq<Loc>, i: nat, u: LocationUpdater): Word
    requires i < |locs|
  {
    var smallest := Smallest(locs, i + 1, locs[i].end, u);
    if smallest == 0xFFFF_FFFF then 0 else smallest
  }

  /** The bases after entry i. */
  function Advance(locs: seq<Loc>, i: nat, b: Bases, u: LocationUpdater): Bases
    requires i < |locs|
  {
    if locs[i].IsNewBase() then Bases(false, locs[i].end, NewBaseFor(locs, i, u))
    else if locs[i].IsEndMarker() then b.(atStart := true)
    else b
  }

  function NewStart(loc: Loc, b: Bases, u: LocationUpdater): Word {
    u.GetNewStart(Wrap(loc.start + b.old_))
  }

  function NewEnd(loc: Loc, b: Bases, u: LocationUpdater): Word {
    u.GetNewEnd(Wrap(loc.end + b.old_))
  }

  /** The span of a normal entry still has both its ends, in order. */
  predicate Survives(loc: Loc, b: Bases, u: LocationUpdater) {
    NewStart(loc, b, u) != 0 && NewEnd(loc, b, u) != 0 && NewStart(loc, b, u) <= NewEnd(loc, b, u)
  }

  /** None when the assert on the base fails. */
  function UpdatedNormal(loc: Loc, b: Bases, u: LocationUpdater): Option<Loc> {
    if !Survives(loc, b, u) then Some(loc.(start := IGNOREABLE_LOCATION, end := IGNOREABLE_LOCATION))
    else if NewStart(loc, b, u) < b.new_ || NewEnd(loc, b, u) < b.new_ then None
    else
      var start := NewStart(loc, b, u) - b.new_;
      var end := NewEnd(loc, b, u) - b.new_;
      if start == 0 && end == 0 then Some(loc.(start := IGNOREABLE_LOCATION, end := IGNOREABLE_LOCATION))
      else Some(loc.(start := start, end := end))
  }

  function Updated(locs: seq<Loc>, i: nat, b: Bases, u: LocationUpdater): Option<Loc>
    requires i < |locs|
  {
    if locs[i].IsNewBase() then Some(locs[i].(end := NewBaseFor(locs, i, u)))
    else if locs[i].IsEndMarker() then Some(locs[i])
    else UpdatedNormal(locs[i], b, u)
  }

  const AT_START := Bases(true, 0, 0)

  /** The bases in force at entry i, opened if it is the first of its list. */
  function BasesAt(locs: seq<Loc>, i: nat, u: LocationUpdater): Bases
    requires i < |locs|
  {
    Opened(if i == 0 then AT_START else Advance(locs, i - 1, BasesAt(locs, i - 1, u), u), locs[i], u)
  }

  /** Entry i after the loop; None when the assert fails on it. */
  function UpdatedAt(locs: seq<Loc>, i: nat, u: LocationUpdater): Option<Loc>
    requires i < |locs|
  {
    Updated(locs, i, BasesAt(locs, i, u), u)
  }

  // ---------- The loop ----------

  method FindSmallest(locs: array<Loc>, i: nat, base: Word, u: LocationUpdater) returns (smallest: Word)
    requires i < locs.Length
    ensures smallest == Smallest(locs[..], i + 1, base, u)
  {
    hide LocationUpdater.GetNewStart;
    smallest := 0xFFFF_FFFF;
    var j := i + 1;
    ghost var all := locs[..];
    while j < locs.Length
      invariant i + 1 <= j <= locs.Length
      invariant Smallest(all, i + 1, base, u)
             == if Smallest(all, j, base, u) < smallest then Smallest(all, j, base, u) else smallest
    {
      if !locs[j].IsNormal() {
        break;
      }
      var updatedStart := u.GetNewStart(Wrap(locs[j].start + base));
      if updatedStart != 0 && updatedStart < smallest {
        smallest := updatedStart;
      }
      j := j + 1;
    }
  }

  /** The loop's last branch, for a normal entry. */
  method UpdateNormal(loc: Loc, oldBase: Word, newBase: Word, u: LocationUpdater) returns (r: Option<Loc>)
    ensures r == UpdatedNormal(loc, Bases(false, oldBase, newBase), u)
    ensures r.Some? ==> r.value == loc.(start := r.value.start, end := r.value.end)
  {
    hide LocationUpdater.GetNewStart, LocationUpdater.GetNewEnd;
    var newStart := u.GetNewStart(Wrap(loc.start + oldBase));
    var newEnd := u.GetNewEnd(Wrap(loc.end + oldBase));
    if newStart == 0 || newEnd == 0 || newStart > newEnd {
      newStart, newEnd := IGNOREABLE_LOCATION, IGNOREABLE_LOCATION;
    } else {
      if !(newStart >= newBase && newEnd >= newBase) {
        return None;
      }
      newStart, newEnd := newStart - newBase, newEnd - newBase;
      if newStart == 0 && newEnd == 0 {
        newStart, newEnd := IGNOREABLE_LOCATION, IGNOREABLE_LOCATION;
      }
    }
    return Some(loc.(start := newStart, end := newEnd));
  }

  /** Rewrites the entries in place; false when the assert on the base fails. */
  method UpdateLoc(locs: array<Loc>, u: LocationUpdater) returns (ok: bool)
    modifies locs
    ensures ok <==> forall i :: 0 <= i < locs.Length ==>
              UpdatedAt(old(locs[..]), i, u).Some?
    ensures ok ==> forall i :: 0 <= i < locs.Length ==>
              UpdatedAt(old(locs[..]), i, u) == Some(locs[i])
  {
    hide LocationUpdater.CompileUnitBasesForLoc, UpdatedNormal, Smallest, Loc.IsEndMarker, Loc.IsNewBase;
    ghost var was := locs[..];
    var atStart := true;
    var oldBase: Word, newBase: Word := 0, 0;
    for i := 0 to locs.Length
      invariant forall k :: i <= k < locs.Length ==> locs[k] == was[k]
      invariant i == 0 ==> Bases(atStart, oldBase, newBase) == AT_START
      invariant i > 0 ==> Bases(atStart, oldBase, newBase) == Advance(was, i - 1, BasesAt(was, i - 1, u), u)
      invariant forall k :: 0 <= k < i ==> UpdatedAt(was, k, u) == Some(locs[k])
    {
      var loc := locs[i];
      assert loc == was[i];
      if atStart {
        var bases := u.CompileUnitBasesForLoc(loc.unitOffset);
        oldBase, newBase := bases.0, bases.1;
        atStart := false;
      }
      assert Bases(atStart, oldBase, newBase) == BasesAt(was, i, u);
      var newStart, newEnd := loc.start, loc.end;
      if loc.IsNewBase() {
        oldBase, newBase := newEnd, newEnd;
        SmallestDependsOnTail(locs[..], was, i + 1, oldBase, u);
        var smallest := FindSmallest(locs, i, oldBase, u);
        if smallest == 0xFFFF_FFFF {
          smallest := 0;
        }
        newBase, newEnd := smallest, smallest;
      } else if loc.IsEndMarker() {
        atStart := true;
      } else {
        var updated := UpdateNormal(loc, oldBase, newBase, u);
        assert updated == UpdatedAt(was, i, u);
        if updated.None? {
          return false;
        }
        newStart, newEnd := updated.value.start, updated.value.end;
      }
      locs[i] := loc.(start := newStart, end := newEnd);
    }
    return true;
  }

  lemma {:induction false} SmallestDependsOnTail(a: seq<Loc>, b: seq<Loc>, j: nat, base: Word, u: LocationUpdater)
    requires j <= |a| == |b| && forall k :: j <= k < |a| ==> a[k] == b[k]
    ensures Smallest(a, j, base, u) == Smallest(b, j, base, u)
    decreases |a| - j
  {
    hide LocationUpdater.GetNewStart;
    if j < |a| {
      SmallestDependsOnTail(a, b, j + 1, base, u);
    }
  }

  // ---------- Range lists ----------

  datatype Range = Range(start: Word, end: Word)
  {
    predicate IsEnd() {
      start == 0 && end == 0
    }
  }

  function UpdatedRange(r: Range, u: LocationUpdater): Range {
    if IsTombstone(r.start) || IsTombstone(r.end) then r
    else if IsTombstone(u.GetNewStart(r.start)) || IsTombstone(u.GetNewEnd(r.end)) then Range(0, 1)
    else Range(u.GetNewStart(r.start), u.GetNewEnd(r.end))
  }

  method UpdateRanges(ranges: array<Range>, u: LocationUpdater)
    modifies ranges
    ensures forall i :: 0 <= i < ranges.Length ==> ranges[i] == UpdatedRange(old(ranges[i]), u)
  {
    var skip := 0;
    for i := 0 to ranges.Length
      invariant skip == 0
      invariant forall k :: 0 <= k < i ==> ranges[k] == UpdatedRange(old(ranges[k]), u)
      invariant forall k :: i <= k < ranges.Length ==> ranges[k] == old(ranges[k])
    {
      var range := ranges[i];
      var oldStart, oldEnd := range.start, range.end;
      var newStart: Word, newEnd: Word := 0, 0;
      if IsTombstone(oldStart) || IsTombstone(oldEnd) {
        newStart, newEnd := oldStart, oldEnd;
      } else {
        newStart := u.GetNewStart(oldStart);
        newEnd := u.GetNewEnd(oldEnd);
        if IsTombstone(newStart) || IsTombstone(newEnd) {
          newStart, newEnd := 0, 1;
        }
      }
      ranges[i - skip] := Range(newStart, newEnd);
    }
  }
}
