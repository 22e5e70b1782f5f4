/** updateDIE of wasm-debug.cpp: the addresses of one debug-info entry (sections 2.17.2 and 7.5 of the
    DWARF 4 standard), whose high_pc may be an offset from a low_pc that comes after it. */
module DieRanges {
  import opened Words
  import opened Results
  import opened Locations

  // ExprTag: call sites, inlined subroutines, lexical blocks and labels.
  datatype Tag = ExprTag | CompileUnit | Subprogram | OtherTag

  datatype Name = LowPc | HighPc | StmtList | Location | OtherName

  // `offsetForm` is the form data4 of a high_pc, or sec_offset of a location.
  datatype Attr = Attr(name: Name, offsetForm: bool, value: Word)

  datatype Fault = UnknownTag | UnknownLineTable

  // ---------- One attribute ----------

  function MapLow(tag: Tag, u: LocationUpdater, low: Word): Option<Word> {
    match tag
    case ExprTag => Some(u.GetNewStart(low))
    case CompileUnit => Some(u.GetNewFuncStart(low))
    case Subprogram => Some(u.GetNewFuncStart(low))
    case OtherTag => None
  }

  function MapHigh(tag: Tag, u: LocationUpdater, high: Word): Option<Word> {
    match tag
    case ExprTag => Some(u.GetNewExprEnd(high))
    case CompileUnit => Some(u.GetNewFuncEnd(high))
    case Subprogram => Some(u.GetNewFuncEnd(high))
    case OtherTag => None
  }

  /** The first pass changes everything but high_pc. */
  function First(tag: Tag, u: LocationUpdater, lines: map<Word, Word>, a: Attr): Result<Attr, Fault> {
    if a.name == LowPc then
      (match MapLow(tag, u, a.value) case Some(v) => Ok(a.(value := v)) case None => Err(UnknownTag))
    else if a.name == StmtList then
      (if a.value in lines then Ok(a.(value := lines[a.value])) else Err(UnknownLineTable))
    else Ok(a)
  }

  /** The second pass changes high_pc, by then knowing the old and the new low_pc. */
  function Second(tag: Tag, u: LocationUpdater, oldLow: Word, newLow: Word, a: Attr): Result<Attr, Fault> {
    if a.name != HighPc then Ok(a)
    else
      match MapHigh(tag, u, if a.offsetForm then Wrap(a.value + oldLow) else a.value)
      case Some(v) => Ok(a.(value := if a.offsetForm then Wrap(v - newLow) else v))
      case None => Err(UnknownTag)
  }

  /** The last low_pc, old and new, or zeros. */
  function Lows(tag: Tag, u: LocationUpdater, attrs: seq<Attr>): UnitBases {
    if attrs == [] then (0, 0)
    else
      var a := attrs[|attrs| - 1];
      if a.name == LowPc then (a.value, MapLow(tag, u, a.value).GetOr(0)) else Lows(tag, u, attrs[..|attrs| - 1])
  }

  function Rewritten(tag: Tag, u: LocationUpdater, lines: map<Word, Word>, attrs: seq<Attr>,
                     i: nat): Result<Attr, Fault>
    requires i < |attrs|
  {
    var a :- First(tag, u, lines, attrs[i]);
    Second(tag, u, Lows(tag, u, attrs).0, Lows(tag, u, attrs).1, a)
  }

  // What the entries before have recorded: the unit of each location list, and each unit's old and new base.
  datatype Units = Units(locToUnit: map<nat, nat>, unitBases: map<nat, UnitBases>)

  /** What the first pass over an entry of a unit records. */
  function Recorded(tag: Tag, u: LocationUpdater, unit: nat, units: Units, attrs: seq<Attr>): Units {
    if attrs == [] then units
    else
      var before := Recorded(tag, u, unit, units, attrs[..|attrs| - 1]);
      var a := attrs[|attrs| - 1];
      if a.name == LowPc && tag == CompileUnit then
        before.(unitBases := before.unitBases[unit := (a.value, MapLow(tag, u, a.value).GetOr(0))])
      else if a.name == Location && a.offsetForm then before.(locToUnit := before.locToUnit[a.value := unit])
      else before
  }

  // ---------- The two passes ----------

  method FirstPass(tag: Tag, attrs: array<Attr>, u: LocationUpdater, lines: map<Word, Word>, unit: nat, before: Units)
    returns (r: Result<(UnitBases, Units), Fault>)
    modifies attrs
    ensures r.Ok? <==> forall i :: 0 <= i < attrs.Length ==> First(tag, u, lines, old(attrs[i])).Ok?
    ensures r.Ok? ==> forall i :: 0 <= i < attrs.Length ==> First(tag, u, lines, old(attrs[i])) == Ok(attrs[i])
    ensures r.Ok? ==> r.value == (Lows(tag, u, old(attrs[..])), Recorded(tag, u, unit, before, old(attrs[..])))
  {
    hide MapLow;
    ghost var was := attrs[..];
    var lows: UnitBases := (0, 0);
    var units := before;
    for i := 0 to attrs.Length
      invariant forall k :: i <= k < attrs.Length ==> attrs[k] == old(attrs[k])
      invariant forall k :: 0 <= k < i ==> First(tag, u, lines, old(attrs[k])) == Ok(attrs[k])
      invariant lows == Lows(tag, u, was[..i]) && units == Recorded(tag, u, unit, before, was[..i])
    {
      assert was[..i + 1][..i] == was[..i];
      var a := attrs[i];
      assert a == old(attrs[i]);
      if a.name == LowPc {
        var newValue := MapLow(tag, u, a.value);
        if newValue.None? {
          return Err(UnknownTag);
        }
        lows := (a.value, newValue.value);
        if tag == CompileUnit {
          units := units.(unitBases := units.unitBases[unit := lows]);
        }
        attrs[i] := a.(value := newValue.value);
      } else if a.name == StmtList {
        if a.value !in lines {
          return Err(UnknownLineTable);
        }
        attrs[i] := a.(value := lines[a.value]);
      } else if a.name == Location && a.offsetForm {
        units := units.(locToUnit := units.locToUnit[a.value := unit]);
      }
    }
    assert was[..attrs.Length] == was;
    return Ok((lows, units));
  }

  method SecondPass(tag: Tag, attrs: array<Attr>, u: LocationUpdater, oldLowPC: Word, newLowPC: Word)
    returns (r: Option<Fault>)
    modifies attrs
    ensures r.None? <==> forall i :: 0 <= i < attrs.Length ==> Second(tag, u, oldLowPC, newLowPC, old(attrs[i])).Ok?
    ensures r.None? ==> forall i :: 0 <= i < attrs.Length ==>
              Second(tag, u, oldLowPC, newLowPC, old(attrs[i])) == Ok(attrs[i])
  {
    hide MapHigh;
    for i := 0 to attrs.Length
      invariant forall k :: i <= k < attrs.Length ==> attrs[k] == old(attrs[k])
      invariant forall k :: 0 <= k < i ==> Second(tag, u, oldLowPC, newLowPC, old(attrs[k])) == Ok(attrs[k])
    {
      var a := attrs[i];
      assert a == old(attrs[i]);
      if a.name == HighPc {
        var oldValue := if a.offsetForm then Wrap(a.value + oldLowPC) else a.value;
        var newValue := MapHigh(tag, u, oldValue);
        if newValue.None? {
          return Some(UnknownTag);
        }
        attrs[i] := a.(value := if a.offsetForm then Wrap(newValue.value - newLowPC) else newValue.value);
      }
    }
    return None;
  }

  /** Rewrites the attributes in place, and returns what is recorded for the lists and the units. */
  method UpdateDie(tag: Tag, attrs: array<Attr>, u: LocationUpdater, lines: map<Word, Word>, unit: nat, before: Units)
    returns (r: Result<Units, Fault>)
    modifies attrs
    ensures r.Ok? <==> forall i :: 0 <= i < attrs.Length ==> Rewritten(tag, u, lines, old(attrs[..]), i).Ok?
    ensures r.Ok? ==> forall i :: 0 <= i < attrs.Length ==> Rewritten(tag, u, lines, old(attrs[..]), i) == Ok(attrs[i])
    ensures r.Ok? ==> r.value == Recorded(tag, u, unit, before, old(attrs[..]))
  {
    hide First, Second;
    ghost var was := attrs[..];
    var first := FirstPass(tag, attrs, u, lines, unit, before);
    if first.Err? {
      ghost var i :| 0 <= i < |was| && First(tag, u, lines, was[i]).Err?;
      assert Rewritten(tag, u, lines, was, i).Err?;
      return Err(first.error);
    }
    ghost var mid := attrs[..];
    forall i | 0 <= i < |was|
      ensures Rewritten(tag, u, lines, was, i) == Second(tag, u, first.value.0.0, first.value.0.1, mid[i])
    {
      assert First(tag, u, lines, was[i]) == Ok(mid[i]);
    }
    var second := SecondPass(tag, attrs, u, first.value.0.0, first.value.0.1);
    return if second.Some? then Err(second.value) else Ok(first.value.1);
  }

  // ---------- What an entry means ----------

  /** The value of the last low_pc. */
  function Low(attrs: seq<Attr>): Word {
    if attrs == [] then 0
    else if attrs[|attrs| - 1].name == LowPc then attrs[|attrs| - 1].value
    else Low(attrs[..|attrs| - 1])
  }

  /** The end of the addresses an entry covers, as its reader computes it. */
  function HighEnd(attrs: seq<Attr>, j: nat): Word
    requires j < |attrs| && attrs[j].name == HighPc
  {
    if attrs[j].offsetForm then Wrap(Low(attrs) + attrs[j].value) else attrs[j].value
  }

  /** The rewritten attributes have the new low_pc that the second pass was given. */
  lemma {:induction false} LowMoves(tag: Tag, u: LocationUpdater, lines: map<Word, Word>, was: seq<Attr>,
                                    now: seq<Attr>)
    requires |now| == |was|
    requires forall k :: 0 <= k < |was| ==>
      First(tag, u, lines, was[k]).Ok? && now[k].name == was[k].name
      && (was[k].name == LowPc ==> Ok(now[k]) == First(tag, u, lines, was[k]))
    ensures Lows(tag, u, was) == (Low(was), Low(now))
  {
    hide MapLow;
    if was != [] {
      var n := |was| - 1;
      assert First(tag, u, lines, was[n]).Ok?;
      LowMoves(tag, u, lines, was[..n], now[..n]);
    }
  }

  /** Whatever the order of the attributes and the form of the high_pc, the rewritten entry ends where its old end
      is now: relative to the new low_pc if it was relative to the old one. */
  lemma {:induction false} EntryRangeMoves(tag: Tag, u: LocationUpdater, lines: map<Word, Word>, was: seq<Attr>,
                                           now: seq<Attr>, j: nat)
    requires |now| == |was| && forall k :: 0 <= k < |was| ==> Rewritten(tag, u, lines, was, k) == Ok(now[k])
    requires j < |was| && was[j].name == HighPc
    ensures now[j].name == HighPc
    ensures Lows(tag, u, was) == (Low(was), Low(now))
    ensures MapHigh(tag, u, HighEnd(was, j)) == Some(HighEnd(now, j))
  {
    hide MapLow, MapHigh, Low, Lows;
    forall k | 0 <= k < |was|
      ensures First(tag, u, lines, was[k]).Ok? && now[k].name == was[k].name
      ensures was[k].name == LowPc ==> Ok(now[k]) == First(tag, u, lines, was[k])
    {
      assert Rewritten(tag, u, lines, was, k) == Ok(now[k]);
    }
    LowMoves(tag, u, lines, was, now);
    assert Rewritten(tag, u, lines, was, j) == Ok(now[j]);
    if was[j].offsetForm {
      WrapSubAdd(Low(now), MapHigh(tag, u, HighEnd(was, j)).value);
    }
  }

  /** A compile unit with a low_pc has its bases recorded, those its attributes have before and after; one without has
      none recorded. */
  lemma {:induction false} UnitBasesRecorded(u: LocationUpdater, unit: nat, before: Units, attrs: seq<Attr>)
    ensures
      Recorded(CompileUnit, u, unit, before, attrs).unitBases
      == if exists a :: a in attrs && a.name == LowPc then before.unitBases[unit := Lows(CompileUnit, u, attrs)]
         else before.unitBases
  {
    if attrs != [] {
      UnitBasesRecorded(u, unit, before, attrs[..|attrs| - 1]);
      assert attrs == attrs[..|attrs| - 1] + [attrs[|attrs| - 1]];
    }
  }
}
