/** What rewritten entries cover, told from the layouts of the old and the new binary. */
module DieMeaning {
  import opened Words
  import opened Results
  import opened Locations
  import opened AddressMaps
  import opened DieRanges

  ghost predicate AllRewritten(tag: Tag, u: LocationUpdater, lines: map<Word, Word>, was: seq<Attr>, now: seq<Attr>) {
    |now| == |was| && forall k :: 0 <= k < |was| ==> Rewritten(tag, u, lines, was, k) == Ok(now[k])
  }

  predicate HasLow(attrs: seq<Attr>) {
    exists a :: a in attrs && a.name == LowPc
  }

  predicate OfFunction(tag: Tag) {
    tag == CompileUnit || tag == Subprogram
  }

  lemma {:induction false} LowIsMapped(tag: Tag, u: LocationUpdater, attrs: seq<Attr>)
    requires HasLow(attrs)
    ensures Lows(tag, u, attrs) == (Low(attrs), MapLow(tag, u, Low(attrs)).GetOr(0))
  {
    hide MapLow;
    var n := |attrs| - 1;
    assert attrs == attrs[..n] + [attrs[n]];
    if attrs[n].name != LowPc {
      LowIsMapped(tag, u, attrs[..n]);
    }
  }

  lemma {:induction false} NewLow(tag: Tag, u: LocationUpdater, lines: map<Word, Word>, was: seq<Attr>, now: seq<Attr>)
    requires AllRewritten(tag, u, lines, was, now) && HasLow(was)
    ensures MapLow(tag, u, Low(was)).GetOr(0) == Low(now)
  {
    hide MapLow, MapHigh, Low, Lows;
    forall k | 0 <= k < |was|
      ensures First(tag, u, lines, was[k]).Ok? && now[k].name == was[k].name
      ensures was[k].name == LowPc ==> Ok(now[k]) == First(tag, u, lines, was[k])
    {
      assert Rewritten(tag, u, lines, was, k) == Ok(now[k]);
    }
    LowMoves(tag, u, lines, was, now);
    LowIsMapped(tag, u, was);
  }

  // ---------- Entries of expressions ----------

  /** A block, call site or label at an expression has the expression's new start as its new low_pc. */
  lemma {:induction false} LowOfExpression(u: LocationUpdater, lines: map<Word, Word>, was: seq<Attr>, now: seq<Attr>,
                                           layout: Layout, e: Expr)
    requires AllRewritten(ExprTag, u, lines, was, now) && HasLow(was)
    requires Describes(u.functions, layout) && DistinctEnds(u.functions)
    requires e in layout.exprs && Low(was) == layout.exprs[e].start
    ensures Low(now) == if e in u.newLocations.exprs then u.newLocations.exprs[e].start else 0
  {
    hide Describes, DistinctEnds, Low, LocationUpdater.GetNewStart;
    NewLow(ExprTag, u, lines, was, now);
    DistinctEndsAre(u.functions);
    StartOfExpr(u, layout, e);
  }

  lemma DistinctEndsAre(functions: seq<Function>)
    requires DistinctEnds(functions)
    ensures DistinctStarts(functions) && UnambiguousEnds(functions)
  {
  }

  /** It may also start with a function, or at a delimiter, if no expression starts there. */
  lemma {:induction false} LowOfOther(u: LocationUpdater, lines: map<Word, Word>, was: seq<Attr>, now: seq<Attr>,
                                      layout: Layout, id: Func, declarations: bool, d: Delimiter)
    requires AllRewritten(ExprTag, u, lines, was, now) && HasLow(was)
    requires Describes(u.functions, layout) && DistinctEnds(u.functions) && !ExprStartsAt(u.functions, Low(was))
    ensures id in layout.funcs && Low(was) == StartOf(layout.funcs[id], declarations) ==>
      Low(now) == if id in u.newLocations.funcs then StartOf(u.newLocations.funcs[id], declarations) else 0
    ensures Low(was) == layout.At(d) != 0 && !FuncStartsAt(u.functions, Low(was)) ==> Low(now) == u.newLocations.At(d)
  {
    hide Low, LocationUpdater.GetNewStart, Describes, StartOf, Layout.At;
    NewLow(ExprTag, u, lines, was, now);
    DistinctEndsAre(u.functions);
    NoExprStart(u.functions, Low(was));
    NoFuncStart(u.functions, Low(was));
    if id in layout.funcs && Low(was) == StartOf(layout.funcs[id], declarations) {
      StartOfFunc(u, layout, id, declarations);
    }
    if Low(was) == layout.At(d) != 0 && !FuncStartsAt(u.functions, Low(was)) {
      StartOfDelimiter(u, layout, d);
    }
  }

  /** An entry of an expression tag that covers an expression covers it after, at its new span; or, when it has been
      removed, nothing. */
  lemma {:induction false} ExpressionIsCovered(u: LocationUpdater, lines: map<Word, Word>, was: seq<Attr>,
                                               now: seq<Attr>, layout: Layout, e: Expr, j: nat)
    requires AllRewritten(ExprTag, u, lines, was, now) && HasLow(was) && j < |was| && was[j].name == HighPc
    requires Describes(u.functions, layout) && DistinctEnds(u.functions)
    requires e in layout.exprs && layout.exprs[e] == Span(Low(was), HighEnd(was, j))
    ensures now[j].name == HighPc
    ensures Span(Low(now), HighEnd(now, j)) == if e in u.newLocations.exprs then u.newLocations.exprs[e] else Span(0, 0)
  {
    LowOfExpression(u, lines, was, now, layout, e);
    EntryRangeMoves(ExprTag, u, lines, was, now, j);
    ExprEndIs(u, layout, e);
  }

  lemma {:induction false} ExprEndIs(u: LocationUpdater, layout: Layout, e: Expr)
    requires Describes(u.functions, layout) && DistinctEnds(u.functions) && e in layout.exprs
    ensures u.GetNewExprEnd(layout.exprs[e].end) == if e in u.newLocations.exprs then u.newLocations.exprs[e].end else 0
  {
    var spans := Spans(u.functions);
    var i :| 0 <= i < |spans| && spans[i] == (e, layout.exprs[e]);
    assert Ends(spans)[i] == (layout.exprs[e].end, e);
    FindIs(Ends(spans), layout.exprs[e].end, e);
  }

  /** Where no expression ends, it ends nowhere, even if a function does end there. */
  lemma {:induction false} NoExpressionEnds(u: LocationUpdater, lines: map<Word, Word>, was: seq<Attr>, now: seq<Attr>,
                                            j: nat)
    requires AllRewritten(ExprTag, u, lines, was, now) && j < |was| && was[j].name == HighPc
    requires !ExprEndsAt(u.functions, HighEnd(was, j))
    ensures now[j].name == HighPc && HighEnd(now, j) == 0
  {
    EntryRangeMoves(ExprTag, u, lines, was, now, j);
    NoExprEnd(u.functions, HighEnd(was, j));
  }

  // ---------- Entries of functions and units ----------

  lemma {:induction false} FuncStartIs(u: LocationUpdater, layout: Layout, id: Func, declarations: bool)
    requires Describes(u.functions, layout) && DistinctEnds(u.functions) && id in layout.funcs
    ensures u.GetNewFuncStart(StartOf(layout.funcs[id], declarations))
         == if id in u.newLocations.funcs then StartOf(u.newLocations.funcs[id], declarations) else 0
  {
    var addr := StartOf(layout.funcs[id], declarations);
    var f :| f in u.functions && f.id == id;
    assert StartsAt(f, addr) && FuncStartsAt(u.functions, addr);
    NoFuncStart(u.functions, addr);
    var g := FuncAtStart(u.functions, addr).value;
    assert StartsAt(g, addr);
  }

  lemma {:induction false} FuncEndIs(u: LocationUpdater, layout: Layout, id: Func, onePast: bool)
    requires Describes(u.functions, layout) && DistinctEnds(u.functions) && id in layout.funcs
    ensures u.GetNewFuncEnd(EndOf(layout.funcs[id], onePast))
         == if id in u.newLocations.funcs then EndOf(u.newLocations.funcs[id], onePast) else 0
  {
    var addr := EndOf(layout.funcs[id], onePast);
    var f :| f in u.functions && f.id == id;
    assert EndsAt(f, addr);
    NoFuncEnd(u.functions, addr);
    var g := FuncAtEnd(u.functions, addr).value;
    assert EndsAt(g, addr);
    assert layout.funcs[id] == g.loc;
  }

  /** A subprogram or a unit that starts with one function and ends with the same or another one does so after, whatever
      expressions are at these addresses. */
  lemma {:induction false} FunctionsAreCovered(tag: Tag, u: LocationUpdater, lines: map<Word, Word>, was: seq<Attr>,
                                               now: seq<Attr>, layout: Layout, first: Func, last: Func, j: nat)
    requires OfFunction(tag) && AllRewritten(tag, u, lines, was, now) && HasLow(was)
    requires j < |was| && was[j].name == HighPc
    requires Describes(u.functions, layout) && DistinctEnds(u.functions)
    requires first in layout.funcs && layout.funcs[first].start == Low(was)
    requires last in layout.funcs && layout.funcs[last].end == HighEnd(was, j)
    ensures now[j].name == HighPc
    ensures Low(now) == if first in u.newLocations.funcs then u.newLocations.funcs[first].start else 0
    ensures HighEnd(now, j) == if last in u.newLocations.funcs then u.newLocations.funcs[last].end else 0
  {
    hide Low, Lows, LocationUpdater.GetNewFuncStart, LocationUpdater.GetNewFuncEnd, Describes, DistinctEnds;
    NewLow(tag, u, lines, was, now);
    FuncStartIs(u, layout, first, false);
    EntryRangeMoves(tag, u, lines, was, now, j);
    FuncEndIs(u, layout, last, true);
  }

  /** Where no function starts or ends, it starts or ends nowhere, even if an expression does there. */
  lemma {:induction false} NoFunctionThere(tag: Tag, u: LocationUpdater, lines: map<Word, Word>, was: seq<Attr>,
                                           now: seq<Attr>, j: nat)
    requires OfFunction(tag) && AllRewritten(tag, u, lines, was, now)
    ensures HasLow(was) && !FuncStartsAt(u.functions, Low(was)) ==> Low(now) == 0
    ensures j < |was| && was[j].name == HighPc && !FuncEndsAt(u.functions, HighEnd(was, j)) ==>
      now[j].name == HighPc && HighEnd(now, j) == 0
  {
    hide Low, Lows;
    if HasLow(was) {
      NewLow(tag, u, lines, was, now);
      NoFuncStart(u.functions, Low(was));
    }
    if j < |was| && was[j].name == HighPc {
      EntryRangeMoves(tag, u, lines, was, now, j);
      NoFuncEnd(u.functions, HighEnd(was, j));
    }
  }

  // ---------- The other attributes, and the faults ----------

  /** Nothing but these three attributes changes, and an offset into the line section becomes the table's new one. */
  lemma {:induction false} OtherAttributes(tag: Tag, u: LocationUpdater, lines: map<Word, Word>, was: seq<Attr>,
                                           now: seq<Attr>, k: nat)
    requires AllRewritten(tag, u, lines, was, now) && k < |was|
    ensures now[k].name == was[k].name && now[k].offsetForm == was[k].offsetForm
    ensures was[k].name == StmtList ==> was[k].value in lines && now[k].value == lines[was[k].value]
    ensures was[k].name == Location || was[k].name == OtherName ==> now[k] == was[k]
  {
    hide MapLow, MapHigh, Lows;
    assert Rewritten(tag, u, lines, was, k) == Ok(now[k]);
  }

  /** Rewriting an entry fails exactly when a tag that has no addresses has one, or a line table is unknown. */
  lemma {:induction false} FaultsIff(tag: Tag, u: LocationUpdater, lines: map<Word, Word>, was: seq<Attr>, k: nat)
    requires k < |was|
    ensures Rewritten(tag, u, lines, was, k).Err? <==>
      || (tag == OtherTag && (was[k].name == LowPc || was[k].name == HighPc))
      || (was[k].name == StmtList && was[k].value !in lines)
    ensures Rewritten(tag, u, lines, was, k).Err? ==>
      Rewritten(tag, u, lines, was, k).error == if was[k].name == StmtList then UnknownLineTable else UnknownTag
  {
    hide Lows, LocationUpdater.GetNewStart, LocationUpdater.GetNewFuncStart, LocationUpdater.GetNewExprEnd;
    hide LocationUpdater.GetNewFuncEnd;
  }
}
