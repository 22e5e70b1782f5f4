/** What the address maps of wasm-debug.cpp do over more than one rewriting of a binary. */
module AddressMaps {
  import opened Words
  import opened Results
  import opened Locations

  /** The functions, as read back from a binary, are those written with this layout. */
  ghost predicate Describes(functions: seq<Function>, layout: Layout) {
    && (forall p :: p in Spans(functions) ==> p.0 in layout.exprs && layout.exprs[p.0] == p.1)
    && (forall e :: e in layout.exprs ==> (e, layout.exprs[e]) in Spans(functions))
    && (forall p :: p in Delimiters(functions) ==> p.0 != 0 && layout.At(p.1) == p.0)
    && (forall d :: layout.At(d) != 0 ==> (layout.At(d), d) in Delimiters(functions))
    && (forall f :: f in functions ==> f.id in layout.funcs && layout.funcs[f.id] == f.loc)
    && (forall id :: id in layout.funcs ==> exists f :: f in functions && f.id == id)
  }

  ghost predicate ExprStartsAt(functions: seq<Function>, addr: Word) {
    exists p :: p in Spans(functions) && p.1.start == addr
  }

  ghost predicate DelimiterAt(functions: seq<Function>, addr: Word) {
    exists p :: p in Delimiters(functions) && p.0 == addr
  }

  predicate StartsAt(f: Function, addr: Word) {
    f.loc.start == addr || f.loc.declarations == addr
  }

  ghost predicate FuncStartsAt(functions: seq<Function>, addr: Word) {
    exists f :: f in functions && StartsAt(f, addr)
  }

  /** One thing of each kind at most starts at an address, and nothing does at address zero. */
  ghost predicate DistinctStarts(functions: seq<Function>) {
    && Injective(functions)
    && (forall f, g, a: Word :: f in functions && g in functions && StartsAt(f, a) && StartsAt(g, a) ==> f.id == g.id)
    && (forall f :: f in functions ==> f.loc.start != f.loc.declarations)
    && !ExprStartsAt(functions, 0) && !FuncStartsAt(functions, 0)
  }

  /** One thing at most starts at an address, and nothing does at address zero. */
  ghost predicate UnambiguousStarts(functions: seq<Function>) {
    && DistinctStarts(functions)
    && (forall a: Word :: ExprStartsAt(functions, a) ==> !FuncStartsAt(functions, a) && !DelimiterAt(functions, a))
    && (forall a: Word :: FuncStartsAt(functions, a) ==> !DelimiterAt(functions, a))
  }

  /** Whatever the middle layout has dropped, the last one lacks too. */
  ghost predicate NothingReinstated(middle: Layout, last: Layout) {
    && last.exprs.Keys <= middle.exprs.Keys
    && last.funcs.Keys <= middle.funcs.Keys
    && forall d :: middle.At(d) == 0 ==> last.At(d) == 0
  }

  // ---------- Lookups in an unambiguous binary ----------

  lemma {:induction false} FindIs<V>(entries: seq<(Word, V)>, key: Word, value: V)
    requires DistinctKeys(entries) && (key, value) in entries
    ensures Find(entries, key) == Some(value)
  {
    var i :| 0 <= i < |entries| && entries[i] == (key, value);
    var v := Find(entries, key).value;
    var j :| 0 <= j < |entries| && entries[j] == (key, v);
  }

  lemma {:induction false} NoExprStart(functions: seq<Function>, addr: Word)
    ensures Find(Starts(Spans(functions)), addr).Some? <==> ExprStartsAt(functions, addr)
  {
    var spans := Spans(functions);
    if Find(Starts(spans), addr).Some? {
      var i :| 0 <= i < |spans| && Starts(spans)[i].0 == addr;
      assert spans[i] in spans;
    }
    if ExprStartsAt(functions, addr) {
      var p :| p in spans && p.1.start == addr;
      var i :| 0 <= i < |spans| && spans[i] == p;
      assert Starts(spans)[i].0 == addr;
    }
  }

  lemma {:induction false} NoDelimiter(functions: seq<Function>, addr: Word)
    ensures Find(Delimiters(functions), addr).Some? <==> DelimiterAt(functions, addr)
  {
    var entries := Delimiters(functions);
    if DelimiterAt(functions, addr) {
      var p :| p in entries && p.0 == addr;
      var i :| 0 <= i < |entries| && entries[i] == p;
    }
  }

  lemma {:induction false} NoFuncStart(functions: seq<Function>, addr: Word)
    ensures FuncAtStart(functions, addr).Some? <==> FuncStartsAt(functions, addr)
  {
    match FuncAtStart(functions, addr) {
      case Some(f) => assert StartsAt(f, addr);
      case None =>
    }
  }

  /** getNewStart of where an expression starts. */
  lemma {:induction false} StartOfExpr(u: LocationUpdater, layout: Layout, e: Expr)
    requires Describes(u.functions, layout) && DistinctStarts(u.functions) && e in layout.exprs
    ensures u.GetNewStart(layout.exprs[e].start)
         == if e in u.newLocations.exprs then u.newLocations.exprs[e].start else 0
  {
    var spans := Spans(u.functions);
    var i :| 0 <= i < |spans| && spans[i] == (e, layout.exprs[e]);
    assert Starts(spans)[i] == (layout.exprs[e].start, e);
    FindIs(Starts(spans), layout.exprs[e].start, e);
  }

  function StartOf(loc: FuncLocation, declarations: bool): Word {
    if declarations then loc.declarations else loc.start
  }

  /** getNewStart of where a function starts, by either of its two starts, if no expression starts there. */
  lemma {:induction false} StartOfFunc(u: LocationUpdater, layout: Layout, id: Func, declarations: bool)
    requires Describes(u.functions, layout) && DistinctStarts(u.functions) && id in layout.funcs
    requires u.OldExprStart(StartOf(layout.funcs[id], declarations)).None?
    ensures u.GetNewStart(StartOf(layout.funcs[id], declarations))
         == if id in u.newLocations.funcs then StartOf(u.newLocations.funcs[id], declarations) else 0
  {
    var addr := StartOf(layout.funcs[id], declarations);
    var f :| f in u.functions && f.id == id;
    assert StartsAt(f, addr) && FuncStartsAt(u.functions, addr);
    NoFuncStart(u.functions, addr);
    var g := FuncAtStart(u.functions, addr).value;
    assert StartsAt(g, addr);
  }

  lemma {:induction false} StartOfDelimiter(u: LocationUpdater, layout: Layout, d: Delimiter)
    requires Describes(u.functions, layout) && DistinctStarts(u.functions) && layout.At(d) != 0
    requires u.OldExprStart(layout.At(d)).None? && FuncAtStart(u.functions, layout.At(d)).None?
    ensures u.GetNewStart(layout.At(d)) == u.newLocations.At(d)
  {
    FindIs(Delimiters(u.functions), layout.At(d), d);
  }

  /** An address at which nothing stood is mapped to zero. */
  lemma {:induction false} StartOfNothing(u: LocationUpdater, addr: Word)
    requires !ExprStartsAt(u.functions, addr) && !FuncStartsAt(u.functions, addr) && !DelimiterAt(u.functions, addr)
    ensures u.GetNewStart(addr) == 0
  {
    NoExprStart(u.functions, addr);
    NoDelimiter(u.functions, addr);
    NoFuncStart(u.functions, addr);
  }

  // ---------- Composition ----------

  /** What starts at an old address keeps its kind: where it now starts, no expression starts unless it is one,
      and no function starts if it is a delimiter. */
  ghost predicate StartKeepsKind(first: LocationUpdater, second: LocationUpdater, addr: Word) {
    var moved := first.GetNewStart(addr);
    || moved == 0
    || first.OldExprStart(addr).Some?
    || (&& second.OldExprStart(moved).None?
        && (FuncAtStart(first.functions, addr).Some? || FuncAtStart(second.functions, moved).None?))
  }

  lemma {:induction false} NoStartAtZero(u: LocationUpdater, layout: Layout)
    requires Describes(u.functions, layout) && DistinctStarts(u.functions)
    ensures u.GetNewStart(0) == 0
  {
    NoExprStart(u.functions, 0);
    NoFuncStart(u.functions, 0);
    NoDelimiter(u.functions, 0);
  }

  /** Start addresses compose where the thing that starts is not shadowed by another kind on the way. */
  lemma {:induction false} StartComposes(first: LocationUpdater, second: LocationUpdater, last: Layout, addr: Word)
    requires Describes(second.functions, first.newLocations) && DistinctStarts(second.functions)
    requires NothingReinstated(first.newLocations, last) && StartKeepsKind(first, second, addr)
    ensures StartsCompose(first, second, last, addr)
  {
    var middle := first.newLocations;
    var onward := second.(newLocations := last);
    NoStartAtZero(onward, middle);
    if first.OldExprStart(addr).Some? {
      var e := first.OldExprStart(addr).value;
      if e in middle.exprs {
        StartOfExpr(onward, middle, e);
      }
    } else if FuncAtStart(first.functions, addr).Some? {
      var f := FuncAtStart(first.functions, addr).value;
      if f.id in middle.funcs && first.GetNewStart(addr) != 0 {
        StartOfFunc(onward, middle, f.id, addr != f.loc.start);
      }
    } else if first.OldDelimiter(addr).Some? {
      var d := first.OldDelimiter(addr).value;
      if middle.At(d) != 0 {
        StartOfDelimiter(onward, middle, d);
      }
    }
  }

  /** Following a start address by way of the middle layout, and directly. */
  predicate StartsCompose(first: LocationUpdater, second: LocationUpdater, last: Layout, addr: Word) {
    second.(newLocations := last).GetNewStart(first.GetNewStart(addr)) == first.(newLocations := last).GetNewStart(addr)
  }

  /** A start address composes with every later rewriting that reinstates nothing exactly when it keeps its kind. */
  lemma {:induction false} StartsComposeIff(first: LocationUpdater, second: LocationUpdater, addr: Word)
    requires Describes(second.functions, first.newLocations) && DistinctStarts(second.functions)
    ensures StartKeepsKind(first, second, addr) <==>
      forall last: Layout :: NothingReinstated(first.newLocations, last) ==> StartsCompose(first, second, last, addr)
  {
    hide Describes, DistinctStarts, StartsCompose;
    if StartKeepsKind(first, second, addr) {
      forall last: Layout | NothingReinstated(first.newLocations, last)
        ensures StartsCompose(first, second, last, addr)
      {
        StartComposes(first, second, last, addr);
      }
    } else {
      var last := StartShadowRemoved(first, second, addr);
      assert !StartsCompose(first, second, last, addr);
    }
  }

  lemma {:induction false} StartShadowRemoved(first: LocationUpdater, second: LocationUpdater, addr: Word)
    returns (last: Layout)
    requires !StartKeepsKind(first, second, addr)
    ensures NothingReinstated(first.newLocations, last) && !StartsCompose(first, second, last, addr)
  {
    var middle := first.newLocations;
    var moved := first.GetNewStart(addr);
    if second.OldExprStart(moved).Some? {
      last := WithoutExpr(middle, second.OldExprStart(moved).value);
    } else {
      last := WithoutFunc(middle, FuncAtStart(second.functions, moved).value.id);
    }
    assert second.(newLocations := last).GetNewStart(moved) == 0;
    assert first.(newLocations := last).GetNewStart(addr) == moved;
  }

  /** In an unambiguous binary everything that starts keeps its kind. */
  lemma {:induction false} UnambiguousKeepsKind(first: LocationUpdater, second: LocationUpdater, addr: Word)
    requires Describes(second.functions, first.newLocations) && UnambiguousStarts(second.functions)
    ensures StartKeepsKind(first, second, addr)
  {
    var middle := first.newLocations;
    var moved := first.GetNewStart(addr);
    NoExprStart(second.functions, moved);
    NoFuncStart(second.functions, moved);
    if moved != 0 && first.OldExprStart(addr).None? {
      if FuncAtStart(first.functions, addr).Some? {
        var f :| f in second.functions && f.id == FuncAtStart(first.functions, addr).value.id;
        assert StartsAt(f, moved);
      } else {
        assert (moved, first.OldDelimiter(addr).value) in Delimiters(second.functions);
      }
    }
  }

  /** Rewriting from a first binary to a second and from that to a third maps every start address as
      rewriting from the first to the third does, removed items included. */
  lemma {:induction false} GetNewStartComposes(first: LocationUpdater, second: LocationUpdater, direct: LocationUpdater,
                                               addr: Word)
    requires direct == first.(newLocations := second.newLocations)
    requires Describes(second.functions, first.newLocations) && UnambiguousStarts(second.functions)
    requires NothingReinstated(first.newLocations, second.newLocations)
    ensures second.GetNewStart(first.GetNewStart(addr)) == direct.GetNewStart(addr)
  {
    UnambiguousKeepsKind(first, second, addr);
    StartComposes(first, second, second.newLocations, addr);
  }

  /** A binary that is written as it was read keeps every start address, and every other address goes to zero. */
  lemma {:induction false} UnchangedLayoutKeepsStarts(u: LocationUpdater, addr: Word)
    requires Describes(u.functions, u.newLocations)
    ensures u.GetNewStart(addr) ==
      if ExprStartsAt(u.functions, addr) || FuncStartsAt(u.functions, addr) || DelimiterAt(u.functions, addr)
      then addr else 0
  {
    NoExprStart(u.functions, addr);
    NoFuncStart(u.functions, addr);
    NoDelimiter(u.functions, addr);
    ExprFound(u.functions, addr);
  }

  lemma {:induction false} ExprFound(functions: seq<Function>, addr: Word)
    ensures
      var spans := Spans(functions);
      && (match Find(Starts(spans), addr)
          case Some(e) => exists p :: p in spans && p.0 == e && p.1.start == addr
          case None => true)
      && (match Find(Ends(spans), addr)
          case Some(e) => exists p :: p in spans && p.0 == e && p.1.end == addr
          case None => true)
  {
    var spans := Spans(functions);
    match Find(Starts(spans), addr) {
      case Some(e) =>
        var i :| 0 <= i < |spans| && Starts(spans)[i] == (addr, e);
        assert spans[i] in spans;
      case None =>
    }
    match Find(Ends(spans), addr) {
      case Some(e) =>
        var i :| 0 <= i < |spans| && Ends(spans)[i] == (addr, e);
        assert spans[i] in spans;
      case None =>
    }
  }

  // ---------- Line tables ----------

  ghost predicate ExprEndsAt(functions: seq<Function>, addr: Word) {
    exists p :: p in Spans(functions) && p.1.end == addr
  }

  ghost predicate FuncEndsAt(functions: seq<Function>, addr: Word) {
    exists f :: f in functions && EndsAt(f, addr)
  }

  /** Something of the binary starts or ends at the address. */
  ghost predicate Known(functions: seq<Function>, addr: Word) {
    || ExprStartsAt(functions, addr) || FuncStartsAt(functions, addr) || DelimiterAt(functions, addr)
    || ExprEndsAt(functions, addr) || FuncEndsAt(functions, addr)
  }

  lemma {:induction false} NoExprEnd(functions: seq<Function>, addr: Word)
    ensures Find(Ends(Spans(functions)), addr).Some? <==> ExprEndsAt(functions, addr)
  {
    var spans := Spans(functions);
    ExprFound(functions, addr);
    if ExprEndsAt(functions, addr) {
      var p :| p in spans && p.1.end == addr;
      var i :| 0 <= i < |spans| && spans[i] == p;
      assert Ends(spans)[i].0 == addr;
    }
  }

  /** For line-table rows too: an unchanged layout keeps the known addresses and no others. */
  lemma {:induction false} UnchangedLayoutKeepsLines(u: LocationUpdater, addr: Word)
    requires Describes(u.functions, u.newLocations)
    ensures u.LineTarget(addr) == if Known(u.functions, addr) then addr else 0
  {
    NoExprStart(u.functions, addr);
    NoFuncStart(u.functions, addr);
    NoFuncEnd(u.functions, addr);
    NoDelimiter(u.functions, addr);
    NoExprEnd(u.functions, addr);
    ExprFound(u.functions, addr);
  }

  /** Wherever a row is moved to, something of the new binary is. */
  lemma {:induction false} LineTargetsAreKnown(u: LocationUpdater, functions: seq<Function>, addr: Word)
    requires Describes(functions, u.newLocations)
    ensures u.LineTarget(addr) == 0 || Known(functions, u.LineTarget(addr))
  {
    var target := u.LineTarget(addr);
    if u.OldExprStart(addr).Some? {
      ExprIsKnown(u.newLocations, functions, u.OldExprStart(addr).value);
    } else if FuncAtEnd(u.functions, addr).Some? {
      FuncIsKnown(u.newLocations, functions, FuncAtEnd(u.functions, addr).value.id);
    } else if FuncAtStart(u.functions, addr).Some? {
      FuncIsKnown(u.newLocations, functions, FuncAtStart(u.functions, addr).value.id);
    } else if u.OldDelimiter(addr).Some? {
      var d := u.OldDelimiter(addr).value;
      assert target != 0 ==> (target, d) in Delimiters(functions);
    } else if u.OldExprEnd(addr).Some? {
      ExprIsKnown(u.newLocations, functions, u.OldExprEnd(addr).value);
    }
  }

  lemma {:induction false} ExprIsKnown(layout: Layout, functions: seq<Function>, e: Expr)
    requires Describes(functions, layout)
    ensures e in layout.exprs ==>
      ExprStartsAt(functions, layout.exprs[e].start) && ExprEndsAt(functions, layout.exprs[e].end)
  {
    if e in layout.exprs {
      assert (e, layout.exprs[e]) in Spans(functions);
    }
  }

  lemma {:induction false} FuncIsKnown(layout: Layout, functions: seq<Function>, id: Func)
    requires Describes(functions, layout)
    ensures id in layout.funcs ==>
      var loc := layout.funcs[id];
      && FuncStartsAt(functions, loc.start) && FuncStartsAt(functions, loc.declarations)
      && FuncEndsAt(functions, loc.end) && FuncEndsAt(functions, loc.EndOpcode())
  {
    if id in layout.funcs {
      var f :| f in functions && f.id == id;
      assert StartsAt(f, f.loc.start) && StartsAt(f, f.loc.declarations);
      assert EndsAt(f, f.loc.end) && EndsAt(f, f.loc.EndOpcode());
    }
  }

  // ---------- Ends ----------

  predicate EndsAt(f: Function, addr: Word) {
    f.loc.end == addr || f.loc.EndOpcode() == addr
  }

  ghost predicate UnambiguousEnds(functions: seq<Function>) {
    && Injective(functions)
    && (forall f, g, a: Word :: f in functions && g in functions && EndsAt(f, a) && EndsAt(g, a) ==> f.id == g.id)
    && (forall p :: p in Spans(functions) ==> p.1.end != 0)
    && (forall f :: f in functions ==> !EndsAt(f, 0))
  }

  /** What ends at an old address keeps its kind: where it now ends, no expression ends unless it is one,
      and no function ends if it is a delimiter. */
  ghost predicate KeepsKind(first: LocationUpdater, second: LocationUpdater, addr: Word) {
    var moved := first.GetNewEnd(addr);
    || moved == 0
    || first.OldExprEnd(addr).Some?
    || (&& second.OldExprEnd(moved).None?
        && (FuncAtEnd(first.functions, addr).Some? || FuncAtEnd(second.functions, moved).None?))
  }

  lemma {:induction false} NoFuncEnd(functions: seq<Function>, addr: Word)
    ensures FuncAtEnd(functions, addr).Some? <==> exists f :: f in functions && EndsAt(f, addr)
  {
    match FuncAtEnd(functions, addr) {
      case Some(f) => assert EndsAt(f, addr);
      case None =>
    }
  }

  lemma {:induction false} EndOfNothing(u: LocationUpdater, layout: Layout)
    requires Describes(u.functions, layout) && UnambiguousEnds(u.functions)
    ensures u.GetNewEnd(0) == 0
  {
    NoFuncEnd(u.functions, 0);
  }

  lemma {:induction false} EndOfExpr(u: LocationUpdater, layout: Layout, e: Expr)
    requires Describes(u.functions, layout) && UnambiguousEnds(u.functions) && e in layout.exprs
    ensures u.GetNewEnd(layout.exprs[e].end) == if e in u.newLocations.exprs then u.newLocations.exprs[e].end else 0
  {
    var spans := Spans(u.functions);
    var i :| 0 <= i < |spans| && spans[i] == (e, layout.exprs[e]);
    assert Ends(spans)[i] == (layout.exprs[e].end, e);
    FindIs(Ends(spans), layout.exprs[e].end, e);
  }

  function EndOf(loc: FuncLocation, onePast: bool): Word {
    if onePast then loc.end else loc.EndOpcode()
  }

  lemma FuncEndMoves(u: LocationUpdater, addr: Word, f: Function)
    requires u.OldExprEnd(addr).None? && FuncAtEnd(u.functions, addr) == Some(f)
    ensures u.GetNewEnd(addr)
         == if f.id in u.newLocations.funcs then EndOf(u.newLocations.funcs[f.id], addr == f.loc.end) else 0
  {
  }

  lemma {:induction false} EndOfFunc(u: LocationUpdater, layout: Layout, id: Func, onePast: bool)
    requires Describes(u.functions, layout) && UnambiguousEnds(u.functions) && id in layout.funcs
    requires u.OldExprEnd(EndOf(layout.funcs[id], onePast)).None?
    ensures u.GetNewEnd(EndOf(layout.funcs[id], onePast))
         == if id !in u.newLocations.funcs then 0 else EndOf(u.newLocations.funcs[id], onePast)
  {
    var addr := EndOf(layout.funcs[id], onePast);
    var f :| f in u.functions && f.id == id;
    assert EndsAt(f, addr);
    NoFuncEnd(u.functions, addr);
    var g := FuncAtEnd(u.functions, addr).value;
    assert EndsAt(g, addr);
    assert layout.funcs[id] == g.loc;
    FuncEndMoves(u, addr, g);
  }

  lemma {:induction false} EndOfDelimiter(u: LocationUpdater, layout: Layout, d: Delimiter)
    requires Describes(u.functions, layout) && UnambiguousEnds(u.functions) && layout.At(d) != 0
    requires u.OldExprEnd(layout.At(d)).None? && FuncAtEnd(u.functions, layout.At(d)).None?
    ensures u.GetNewEnd(layout.At(d)) == u.newLocations.At(d)
  {
    FindIs(Delimiters(u.functions), layout.At(d), d);
  }

  lemma {:induction false} FuncEndComposes(first: LocationUpdater, second: LocationUpdater, direct: LocationUpdater,
                                           addr: Word)
    requires direct == first.(newLocations := second.newLocations)
    requires Describes(second.functions, first.newLocations) && UnambiguousEnds(second.functions)
    requires second.newLocations.funcs.Keys <= first.newLocations.funcs.Keys
    requires KeepsKind(first, second, addr) && first.OldExprEnd(addr).None? && FuncAtEnd(first.functions, addr).Some?
    ensures second.GetNewEnd(first.GetNewEnd(addr)) == direct.GetNewEnd(addr)
  {
    var f := FuncAtEnd(first.functions, addr).value;
    FuncEndMoves(first, addr, f);
    FuncEndMoves(direct, addr, f);
    if f.id in first.newLocations.funcs {
      var h :| h in second.functions && h.id == f.id;
      assert EndsAt(h, EndOf(first.newLocations.funcs[f.id], addr == f.loc.end));
      EndOfFunc(second, first.newLocations, f.id, addr == f.loc.end);
    } else {
      EndOfNothing(second, first.newLocations);
    }
  }

  /** End addresses compose too, where the thing that ends is not shadowed by another kind on the way. */
  lemma {:induction false} GetNewEndComposes(first: LocationUpdater, second: LocationUpdater, direct: LocationUpdater,
                                             addr: Word)
    requires direct == first.(newLocations := second.newLocations)
    requires Describes(second.functions, first.newLocations) && UnambiguousEnds(second.functions)
    requires NothingReinstated(first.newLocations, second.newLocations)
    requires KeepsKind(first, second, addr)
    ensures second.GetNewEnd(first.GetNewEnd(addr)) == direct.GetNewEnd(addr)
  {
    var middle := first.newLocations;
    EndOfNothing(second, middle);
    if first.OldExprEnd(addr).Some? {
      var e := first.OldExprEnd(addr).value;
      if e in middle.exprs {
        EndOfExpr(second, middle, e);
      }
    } else if FuncAtEnd(first.functions, addr).Some? {
      FuncEndComposes(first, second, direct, addr);
    } else if first.OldDelimiter(addr).Some? {
      var d := first.OldDelimiter(addr).value;
      if middle.At(d) != 0 {
        EndOfDelimiter(second, middle, d);
      }
    }
  }

  // ---------- When ends compose ----------

  /** The layout after a rewriting that removes one expression and changes nothing else. */
  function WithoutExpr(layout: Layout, e: Expr): Layout {
    layout.(exprs := layout.exprs - {e})
  }

  function WithoutFunc(layout: Layout, id: Func): Layout {
    layout.(funcs := layout.funcs - {id})
  }

  /** Following an end address by way of the middle layout, and directly. */
  predicate EndComposes(first: LocationUpdater, second: LocationUpdater, last: Layout, addr: Word) {
    second.(newLocations := last).GetNewEnd(first.GetNewEnd(addr)) == first.(newLocations := last).GetNewEnd(addr)
  }

  /** An end address composes with every later rewriting that reinstates nothing exactly when it keeps its kind: when
      it does not, removing what shadows it in the middle layout loses it. */
  lemma {:induction false} EndsComposeIff(first: LocationUpdater, second: LocationUpdater, addr: Word)
    requires Describes(second.functions, first.newLocations) && UnambiguousEnds(second.functions)
    ensures KeepsKind(first, second, addr) <==>
      forall last: Layout :: NothingReinstated(first.newLocations, last) ==> EndComposes(first, second, last, addr)
  {
    hide Describes, UnambiguousEnds;
    if KeepsKind(first, second, addr) {
      forall last: Layout | NothingReinstated(first.newLocations, last) ensures EndComposes(first, second, last, addr) {
        GetNewEndComposes(first, second.(newLocations := last), first.(newLocations := last), addr);
      }
    } else {
      var last := ShadowRemoved(first, second, addr);
      assert !EndComposes(first, second, last, addr);
    }
  }

  lemma {:induction false} ShadowRemoved(first: LocationUpdater, second: LocationUpdater, addr: Word)
    returns (last: Layout)
    requires !KeepsKind(first, second, addr)
    ensures NothingReinstated(first.newLocations, last) && !EndComposes(first, second, last, addr)
  {
    var middle := first.newLocations;
    var moved := first.GetNewEnd(addr);
    if second.OldExprEnd(moved).Some? {
      last := WithoutExpr(middle, second.OldExprEnd(moved).value);
    } else {
      last := WithoutFunc(middle, FuncAtEnd(second.functions, moved).value.id);
    }
    assert second.(newLocations := last).GetNewEnd(moved) == 0;
    assert first.(newLocations := last).GetNewEnd(addr) == moved;
  }

  // A function without code before its end opcode, and the same with an expression that a rewriting adds and the next
  // one removes.
  const ALONE := Function(0, FuncLocation(10, 11, 13), [], [])
  const FILLED := Function(0, FuncLocation(10, 11, 15), [(1, Span(12, 14))], [])
  const MIDDLE := Layout(map[1 := Span(12, 14)], map[], map[0 := FuncLocation(10, 11, 15)])
  const LAST := Layout(map[], map[], map[0 := FuncLocation(10, 11, 13)])

  lemma {:induction false} SingleFunction(f: Function)
    requires |f.exprs| == 1 && f.delims == []
    ensures Spans([f]) == f.exprs && Delimiters([f]) == []
    ensures forall u: LocationUpdater, a: Word {:trigger u.OldExprEnd(a)} :: u.functions == [f] ==>
      u.OldExprEnd(a) == if f.exprs[0].1.end == a then Some(f.exprs[0].0) else None
    ensures forall a: Word :: FuncAtEnd([f], a) == if EndsAt(f, a) then Some(f) else None
  {
    assert [f][..0] == [];
    assert Spans([f]) == f.exprs;
    assert Delimiters([f]) == AllDelims([]);
    assert Ends(f.exprs) == [(f.exprs[0].1.end, f.exprs[0].0)];
    assert Ends(f.exprs)[..0] == [];
  }

  lemma {:induction false} MiddleDescribed()
    ensures Describes([FILLED], MIDDLE) && UnambiguousEnds([FILLED]) && NothingReinstated(MIDDLE, LAST)
  {
    SingleFunction(FILLED);
    assert FILLED in [FILLED] && FILLED.exprs[0] in FILLED.exprs;
  }

  /** They do not always: in between, the function's end opcode stands where the added expression ends, and is lost
      with it; followed directly it is still there. */
  lemma {:induction false} EndsNeedNotCompose()
    ensures
      var first := LocationUpdater([ALONE], MIDDLE, map[], map[]);
      var second := LocationUpdater([FILLED], LAST, map[], map[]);
      && Describes(second.functions, first.newLocations) && UnambiguousEnds(second.functions)
      && NothingReinstated(first.newLocations, second.newLocations)
      && second.GetNewEnd(first.GetNewEnd(12)) == 0
      && first.(newLocations := LAST).GetNewEnd(12) == 12
  {
    MiddleDescribed();
    SingleFunction(FILLED);
    assert [ALONE][..0] == [] && Spans([ALONE]) == [];
    var first := LocationUpdater([ALONE], MIDDLE, map[], map[]);
    var second := LocationUpdater([FILLED], LAST, map[], map[]);
    assert first.OldExprEnd(12) == None;
    assert EndsAt(ALONE, 12);
    FuncEndMoves(first, 12, ALONE);
    assert second.OldExprEnd(14) == Some(1);
    FuncEndMoves(first.(newLocations := LAST), 12, ALONE);
  }

  // ---------- Where an end meets a start ----------

  /** An address that is one function's end and the next one's start goes with the first as a line row, and with the
      second as a start. */
  lemma {:induction false} EndIsPreferredToStart(u: LocationUpdater, layout: Layout, f: Function, g: Function)
    requires Describes(u.functions, layout) && UnambiguousStarts(u.functions) && UnambiguousEnds(u.functions)
    requires f in u.functions && g in u.functions && f.loc.end == g.loc.start
    requires f.id in u.newLocations.funcs && g.id in u.newLocations.funcs
    ensures u.LineTarget(f.loc.end) == u.newLocations.funcs[f.id].end
    ensures u.GetNewStart(f.loc.end) == u.newLocations.funcs[g.id].start
  {
    var addr := f.loc.end;
    assert StartsAt(g, addr) && EndsAt(f, addr);
    assert FuncStartsAt(u.functions, addr);
    NoExprStart(u.functions, addr);
    NoFuncEnd(u.functions, addr);
    var h := FuncAtEnd(u.functions, addr).value;
    assert EndsAt(h, addr);
    assert layout.funcs[f.id] == h.loc;
    assert u.OldExprStart(addr).None?;
    StartOfFunc(u, layout, g.id, false);
  }

  // ---------- Where line rows go, by kind ----------

  /** One thing of each kind at most starts or ends at an address. */
  ghost predicate DistinctEnds(functions: seq<Function>) {
    && DistinctStarts(functions) && UnambiguousEnds(functions)
  }

  lemma {:induction false} LineOfExpr(u: LocationUpdater, layout: Layout, e: Expr)
    requires Describes(u.functions, layout) && DistinctEnds(u.functions) && e in layout.exprs
    ensures u.LineTarget(layout.exprs[e].start)
         == if e in u.newLocations.exprs then u.newLocations.exprs[e].start else 0
  {
    var spans := Spans(u.functions);
    var i :| 0 <= i < |spans| && spans[i] == (e, layout.exprs[e]);
    assert Starts(spans)[i] == (layout.exprs[e].start, e);
    FindIs(Starts(spans), layout.exprs[e].start, e);
  }

  /** The end of a function, or its end opcode, even if another function starts there. */
  lemma {:induction false} LineOfFuncEnd(u: LocationUpdater, layout: Layout, id: Func, onePast: bool)
    requires Describes(u.functions, layout) && DistinctEnds(u.functions) && id in layout.funcs
    requires !ExprStartsAt(u.functions, EndOf(layout.funcs[id], onePast))
    ensures u.LineTarget(EndOf(layout.funcs[id], onePast))
         == if id in u.newLocations.funcs then EndOf(u.newLocations.funcs[id], onePast) else 0
  {
    var addr := EndOf(layout.funcs[id], onePast);
    var f :| f in u.functions && f.id == id;
    assert EndsAt(f, addr);
    NoExprStart(u.functions, addr);
    NoFuncEnd(u.functions, addr);
    var g := FuncAtEnd(u.functions, addr).value;
    assert EndsAt(g, addr);
    assert layout.funcs[id] == g.loc;
  }

  /** The start or the declarations of a function, even if a delimiter is there or an expression ends there. */
  lemma {:induction false} LineOfFuncStart(u: LocationUpdater, layout: Layout, id: Func, declarations: bool)
    requires Describes(u.functions, layout) && DistinctEnds(u.functions) && id in layout.funcs
    requires !ExprStartsAt(u.functions, StartOf(layout.funcs[id], declarations))
    requires !FuncEndsAt(u.functions, StartOf(layout.funcs[id], declarations))
    ensures u.LineTarget(StartOf(layout.funcs[id], declarations))
         == if id in u.newLocations.funcs then StartOf(u.newLocations.funcs[id], declarations) else 0
  {
    var addr := StartOf(layout.funcs[id], declarations);
    NoExprStart(u.functions, addr);
    NoFuncEnd(u.functions, addr);
    StartOfFunc(u, layout, id, declarations);
    var f :| f in u.functions && f.id == id;
    assert StartsAt(f, addr) && FuncStartsAt(u.functions, addr);
    NoFuncStart(u.functions, addr);
  }

  /** A delimiter, even if an expression ends there. */
  lemma {:induction false} LineOfDelimiter(u: LocationUpdater, layout: Layout, d: Delimiter)
    requires Describes(u.functions, layout) && DistinctEnds(u.functions) && layout.At(d) != 0
    requires !ExprStartsAt(u.functions, layout.At(d))
    requires !FuncStartsAt(u.functions, layout.At(d)) && !FuncEndsAt(u.functions, layout.At(d))
    ensures u.LineTarget(layout.At(d)) == u.newLocations.At(d)
  {
    var addr := layout.At(d);
    NoExprStart(u.functions, addr);
    NoFuncStart(u.functions, addr);
    NoFuncEnd(u.functions, addr);
    FindIs(Delimiters(u.functions), addr, d);
  }

  /** Where an expression ends and nothing else is. */
  lemma {:induction false} LineOfExprEnd(u: LocationUpdater, layout: Layout, e: Expr)
    requires Describes(u.functions, layout) && DistinctEnds(u.functions) && e in layout.exprs
    requires !ExprStartsAt(u.functions, layout.exprs[e].end) && !DelimiterAt(u.functions, layout.exprs[e].end)
    requires !FuncStartsAt(u.functions, layout.exprs[e].end) && !FuncEndsAt(u.functions, layout.exprs[e].end)
    ensures u.LineTarget(layout.exprs[e].end) == if e in u.newLocations.exprs then u.newLocations.exprs[e].end else 0
  {
    var addr := layout.exprs[e].end;
    NoExprStart(u.functions, addr);
    NoFuncStart(u.functions, addr);
    NoFuncEnd(u.functions, addr);
    NoDelimiter(u.functions, addr);
    EndOfExpr(u, layout, e);
  }

  lemma {:induction false} LineOfNothing(u: LocationUpdater, addr: Word)
    requires !Known(u.functions, addr)
    ensures u.LineTarget(addr) == 0
  {
    NoExprStart(u.functions, addr);
    NoFuncStart(u.functions, addr);
    NoFuncEnd(u.functions, addr);
    NoDelimiter(u.functions, addr);
    NoExprEnd(u.functions, addr);
  }

  // ---------- What a list of functions contains ----------

  lemma {:induction false} SpansAre(functions: seq<Function>, p: (Expr, Span))
    ensures p in Spans(functions) <==> exists f :: f in functions && p in f.exprs
  {
    if functions != [] {
      var n := |functions| - 1;
      SpansAre(functions[..n], p);
      assert functions == functions[..n] + [functions[n]];
    }
  }

  /** The delimiters recorded for an expression are its non-zero locations, by their positions. */
  lemma {:induction false} DelimsAre(expr: Expr, locs: seq<Word>, addr: Word, d: Delimiter)
    ensures (addr, d) in Delims(expr, locs) <==> d.expr == expr && d.id < |locs| && locs[d.id] == addr && addr != 0
  {
    if locs != [] {
      var n := |locs| - 1;
      DelimsAre(expr, locs[..n], addr, d);
    }
  }

  lemma {:induction false} AllDelimsAre(delims: seq<(Expr, seq<Word>)>, addr: Word, d: Delimiter)
    ensures (addr, d) in AllDelims(delims) <==>
      exists p :: p in delims && p.0 == d.expr && d.id < |p.1| && p.1[d.id] == addr && addr != 0
  {
    if delims != [] {
      var n := |delims| - 1;
      AllDelimsAre(delims[..n], addr, d);
      DelimsAre(delims[n].0, delims[n].1, addr, d);
      assert delims == delims[..n] + [delims[n]];
    }
  }

  lemma {:induction false} DelimitersAre(functions: seq<Function>, addr: Word, d: Delimiter)
    ensures (addr, d) in Delimiters(functions) <==> exists f :: f in functions && (addr, d) in AllDelims(f.delims)
  {
    if functions != [] {
      var n := |functions| - 1;
      DelimitersAre(functions[..n], addr, d);
      assert functions == functions[..n] + [functions[n]];
    }
  }

  /** The functions hold what the layout says: each item under its own function, and no others. */
  ghost predicate HoldsLayout(functions: seq<Function>, layout: Layout) {
    && (forall f, p :: f in functions && p in f.exprs ==> p.0 in layout.exprs && layout.exprs[p.0] == p.1)
    && (forall e :: e in layout.exprs ==> exists f :: f in functions && (e, layout.exprs[e]) in f.exprs)
    && (forall f, p :: f in functions && p in f.delims ==> p.0 in layout.delims && layout.delims[p.0] == p.1)
    && (forall e :: e in layout.delims ==> exists f :: f in functions && (e, layout.delims[e]) in f.delims)
    && (forall f :: f in functions ==> f.id in layout.funcs && layout.funcs[f.id] == f.loc)
    && (forall id :: id in layout.funcs ==> exists f :: f in functions && f.id == id)
  }

  /** Reading back what was written describes it, delimiters by their positions included. */
  lemma {:induction false} HoldingDescribes(functions: seq<Function>, layout: Layout)
    requires HoldsLayout(functions, layout)
    ensures Describes(functions, layout)
  {
    forall p | p in Spans(functions) ensures p.0 in layout.exprs && layout.exprs[p.0] == p.1 {
      SpansAre(functions, p);
    }
    forall e | e in layout.exprs ensures (e, layout.exprs[e]) in Spans(functions) {
      SpansAre(functions, (e, layout.exprs[e]));
    }
    forall p | p in Delimiters(functions) ensures p.0 != 0 && layout.At(p.1) == p.0 {
      DelimitersAre(functions, p.0, p.1);
      var f :| f in functions && (p.0, p.1) in AllDelims(f.delims);
      AllDelimsAre(f.delims, p.0, p.1);
    }
    forall d | layout.At(d) != 0 ensures (layout.At(d), d) in Delimiters(functions) {
      var f :| f in functions && (d.expr, layout.delims[d.expr]) in f.delims;
      AllDelimsAre(f.delims, layout.At(d), d);
      DelimitersAre(functions, layout.At(d), d);
    }
  }
}
