/** The address maps of wasm-debug.cpp: from old code addresses to what stood there, and on to
    where it stands now. */
module Locations {
  import opened Words
  import opened Results

  // Identities of expressions and functions: pointers in the source.
  type Expr = nat
  type Func = nat

  datatype Span = Span(start: Word, end: Word)
  datatype FuncLocation = FuncLocation(start: Word, declarations: Word, end: Word)
  {
    /** end - 1 in uint32_t arithmetic: where the function's end opcode is. */
    function EndOpcode(): Word {
      if end == 0 then 0xFFFF_FFFF else end - 1
    }
  }

  // A function as read from the old binary; the sequences list the unordered maps in some order.
  datatype Function = Function(id: Func, loc: FuncLocation, exprs: seq<(Expr, Span)>, delims: seq<(Expr, seq<Word>)>)

  // The locations in a newly written binary.
  datatype Layout = Layout(exprs: map<Expr, Span>, delims: map<Expr, seq<Word>>, funcs: map<Func, FuncLocation>)
  {
    /** A delimiter past the recorded ones reads as zero. */
    function At(d: Delimiter): Word {
      if d.expr in delims && d.id < |delims[d.expr]| then delims[d.expr][d.id] else 0
    }
  }

  datatype Delimiter = Delimiter(expr: Expr, id: nat)

  // ---------- What stands at an old address ----------

  function Spans(functions: seq<Function>): seq<(Expr, Span)> {
    if functions == [] then [] else Spans(functions[..|functions| - 1]) + functions[|functions| - 1].exprs
  }

  /** The non-zero delimiter locations of one expression. */
  function Delims(expr: Expr, locs: seq<Word>): seq<(Word, Delimiter)> {
    if locs == [] then []
    else
      var i := |locs| - 1;
      Delims(expr, locs[..i]) + if locs[i] != 0 then [(locs[i], Delimiter(expr, i))] else []
  }

  function AllDelims(delims: seq<(Expr, seq<Word>)>): seq<(Word, Delimiter)> {
    if delims == [] then []
    else
      var i := |delims| - 1;
      AllDelims(delims[..i]) + Delims(delims[i].0, delims[i].1)
  }

  function Delimiters(functions: seq<Function>): seq<(Word, Delimiter)> {
    if functions == [] then []
    else Delimiters(functions[..|functions| - 1]) + AllDelims(functions[|functions| - 1].delims)
  }

  /** The value last stored under a key. */
  function Find<V>(entries: seq<(Word, V)>, key: Word): (r: Option<V>)
    ensures r.Some? <==> exists i :: 0 <= i < |entries| && entries[i].0 == key
    ensures r.Some? ==> (key, r.value) in entries
  {
    if entries == [] then None
    else
      var last := entries[|entries| - 1];
      if last.0 == key then Some(last.1) else Find(entries[..|entries| - 1], key)
  }

  predicate DistinctKeys<V>(entries: seq<(Word, V)>) {
    forall i, j :: 0 <= i < j < |entries| ==> entries[i].0 != entries[j].0
  }

  function Starts(spans: seq<(Expr, Span)>): (r: seq<(Word, Expr)>)
    ensures |r| == |spans|
    ensures forall i :: 0 <= i < |r| ==> r[i] == (spans[i].1.start, spans[i].0)
  {
    seq(|spans|, i requires 0 <= i < |spans| => (spans[i].1.start, spans[i].0))
  }

  function Ends(spans: seq<(Expr, Span)>): (r: seq<(Word, Expr)>)
    ensures |r| == |spans|
    ensures forall i :: 0 <= i < |r| ==> r[i] == (spans[i].1.end, spans[i].0)
  {
    seq(|spans|, i requires 0 <= i < |spans| => (spans[i].1.end, spans[i].0))
  }

  /** The last function that starts at an address, by its size field or by its declarations. */
  function FuncAtStart(functions: seq<Function>, addr: Word): (r: Option<Function>)
    ensures r.Some? ==> r.value in functions && (r.value.loc.start == addr || r.value.loc.declarations == addr)
    ensures r.None? ==> forall f :: f in functions ==> f.loc.start != addr && f.loc.declarations != addr
  {
    if functions == [] then None
    else
      var f := functions[|functions| - 1];
      if f.loc.start == addr || f.loc.declarations == addr then Some(f)
      else FuncAtStart(functions[..|functions| - 1], addr)
  }

  /** The last function that ends at an address, by its end opcode or one past it. */
  function FuncAtEnd(functions: seq<Function>, addr: Word): (r: Option<Function>)
    ensures r.Some? ==> r.value in functions && (r.value.loc.end == addr || r.value.loc.EndOpcode() == addr)
    ensures r.None? ==> forall f :: f in functions ==> f.loc.end != addr && f.loc.EndOpcode() != addr
  {
    if functions == [] then None
    else
      var f := functions[|functions| - 1];
      if f.loc.end == addr || f.loc.EndOpcode() == addr then Some(f)
      else FuncAtEnd(functions[..|functions| - 1], addr)
  }

  // ---------- From old addresses to new ones ----------

  type UnitBases = (Word, Word)

  datatype LocationUpdater = LocationUpdater(
    functions: seq<Function>, newLocations: Layout,
    locToUnit: map<nat, nat>, unitBases: map<nat, UnitBases>)
  {
    function OldExprStart(addr: Word): Option<Expr> {
      Find(Starts(Spans(functions)), addr)
    }

    function OldExprEnd(addr: Word): Option<Expr> {
      Find(Ends(Spans(functions)), addr)
    }

    function OldDelimiter(addr: Word): Option<Delimiter> {
      Find(Delimiters(functions), addr)
    }

    function GetNewExprStart(addr: Word): Word {
      match OldExprStart(addr)
      case Some(e) => if e in newLocations.exprs then newLocations.exprs[e].start else 0
      case None => 0
    }

    function GetNewExprEnd(addr: Word): Word {
      match OldExprEnd(addr)
      case Some(e) => if e in newLocations.exprs then newLocations.exprs[e].end else 0
      case None => 0
    }

    function GetNewFuncStart(addr: Word): Word {
      match FuncAtStart(functions, addr)
      case Some(f) =>
        if f.id !in newLocations.funcs then 0
        else if addr == f.loc.start then newLocations.funcs[f.id].start
        else newLocations.funcs[f.id].declarations
      case None => 0
    }

    function GetNewFuncEnd(addr: Word): Word {
      match FuncAtEnd(functions, addr)
      case Some(f) =>
        if f.id !in newLocations.funcs then 0
        else if addr == f.loc.end then newLocations.funcs[f.id].end
        else newLocations.funcs[f.id].EndOpcode()
      case None => 0
    }

    function GetNewDelimiter(addr: Word): Word {
      match OldDelimiter(addr)
      case Some(d) => newLocations.At(d)
      case None => 0
    }

    function GetNewStart(addr: Word): Word {
      if OldExprStart(addr).Some? then GetNewExprStart(addr)
      else if FuncAtStart(functions, addr).Some? then GetNewFuncStart(addr)
      else if OldDelimiter(addr).Some? then GetNewDelimiter(addr)
      else 0
    }

    function GetNewEnd(addr: Word): Word {
      if OldExprEnd(addr).Some? then GetNewExprEnd(addr)
      else if FuncAtEnd(functions, addr).Some? then GetNewFuncEnd(addr)
      else if OldDelimiter(addr).Some? then GetNewDelimiter(addr)
      else 0
    }

    /** Where a line-table row goes: a function's end is preferred to its successor's start. */
    function LineTarget(addr: Word): Word {
      if OldExprStart(addr).Some? then GetNewExprStart(addr)
      else if FuncAtEnd(functions, addr).Some? then GetNewFuncEnd(addr)
      else if FuncAtStart(functions, addr).Some? then GetNewFuncStart(addr)
      else if OldDelimiter(addr).Some? then GetNewDelimiter(addr)
      else if OldExprEnd(addr).Some? then GetNewExprEnd(addr)
      else 0
    }

    function CompileUnitBasesForLoc(offset: nat): UnitBases {
      if offset !in locToUnit || locToUnit[offset] !in unitBases then (0, 0)
      else unitBases[locToUnit[offset]]
    }
  }

  // ---------- The hash maps behind the lookups ----------

  ghost predicate Holds<V>(m: map<Word, V>, entries: seq<(Word, V)>) {
    forall a: Word :: Find(entries, a) == if a in m then Some(m[a]) else None
  }

  lemma {:induction false} HoldsAppended<V>(m: map<Word, V>, entries: seq<(Word, V)>, key: Word, value: V)
    requires Holds(m, entries)
    ensures Holds(m[key := value], entries + [(key, value)])
  {
    var more := entries + [(key, value)];
    assert more[..|more| - 1] == entries;
  }

  lemma {:induction false} DistinctAppended<V>(m: map<Word, V>, entries: seq<(Word, V)>, key: Word, value: V)
    requires Holds(m, entries) && DistinctKeys(entries)
    ensures DistinctKeys(entries + [(key, value)]) <==> key !in m
  {
    var more := entries + [(key, value)];
    if key in m {
      assert Find(entries, key).Some?;
      var i :| 0 <= i < |entries| && entries[i].0 == key;
      assert more[i].0 == more[|entries|].0;
    }
  }

  lemma DistinctInPrefix<V>(prefix: seq<(Word, V)>, entries: seq<(Word, V)>)
    requires prefix <= entries
    ensures DistinctKeys(entries) ==> DistinctKeys(prefix)
  {
  }

  class AddrExprMap {
    var startMap: map<Word, Expr>
    var endMap: map<Word, Expr>
    var delimiterMap: map<Word, Delimiter>

    ghost predicate Indexes(spans: seq<(Expr, Span)>, delims: seq<(Word, Delimiter)>)
      reads this
    {
      && Holds(startMap, Starts(spans)) && DistinctKeys(Starts(spans))
      && Holds(endMap, Ends(spans)) && DistinctKeys(Ends(spans))
      && Holds(delimiterMap, delims) && DistinctKeys(delims)
    }

    constructor ()
      ensures Indexes([], [])
    {
      startMap, endMap, delimiterMap := map[], map[], map[];
    }

    method AddSpan(expr: Expr, span: Span, ghost spans: seq<(Expr, Span)>, ghost delims: seq<(Word, Delimiter)>)
      returns (ok: bool)
      requires Indexes(spans, delims)
      modifies this
      ensures ok <==> DistinctKeys(Starts(spans + [(expr, span)])) && DistinctKeys(Ends(spans + [(expr, span)]))
      ensures ok ==> Indexes(spans + [(expr, span)], delims)
    {
      assert Starts(spans + [(expr, span)]) == Starts(spans) + [(span.start, expr)];
      assert Ends(spans + [(expr, span)]) == Ends(spans) + [(span.end, expr)];
      DistinctAppended(startMap, Starts(spans), span.start, expr);
      DistinctAppended(endMap, Ends(spans), span.end, expr);
      if span.start in startMap {
        return false;
      }
      HoldsAppended(startMap, Starts(spans), span.start, expr);
      startMap := startMap[span.start := expr];
      if span.end in endMap {
        return false;
      }
      HoldsAppended(endMap, Ends(spans), span.end, expr);
      endMap := endMap[span.end := expr];
      return true;
    }

    method AddDelimiters(expr: Expr, locs: seq<Word>, ghost spans: seq<(Expr, Span)>,
                         ghost delims: seq<(Word, Delimiter)>)
      returns (ok: bool)
      requires Indexes(spans, delims)
      modifies this
      ensures ok <==> DistinctKeys(delims + Delims(expr, locs))
      ensures ok ==> Indexes(spans, delims + Delims(expr, locs))
    {
      assert delims + Delims(expr, []) == delims;
      var i := 0;
      while i < |locs|
        invariant 0 <= i <= |locs|
        invariant Indexes(spans, delims + Delims(expr, locs[..i]))
      {
        assert locs[..i + 1][..i] == locs[..i];
        ghost var before := delims + Delims(expr, locs[..i]);
        if locs[i] != 0 {
          ghost var d := Delimiter(expr, i);
          assert delims + Delims(expr, locs[..i + 1]) == before + [(locs[i], d)];
          DistinctAppended(delimiterMap, before, locs[i], d);
          if locs[i] in delimiterMap {
            DelimsPrefix(expr, locs, i + 1);
            DistinctInPrefix(delims + Delims(expr, locs[..i + 1]), delims + Delims(expr, locs));
            return false;
          }
          HoldsAppended(delimiterMap, before, locs[i], d);
          delimiterMap := delimiterMap[locs[i] := Delimiter(expr, i)];
        } else {
          assert delims + Delims(expr, locs[..i + 1]) == before;
        }
        i := i + 1;
      }
      assert locs[..i] == locs;
      return true;
    }

    method AddSpans(exprs: seq<(Expr, Span)>, ghost spans: seq<(Expr, Span)>, ghost delims: seq<(Word, Delimiter)>)
      returns (ok: bool)
      requires Indexes(spans, delims)
      modifies this
      ensures ok <==> DistinctKeys(Starts(spans + exprs)) && DistinctKeys(Ends(spans + exprs))
      ensures ok ==> Indexes(spans + exprs, delims)
    {
      assert spans + exprs[..0] == spans;
      for j := 0 to |exprs|
        invariant Indexes(spans + exprs[..j], delims)
      {
        ghost var more := spans + exprs[..j] + [exprs[j]];
        assert more == spans + exprs[..j + 1];
        ok := AddSpan(exprs[j].0, exprs[j].1, spans + exprs[..j], delims);
        if !ok {
          DistinctInPrefix(Starts(more), Starts(spans + exprs));
          DistinctInPrefix(Ends(more), Ends(spans + exprs));
          return;
        }
      }
      assert exprs[..|exprs|] == exprs;
      return true;
    }

    method AddAllDelimiters(all: seq<(Expr, seq<Word>)>, ghost spans: seq<(Expr, Span)>,
                            ghost delims: seq<(Word, Delimiter)>)
      returns (ok: bool)
      requires Indexes(spans, delims)
      modifies this
      ensures ok <==> DistinctKeys(delims + AllDelims(all))
      ensures ok ==> Indexes(spans, delims + AllDelims(all))
    {
      assert delims + AllDelims(all[..0]) == delims;
      for j := 0 to |all|
        invariant Indexes(spans, delims + AllDelims(all[..j]))
      {
        assert all[..j + 1][..j] == all[..j];
        ghost var soFar := delims + AllDelims(all[..j]);
        ghost var more := soFar + Delims(all[j].0, all[j].1);
        assert more == delims + AllDelims(all[..j + 1]);
        ok := AddDelimiters(all[j].0, all[j].1, spans, soFar);
        if !ok {
          AllDelimsPrefix(all, j + 1);
          DistinctInPrefix(more, delims + AllDelims(all));
          return;
        }
      }
      assert all[..|all|] == all;
      return true;
    }

    /** The constructor's loops; false when one of the duplicate-location asserts fails. */
    method Load(functions: seq<Function>) returns (ok: bool)
      requires Indexes([], [])
      modifies this
      ensures ok <==> Injective(functions)
      ensures ok ==> Indexes(Spans(functions), Delimiters(functions))
    {
      for i := 0 to |functions|
        invariant Indexes(Spans(functions[..i]), Delimiters(functions[..i]))
      {
        ghost var before := functions[..i];
        ghost var upTo := functions[..i + 1];
        assert upTo[..i] == before;
        SpansPrefix(functions, i + 1);
        DelimitersPrefix(functions, i + 1);
        DistinctInPrefix(Starts(Spans(upTo)), Starts(Spans(functions)));
        DistinctInPrefix(Ends(Spans(upTo)), Ends(Spans(functions)));
        DistinctInPrefix(Delimiters(upTo), Delimiters(functions));
        ok := AddSpans(functions[i].exprs, Spans(before), Delimiters(before));
        if !ok {
          return;
        }
        ok := AddAllDelimiters(functions[i].delims, Spans(upTo), Delimiters(before));
        if !ok {
          return;
        }
      }
      assert functions[..|functions|] == functions;
      return true;
    }

    function GetStart(addr: Word, ghost spans: seq<(Expr, Span)>, ghost delims: seq<(Word, Delimiter)>)
      : (r: Option<Expr>)
      requires Indexes(spans, delims)
      reads this
      ensures r == Find(Starts(spans), addr)
    {
      if addr in startMap then Some(startMap[addr]) else None
    }

    function GetEnd(addr: Word, ghost spans: seq<(Expr, Span)>, ghost delims: seq<(Word, Delimiter)>)
      : (r: Option<Expr>)
      requires Indexes(spans, delims)
      reads this
      ensures r == Find(Ends(spans), addr)
    {
      if addr in endMap then Some(endMap[addr]) else None
    }

    function GetDelimiter(addr: Word, ghost spans: seq<(Expr, Span)>, ghost delims: seq<(Word, Delimiter)>)
      : (r: Option<Delimiter>)
      requires Indexes(spans, delims)
      reads this
      ensures r == Find(delims, addr)
    {
      if addr in delimiterMap then Some(delimiterMap[addr]) else None
    }
  }

  lemma {:induction false} FuncAppended(before: seq<Function>, f: Function)
    ensures forall a: Word :: FuncAtStart(before + [f], a) ==
              if f.loc.start == a || f.loc.declarations == a then Some(f) else FuncAtStart(before, a)
    ensures forall a: Word :: FuncAtEnd(before + [f], a) ==
              if f.loc.end == a || f.loc.EndOpcode() == a then Some(f) else FuncAtEnd(before, a)
  {
    assert (before + [f])[..|before|] == before;
  }

  class FuncAddrMap {
    var startMap: map<Word, Function>
    var endMap: map<Word, Function>

    ghost predicate Indexes(functions: seq<Function>)
      reads this
    {
      forall a: Word ::
        && FuncAtStart(functions, a) == (if a in startMap then Some(startMap[a]) else None)
        && FuncAtEnd(functions, a) == (if a in endMap then Some(endMap[a]) else None)
    }

    constructor ()
      ensures Indexes([])
    {
      startMap, endMap := map[], map[];
    }

    method Add(f: Function, ghost before: seq<Function>)
      requires Indexes(before)
      modifies this
      ensures Indexes(before + [f])
    {
      FuncAppended(before, f);
      startMap := startMap[f.loc.start := f];
      startMap := startMap[f.loc.declarations := f];
      endMap := endMap[f.loc.EndOpcode() := f];
      endMap := endMap[f.loc.end := f];
    }

    /** The constructor's loop: later functions overwrite earlier ones, and nothing is asserted. */
    method Load(functions: seq<Function>)
      requires Indexes([])
      modifies this
      ensures Indexes(functions)
    {
      for i := 0 to |functions|
        invariant Indexes(functions[..i])
      {
        Add(functions[i], functions[..i]);
        assert functions[..i + 1] == functions[..i] + [functions[i]];
      }
      assert functions[..|functions|] == functions;
    }
  }

  /** No two expressions of the old binary share a start or an end, no two delimiters a location. */
  predicate Injective(functions: seq<Function>) {
    && DistinctKeys(Starts(Spans(functions)))
    && DistinctKeys(Ends(Spans(functions)))
    && DistinctKeys(Delimiters(functions))
  }

  lemma {:induction false} SpansPrefix(functions: seq<Function>, n: nat)
    requires n <= |functions|
    ensures Spans(functions[..n]) <= Spans(functions)
    decreases |functions|
  {
    var last := |functions| - 1;
    if n <= last {
      SpansPrefix(functions[..last], n);
      assert functions[..last][..n] == functions[..n];
    } else {
      assert functions[..n] == functions;
    }
  }

  lemma {:induction false} DelimitersPrefix(functions: seq<Function>, n: nat)
    requires n <= |functions|
    ensures Delimiters(functions[..n]) <= Delimiters(functions)
    decreases |functions|
  {
    var last := |functions| - 1;
    if n <= last {
      DelimitersPrefix(functions[..last], n);
      assert functions[..last][..n] == functions[..n];
    } else {
      assert functions[..n] == functions;
    }
  }

  lemma {:induction false} AllDelimsPrefix(delims: seq<(Expr, seq<Word>)>, n: nat)
    requires n <= |delims|
    ensures AllDelims(delims[..n]) <= AllDelims(delims)
    decreases |delims|
  {
    var last := |delims| - 1;
    if n <= last {
      AllDelimsPrefix(delims[..last], n);
      assert delims[..last][..n] == delims[..n];
    } else {
      assert delims[..n] == delims;
    }
  }

  lemma {:induction false} DelimsPrefix(expr: Expr, locs: seq<Word>, n: nat)
    requires n <= |locs|
    ensures Delims(expr, locs[..n]) <= Delims(expr, locs)
    decreases |locs|
  {
    if n < |locs| {
      var i := |locs| - 1;
      DelimsPrefix(expr, locs[..i], n);
      assert locs[..i][..n] == locs[..n];
    } else {
      assert locs[..n] == locs;
    }
  }
}
