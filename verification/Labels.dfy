/** The label uniquifier of parsing.cpp: every scope name in a function body is made unique, and every
    branch keeps its target. Labels are those of section 6.5.1 of the WebAssembly Core Specification. */
module Labels {
  import opened Decimals
  import opened Results
  import opened Lists

  type Name = string

  /** A target with uses but no definitions. */
  const DELEGATE_CALLER_TARGET: Name := "__binaryen_delegate_caller_target"

  // An expression: the scope name it defines, the scope names it uses, and its children.
  datatype Node = Node(def: Option<Name>, uses: seq<Name>, kids: seq<Node>)

  datatype Fault = BadLabel(name: Name) | PoppedLabel(name: Name) | AssertTop

  // ---------- Numbers in names ----------

  function Indexed(prefix: Name, i: nat): Name {
    prefix + ToString(i)
  }

  lemma {:induction false} IndexedIsInjective(prefix: Name, i: nat, j: nat)
    requires Indexed(prefix, i) == Indexed(prefix, j)
    ensures i == j
  {
    assert Indexed(prefix, i)[|prefix|..] == ToString(i);
    assert Indexed(prefix, j)[|prefix|..] == ToString(j);
    ToStringIsInjective(i, j);
  }

  // ---------- The mapper's operations ----------

  datatype Mapper = Mapper(stack: seq<Name>, mappings: map<Name, seq<Name>>, reverse: map<Name, Name>, otherIndex: nat)

  const EMPTY := Mapper([], map[], map[], 0)

  /** Names already taken among prefix+i, prefix+(i+1), ... */
  ghost function Taken(prefix: Name, used: set<Name>, i: nat): set<Name> {
    set n | n in used && exists k: nat :: k >= i && n == Indexed(prefix, k)
  }

  lemma {:induction false} TakenShrinks(prefix: Name, used: set<Name>, i: nat)
    requires Indexed(prefix, i) in used
    ensures Taken(prefix, used, i + 1) < Taken(prefix, used, i)
  {
    var n := Indexed(prefix, i);
    assert n in Taken(prefix, used, i);
    if n in Taken(prefix, used, i + 1) {
      var k: nat :| k >= i + 1 && n == Indexed(prefix, k);
      IndexedIsInjective(prefix, i, k);
    }
  }

  /** The first free index from i on; it exists because only finitely many names are used. */
  function FreeIndex(prefix: Name, used: set<Name>, i: nat): (k: nat)
    ensures k >= i && Indexed(prefix, k) !in used
    ensures forall j :: i <= j < k ==> Indexed(prefix, j) in used
    decreases Taken(prefix, used, i)
  {
    if Indexed(prefix, i) !in used then i
    else
      TakenShrinks(prefix, used, i);
      FreeIndex(prefix, used, i + 1)
  }

  /** A name not in use, and the index to go on from. */
  function PrefixedName(m: Mapper, prefix: Name): (Name, nat) {
    if prefix !in m.reverse then (prefix, m.otherIndex)
    else
      var k := FreeIndex(prefix, m.reverse.Keys, m.otherIndex);
      (Indexed(prefix, k), k + 1)
  }

  function Bound(m: Mapper, sName: Name): seq<Name> {
    if sName in m.mappings then m.mappings[sName] else []
  }

  function Push(m: Mapper, sName: Name): (Name, Mapper) {
    var (name, next) := PrefixedName(m, sName);
    (name, Mapper(m.stack + [name], m.mappings[sName := Bound(m, sName) + [name]], m.reverse[name := sName], next))
  }

  /** Popping below an empty list is undefined in the source; it counts as a failed assert here. */
  function Pop(m: Mapper, name: Name): Result<Mapper, Fault> {
    if m.stack == [] || m.stack[|m.stack| - 1] != name then Err(AssertTop)
    else if name !in m.reverse || Bound(m, m.reverse[name]) == [] then Err(AssertTop)
    else
      var sName := m.reverse[name];
      var bound := Bound(m, sName);
      Ok(m.(stack := m.stack[..|m.stack| - 1], mappings := m.mappings[sName := bound[..|bound| - 1]]))
  }

  function SourceToUnique(m: Mapper, sName: Name): Result<Name, Fault> {
    if sName == DELEGATE_CALLER_TARGET then Ok(DELEGATE_CALLER_TARGET)
    else if sName !in m.mappings then Err(BadLabel(sName))
    else if m.mappings[sName] == [] then Err(PoppedLabel(sName))
    else Ok(m.mappings[sName][|m.mappings[sName]| - 1])
  }

  class UniqueNameMapper {
    var labelStack: seq<Name>
    var labelMappings: map<Name, seq<Name>>
    var reverseLabelMapping: map<Name, Name>
    var otherIndex: nat

    function State(): Mapper
      reads this
    {
      Mapper(labelStack, labelMappings, reverseLabelMapping, otherIndex)
    }

    constructor ()
      ensures State() == EMPTY
    {
      labelStack, labelMappings, reverseLabelMapping, otherIndex := [], map[], map[], 0;
    }

    method GetPrefixedName(prefix: Name) returns (name: Name)
      modifies this`otherIndex
      ensures (name, otherIndex) == PrefixedName(old(State()), prefix)
    {
      if prefix !in reverseLabelMapping {
        return prefix;
      }
      ghost var used := reverseLabelMapping.Keys;
      while true
        invariant FreeIndex(prefix, used, otherIndex) == FreeIndex(prefix, used, old(otherIndex))
        decreases Taken(prefix, used, otherIndex)
      {
        name := Indexed(prefix, otherIndex);
        otherIndex := otherIndex + 1;
        if name !in reverseLabelMapping {
          return;
        }
        TakenShrinks(prefix, used, otherIndex - 1);
      }
    }

    method PushLabelName(sName: Name) returns (name: Name)
      modifies this
      ensures (name, State()) == Push(old(State()), sName)
    {
      name := GetPrefixedName(sName);
      labelStack := labelStack + [name];
      labelMappings := labelMappings[sName := (if sName in labelMappings then labelMappings[sName] else []) + [name]];
      reverseLabelMapping := reverseLabelMapping[name := sName];
    }

    method PopLabelName(name: Name) returns (r: Option<Fault>)
      modifies this
      ensures match Pop(old(State()), name)
              case Ok(m) => r == None && State() == m
              case Err(fault) => r == Some(fault)
    {
      if labelStack == [] || labelStack[|labelStack| - 1] != name {
        return Some(AssertTop);
      }
      if name !in reverseLabelMapping {
        return Some(AssertTop);
      }
      var sName := reverseLabelMapping[name];
      if sName !in labelMappings || labelMappings[sName] == [] {
        return Some(AssertTop);
      }
      labelStack := labelStack[..|labelStack| - 1];
      labelMappings := labelMappings[sName := labelMappings[sName][..|labelMappings[sName]| - 1]];
      return None;
    }

    method FindUnique(sName: Name) returns (r: Result<Name, Fault>)
      ensures r == SourceToUnique(State(), sName)
    {
      if sName == DELEGATE_CALLER_TARGET {
        return Ok(DELEGATE_CALLER_TARGET);
      }
      if sName !in labelMappings {
        return Err(BadLabel(sName));
      }
      if labelMappings[sName] == [] {
        return Err(PoppedLabel(sName));
      }
      return Ok(labelMappings[sName][|labelMappings[sName]| - 1]);
    }

    /** Pre-visit, children, visit, post-visit. */
    method Walk(node: Node) returns (r: Result<Node, Fault>)
      modifies this
      ensures match Rename(node, old(State()))
              case Ok((renamed, m)) => r == Ok(renamed) && State() == m
              case Err(fault) => r == Err(fault)
      decreases node
    {
      var def := None;
      if node.def.Some? {
        var name := PushLabelName(node.def.value);
        def := Some(name);
      }
      var kids: seq<Node> := [];
      ghost var entered := State();
      assert node.kids[0..] == node.kids && forall rest: seq<Node> :: [] + rest == rest;
      for i := 0 to |node.kids|
        invariant RenameAll(node.kids, entered) == PrependTo(kids, RenameAll(node.kids[i..], State()))
      {
        var kid := Walk(node.kids[i]);
        assert node.kids[i..][1..] == node.kids[i + 1..];
        if kid.Err? {
          return Err(kid.error);
        }
        assert forall rest: seq<Node> :: kids + ([kid.value] + rest) == kids + [kid.value] + rest;
        kids := kids + [kid.value];
      }
      assert kids + [] == kids;
      var uses: seq<Name> := [];
      assert node.uses[0..] == node.uses && forall rest: seq<Name> :: [] + rest == rest;
      for i := 0 to |node.uses|
        invariant ResolveAll(node.uses, State()) == PrependNames(uses, ResolveAll(node.uses[i..], State()))
        invariant RenameAll(node.kids, entered) == Ok((kids, State()))
      {
        var name := FindUnique(node.uses[i]);
        assert node.uses[i..][1..] == node.uses[i + 1..];
        if name.Err? {
          return Err(name.error);
        }
        assert forall rest: seq<Name> :: uses + ([name.value] + rest) == uses + [name.value] + rest;
        uses := uses + [name.value];
      }
      assert uses + [] == uses;
      if def.Some? {
        var fault := PopLabelName(def.value);
        if fault.Some? {
          return Err(fault.value);
        }
      }
      return Ok(Node(def, uses, kids));
    }
  }

  // ---------- The walk ----------

  function PrependTo(kids: seq<Node>, r: Result<(seq<Node>, Mapper), Fault>): Result<(seq<Node>, Mapper), Fault> {
    match r case Ok((rest, m)) => Ok((kids + rest, m)) case Err(fault) => Err(fault)
  }

  function PrependNames(names: seq<Name>, r: Result<seq<Name>, Fault>): Result<seq<Name>, Fault> {
    match r case Ok(rest) => Ok(names + rest) case Err(fault) => Err(fault)
  }

  function ResolveAll(uses: seq<Name>, m: Mapper): Result<seq<Name>, Fault> {
    if uses == [] then Ok([])
    else
      var name :- SourceToUnique(m, uses[0]);
      var rest :- ResolveAll(uses[1..], m);
      Ok([name] + rest)
  }

  function Enter(def: Option<Name>, m: Mapper): (Option<Name>, Mapper) {
    match def
    case None => (None, m)
    case Some(sName) => var (name, next) := Push(m, sName); (Some(name), next)
  }

  function Leave(def: Option<Name>, m: Mapper): Result<Mapper, Fault> {
    match def case None => Ok(m) case Some(name) => Pop(m, name)
  }

  function Rename(node: Node, m: Mapper): Result<(Node, Mapper), Fault>
    decreases node, 1
  {
    var (def, entered) := Enter(node.def, m);
    var (kids, inner) :- RenameAll(node.kids, entered);
    var uses :- ResolveAll(node.uses, inner);
    var left :- Leave(def, inner);
    Ok((Node(def, uses, kids), left))
  }

  function RenameAll(nodes: seq<Node>, m: Mapper): Result<(seq<Node>, Mapper), Fault>
    decreases nodes, 0
  {
    if nodes == [] then Ok(([], m))
    else
      var (first, next) :- Rename(nodes[0], m);
      var (rest, last) :- RenameAll(nodes[1..], next);
      Ok(([first] + rest, last))
  }

  // ---------- Looking for duplicates ----------

  /** The scope names a tree defines, in post-order. */
  function Defs(node: Node): seq<Name>
    decreases node, 1
  {
    AllDefs(node.kids) + match node.def case None => [] case Some(name) => [name]
  }

  function AllDefs(nodes: seq<Node>): seq<Name>
    decreases nodes, 0
  {
    if nodes == [] then [] else Defs(nodes[0]) + AllDefs(nodes[1..])
  }

  class DuplicateNameScanner {
    var ok: bool
    var seen: set<Name>

    ghost predicate Scanned(names: seq<Name>)
      reads this
    {
      && (ok <==> Distinct(names))
      && forall n :: n in seen <==> n in names
    }

    constructor ()
      ensures Scanned([])
    {
      ok, seen := true, {};
    }

    method Visit(name: Name, ghost before: seq<Name>)
      requires Scanned(before)
      modifies this
      ensures Scanned(before + [name])
    {
      ghost var after := before + [name];
      if name in seen {
        ok := false;
        ghost var i :| 0 <= i < |before| && before[i] == name;
        assert after[i] == after[|before|];
      } else {
        seen := seen + {name};
      }
      assert Distinct(after) ==> Distinct(before) by {
        assert forall k :: 0 <= k < |before| ==> after[k] == before[k];
      }
    }

    method Walk(node: Node, ghost before: seq<Name>)
      requires Scanned(before)
      modifies this
      ensures Scanned(before + Defs(node))
      decreases node
    {
      assert before + AllDefs([]) == before;
      ghost var done: seq<Name> := before;
      for i := 0 to |node.kids|
        invariant Scanned(done)
        invariant done + AllDefs(node.kids[i..]) == before + AllDefs(node.kids)
      {
        assert node.kids[i..][1..] == node.kids[i + 1..];
        Walk(node.kids[i], done);
        done := done + Defs(node.kids[i]);
      }
      assert done == before + AllDefs(node.kids);
      if node.def.Some? {
        Visit(node.def.value, done);
      }
      assert before + Defs(node) == done + match node.def case None => [] case Some(name) => [name];
    }
  }

  function Uniquified(node: Node): Result<Node, Fault> {
    if Distinct(Defs(node)) then Ok(node)
    else
      var (renamed, _) :- Rename(node, EMPTY);
      Ok(renamed)
  }

  method Uniquify(node: Node) returns (r: Result<Node, Fault>)
    ensures r == Uniquified(node)
  {
    var scanner := new DuplicateNameScanner();
    scanner.Walk(node, []);
    assert [] + Defs(node) == Defs(node);
    if scanner.ok {
      return Ok(node);
    }
    var mapper := new UniqueNameMapper();
    r := mapper.Walk(node);
  }
}
