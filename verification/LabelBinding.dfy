/** Making labels unique preserves what every branch is bound to. */
module LabelBinding {
  import opened Decimals
  import opened Results
  import opened Lists
  import opened Labels

  // ---------- Binding, in terms of nesting only ----------

  // Where a branch goes: to the caller, or that many scopes outwards.
  datatype Target = Caller | Level(n: nat) | Unbound

  // A tree with every scope name replaced by the nesting level it stands for.
  datatype Shape = Shape(scope: bool, targets: seq<Target>, kids: seq<Shape>)

  /** How far from the innermost scope (the last of env) the one with this name is. */
  function Depth(env: seq<Name>, name: Name): Option<nat> {
    if env == [] then None
    else if env[|env| - 1] == name then Some(0)
    else match Depth(env[..|env| - 1], name) case None => None case Some(n) => Some(n + 1)
  }

  function TargetOf(env: seq<Name>, name: Name): Target {
    if name == DELEGATE_CALLER_TARGET then Caller
    else match Depth(env, name) case None => Unbound case Some(n) => Level(n)
  }

  function Targets(env: seq<Name>, names: seq<Name>): (r: seq<Target>)
    ensures |r| == |names|
  {
    if names == [] then [] else [TargetOf(env, names[0])] + Targets(env, names[1..])
  }

  function Within(env: seq<Name>, def: Option<Name>): seq<Name> {
    match def case None => env case Some(name) => env + [name]
  }

  function Bind(env: seq<Name>, node: Node): Shape
    decreases node, 1
  {
    var inner := Within(env, node.def);
    Shape(node.def.Some?, Targets(inner, node.uses), BindAll(inner, node.kids))
  }

  function BindAll(env: seq<Name>, nodes: seq<Node>): seq<Shape>
    decreases nodes, 0
  {
    if nodes == [] then [] else [Bind(env, nodes[0])] + BindAll(env, nodes[1..])
  }

  /** Every used name is in scope, or is the caller's. */
  predicate Closed(env: seq<Name>, node: Node)
    decreases node, 1
  {
    var inner := Within(env, node.def);
    && (forall name :: name in node.uses ==> TargetOf(inner, name) != Unbound)
    && AllClosed(inner, node.kids)
  }

  predicate AllClosed(env: seq<Name>, nodes: seq<Node>)
    decreases nodes, 0
  {
    nodes == [] || (Closed(env, nodes[0]) && AllClosed(env, nodes[1..]))
  }

  // ---------- The mapper's invariant ----------

  /** The part of the stack whose source name is sName, in order. */
  function Filter(stack: seq<Name>, reverse: map<Name, Name>, sName: Name): seq<Name>
    requires forall n :: n in stack ==> n in reverse
  {
    if stack == [] then []
    else
      var top := stack[|stack| - 1];
      Filter(stack[..|stack| - 1], reverse, sName) + if reverse[top] == sName then [top] else []
  }

  /** The source names of the open scopes. */
  function Sources(stack: seq<Name>, reverse: map<Name, Name>): (r: seq<Name>)
    requires forall n :: n in stack ==> n in reverse
    ensures |r| == |stack|
  {
    if stack == [] then []
    else Sources(stack[..|stack| - 1], reverse) + [reverse[stack[|stack| - 1]]]
  }

  /** What holds of the mapper in every reachable state. */
  ghost predicate Inv(m: Mapper) {
    && Distinct(m.stack)
    && (forall n :: n in m.stack ==> n in m.reverse)
    && (forall s :: Bound(m, s) == Filter(m.stack, m.reverse, s))
    && (forall n :: n in m.stack && n == DELEGATE_CALLER_TARGET ==> m.reverse[n] == DELEGATE_CALLER_TARGET)
  }

  function Env(m: Mapper): seq<Name>
    requires forall n :: n in m.stack ==> n in m.reverse
  {
    Sources(m.stack, m.reverse)
  }

  /** Names once taken stay taken, with the same source. */
  ghost predicate Grows(a: map<Name, Name>, b: map<Name, Name>) {
    forall n :: n in a ==> n in b && b[n] == a[n]
  }

  lemma {:induction false} FilterGrows(stack: seq<Name>, a: map<Name, Name>, b: map<Name, Name>, sName: Name)
    requires Grows(a, b) && forall n :: n in stack ==> n in a
    ensures Filter(stack, a, sName) == Filter(stack, b, sName)
    ensures Sources(stack, a) == Sources(stack, b)
  {
    if stack != [] {
      FilterGrows(stack[..|stack| - 1], a, b, sName);
    }
  }

  /** The last bound name is as deep on the stack as its source name is among the sources. */
  lemma {:induction false} LastIsInnermost(stack: seq<Name>, reverse: map<Name, Name>, sName: Name)
    requires Distinct(stack) && forall n :: n in stack ==> n in reverse
    ensures var bound := Filter(stack, reverse, sName);
      && (bound == [] <==> Depth(Sources(stack, reverse), sName).None?)
      && (bound != [] ==>
            && bound[|bound| - 1] in stack && reverse[bound[|bound| - 1]] == sName
            && Depth(stack, bound[|bound| - 1]) == Depth(Sources(stack, reverse), sName))
  {
    if stack != [] {
      var i := |stack| - 1;
      var below := stack[..i];
      LastIsInnermost(below, reverse, sName);
      assert Sources(stack, reverse)[..i] == Sources(below, reverse);
      if reverse[stack[i]] != sName && Filter(below, reverse, sName) != [] {
        var last := Filter(below, reverse, sName)[|Filter(below, reverse, sName)| - 1];
        assert last in below;
        assert last != stack[i];
      }
    }
  }

  lemma {:induction false} FreshIsNotCaller(m: Mapper, sName: Name)
    ensures PrefixedName(m, sName).0 !in m.reverse
    ensures PrefixedName(m, sName).0 == DELEGATE_CALLER_TARGET ==> sName == DELEGATE_CALLER_TARGET
  {
    if sName in m.reverse {
      var k := FreeIndex(sName, m.reverse.Keys, m.otherIndex);
      var name := Indexed(sName, k);
      assert name[|name| - 1] == ToString(k)[|ToString(k)| - 1];
      assert DELEGATE_CALLER_TARGET[|DELEGATE_CALLER_TARGET| - 1] == 't';
    }
  }

  lemma {:induction false} FilterPushed(stack: seq<Name>, reverse: map<Name, Name>, name: Name, sName: Name, s: Name)
    requires name !in reverse && forall n :: n in stack ==> n in reverse
    ensures
      var after := reverse[name := sName];
      && Filter(stack + [name], after, s) == Filter(stack, reverse, s) + (if s == sName then [name] else [])
      && Sources(stack + [name], after) == Sources(stack, reverse) + [sName]
  {
    assert (stack + [name])[..|stack|] == stack;
    FilterGrows(stack, reverse, reverse[name := sName], s);
  }

  lemma {:induction false} PushKeepsInv(m: Mapper, sName: Name)
    requires Inv(m)
    ensures
      var (name, next) := Push(m, sName);
      && Inv(next) && name !in m.reverse && name in next.reverse && Grows(m.reverse, next.reverse)
      && next.stack == m.stack + [name] && Env(next) == Env(m) + [sName]
  {
    hide PrefixedName, Filter, Sources;
    var (name, next) := Push(m, sName);
    FreshIsNotCaller(m, sName);
    forall s ensures Bound(next, s) == Filter(next.stack, next.reverse, s) {
      FilterPushed(m.stack, m.reverse, name, sName, s);
      assert Bound(m, s) == Filter(m.stack, m.reverse, s);
    }
    FilterPushed(m.stack, m.reverse, name, sName, sName);
  }

  lemma {:induction false} PopKeepsInv(m: Mapper)
    requires Inv(m) && m.stack != []
    ensures
      var r := Pop(m, m.stack[|m.stack| - 1]);
      r.Ok? && Inv(r.value) && r.value.stack == m.stack[..|m.stack| - 1] && r.value.reverse == m.reverse
  {
    var name := m.stack[|m.stack| - 1];
    var sName := m.reverse[name];
    assert Bound(m, sName) == Filter(m.stack, m.reverse, sName);
    var left := Pop(m, name).value;
    forall s ensures Bound(left, s) == Filter(left.stack, left.reverse, s) {
      assert Bound(m, s) == Filter(m.stack, m.reverse, s);
    }
  }

  // ---------- The walk ----------

  lemma {:induction false} SourceToUniqueBinds(m: Mapper, sName: Name)
    requires Inv(m)
    ensures SourceToUnique(m, sName).Ok? <==> TargetOf(Env(m), sName) != Unbound
    ensures SourceToUnique(m, sName).Ok? ==>
              TargetOf(m.stack, SourceToUnique(m, sName).value) == TargetOf(Env(m), sName)
  {
    LastIsInnermost(m.stack, m.reverse, sName);
    assert Bound(m, sName) == Filter(m.stack, m.reverse, sName);
  }

  lemma {:induction false} ResolveAllBinds(uses: seq<Name>, m: Mapper)
    requires Inv(m)
    ensures ResolveAll(uses, m).Ok? <==> forall u :: u in uses ==> TargetOf(Env(m), u) != Unbound
    ensures ResolveAll(uses, m).Ok? ==> Targets(m.stack, ResolveAll(uses, m).value) == Targets(Env(m), uses)
  {
    hide Inv, SourceToUnique, TargetOf;
    if uses != [] {
      assert uses == [uses[0]] + uses[1..];
      SourceToUniqueBinds(m, uses[0]);
      ResolveAllBinds(uses[1..], m);
      if ResolveAll(uses, m).Ok? {
        assert ResolveAll(uses, m).value[1..] == ResolveAll(uses[1..], m).value;
      }
    }
  }

  /** What renaming under m promises about its result. */
  ghost predicate Renamed(m: Mapper, next: Mapper, defs: seq<Name>) {
    && Inv(next) && next.stack == m.stack && Grows(m.reverse, next.reverse)
    && Distinct(defs)
    && forall n :: n in defs ==> n !in m.reverse && n in next.reverse
  }

  lemma {:induction false} RenameBinds(node: Node, m: Mapper)
    requires Inv(m)
    ensures Rename(node, m).Ok? <==> Closed(Env(m), node)
    ensures Rename(node, m).Ok? ==>
              var (renamed, next) := Rename(node, m).value;
              Renamed(m, next, Defs(renamed)) && Bind(m.stack, renamed) == Bind(Env(m), node)
    decreases node, 1
  {
    hide Inv, TargetOf, Push, Pop;
    var (def, entered) := Enter(node.def, m);
    EnterKeeps(node.def, m);
    RenameAllBinds(node.kids, entered);
    if RenameAll(node.kids, entered).Ok? {
      var (kids, inner) := RenameAll(node.kids, entered).value;
      SourcesGrow(entered, inner);
      ResolveAllBinds(node.uses, inner);
      if ResolveAll(node.uses, inner).Ok? {
        LeaveKeeps(def, m, entered, inner, AllDefs(kids));
      }
    }
  }

  lemma {:induction false} EnterKeeps(def: Option<Name>, m: Mapper)
    requires Inv(m)
    ensures
      var (name, entered) := Enter(def, m);
      && Inv(entered) && Grows(m.reverse, entered.reverse)
      && name.Some? == def.Some?
      && entered.stack == Within(m.stack, name) && Env(entered) == Within(Env(m), def)
      && (name.Some? ==> name.value !in m.reverse && name.value in entered.reverse)
      && (name.None? ==> entered == m)
  {
    hide Inv, Push;
    match def {
      case None =>
      case Some(sName) => PushKeepsInv(m, sName);
    }
  }

  lemma {:induction false} SourcesGrow(a: Mapper, b: Mapper)
    requires Inv(a) && Inv(b) && a.stack == b.stack && Grows(a.reverse, b.reverse)
    ensures Env(a) == Env(b)
  {
    FilterGrows(a.stack, a.reverse, b.reverse, "");
  }

  lemma {:induction false} LeaveKeeps(def: Option<Name>, m: Mapper, entered: Mapper, inner: Mapper, defs: seq<Name>)
    requires Inv(m) && Renamed(entered, inner, defs) && Grows(m.reverse, entered.reverse)
    requires entered.stack == Within(m.stack, def)
    requires def.Some? ==> def.value !in m.reverse && def.value in entered.reverse
    ensures Leave(def, inner).Ok?
    ensures Renamed(m, Leave(def, inner).value, defs + match def case None => [] case Some(name) => [name])
  {
    hide Inv, Pop;
    match def {
      case None => assert defs + [] == defs;
      case Some(name) =>
        PopKeepsInv(inner);
        assert inner.stack[..|inner.stack| - 1] == m.stack;
    }
  }

  lemma {:induction false} RenamedTwice(m: Mapper, mid: Mapper, last: Mapper, a: seq<Name>, b: seq<Name>)
    requires Renamed(m, mid, a) && Renamed(mid, last, b)
    ensures Renamed(m, last, a + b)
  {
    hide Inv;
    forall i, j | 0 <= i < j < |a + b| ensures (a + b)[i] != (a + b)[j] {
      if i < |a| <= j {
        assert a[i] in a && b[j - |a|] in b;
      }
    }
  }

  lemma {:induction false} RenameAllBinds(nodes: seq<Node>, m: Mapper)
    requires Inv(m)
    ensures RenameAll(nodes, m).Ok? <==> AllClosed(Env(m), nodes)
    ensures RenameAll(nodes, m).Ok? ==>
              var (renamed, next) := RenameAll(nodes, m).value;
              Renamed(m, next, AllDefs(renamed)) && BindAll(m.stack, renamed) == BindAll(Env(m), nodes)
    decreases nodes, 0
  {
    hide Inv, Rename, Closed, Bind, Defs;
    if nodes != [] {
      RenameBinds(nodes[0], m);
      if Rename(nodes[0], m).Ok? {
        var (first, mid) := Rename(nodes[0], m).value;
        SourcesGrow(m, mid);
        RenameAllBinds(nodes[1..], mid);
        if RenameAll(nodes[1..], mid).Ok? {
          var (rest, last) := RenameAll(nodes[1..], mid).value;
          assert ([first] + rest)[1..] == rest;
          RenamedTwice(m, mid, last, Defs(first), AllDefs(rest));
        }
      }
    }
  }

  // ---------- Uniquify ----------

  lemma EmptyInv()
    ensures Inv(EMPTY) && Env(EMPTY) == []
  {
  }

  /** Every tree whose names are bound, and every tree without repeated names, is made unique, and every branch
      of the result goes where it went; a tree with repeated names and an unbound one is rejected. */
  lemma {:induction false} UniquifyPreservesBinding(node: Node)
    ensures Uniquified(node).Ok? <==> Distinct(Defs(node)) || Closed([], node)
    ensures Uniquified(node).Ok? ==>
      && Distinct(Defs(Uniquified(node).value))
      && Bind([], Uniquified(node).value) == Bind([], node)
  {
    EmptyInv();
    RenameBinds(node, EMPTY);
  }

  /** A second time changes nothing. */
  lemma {:induction false} UniquifyIsIdempotent(node: Node)
    requires Uniquified(node).Ok?
    ensures Uniquified(Uniquified(node).value) == Uniquified(node)
  {
    UniquifyPreservesBinding(node);
  }

  /** The walk leaves no scope open. */
  lemma {:induction false} WalkEndsEmpty(node: Node)
    requires Closed([], node)
    ensures Rename(node, EMPTY).Ok? && Rename(node, EMPTY).value.1.stack == []
  {
    EmptyInv();
    RenameBinds(node, EMPTY);
  }

  // ---------- Any run of the mapper ----------

  // Opening a scope, using a name, and closing the scope that the i-th opening made, by the name it was given.
  datatype Op = Open(sName: Name) | Use(sName: Name) | Close(opening: nat)

  // The mapper, and the names it has given out.
  datatype Client = Client(mapper: Mapper, given: seq<Name>)

  function Perform(op: Op, c: Client): Result<Client, Fault> {
    match op
    case Open(s) => (var (name, m) := Push(c.mapper, s); Ok(Client(m, c.given + [name])))
    case Use(s) => (var _ :- SourceToUnique(c.mapper, s); Ok(c))
    case Close(i) =>
      if i >= |c.given| then Err(AssertTop)
      else
        var m :- Pop(c.mapper, c.given[i]);
        Ok(c.(mapper := m))
  }

  function Run(ops: seq<Op>, c: Client): Result<Client, Fault> {
    if ops == [] then Ok(c)
    else
      var next :- Perform(ops[0], c);
      Run(ops[1..], next)
  }

  // The scopes that are open, each by its opening and its source name, and how many openings there were.
  datatype Scopes = Scopes(openings: seq<nat>, env: seq<Name>, count: nat)

  /** The scopes open after the operations, if each closing is of the innermost one and each use is in scope. */
  function Nesting(ops: seq<Op>, n: Scopes): Option<Scopes> {
    if ops == [] then Some(n)
    else
      var last := |n.openings| - 1;
      match ops[0]
      case Open(s) => Nesting(ops[1..], Scopes(n.openings + [n.count], n.env + [s], n.count + 1))
      case Use(s) => if TargetOf(n.env, s) == Unbound then None else Nesting(ops[1..], n)
      case Close(i) =>
        if last < 0 || n.openings[last] != i || n.env == [] then None
        else Nesting(ops[1..], Scopes(n.openings[..last], n.env[..|n.env| - 1], n.count))
  }

  /** The mapper's invariant; the stack is the names given to the scopes that are open; no name was given twice. */
  ghost predicate ClientInv(c: Client, n: Scopes) {
    && Inv(c.mapper) && Env(c.mapper) == n.env && |c.given| == n.count
    && |n.openings| == |c.mapper.stack|
    && (forall k :: 0 <= k < |n.openings| ==> n.openings[k] < n.count && c.given[n.openings[k]] == c.mapper.stack[k])
    && Distinct(c.given) && forall name :: name in c.given ==> name in c.mapper.reverse
  }

  lemma {:induction false} StepKeepsClientInv(op: Op, c: Client, n: Scopes)
    requires ClientInv(c, n)
    ensures Perform(op, c).Ok? <==> Nesting([op], n).Some?
    ensures Perform(op, c).Ok? ==>
      && ClientInv(Perform(op, c).value, Nesting([op], n).value)
      && Grows(c.mapper.reverse, Perform(op, c).value.mapper.reverse)
  {
    hide Inv, Push, Pop, SourceToUnique, TargetOf;
    var m := c.mapper;
    match op {
      case Open(s) => PushKeepsInv(m, s);
      case Use(s) => SourceToUniqueBinds(m, s);
      case Close(i) =>
        if m.stack != [] {
          PopKeepsInv(m);
          CloseSources(m);
        }
        if i < |c.given| {
          PopNeedsTop(m, c.given[i]);
        }
    }
  }

  lemma PopNeedsTop(m: Mapper, name: Name)
    ensures Pop(m, name).Ok? ==> m.stack != [] && m.stack[|m.stack| - 1] == name
  {
  }

  /** From any state with the invariant, a run fails exactly when it is not properly nested, popping a name other than
      the top one included; otherwise the invariant holds again, the open scopes are those of the nesting, and names
      once taken stay taken. */
  lemma {:induction false} RunKeepsInv(ops: seq<Op>, c: Client, n: Scopes)
    requires ClientInv(c, n)
    ensures Run(ops, c).Ok? <==> Nesting(ops, n).Some?
    ensures Run(ops, c).Ok? ==>
      && ClientInv(Run(ops, c).value, Nesting(ops, n).value)
      && Grows(c.mapper.reverse, Run(ops, c).value.mapper.reverse)
  {
    hide ClientInv, Perform, TargetOf;
    if ops != [] {
      StepKeepsClientInv(ops[0], c, n);
      assert [ops[0]][1..] == [];
      if Perform(ops[0], c).Ok? {
        RunKeepsInv(ops[1..], Perform(ops[0], c).value, Nesting([ops[0]], n).value);
      }
    }
  }

  /** So from a new mapper; and a run whose scopes are all closed ends with an empty stack. */
  lemma {:induction false} RunOfNewMapper(ops: seq<Op>)
    ensures Run(ops, Client(EMPTY, [])).Ok? <==> Nesting(ops, Scopes([], [], 0)).Some?
    ensures Run(ops, Client(EMPTY, [])).Ok? ==>
      && ClientInv(Run(ops, Client(EMPTY, [])).value, Nesting(ops, Scopes([], [], 0)).value)
      && (Nesting(ops, Scopes([], [], 0)).value.openings == [] ==> Run(ops, Client(EMPTY, [])).value.mapper.stack == [])
  {
    EmptyInv();
    RunKeepsInv(ops, Client(EMPTY, []), Scopes([], [], 0));
  }

  lemma CloseSources(m: Mapper)
    requires Inv(m) && m.stack != []
    ensures Env(m)[..|m.stack| - 1] == Sources(m.stack[..|m.stack| - 1], m.reverse)
  {
  }

  // ---------- The names given ----------

  /** A name that was never given is kept; otherwise it gets the first number from the counter on that makes it new, and
      the counter goes past that number. */
  lemma {:induction false} NamesGiven(m: Mapper, sName: Name)
    ensures
      var (name, next) := Push(m, sName);
      && (sName !in m.reverse ==> name == sName && next.otherIndex == m.otherIndex)
      && (sName in m.reverse ==>
            && next.otherIndex > m.otherIndex && name == sName + ToString(next.otherIndex - 1)
            && forall i :: m.otherIndex <= i < next.otherIndex - 1 ==> sName + ToString(i) in m.reverse)
  {
    assert forall i: nat :: Indexed(sName, i) == sName + ToString(i);
  }

  /** The first name that is given twice becomes itself and a zero, and then itself and a one. */
  lemma {:induction false} FirstNumbers(sName: Name)
    ensures
      var (first, m1) := Push(EMPTY, sName);
      var (second, m2) := Push(m1, sName);
      var (third, _) := Push(m2, sName);
      first == sName && second == sName + "0" && third == sName + "1"
  {
    var (_, m1) := Push(EMPTY, sName);
    NamesGiven(EMPTY, sName);
    NamesGiven(m1, sName);
    assert ToString(0) == "0" && ToString(1) == "1";
    assert Indexed(sName, 0) == sName + "0" && Indexed(sName, 1) == sName + "1";
    assert |sName + "0"| == |sName + "1"| == |sName| + 1;
    assert (sName + "0")[|sName|] != (sName + "1")[|sName|];
  }

  /** A name and what it has become: itself, or itself with a number. */
  ghost predicate IsNumbered(old_: Name, new_: Name) {
    new_ == old_ || exists i: nat :: new_ == old_ + ToString(i)
  }

  ghost predicate AllNumbered(old_: seq<Name>, new_: seq<Name>) {
    |new_| == |old_| && forall i :: 0 <= i < |old_| ==> IsNumbered(old_[i], new_[i])
  }

  /** Renaming changes names only by numbers behind them. */
  lemma {:induction false} RenamedByNumbers(node: Node, m: Mapper)
    requires Rename(node, m).Ok?
    ensures AllNumbered(Defs(node), Defs(Rename(node, m).value.0))
    decreases node, 1
  {
    hide PrefixedName, Pop, SourceToUnique, ResolveAll;
    var (def, entered) := Enter(node.def, m);
    AllRenamedByNumbers(node.kids, entered);
    if node.def.Some? {
      NamesGiven(m, node.def.value);
    }
  }

  lemma {:induction false} AllRenamedByNumbers(nodes: seq<Node>, m: Mapper)
    requires RenameAll(nodes, m).Ok?
    ensures AllNumbered(AllDefs(nodes), AllDefs(RenameAll(nodes, m).value.0))
    decreases nodes, 0
  {
    hide Rename;
    if nodes != [] {
      RenamedByNumbers(nodes[0], m);
      var (first, next) := Rename(nodes[0], m).value;
      AllRenamedByNumbers(nodes[1..], next);
      var rest := RenameAll(nodes[1..], next).value.0;
      assert ([first] + rest)[1..] == rest;
    }
  }

  lemma {:induction false} UniquifiedByNumbers(node: Node)
    requires Uniquified(node).Ok?
    ensures AllNumbered(Defs(node), Defs(Uniquified(node).value))
  {
    if !Distinct(Defs(node)) {
      RenamedByNumbers(node, EMPTY);
    }
  }

  // ---------- Which exception ----------

  /** Lookups know exactly the names opened so far. */
  lemma {:induction false} KnownNames(ops: seq<Op>, c: Client, s: Name)
    requires Run(ops, c).Ok?
    requires forall n :: n in c.mapper.stack ==> n in c.mapper.reverse && c.mapper.reverse[n] in c.mapper.mappings
    ensures s in Run(ops, c).value.mapper.mappings <==> s in c.mapper.mappings || Open(s) in ops
  {
    hide PrefixedName;
    if ops != [] {
      var next := Perform(ops[0], c).value;
      assert forall n :: n in next.mapper.stack ==>
        n in next.mapper.reverse && next.mapper.reverse[n] in next.mapper.mappings;
      KnownNames(ops[1..], next, s);
      assert ops == [ops[0]] + ops[1..];
    }
  }

  /** After any run of a new mapper, looking up a name that is not open fails, by the exception for a bad label if it
      was never opened and by the one for a popped label if it was; the caller's target never fails. */
  lemma {:induction false} WhichException(ops: seq<Op>, s: Name)
    requires Run(ops, Client(EMPTY, [])).Ok?
    ensures Nesting(ops, Scopes([], [], 0)).Some?
    ensures
      var m := Run(ops, Client(EMPTY, [])).value.mapper;
      var env := Nesting(ops, Scopes([], [], 0)).value.env;
      && (s == "__binaryen_delegate_caller_target" ==> SourceToUnique(m, s) == Ok(s))
      && (s != "__binaryen_delegate_caller_target" && s !in env ==>
            SourceToUnique(m, s) == Err(if Open(s) in ops then PoppedLabel(s) else BadLabel(s)))
      && (s in env ==> SourceToUnique(m, s).Ok?)
  {
    hide Run, Nesting;
    RunOfNewMapper(ops);
    KnownNames(ops, Client(EMPTY, []), s);
    var c, n := Run(ops, Client(EMPTY, [])).value, Nesting(ops, Scopes([], [], 0)).value;
    assert ClientInv(c, n);
    SourceToUniqueBinds(c.mapper, s);
    InEnv(n.env, s);
  }

  lemma {:induction false} InEnv(env: seq<Name>, s: Name)
    ensures Depth(env, s).Some? <==> s in env
  {
    if env != [] {
      InEnv(env[..|env| - 1], s);
    }
  }
}
