/** Expressions of uMDesc: the grammar with its declared precedence accepts exactly the token strings
    of the trees that respect the precedence, and each of them for one tree. */
module UmdescExpr {
  import opened Results
  import opened UmdescSyntax

  // A derivation: an expression with the parentheses it was written with.
  datatype Tree = Num(value: nat) | Ref(name: Ident) | Index(base: Ident, index: nat) | Paren(inner: Tree)
                | Bin(op: char, left: Tree, right: Tree)

  /** The tokens of a derivation, followed by the given ones. */
  function Yield(t: Tree, k: Tokens): Tokens {
    match t
    case Num(n) => Cons(Int(n), k)
    case Ref(name) => Cons(Word(name), k)
    case Index(base, i) => Cons(Word(base), Cons(Lit('['), Cons(Int(i), Cons(Lit(']'), k))))
    case Paren(inner) => Cons(Lit('('), Yield(inner, Cons(Lit(')'), k)))
    case Bin(op, left, right) => Yield(left, Cons(Lit(op), Yield(right, k)))
  }

  /** The level of the outermost operator, or ATOM. */
  function Strength(t: Tree): nat {
    if t.Bin? && OpLevel(t.op).Some? then OpLevel(t.op).value else ATOM
  }

  /** Every operator is known and its operands bind tighter; the left one may bind as tightly. */
  predicate Respects(t: Tree) {
    match t
    case Paren(inner) => Respects(inner)
    case Bin(op, left, right) =>
      && OpLevel(op).Some? && Respects(left) && Respects(right)
      && Strength(left) >= OpLevel(op).value && Strength(right) > OpLevel(op).value
    case _ => true
  }

  /** The abstract syntax of a derivation. */
  function Strip(t: Tree): Expr {
    match t
    case Num(n) => IntLit(n)
    case Ref(name) => IdentRef(name)
    case Index(base, i) => IndexRef(base, i)
    case Paren(inner) => Strip(inner)
    case Bin(op, left, right) => BinOp(op, Strip(left), Strip(right))
  }

  // ---------- Parsing ----------

  datatype Parsed<+T> = Fail | Done(value: T, rest: Tokens) {
    predicate IsFailure() {
      Fail?
    }

    function PropagateFailure<U>(): Parsed<U>
      requires Fail?
    {
      Fail
    }

    function Extract(): (T, Tokens)
      requires Done?
    {
      (value, rest)
    }

    function Then<U>(u: U): Parsed<U> {
      match this case Fail => Fail case Done(_, k) => Done(u, k)
    }
  }

  /** Operands, and an operator as long as its level is at least p. */
  function ParseExpr(tokens: Tokens, p: nat): (r: Parsed<Tree>)
    ensures r.Done? ==> Length(r.rest) < Length(tokens)
    decreases Length(tokens), 1
  {
    var (left, rest) :- ParseAtom(tokens);
    ParseOps(left, rest, p)
  }

  function ParseOps(left: Tree, tokens: Tokens, p: nat): (r: Parsed<Tree>)
    ensures r.Done? ==> Length(r.rest) <= Length(tokens)
    decreases Length(tokens), 2
  {
    if tokens.Cons? && TokenLevel(tokens.head).Some? && TokenLevel(tokens.head).value >= p then
      var (right, rest) :- ParseExpr(tokens.tail, TokenLevel(tokens.head).value + 1);
      ParseOps(Bin(tokens.head.symbol, left, right), rest, p)
    else Done(left, tokens)
  }

  /** INT and the closing bracket. */
  function ParseIndex(tokens: Tokens): (r: Parsed<nat>)
    ensures r.Done? ==> tokens == Cons(Int(r.value), Cons(Lit(']'), r.rest)) && Length(r.rest) < Length(tokens)
  {
    match tokens
    case Cons(Int(i), k) => if StartsWith(k, Lit(']')) then Done(i, k.tail) else Fail
    case _ => Fail
  }

  function ParseAtom(tokens: Tokens): (r: Parsed<Tree>)
    ensures r.Done? ==> Length(r.rest) < Length(tokens)
    decreases Length(tokens), 0
  {
    match tokens
    case Cons(Int(n), k) => Done(Num(n), k)
    case Cons(Word(name), k) =>
      if StartsWith(k, Lit('[')) then
        var (i, rest) :- ParseIndex(k.tail);
        Done(Index(name, i), rest)
      else Done(Ref(name), k)
    case Cons(Lit(c), k) =>
      if c != '(' then Fail
      else
        var (inner, rest) :- ParseExpr(k, 0);
        if StartsWith(rest, Lit(')')) then Done(Paren(inner), rest.tail) else Fail
    case _ => Fail
  }

  // ---------- Completeness ----------

  /** What may follow a tree without becoming part of it. */
  predicate Follows(t: Tree, k: Tokens) {
    k.Cons? ==> k.head != Lit('[') && (TokenLevel(k.head).Some? ==> TokenLevel(k.head).value <= Strength(t))
  }

  lemma {:induction false} AtomYield(t: Tree, k: Tokens, p: nat)
    requires Follows(t, k) && (t.Num? || t.Ref? || t.Index?)
    ensures ParseExpr(Yield(t, k), p) == ParseOps(t, k, p)
  {
    hide ParseOps;
  }

  lemma {:induction false} ParseYield(t: Tree, k: Tokens, p: nat)
    requires Respects(t) && Strength(t) >= p && Follows(t, k)
    ensures ParseExpr(Yield(t, k), p) == ParseOps(t, k, p)
    decreases t
  {
    match t {
      case Num(_) => AtomYield(t, k, p);
      case Ref(_) => AtomYield(t, k, p);
      case Index(_, _) => AtomYield(t, k, p);
      case Paren(inner) =>
        ParseYield(inner, Cons(Lit(')'), k), 0);
      case Bin(op, left, right) =>
        hide ParseAtom, ParseExpr;
        var level := OpLevel(op).value;
        ParseYield(left, Cons(Lit(op), Yield(right, k)), p);
        ParseYield(right, k, level + 1);
        assert ParseOps(right, k, level + 1) == Done(right, k);
    }
  }

  /** What may follow a complete expression. */
  predicate EndsExpr(k: Tokens) {
    k.Cons? ==> k.head != Lit('[') && TokenLevel(k.head).None?
  }

  /** Every derivation that respects the precedence is found from its tokens. */
  lemma {:induction false} ParseIsComplete(t: Tree, k: Tokens)
    requires Respects(t) && EndsExpr(k)
    ensures ParseExpr(Yield(t, k), 0) == Done(t, k)
  {
    ParseYield(t, k, 0);
  }

  // ---------- Soundness ----------

  lemma {:induction false} ParseExprIsSound(tokens: Tokens, p: nat)
    requires ParseExpr(tokens, p).Done?
    ensures
      var Done(t, k) := ParseExpr(tokens, p);
      tokens == Yield(t, k) && Respects(t) && Strength(t) >= (if p < ATOM then p else ATOM)
      && (k.Cons? && TokenLevel(k.head).Some? ==> TokenLevel(k.head).value < p)
    decreases Length(tokens), 1
  {
    ParseAtomIsSound(tokens);
    var Done(left, rest) := ParseAtom(tokens);
    ParseOpsIsSound(left, rest, p);
  }

  lemma {:induction false} ParseOpsIsSound(left: Tree, tokens: Tokens, p: nat)
    requires ParseOps(left, tokens, p).Done? && Respects(left) && Strength(left) >= (if p < ATOM then p else ATOM)
    requires tokens.Cons? && TokenLevel(tokens.head).Some? ==> TokenLevel(tokens.head).value <= Strength(left)
    ensures
      var Done(t, k) := ParseOps(left, tokens, p);
      Yield(left, tokens) == Yield(t, k) && Respects(t) && Strength(t) >= (if p < ATOM then p else ATOM)
      && (k.Cons? && TokenLevel(k.head).Some? ==> TokenLevel(k.head).value < p)
    decreases Length(tokens), 2
  {
    if tokens.Cons? && TokenLevel(tokens.head).Some? && TokenLevel(tokens.head).value >= p {
      var level := TokenLevel(tokens.head).value;
      ParseExprIsSound(tokens.tail, level + 1);
      var Done(right, rest) := ParseExpr(tokens.tail, level + 1);
      ParseOpsIsSound(Bin(tokens.head.symbol, left, right), rest, p);
    }
  }

  lemma {:induction false} ParseAtomIsSound(tokens: Tokens)
    requires ParseAtom(tokens).Done?
    ensures
      var Done(t, k) := ParseAtom(tokens);
      tokens == Yield(t, k) && Respects(t) && Strength(t) == ATOM
    decreases Length(tokens), 0
  {
    match tokens {
      case Cons(Int(_), k) =>
      case Cons(Word(_), k) =>
      case Cons(Lit(c), k) => ParseExprIsSound(k, 0);
    }
  }

  /** The grammar and its precedence, in one statement: parsing finds a derivation exactly when one respects the
      precedence, and it is the only one; so no token string has two. */
  lemma {:induction false} ParseIffDerives(tokens: Tokens, t: Tree, k: Tokens)
    requires EndsExpr(k)
    ensures ParseExpr(tokens, 0) == Done(t, k) <==> tokens == Yield(t, k) && Respects(t)
  {
    if tokens == Yield(t, k) && Respects(t) {
      ParseIsComplete(t, k);
    }
    if ParseExpr(tokens, 0) == Done(t, k) {
      ParseExprIsSound(tokens, 0);
    }
  }

  // ---------- The fewest parentheses ----------

  /** A derivation of an expression with parentheses only where the precedence needs them. */
  function Parenthesized(e: Expr): (t: Tree)
    ensures Strip(t) == e && (Known(e) ==> Respects(t)) && !t.Paren?
  {
    match e
    case IntLit(n) => Num(n)
    case IdentRef(name) => Ref(name)
    case IndexRef(base, i) => Index(base, i)
    case BinOp(op, left, right) =>
      var l, r := Parenthesized(left), Parenthesized(right);
      var level := match OpLevel(op) case Some(n) => n case None => ATOM;
      Bin(op, if Strength(l) >= level then l else Paren(l), if Strength(r) > level then r else Paren(r))
  }

  /** Only the five declared operators occur. */
  predicate Known(e: Expr) {
    match e
    case BinOp(op, left, right) => OpLevel(op).Some? && Known(left) && Known(right)
    case _ => true
  }

  function Parens(t: Tree): nat {
    match t
    case Paren(inner) => 1 + Parens(inner)
    case Bin(_, left, right) => Parens(left) + Parens(right)
    case _ => 0
  }

  /** No derivation of the same expression has fewer parentheses. */
  lemma {:induction false} ParenthesizedIsMinimal(t: Tree)
    requires Respects(t)
    ensures Parens(Parenthesized(Strip(t))) <= Parens(t)
    ensures Strength(Parenthesized(Strip(t))) < Strength(t) ==> Parens(Parenthesized(Strip(t))) < Parens(t)
    decreases t
  {
    match t {
      case Paren(inner) => ParenthesizedIsMinimal(inner);
      case Bin(_, left, right) =>
        ParenthesizedIsMinimal(left);
        ParenthesizedIsMinimal(right);
      case _ =>
    }
  }

  /** Expression round trip: printing with the fewest parentheses and parsing gives the expression back. */
  lemma {:induction false} ExprRoundTrip(e: Expr, k: Tokens)
    requires Known(e) && EndsExpr(k)
    ensures ParseExpr(Yield(Parenthesized(e), k), 0) == Done(Parenthesized(e), k) && Strip(Parenthesized(e)) == e
  {
    ParseIsComplete(Parenthesized(e), k);
  }

  // ---------- Tokens without their parentheses ----------

  function WithoutParens(tokens: Tokens): Tokens {
    match tokens
    case End => End
    case Cons(head, tail) =>
      if head == Lit('(') || head == Lit(')') then WithoutParens(tail) else Cons(head, WithoutParens(tail))
  }

  /** The leaves and operators of an expression from left to right. */
  function InOrder(e: Expr, k: Tokens): Tokens {
    match e
    case IntLit(n) => Cons(Int(n), k)
    case IdentRef(name) => Cons(Word(name), k)
    case IndexRef(base, i) => Cons(Word(base), Cons(Lit('['), Cons(Int(i), Cons(Lit(']'), k))))
    case BinOp(op, left, right) => InOrder(left, Cons(Lit(op), InOrder(right, k)))
  }

  lemma {:induction false} YieldWithoutParens(t: Tree, k: Tokens)
    requires Respects(t)
    ensures WithoutParens(Yield(t, k)) == InOrder(Strip(t), WithoutParens(k))
    decreases t
  {
    match t {
      case Num(_) =>
      case Ref(_) =>
      case Index(base, i) =>
        var k1 := Cons(Lit(']'), k);
        assert WithoutParens(k1) == Cons(Lit(']'), WithoutParens(k));
        var k2 := Cons(Int(i), k1);
        assert WithoutParens(k2) == Cons(Int(i), WithoutParens(k1));
        var k3 := Cons(Lit('['), k2);
        assert WithoutParens(k3) == Cons(Lit('['), WithoutParens(k2));
      case Paren(inner) => YieldWithoutParens(inner, Cons(Lit(')'), k));
      case Bin(op, left, right) =>
        YieldWithoutParens(left, Cons(Lit(op), Yield(right, k)));
        YieldWithoutParens(right, k);
    }
  }

  /** What a parsed expression says, read from left to right, is the tokens without their parentheses. */
  lemma {:induction false} ParsedInOrder(tokens: Tokens, p: nat)
    requires ParseExpr(tokens, p).Done?
    ensures WithoutParens(tokens)
         == InOrder(Strip(ParseExpr(tokens, p).value), WithoutParens(ParseExpr(tokens, p).rest))
  {
    ParseExprIsSound(tokens, p);
    YieldWithoutParens(ParseExpr(tokens, p).value, ParseExpr(tokens, p).rest);
  }

  // ---------- The precedence table ----------

  predicate IsOperand(t: Tree) {
    t.Num? || t.Ref? || t.Index?
  }

  /** Of two operators the second one binds tighter: plus and minus tighter than and, and that tighter than or and
      exclusive or; operators of one level go together from the left. */
  lemma {:induction false} TwoOperators(a: Tree, op1: char, b: Tree, op2: char, c: Tree, k: Tokens)
    requires IsOperand(a) && IsOperand(b) && IsOperand(c)
    requires op1 in {'|', '^', '&', '+', '-'} && op2 in {'|', '^', '&', '+', '-'}
    requires k == End || k.head in {Lit(';'), Lit(')'), Lit(',')}
    ensures
      var tokens := Yield(a, Cons(Lit(op1), Yield(b, Cons(Lit(op2), Yield(c, k)))));
      var second := (op1 in {'|', '^'} && op2 in {'&', '+', '-'}) || (op1 == '&' && op2 in {'+', '-'});
      ParseExpr(tokens, 0) == Done(if second then Bin(op1, a, Bin(op2, b, c)) else Bin(op2, Bin(op1, a, b), c), k)
  {
    hide ParseExpr, Yield;
    var right, left := Bin(op1, a, Bin(op2, b, c)), Bin(op2, Bin(op1, a, b), c);
    YieldBoth(a, op1, b, op2, c, k);
    assert Respects(Bin(op1, a, b)) && Respects(Bin(op2, b, c));
    if (op1 in {'|', '^'} && op2 in {'&', '+', '-'}) || (op1 == '&' && op2 in {'+', '-'}) {
      assert Respects(right);
      ParseIsComplete(right, k);
    } else {
      assert Respects(left);
      ParseIsComplete(left, k);
    }
  }

  lemma {:induction false} YieldBoth(a: Tree, op1: char, b: Tree, op2: char, c: Tree, k: Tokens)
    ensures
      var tokens := Yield(a, Cons(Lit(op1), Yield(b, Cons(Lit(op2), Yield(c, k)))));
      Yield(Bin(op1, a, Bin(op2, b, c)), k) == tokens && Yield(Bin(op2, Bin(op1, a, b), c), k) == tokens
  {
  }
}
