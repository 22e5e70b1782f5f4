/** The abstract syntax and the tokens of uMDesc. */
module UmdescSyntax {
  import opened Results

  // ---------- Tokens ----------

  predicate IdentStart(c: char) {
    'A' <= c <= 'Z' || 'a' <= c <= 'z' || c == '_'
  }

  predicate IdentChar(c: char) {
    IdentStart(c) || '0' <= c <= '9' || c == '.'
  }

  /** [A-Za-z_][A-Za-z0-9_.]* */
  predicate IsIdent(s: string) {
    s != "" && IdentStart(s[0]) && forall i :: 0 <= i < |s| ==> IdentChar(s[i])
  }

  type Ident = s: string | IsIdent(s) witness "x"

  const ARCH: Ident := "arch"
  const REGISTER: Ident := "register"
  const MODE: Ident := "mode"
  const FORMAT: Ident := "format"
  const OP: Ident := "op"
  const ALIAS: Ident := "alias"
  const WORDSIZE: Ident := "wordsize"
  const ENDIANNESS: Ident := "endianness"
  const LITTLE: Ident := "little"
  const BIG: Ident := "big"
  const SYNTAX: Ident := "syntax"
  const IMAGE: Ident := "image"
  const ACTION: Ident := "action"

  const KEYWORDS: set<Ident> :=
    {ARCH, REGISTER, MODE, FORMAT, OP, ALIAS, WORDSIZE, ENDIANNESS, LITTLE, BIG, SYNTAX, IMAGE, ACTION}

  // A word's text decides whether it is a keyword, as in the lexer's IDENT rule.
  datatype Token = Word(text: Ident) | Int(value: nat) | Str(content: string) | DotDot | Lit(symbol: char)

  datatype Tokens = End | Cons(head: Token, tail: Tokens)

  function Length(tokens: Tokens): nat {
    match tokens case End => 0 case Cons(_, tail) => 1 + Length(tail)
  }

  predicate StartsWith(tokens: Tokens, token: Token) {
    tokens.Cons? && tokens.head == token
  }

  // ---------- Trees ----------

  datatype Expr = IntLit(value: nat) | IdentRef(name: Ident) | IndexRef(base: Ident, index: nat)
                | BinOp(op: char, left: Expr, right: Expr)

  datatype LValue = LValue(name: Ident, index: Option<nat>)

  datatype Stmt = Assignment(lhs: LValue, rhs: Expr) | Call(name: Ident, args: seq<Expr>)

  datatype Attr = SyntaxAttr(text: string) | ImageAttr(text: string) | ActionAttr(stmts: seq<Stmt>)

  datatype Param = Param(name: Ident, typeName: Ident)

  datatype Width = Fixed(n: nat) | Ranged(lo: nat, hi: nat)

  datatype Field = Field(name: Ident, width: Option<Width>)

  datatype ArchStmt =
    | Wordsize(value: nat)
    | Endianness(little: bool)
    | Alias(name: Ident, target: Ident)
    | RegisterDecl(name: Ident, count: nat, width: nat, names: Option<seq<Ident>>)
    | FormatDecl(name: Ident, fields: seq<Field>)
    | ModeDecl(name: Ident, params: seq<Param>)
    | OpDecl(name: Ident, params: seq<Param>, attrs: seq<Attr>)

  datatype Arch = Arch(name: string, body: seq<ArchStmt>)

  datatype File = File(decls: seq<Arch>)

  // ---------- Operators ----------

  /** Declared precedence, loosest first; all operators associate to the left. */
  function OpLevel(c: char): Option<nat> {
    if c == '|' || c == '^' then Some(0)
    else if c == '&' then Some(1)
    else if c == '+' || c == '-' then Some(2)
    else None
  }

  const ATOM := 3

  /** The level of the operator a token is. */
  function TokenLevel(token: Token): Option<nat> {
    if token.Lit? then OpLevel(token.symbol) else None
  }
}
