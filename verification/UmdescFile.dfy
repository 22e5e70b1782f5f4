/** The whole uMDesc grammar: a parser that follows its rules finds exactly its derivations. */
module UmdescFile {
  import opened Decimals
  import opened Results
  import opened Lists
  import opened UmdescSyntax
  import opened UmdescExpr

  // ---------- Parsing ----------

  function Expect(tokens: Tokens, token: Token): (r: Parsed<()>)
    ensures r.Done? ==> Length(r.rest) < Length(tokens)
  {
    if StartsWith(tokens, token) then Done((), tokens.tail) else Fail
  }

  /** ident: a word, keyword or not. */
  function ParseIdent(tokens: Tokens): (r: Parsed<Ident>)
    ensures r.Done? ==> Length(r.rest) < Length(tokens)
  {
    match tokens case Cons(Word(text), k) => Done(text, k) case _ => Fail
  }

  function ParseInt(tokens: Tokens): (r: Parsed<nat>)
    ensures r.Done? ==> Length(r.rest) < Length(tokens)
  {
    match tokens case Cons(Int(n), k) => Done(n, k) case _ => Fail
  }

  function ParseStr(tokens: Tokens): (r: Parsed<string>)
    ensures r.Done? ==> Length(r.rest) < Length(tokens)
  {
    match tokens case Cons(Str(text), k) => Done(text, k) case _ => Fail
  }

  /** name_part: a word that is no keyword, or a number's decimal spelling. */
  function ParseNamePart(tokens: Tokens): (r: Parsed<string>)
    ensures r.Done? ==> Length(r.rest) < Length(tokens)
  {
    match tokens
    case Cons(Word(text), k) => if text in KEYWORDS then Fail else Done(text, k)
    case Cons(Int(n), k) => Done(ToString(n), k)
    case _ => Fail
  }

  function ParseNameRest(name: string, tokens: Tokens): (r: Parsed<string>)
    ensures r.Done? ==> Length(r.rest) <= Length(tokens)
    decreases Length(tokens)
  {
    if StartsWith(tokens, Lit('-')) then
      var (part, k) :- ParseNamePart(tokens.tail);
      ParseNameRest(name + "-" + part, k)
    else Done(name, tokens)
  }

  function ParseName(tokens: Tokens): (r: Parsed<string>)
    ensures r.Done? ==> Length(r.rest) < Length(tokens)
  {
    var (part, k) :- ParseNamePart(tokens);
    ParseNameRest(part, k)
  }

  function ParseOptIndex(tokens: Tokens): (r: Parsed<Option<nat>>)
    ensures r.Done? ==> Length(r.rest) <= Length(tokens)
  {
    if StartsWith(tokens, Lit('[')) then
      var (i, k) :- ParseIndex(tokens.tail);
      Done(Some(i), k)
    else Done(None, tokens)
  }

  function ParseExpression(tokens: Tokens): (r: Parsed<Expr>)
    ensures r.Done? ==> Length(r.rest) < Length(tokens)
  {
    var (t, k) :- ParseExpr(tokens, 0);
    Done(Strip(t), k)
  }

  function ParseArgList(tokens: Tokens): (r: Parsed<seq<Expr>>)
    ensures r.Done? ==> Length(r.rest) < Length(tokens)
    decreases Length(tokens)
  {
    var (e, k) :- ParseExpression(tokens);
    if StartsWith(k, Lit(',')) then
      var (es, k') :- ParseArgList(k.tail);
      Done([e] + es, k')
    else Done([e], k)
  }

  function ParseOptArgs(tokens: Tokens): (r: Parsed<seq<Expr>>)
    ensures r.Done? ==> Length(r.rest) <= Length(tokens)
  {
    if StartsWith(tokens, Lit(')')) then Done([], tokens) else ParseArgList(tokens)
  }

  function ParseStmt(tokens: Tokens): (r: Parsed<Stmt>)
    ensures r.Done? ==> Length(r.rest) < Length(tokens)
  {
    var (name, k0) :- ParseIdent(tokens);
    if StartsWith(k0, Lit('(')) then
      var (args, k1) :- ParseOptArgs(k0.tail);
      var (_, k2) :- Expect(k1, Lit(')'));
      var (_, k3) :- Expect(k2, Lit(';'));
      Done(Call(name, args), k3)
    else
      var (index, k1) :- ParseOptIndex(k0);
      var (_, k2) :- Expect(k1, Lit('='));
      var (rhs, k3) :- ParseExpression(k2);
      var (_, k4) :- Expect(k3, Lit(';'));
      Done(Assignment(LValue(name, index), rhs), k4)
  }

  function ParseStmts(tokens: Tokens): (r: Parsed<seq<Stmt>>)
    ensures r.Done? ==> Length(r.rest) < Length(tokens)
    decreases Length(tokens)
  {
    if StartsWith(tokens, Lit('}')) then Done([], tokens.tail)
    else
      var (x, k) :- ParseStmt(tokens);
      var (xs, k') :- ParseStmts(k);
      Done([x] + xs, k')
  }

  function ParseAttr(tokens: Tokens): (r: Parsed<Attr>)
    ensures r.Done? ==> Length(r.rest) < Length(tokens)
  {
    if StartsWith(tokens, Word(SYNTAX)) then
      var (text, k) :- ParseStr(tokens.tail);
      var (_, k') :- Expect(k, Lit(';'));
      Done(SyntaxAttr(text), k')
    else if StartsWith(tokens, Word(IMAGE)) then
      var (text, k) :- ParseStr(tokens.tail);
      var (_, k') :- Expect(k, Lit(';'));
      Done(ImageAttr(text), k')
    else
      var (_, k) :- Expect(tokens, Word(ACTION));
      var (_, k1) :- Expect(k, Lit('{'));
      var (stmts, k2) :- ParseStmts(k1);
      Done(ActionAttr(stmts), k2)
  }

  function ParseAttrs(tokens: Tokens): (r: Parsed<seq<Attr>>)
    ensures r.Done? ==> Length(r.rest) < Length(tokens)
    decreases Length(tokens)
  {
    if StartsWith(tokens, Lit('}')) then Done([], tokens.tail)
    else
      var (x, k) :- ParseAttr(tokens);
      var (xs, k') :- ParseAttrs(k);
      Done([x] + xs, k')
  }

  function ParseParam(tokens: Tokens): (r: Parsed<Param>)
    ensures r.Done? ==> Length(r.rest) < Length(tokens)
  {
    var (name, k) :- ParseIdent(tokens);
    var (_, k1) :- Expect(k, Lit(':'));
    var (typeName, k2) :- ParseIdent(k1);
    Done(Param(name, typeName), k2)
  }

  function ParseParamList(tokens: Tokens): (r: Parsed<seq<Param>>)
    ensures r.Done? ==> Length(r.rest) < Length(tokens)
    decreases Length(tokens)
  {
    var (x, k) :- ParseParam(tokens);
    if StartsWith(k, Lit(',')) then
      var (xs, k') :- ParseParamList(k.tail);
      Done([x] + xs, k')
    else Done([x], k)
  }

  /** '(' opt_params ')' '{' */
  function ParseParams(tokens: Tokens): (r: Parsed<seq<Param>>)
    ensures r.Done? ==> Length(r.rest) < Length(tokens)
  {
    var (_, k) :- Expect(tokens, Lit('('));
    var (params, k1) :- if StartsWith(k, Lit(')')) then Done([], k) else ParseParamList(k);
    var (_, k2) :- Expect(k1, Lit(')'));
    Expect(k2, Lit('{')).Then(params)
  }

  function ParseOptWidth(tokens: Tokens): (r: Parsed<Option<Width>>)
    ensures r.Done? ==> Length(r.rest) <= Length(tokens)
  {
    if !StartsWith(tokens, Lit('[')) then Done(None, tokens)
    else
      var (lo, k) :- ParseInt(tokens.tail);
      if StartsWith(k, DotDot) then
        var (hi, k1) :- ParseInt(k.tail);
        Expect(k1, Lit(']')).Then(Some(Ranged(lo, hi)))
      else Expect(k, Lit(']')).Then(Some(Fixed(lo)))
  }

  function ParseField(tokens: Tokens): (r: Parsed<Field>)
    ensures r.Done? ==> Length(r.rest) < Length(tokens)
  {
    var (name, k) :- ParseIdent(tokens);
    var (width, k1) :- ParseOptWidth(k);
    Done(Field(name, width), if StartsWith(k1, Lit(',')) then k1.tail else k1)
  }

  function ParseFields(tokens: Tokens): (r: Parsed<seq<Field>>)
    ensures r.Done? ==> Length(r.rest) < Length(tokens)
    decreases Length(tokens)
  {
    if StartsWith(tokens, Lit('}')) then Done([], tokens.tail)
    else
      var (x, k) :- ParseField(tokens);
      var (xs, k') :- ParseFields(k);
      Done([x] + xs, k')
  }

  /** name_list, whose commas are optional, and the closing brace. */
  function ParseNames(tokens: Tokens): (r: Parsed<seq<Ident>>)
    ensures r.Done? ==> Length(r.rest) < Length(tokens)
    decreases Length(tokens)
  {
    var (x, k) :- ParseIdent(tokens);
    if StartsWith(k, Lit('}')) then Done([x], k.tail)
    else
      var (xs, k') :- ParseNames(if StartsWith(k, Lit(',')) then k.tail else k);
      Done([x] + xs, k')
  }

  function ParseOptNames(tokens: Tokens): (r: Parsed<Option<seq<Ident>>>)
    ensures r.Done? ==> Length(r.rest) <= Length(tokens)
  {
    if StartsWith(tokens, Lit('=')) then
      var (_, k) :- Expect(tokens.tail, Lit('{'));
      var (names, k') :- ParseNames(k);
      Done(Some(names), k')
    else Done(None, tokens)
  }

  function ParseRegister(tokens: Tokens): (r: Parsed<ArchStmt>)
    ensures r.Done? ==> Length(r.rest) < Length(tokens)
  {
    var (name, k) :- ParseIdent(tokens);
    var (_, k1) :- Expect(k, Lit('['));
    var (count, k2) :- ParseInt(k1);
    var (_, k3) :- Expect(k2, Lit(','));
    var (width, k4) :- ParseInt(k3);
    var (_, k5) :- Expect(k4, Lit(']'));
    var (names, k6) :- ParseOptNames(k5);
    Expect(k6, Lit(';')).Then(RegisterDecl(name, count, width, names))
  }

  function ParseAlias(tokens: Tokens): (r: Parsed<ArchStmt>)
    ensures r.Done? ==> Length(r.rest) < Length(tokens)
  {
    var (name, k) :- ParseIdent(tokens);
    var (_, k1) :- Expect(k, Lit('='));
    var (target, k2) :- ParseIdent(k1);
    Expect(k2, Lit(';')).Then(Alias(name, target))
  }

  function ParseEndianness(tokens: Tokens): (r: Parsed<ArchStmt>)
    ensures r.Done? ==> Length(r.rest) < Length(tokens)
  {
    if StartsWith(tokens, Word(LITTLE)) then Expect(tokens.tail, Lit(';')).Then(Endianness(true))
    else if StartsWith(tokens, Word(BIG)) then Expect(tokens.tail, Lit(';')).Then(Endianness(false))
    else Fail
  }

  function ParseMode(tokens: Tokens): (r: Parsed<ArchStmt>)
    ensures r.Done? ==> Length(r.rest) < Length(tokens)
  {
    var (name, k) :- ParseIdent(tokens);
    var (params, k1) :- ParseParams(k);
    Expect(k1, Lit('}')).Then(ModeDecl(name, params))
  }

  function ParseOp(tokens: Tokens): (r: Parsed<ArchStmt>)
    ensures r.Done? ==> Length(r.rest) < Length(tokens)
  {
    var (name, k) :- ParseIdent(tokens);
    var (params, k1) :- ParseParams(k);
    var (attrs, k2) :- ParseAttrs(k1);
    Done(OpDecl(name, params, attrs), k2)
  }

  function ParseFormat(tokens: Tokens): (r: Parsed<ArchStmt>)
    ensures r.Done? ==> Length(r.rest) < Length(tokens)
  {
    var (name, k) :- ParseIdent(tokens);
    var (_, k1) :- Expect(k, Lit('{'));
    var (fields, k2) :- ParseFields(k1);
    Done(FormatDecl(name, fields), k2)
  }

  function ParseArchStmt(tokens: Tokens): (r: Parsed<ArchStmt>)
    ensures r.Done? ==> Length(r.rest) < Length(tokens)
  {
    if !tokens.Cons? then Fail
    else if tokens.head == Word(WORDSIZE) then
      var (n, k) :- ParseInt(tokens.tail);
      Expect(k, Lit(';')).Then(Wordsize(n))
    else if tokens.head == Word(ENDIANNESS) then ParseEndianness(tokens.tail)
    else if tokens.head == Word(ALIAS) then ParseAlias(tokens.tail)
    else if tokens.head == Word(REGISTER) then ParseRegister(tokens.tail)
    else if tokens.head == Word(FORMAT) then ParseFormat(tokens.tail)
    else if tokens.head == Word(MODE) then ParseMode(tokens.tail)
    else if tokens.head == Word(OP) then ParseOp(tokens.tail)
    else Fail
  }

  function ParseArchStmts(tokens: Tokens): (r: Parsed<seq<ArchStmt>>)
    ensures r.Done? ==> Length(r.rest) < Length(tokens)
    decreases Length(tokens)
  {
    if StartsWith(tokens, Lit('}')) then Done([], tokens.tail)
    else
      var (x, k) :- ParseArchStmt(tokens);
      var (xs, k') :- ParseArchStmts(k);
      Done([x] + xs, k')
  }

  function ParseArch(tokens: Tokens): (r: Parsed<Arch>)
    ensures r.Done? ==> Length(r.rest) < Length(tokens)
  {
    var (_, k) :- Expect(tokens, Word(ARCH));
    var (name, k1) :- ParseName(k);
    var (_, k2) :- Expect(k1, Lit('{'));
    var (body, k3) :- ParseArchStmts(k2);
    Done(Arch(name, body), k3)
  }

  function ParseArchs(tokens: Tokens): Option<seq<Arch>>
    decreases Length(tokens)
  {
    match ParseArch(tokens)
    case Fail => None
    case Done(x, k) =>
      if k == End then Some([x])
      else match ParseArchs(k) case None => None case Some(xs) => Some([x] + xs)
  }

  /** program; None for a syntax error. */
  function ParseFile(tokens: Tokens): Option<File> {
    match ParseArchs(tokens) case None => None case Some(decls) => Some(File(decls))
  }

  // ---------- Derivations ----------

  // What a derivation holds beside its value: parentheses, and commas that may be left out.
  datatype StmtTree = AssignmentTree(lhs: LValue, rhs: Tree) | CallTree(name: Ident, args: seq<Tree>)

  datatype AttrTree = SyntaxTree(text: string) | ImageTree(text: string) | ActionTree(stmts: seq<StmtTree>)

  datatype FieldTree = FieldTree(field: Field, commaAfter: bool)

  datatype Listed = Listed(name: Ident, commaBefore: bool)

  datatype ArchStmtTree =
    | ShortTree(stmt: ArchStmt)
    | RegisterTree(name: Ident, count: nat, width: nat, names: Option<seq<Listed>>)
    | FormatTree(name: Ident, fields: seq<FieldTree>)
    | OpTree(name: Ident, params: seq<Param>, attrs: seq<AttrTree>)

  // The parts of the name are tokens.
  datatype ArchTree = ArchTree(first: Token, rest: seq<Token>, body: seq<ArchStmtTree>)

  /** name_part: IDENT or INT. */
  predicate IsPart(token: Token) {
    token.Int? || (token.Word? && token.text !in KEYWORDS)
  }

  predicate StmtRespects(t: StmtTree) {
    match t
    case AssignmentTree(_, rhs) => Respects(rhs)
    case CallTree(_, args) => forall e :: e in args ==> Respects(e)
  }

  predicate AttrRespects(t: AttrTree) {
    t.ActionTree? ==> forall x :: x in t.stmts ==> StmtRespects(x)
  }

  /** A list of names is not empty, and no comma comes first. */
  predicate NamesRespect(names: seq<Listed>) {
    names != [] && !names[0].commaBefore
  }

  predicate ArchStmtRespects(t: ArchStmtTree) {
    match t
    case ShortTree(stmt) => stmt.Wordsize? || stmt.Endianness? || stmt.Alias? || stmt.ModeDecl?
    case RegisterTree(_, _, _, names) => names.Some? ==> NamesRespect(names.value)
    case FormatTree(_, _) => true
    case OpTree(_, _, attrs) => forall x :: x in attrs ==> AttrRespects(x)
  }

  predicate ArchRespects(t: ArchTree) {
    && IsPart(t.first) && (forall part :: part in t.rest ==> IsPart(part))
    && forall x :: x in t.body ==> ArchStmtRespects(x)
  }

  /** A file has a declaration, and its expressions respect the precedence. */
  predicate FileRespects(t: seq<ArchTree>) {
    t != [] && forall x :: x in t ==> ArchRespects(x)
  }

  // ---------- The tokens of a derivation ----------

  function YieldOptIndex(index: Option<nat>, k: Tokens): Tokens {
    match index case None => k case Some(i) => Cons(Lit('['), Cons(Int(i), Cons(Lit(']'), k)))
  }

  function YieldArgs(es: seq<Tree>, k: Tokens): Tokens {
    if es == [] then k
    else Yield(es[0], if |es| == 1 then k else Cons(Lit(','), YieldArgs(es[1..], k)))
  }

  function YieldStmt(t: StmtTree, k: Tokens): Tokens {
    match t
    case AssignmentTree(lhs, rhs) =>
      Cons(Word(lhs.name), YieldOptIndex(lhs.index, Cons(Lit('='), Yield(rhs, Cons(Lit(';'), k)))))
    case CallTree(name, args) =>
      Cons(Word(name), Cons(Lit('('), YieldArgs(args, Cons(Lit(')'), Cons(Lit(';'), k)))))
  }

  /** The statements and the closing brace; so for the other braced lists. */
  function YieldStmts(xs: seq<StmtTree>, k: Tokens): Tokens {
    if xs == [] then Cons(Lit('}'), k) else YieldStmt(xs[0], YieldStmts(xs[1..], k))
  }

  function YieldAttr(t: AttrTree, k: Tokens): Tokens {
    match t
    case SyntaxTree(text) => Cons(Word(SYNTAX), Cons(Str(text), Cons(Lit(';'), k)))
    case ImageTree(text) => Cons(Word(IMAGE), Cons(Str(text), Cons(Lit(';'), k)))
    case ActionTree(stmts) => Cons(Word(ACTION), Cons(Lit('{'), YieldStmts(stmts, k)))
  }

  function YieldAttrs(xs: seq<AttrTree>, k: Tokens): Tokens {
    if xs == [] then Cons(Lit('}'), k) else YieldAttr(xs[0], YieldAttrs(xs[1..], k))
  }

  function YieldParam(x: Param, k: Tokens): Tokens {
    Cons(Word(x.name), Cons(Lit(':'), Cons(Word(x.typeName), k)))
  }

  function YieldParamList(xs: seq<Param>, k: Tokens): Tokens {
    if xs == [] then k
    else YieldParam(xs[0], if |xs| == 1 then k else Cons(Lit(','), YieldParamList(xs[1..], k)))
  }

  function YieldParams(xs: seq<Param>, k: Tokens): Tokens {
    Cons(Lit('('), YieldParamList(xs, Cons(Lit(')'), Cons(Lit('{'), k))))
  }

  function YieldWidth(w: Option<Width>, k: Tokens): Tokens {
    match w
    case None => k
    case Some(Fixed(n)) => Cons(Lit('['), Cons(Int(n), Cons(Lit(']'), k)))
    case Some(Ranged(lo, hi)) => Cons(Lit('['), Cons(Int(lo), Cons(DotDot, Cons(Int(hi), Cons(Lit(']'), k)))))
  }

  function YieldField(t: FieldTree, k: Tokens): Tokens {
    Cons(Word(t.field.name), YieldWidth(t.field.width, if t.commaAfter then Cons(Lit(','), k) else k))
  }

  function YieldFields(xs: seq<FieldTree>, k: Tokens): Tokens {
    if xs == [] then Cons(Lit('}'), k) else YieldField(xs[0], YieldFields(xs[1..], k))
  }

  function YieldListed(x: Listed, k: Tokens): Tokens {
    if x.commaBefore then Cons(Lit(','), Cons(Word(x.name), k)) else Cons(Word(x.name), k)
  }

  function YieldNames(xs: seq<Listed>, k: Tokens): Tokens {
    if xs == [] then Cons(Lit('}'), k) else YieldListed(xs[0], YieldNames(xs[1..], k))
  }

  function YieldOptNames(names: Option<seq<Listed>>, k: Tokens): Tokens {
    match names case None => k case Some(xs) => Cons(Lit('='), Cons(Lit('{'), YieldNames(xs, k)))
  }

  function YieldRegister(name: Ident, count: nat, width: nat, names: Option<seq<Listed>>, k: Tokens): Tokens {
    Cons(Word(name), Cons(Lit('['), Cons(Int(count), Cons(Lit(','), Cons(Int(width), Cons(Lit(']'),
      YieldOptNames(names, Cons(Lit(';'), k))))))))
  }

  function YieldShort(stmt: ArchStmt, k: Tokens): Tokens {
    match stmt
    case Wordsize(n) => Cons(Word(WORDSIZE), Cons(Int(n), Cons(Lit(';'), k)))
    case Endianness(little) =>
      Cons(Word(ENDIANNESS), Cons(Word(if little then LITTLE else BIG), Cons(Lit(';'), k)))
    case Alias(name, target) =>
      Cons(Word(ALIAS), Cons(Word(name), Cons(Lit('='), Cons(Word(target), Cons(Lit(';'), k)))))
    case ModeDecl(name, params) => Cons(Word(MODE), Cons(Word(name), YieldParams(params, Cons(Lit('}'), k))))
    case _ => k
  }

  function YieldArchStmt(t: ArchStmtTree, k: Tokens): Tokens {
    match t
    case ShortTree(stmt) => YieldShort(stmt, k)
    case RegisterTree(name, count, width, names) => Cons(Word(REGISTER), YieldRegister(name, count, width, names, k))
    case FormatTree(name, fields) => Cons(Word(FORMAT), Cons(Word(name), Cons(Lit('{'), YieldFields(fields, k))))
    case OpTree(name, params, attrs) => Cons(Word(OP), Cons(Word(name), YieldParams(params, YieldAttrs(attrs, k))))
  }

  function YieldArchStmts(xs: seq<ArchStmtTree>, k: Tokens): Tokens {
    if xs == [] then Cons(Lit('}'), k) else YieldArchStmt(xs[0], YieldArchStmts(xs[1..], k))
  }

  /** The further parts of a name, each after a hyphen. */
  function YieldParts(parts: seq<Token>, k: Tokens): Tokens {
    if parts == [] then k else Cons(Lit('-'), Cons(parts[0], YieldParts(parts[1..], k)))
  }

  function YieldArch(t: ArchTree, k: Tokens): Tokens {
    Cons(Word(ARCH), Cons(t.first, YieldParts(t.rest, Cons(Lit('{'), YieldArchStmts(t.body, k)))))
  }

  function YieldFile(t: seq<ArchTree>): Tokens {
    if t == [] then End else YieldArch(t[0], YieldFile(t[1..]))
  }

  // ---------- The value of a derivation ----------

  function StmtOf(t: StmtTree): Stmt {
    match t
    case AssignmentTree(lhs, rhs) => Assignment(lhs, Strip(rhs))
    case CallTree(name, args) => Call(name, Map(Strip, args))
  }

  function AttrOf(t: AttrTree): Attr {
    match t
    case SyntaxTree(text) => SyntaxAttr(text)
    case ImageTree(text) => ImageAttr(text)
    case ActionTree(stmts) => ActionAttr(Map(StmtOf, stmts))
  }

  function FieldOf(t: FieldTree): Field {
    t.field
  }

  function NameOf(x: Listed): Ident {
    x.name
  }

  function OptNamesOf(names: Option<seq<Listed>>): Option<seq<Ident>> {
    match names case None => None case Some(xs) => Some(Map(NameOf, xs))
  }

  function ArchStmtOf(t: ArchStmtTree): ArchStmt {
    match t
    case ShortTree(stmt) => stmt
    case RegisterTree(name, count, width, names) => RegisterDecl(name, count, width, OptNamesOf(names))
    case FormatTree(name, fields) => FormatDecl(name, Map(FieldOf, fields))
    case OpTree(name, params, attrs) => OpDecl(name, params, Map(AttrOf, attrs))
  }

  function Spelling(part: Token): string {
    match part case Word(text) => text case Int(n) => ToString(n) case _ => ""
  }

  function SpellingOfParts(parts: seq<Token>): string {
    if parts == [] then "" else "-" + Spelling(parts[0]) + SpellingOfParts(parts[1..])
  }

  function ArchOf(t: ArchTree): Arch {
    Arch(Spelling(t.first) + SpellingOfParts(t.rest), Map(ArchStmtOf, t.body))
  }

  function FileOf(t: seq<ArchTree>): File {
    File(Map(ArchOf, t))
  }

  // ---------- Completeness: every derivation is found ----------

  lemma {:induction false} PartsReadBack(before: string, parts: seq<Token>, k: Tokens)
    requires (forall part :: part in parts ==> IsPart(part)) && !StartsWith(k, Lit('-'))
    ensures ParseNameRest(before, YieldParts(parts, k)) == Done(before + SpellingOfParts(parts), k)
    decreases |parts|
  {
    if parts == [] {
      assert before + "" == before;
    } else {
      assert IsPart(parts[0]);
      var more := before + "-" + Spelling(parts[0]);
      PartsReadBack(more, parts[1..], k);
      assert more + SpellingOfParts(parts[1..]) == before + SpellingOfParts(parts);
    }
  }

  lemma {:induction false} NameReadsBack(first: Token, rest: seq<Token>, k: Tokens)
    requires IsPart(first) && (forall part :: part in rest ==> IsPart(part)) && !StartsWith(k, Lit('-'))
    ensures ParseName(Cons(first, YieldParts(rest, k))) == Done(Spelling(first) + SpellingOfParts(rest), k)
  {
    PartsReadBack(Spelling(first), rest, k);
  }

  lemma {:induction false} ExpressionReadsBack(t: Tree, k: Tokens)
    requires Respects(t) && EndsExpr(k)
    ensures ParseExpression(Yield(t, k)) == Done(Strip(t), k)
  {
    ParseIsComplete(t, k);
  }

  lemma {:induction false} ArgsReadBack(es: seq<Tree>, k: Tokens)
    requires es != [] && (forall e :: e in es ==> Respects(e)) && EndsExpr(k) && !StartsWith(k, Lit(','))
    ensures ParseArgList(YieldArgs(es, k)) == Done(Map(Strip, es), k)
  {
    hide ParseExpression, Yield;
    if |es| == 1 {
      ExpressionReadsBack(es[0], k);
      assert es == [es[0]];
      assert Map(Strip, es) == [Strip(es[0])];
    } else {
      ExpressionReadsBack(es[0], Cons(Lit(','), YieldArgs(es[1..], k)));
      ArgsReadBack(es[1..], k);
    }
  }

  /** An expression does not start with a closing parenthesis. */
  lemma {:induction false} YieldStart(t: Tree, k: Tokens)
    ensures Yield(t, k).Cons? && Yield(t, k).head != Lit(')')
  {
    if t.Bin? {
      YieldStart(t.left, Cons(Lit(t.op), Yield(t.right, k)));
    }
  }

  lemma {:induction false} OptArgsReadBack(es: seq<Tree>, k: Tokens)
    requires (forall e :: e in es ==> Respects(e)) && StartsWith(k, Lit(')'))
    ensures ParseOptArgs(YieldArgs(es, k)) == Done(Map(Strip, es), k)
  {
    if es != [] {
      YieldStart(es[0], if |es| == 1 then k else Cons(Lit(','), YieldArgs(es[1..], k)));
      ArgsReadBack(es, k);
    }
  }

  lemma OptIndexReadsBack(index: Option<nat>, k: Tokens)
    requires !StartsWith(k, Lit('['))
    ensures ParseOptIndex(YieldOptIndex(index, k)) == Done(index, k)
    ensures !StartsWith(k, Lit('(')) ==> !StartsWith(YieldOptIndex(index, k), Lit('('))
  {
  }

  lemma {:induction false} StmtReadsBack(t: StmtTree, k: Tokens)
    requires StmtRespects(t)
    ensures ParseStmt(YieldStmt(t, k)) == Done(StmtOf(t), k)
  {
    hide ParseExpression, ParseOptIndex, ParseOptArgs, Yield, YieldOptIndex, YieldArgs, Strip;
    match t {
      case AssignmentTree(lhs, rhs) =>
        ExpressionReadsBack(rhs, Cons(Lit(';'), k));
        OptIndexReadsBack(lhs.index, Cons(Lit('='), Yield(rhs, Cons(Lit(';'), k))));
      case CallTree(name, args) =>
        OptArgsReadBack(args, Cons(Lit(')'), Cons(Lit(';'), k)));
    }
  }

  lemma {:induction false} StmtsReadBack(xs: seq<StmtTree>, k: Tokens)
    requires forall x :: x in xs ==> StmtRespects(x)
    ensures ParseStmts(YieldStmts(xs, k)) == Done(Map(StmtOf, xs), k)
  {
    hide ParseStmt, StmtOf;
    if xs != [] {
      StmtReadsBack(xs[0], YieldStmts(xs[1..], k));
      StmtsReadBack(xs[1..], k);
    }
  }

  lemma {:induction false} AttrReadsBack(t: AttrTree, k: Tokens)
    requires AttrRespects(t)
    ensures ParseAttr(YieldAttr(t, k)) == Done(AttrOf(t), k)
  {
    if t.ActionTree? {
      StmtsReadBack(t.stmts, k);
    }
  }

  lemma {:induction false} AttrsReadBack(xs: seq<AttrTree>, k: Tokens)
    requires forall x :: x in xs ==> AttrRespects(x)
    ensures ParseAttrs(YieldAttrs(xs, k)) == Done(Map(AttrOf, xs), k)
  {
    hide ParseAttr, AttrOf;
    if xs != [] {
      AttrReadsBack(xs[0], YieldAttrs(xs[1..], k));
      AttrsReadBack(xs[1..], k);
    }
  }

  lemma {:induction false} ParamListReadsBack(xs: seq<Param>, k: Tokens)
    requires xs != [] && !StartsWith(k, Lit(','))
    ensures ParseParamList(YieldParamList(xs, k)) == Done(xs, k)
  {
    if |xs| > 1 {
      ParamListReadsBack(xs[1..], k);
      assert xs == [xs[0]] + xs[1..];
    } else {
      assert xs == [xs[0]];
    }
  }

  lemma {:induction false} ParamsReadBack(xs: seq<Param>, k: Tokens)
    ensures ParseParams(YieldParams(xs, k)) == Done(xs, k)
  {
    if xs != [] {
      ParamListReadsBack(xs, Cons(Lit(')'), Cons(Lit('{'), k)));
    }
  }

  lemma WidthReadsBack(w: Option<Width>, k: Tokens)
    requires !StartsWith(k, Lit('['))
    ensures ParseOptWidth(YieldWidth(w, k)) == Done(w, k)
  {
  }

  lemma {:induction false} FieldReadsBack(t: FieldTree, k: Tokens)
    requires !StartsWith(k, Lit('[')) && !StartsWith(k, Lit(','))
    ensures ParseField(YieldField(t, k)) == Done(FieldOf(t), k)
  {
    hide ParseOptWidth, YieldWidth;
    WidthReadsBack(t.field.width, if t.commaAfter then Cons(Lit(','), k) else k);
  }

  lemma {:induction false} FieldsReadBack(xs: seq<FieldTree>, k: Tokens)
    ensures ParseFields(YieldFields(xs, k)) == Done(Map(FieldOf, xs), k)
    ensures YieldFields(xs, k).Cons? && YieldFields(xs, k).head !in {Lit('['), Lit(',')}
  {
    if xs != [] {
      hide ParseOptWidth, YieldWidth;
      FieldsReadBack(xs[1..], k);
      FieldReadsBack(xs[0], YieldFields(xs[1..], k));
    }
  }

  lemma {:induction false} NamesReadBack(xs: seq<Listed>, k: Tokens)
    requires xs != []
    ensures ParseNames(YieldNames([xs[0].(commaBefore := false)] + xs[1..], k)) == Done(Map(NameOf, xs), k)
  {
    var all := [xs[0].(commaBefore := false)] + xs[1..];
    assert all[1..] == xs[1..];
    if |xs| > 1 {
      var rest := xs[1..];
      NamesReadBack(rest, k);
      assert ([rest[0].(commaBefore := false)] + rest[1..])[1..] == rest[1..];
    } else {
      assert xs[1..] == [] && Map(NameOf, xs) == [xs[0].name];
    }
  }

  lemma {:induction false} RegisterReadsBack(name: Ident, count: nat, width: nat, names: Option<seq<Listed>>, k: Tokens)
    requires names.Some? ==> NamesRespect(names.value)
    ensures ParseRegister(YieldRegister(name, count, width, names, k))
      == Done(RegisterDecl(name, count, width, OptNamesOf(names)), k)
  {
    hide ParseNames, YieldNames, NameOf;
    if names.Some? {
      var xs := names.value;
      NamesReadBack(xs, Cons(Lit(';'), k));
      assert [xs[0].(commaBefore := false)] + xs[1..] == xs;
    }
  }

  lemma {:induction false} ModeReadsBack(name: Ident, params: seq<Param>, k: Tokens)
    ensures ParseMode(Cons(Word(name), YieldParams(params, Cons(Lit('}'), k)))) == Done(ModeDecl(name, params), k)
  {
    hide ParseParams, YieldParams;
    ParamsReadBack(params, Cons(Lit('}'), k));
  }

  lemma {:induction false} OpReadsBack(name: Ident, params: seq<Param>, attrs: seq<AttrTree>, k: Tokens)
    requires forall attr :: attr in attrs ==> AttrRespects(attr)
    ensures ParseOp(Cons(Word(name), YieldParams(params, YieldAttrs(attrs, k))))
      == Done(OpDecl(name, params, Map(AttrOf, attrs)), k)
  {
    hide ParseParams, YieldParams;
    ParamsReadBack(params, YieldAttrs(attrs, k));
    AttrsReadBack(attrs, k);
  }

  lemma {:induction false} FormatReadsBack(name: Ident, fields: seq<FieldTree>, k: Tokens)
    ensures ParseFormat(Cons(Word(name), Cons(Lit('{'), YieldFields(fields, k))))
      == Done(FormatDecl(name, Map(FieldOf, fields)), k)
  {
    FieldsReadBack(fields, k);
  }

  lemma {:induction false} ShortReadsBack(x: ArchStmt, k: Tokens)
    requires x.Wordsize? || x.Endianness? || x.Alias? || x.ModeDecl?
    ensures ParseArchStmt(YieldShort(x, k)) == Done(x, k)
  {
    hide ParseRegister, ParseFormat, ParseMode, ParseOp, YieldParams;
    match x {
      case Wordsize(_) =>
      case Endianness(_) =>
      case Alias(_, _) =>
      case ModeDecl(name, params) => ModeReadsBack(name, params, k);
    }
  }

  lemma {:induction false} ArchStmtReadsBack(t: ArchStmtTree, k: Tokens)
    requires ArchStmtRespects(t)
    ensures ParseArchStmt(YieldArchStmt(t, k)) == Done(ArchStmtOf(t), k)
  {
    hide ParseRegister, ParseFormat, ParseMode, ParseOp, ParseAlias, ParseEndianness, YieldRegister, YieldParams;
    hide YieldShort;
    hide AttrOf, Map, OptNamesOf;
    match t {
      case ShortTree(stmt) => ShortReadsBack(stmt, k);
      case RegisterTree(name, count, width, names) => RegisterReadsBack(name, count, width, names, k);
      case FormatTree(name, fields) => FormatReadsBack(name, fields, k);
      case OpTree(name, params, attrs) => OpReadsBack(name, params, attrs, k);
    }
  }

  lemma {:induction false} ArchStmtsReadBack(xs: seq<ArchStmtTree>, k: Tokens)
    requires forall x :: x in xs ==> ArchStmtRespects(x)
    ensures ParseArchStmts(YieldArchStmts(xs, k)) == Done(Map(ArchStmtOf, xs), k)
  {
    hide ParseArchStmt, ArchStmtOf;
    if xs != [] {
      ArchStmtStart(xs[0], YieldArchStmts(xs[1..], k));
      ArchStmtReadsBack(xs[0], YieldArchStmts(xs[1..], k));
      ArchStmtsReadBack(xs[1..], k);
    }
  }

  lemma ArchStmtStart(t: ArchStmtTree, k: Tokens)
    requires ArchStmtRespects(t)
    ensures !StartsWith(YieldArchStmt(t, k), Lit('}'))
  {
  }

  lemma {:induction false} ArchReadsBack(t: ArchTree, k: Tokens)
    requires ArchRespects(t)
    ensures ParseArch(YieldArch(t, k)) == Done(ArchOf(t), k)
  {
    NameReadsBack(t.first, t.rest, Cons(Lit('{'), YieldArchStmts(t.body, k)));
    ArchStmtsReadBack(t.body, k);
  }

  lemma {:induction false} FileReadsBack(t: seq<ArchTree>)
    requires FileRespects(t)
    ensures ParseArchs(YieldFile(t)) == Some(Map(ArchOf, t))
  {
    hide ParseArch, ArchOf;
    ArchReadsBack(t[0], YieldFile(t[1..]));
    if |t| > 1 {
      FileReadsBack(t[1..]);
      assert YieldFile(t[1..]) != End;
    } else {
      assert t[1..] == [] && Map(ArchOf, t) == [ArchOf(t[0])];
    }
  }

  // ---------- Soundness: whatever is parsed has a derivation ----------

  lemma {:induction false} PartsSound(before: string, tokens: Tokens) returns (parts: seq<Token>)
    requires ParseNameRest(before, tokens).Done?
    ensures forall part :: part in parts ==> IsPart(part)
    ensures tokens == YieldParts(parts, ParseNameRest(before, tokens).rest)
    ensures ParseNameRest(before, tokens).value == before + SpellingOfParts(parts)
    decreases Length(tokens)
  {
    hide ParseNamePart, Spelling;
    parts := [];
    if StartsWith(tokens, Lit('-')) {
      PartSound(tokens.tail);
      var Done(part, k) := ParseNamePart(tokens.tail);
      var rest := PartsSound(before + "-" + part, k);
      parts := [tokens.tail.head] + rest;
      assert before + "-" + part + SpellingOfParts(rest) == before + SpellingOfParts(parts);
    } else {
      assert before + "" == before;
    }
  }

  lemma {:induction false} PartSound(tokens: Tokens)
    requires ParseNamePart(tokens).Done?
    ensures tokens.Cons? && IsPart(tokens.head)
    ensures ParseNamePart(tokens) == Done(Spelling(tokens.head), tokens.tail)
  {
  }

  lemma {:induction false} ExpressionSound(tokens: Tokens) returns (t: Tree)
    requires ParseExpression(tokens).Done?
    ensures Respects(t) && ParseExpression(tokens).value == Strip(t) && tokens == Yield(t, ParseExpression(tokens).rest)
  {
    t := ParseExpr(tokens, 0).value;
    ParseExprIsSound(tokens, 0);
  }

  lemma {:induction false} ArgsSound(tokens: Tokens) returns (es: seq<Tree>)
    requires ParseArgList(tokens).Done?
    ensures es != [] && forall e :: e in es ==> Respects(e)
    ensures ParseArgList(tokens).value == Map(Strip, es) && tokens == YieldArgs(es, ParseArgList(tokens).rest)
    decreases Length(tokens)
  {
    hide ParseExpression, Yield, Respects, Strip;
    var e := ExpressionSound(tokens);
    var k := ParseExpression(tokens).rest;
    es := [e];
    if StartsWith(k, Lit(',')) {
      var rest := ArgsSound(k.tail);
      es := [e] + rest;
    }
  }

  lemma {:induction false} OptArgsSound(tokens: Tokens) returns (es: seq<Tree>)
    requires ParseOptArgs(tokens).Done?
    ensures forall e :: e in es ==> Respects(e)
    ensures ParseOptArgs(tokens).value == Map(Strip, es) && tokens == YieldArgs(es, ParseOptArgs(tokens).rest)
  {
    es := [];
    if !StartsWith(tokens, Lit(')')) {
      es := ArgsSound(tokens);
    }
  }

  lemma OptIndexSound(tokens: Tokens)
    requires ParseOptIndex(tokens).Done?
    ensures tokens == YieldOptIndex(ParseOptIndex(tokens).value, ParseOptIndex(tokens).rest)
  {
  }

  lemma {:induction false} StmtSound(tokens: Tokens) returns (t: StmtTree)
    requires ParseStmt(tokens).Done?
    ensures StmtRespects(t) && ParseStmt(tokens).value == StmtOf(t) && tokens == YieldStmt(t, ParseStmt(tokens).rest)
  {
    hide ParseExpression, ParseOptArgs, ParseOptIndex, Yield, YieldArgs, YieldOptIndex, Respects, Strip;
    var Done(name, k) := ParseIdent(tokens);
    if StartsWith(k, Lit('(')) {
      var args := OptArgsSound(k.tail);
      t := CallTree(name, args);
    } else {
      OptIndexSound(k);
      var Done(index, k1) := ParseOptIndex(k);
      var rhs := ExpressionSound(k1.tail);
      t := AssignmentTree(LValue(name, index), rhs);
    }
  }

  lemma {:induction false} StmtsSound(tokens: Tokens) returns (xs: seq<StmtTree>)
    requires ParseStmts(tokens).Done?
    ensures forall x :: x in xs ==> StmtRespects(x)
    ensures ParseStmts(tokens).value == Map(StmtOf, xs) && tokens == YieldStmts(xs, ParseStmts(tokens).rest)
    decreases Length(tokens)
  {
    hide ParseStmt, YieldStmt, StmtRespects, StmtOf;
    xs := [];
    if !StartsWith(tokens, Lit('}')) {
      var x := StmtSound(tokens);
      var rest := StmtsSound(ParseStmt(tokens).rest);
      xs := [x] + rest;
    }
  }

  lemma {:induction false} AttrSound(tokens: Tokens) returns (t: AttrTree)
    requires ParseAttr(tokens).Done?
    ensures AttrRespects(t) && ParseAttr(tokens).value == AttrOf(t) && tokens == YieldAttr(t, ParseAttr(tokens).rest)
  {
    match ParseAttr(tokens).value {
      case SyntaxAttr(text) => t := SyntaxTree(text);
      case ImageAttr(text) => t := ImageTree(text);
      case ActionAttr(_) =>
        var stmts := StmtsSound(tokens.tail.tail);
        t := ActionTree(stmts);
    }
  }

  lemma {:induction false} AttrsSound(tokens: Tokens) returns (xs: seq<AttrTree>)
    requires ParseAttrs(tokens).Done?
    ensures forall x :: x in xs ==> AttrRespects(x)
    ensures ParseAttrs(tokens).value == Map(AttrOf, xs) && tokens == YieldAttrs(xs, ParseAttrs(tokens).rest)
    decreases Length(tokens)
  {
    hide ParseAttr, YieldAttr, AttrRespects, AttrOf;
    xs := [];
    if !StartsWith(tokens, Lit('}')) {
      var x := AttrSound(tokens);
      var rest := AttrsSound(ParseAttr(tokens).rest);
      xs := [x] + rest;
    }
  }

  lemma {:induction false} ParamListSound(tokens: Tokens)
    requires ParseParamList(tokens).Done?
    ensures ParseParamList(tokens).value != []
    ensures tokens == YieldParamList(ParseParamList(tokens).value, ParseParamList(tokens).rest)
    decreases Length(tokens)
  {
    var Done(x, k) := ParseParam(tokens);
    if StartsWith(k, Lit(',')) {
      ParamListSound(k.tail);
      var xs := ParseParamList(k.tail).value;
      assert ([x] + xs)[1..] == xs;
    }
  }

  lemma {:induction false} ParamsSound(tokens: Tokens)
    requires ParseParams(tokens).Done?
    ensures tokens == YieldParams(ParseParams(tokens).value, ParseParams(tokens).rest)
  {
    hide ParseParamList;
    if !StartsWith(tokens.tail, Lit(')')) {
      ParamListSound(tokens.tail);
    }
  }

  lemma {:induction false} FieldSound(tokens: Tokens) returns (t: FieldTree)
    requires ParseField(tokens).Done?
    ensures ParseField(tokens).value == FieldOf(t) && tokens == YieldField(t, ParseField(tokens).rest)
  {
    var Done(name, k) := ParseIdent(tokens);
    var Done(width, k1) := ParseOptWidth(k);
    t := FieldTree(Field(name, width), StartsWith(k1, Lit(',')));
  }

  lemma {:induction false} FieldsSound(tokens: Tokens) returns (xs: seq<FieldTree>)
    requires ParseFields(tokens).Done?
    ensures ParseFields(tokens).value == Map(FieldOf, xs) && tokens == YieldFields(xs, ParseFields(tokens).rest)
    decreases Length(tokens)
  {
    hide ParseField, YieldField, FieldOf;
    xs := [];
    if !StartsWith(tokens, Lit('}')) {
      var x := FieldSound(tokens);
      var rest := FieldsSound(ParseField(tokens).rest);
      xs := [x] + rest;
    }
  }

  lemma {:induction false} NamesSound(tokens: Tokens) returns (xs: seq<Listed>)
    requires ParseNames(tokens).Done?
    ensures NamesRespect(xs)
    ensures ParseNames(tokens).value == Map(NameOf, xs) && tokens == YieldNames(xs, ParseNames(tokens).rest)
    decreases Length(tokens)
  {
    var Done(x, k) := ParseIdent(tokens);
    var first := Listed(x, false);
    if StartsWith(k, Lit('}')) {
      xs := [first];
      assert xs[1..] == [];
    } else {
      var comma := StartsWith(k, Lit(','));
      var rest := NamesSound(if comma then k.tail else k);
      var next := rest[0].(commaBefore := comma);
      xs := [first, next] + rest[1..];
      assert xs[1..] == [next] + rest[1..] && ([next] + rest[1..])[1..] == rest[1..];
      assert Map(NameOf, [next] + rest[1..]) == Map(NameOf, rest);
    }
  }

  lemma {:induction false} RegisterSound(tokens: Tokens) returns (t: ArchStmtTree)
    requires ParseRegister(tokens).Done?
    ensures ArchStmtRespects(t) && ParseRegister(tokens).value == ArchStmtOf(t)
    ensures Cons(Word(REGISTER), tokens) == YieldArchStmt(t, ParseRegister(tokens).rest)
  {
    hide ParseNames, YieldNames;
    var RegisterDecl(name, count, width, _) := ParseRegister(tokens).value;
    var k := tokens.tail.tail.tail.tail.tail.tail;
    var names := None;
    if StartsWith(k, Lit('=')) {
      var xs := NamesSound(k.tail.tail);
      names := Some(xs);
    }
    t := RegisterTree(name, count, width, names);
  }

  lemma {:induction false} OpSound(tokens: Tokens) returns (t: ArchStmtTree)
    requires ParseOp(tokens).Done?
    ensures ArchStmtRespects(t) && ParseOp(tokens).value == ArchStmtOf(t)
    ensures Cons(Word(OP), tokens) == YieldArchStmt(t, ParseOp(tokens).rest)
  {
    hide ParseParams, YieldParams, ParseAttrs, YieldAttrs, AttrRespects, AttrOf;
    var Done(name, k) := ParseIdent(tokens);
    ParamsSound(k);
    var Done(params, k1) := ParseParams(k);
    var attrs := AttrsSound(k1);
    t := OpTree(name, params, attrs);
  }

  lemma {:induction false} FormatSound(tokens: Tokens) returns (t: ArchStmtTree)
    requires ParseFormat(tokens).Done?
    ensures ArchStmtRespects(t) && ParseFormat(tokens).value == ArchStmtOf(t)
    ensures Cons(Word(FORMAT), tokens) == YieldArchStmt(t, ParseFormat(tokens).rest)
  {
    hide ParseFields, YieldFields, FieldOf;
    var fields := FieldsSound(tokens.tail.tail);
    t := FormatTree(ParseIdent(tokens).value, fields);
  }

  lemma {:induction false} ModeSound(tokens: Tokens)
    requires ParseMode(tokens).Done?
    ensures ParseMode(tokens).value.ModeDecl?
    ensures Cons(Word(MODE), tokens) == YieldShort(ParseMode(tokens).value, ParseMode(tokens).rest)
  {
    hide ParseParams, YieldParams;
    ParamsSound(tokens.tail);
  }

  lemma {:induction false} ArchStmtSound(tokens: Tokens) returns (t: ArchStmtTree)
    requires ParseArchStmt(tokens).Done?
    ensures ArchStmtRespects(t) && ParseArchStmt(tokens).value == ArchStmtOf(t)
    ensures tokens == YieldArchStmt(t, ParseArchStmt(tokens).rest)
  {
    hide ParseRegister, ParseFormat, ParseMode, ParseOp;
    t := ShortTree(ParseArchStmt(tokens).value);
    if tokens.head == Word(REGISTER) {
      t := RegisterSound(tokens.tail);
    } else if tokens.head == Word(FORMAT) {
      t := FormatSound(tokens.tail);
    } else if tokens.head == Word(OP) {
      t := OpSound(tokens.tail);
    } else if tokens.head == Word(MODE) {
      ModeSound(tokens.tail);
    }
  }

  lemma {:induction false} ArchStmtsSound(tokens: Tokens) returns (xs: seq<ArchStmtTree>)
    requires ParseArchStmts(tokens).Done?
    ensures forall x :: x in xs ==> ArchStmtRespects(x)
    ensures ParseArchStmts(tokens).value == Map(ArchStmtOf, xs)
    ensures tokens == YieldArchStmts(xs, ParseArchStmts(tokens).rest)
    decreases Length(tokens)
  {
    hide ParseArchStmt, YieldArchStmt, ArchStmtRespects, ArchStmtOf;
    xs := [];
    if !StartsWith(tokens, Lit('}')) {
      var x := ArchStmtSound(tokens);
      var rest := ArchStmtsSound(ParseArchStmt(tokens).rest);
      xs := [x] + rest;
    }
  }

  lemma {:induction false} ArchSound(tokens: Tokens) returns (t: ArchTree)
    requires ParseArch(tokens).Done?
    ensures ArchRespects(t) && ParseArch(tokens).value == ArchOf(t) && tokens == YieldArch(t, ParseArch(tokens).rest)
  {
    hide ParseArchStmts, ParseNameRest, YieldArchStmts, YieldParts, ArchStmtRespects, ArchStmtOf;
    var Done(part, k) := ParseNamePart(tokens.tail);
    var rest := PartsSound(part, k);
    var body := ArchStmtsSound(ParseNameRest(part, k).rest.tail);
    t := ArchTree(tokens.tail.head, rest, body);
  }

  lemma {:induction false} FileSound(tokens: Tokens) returns (t: seq<ArchTree>)
    requires ParseArchs(tokens).Some?
    ensures FileRespects(t) && ParseArchs(tokens).value == Map(ArchOf, t) && tokens == YieldFile(t)
    decreases Length(tokens)
  {
    hide ParseArch, YieldArch, ArchRespects, ArchOf;
    var x := ArchSound(tokens);
    var k := ParseArch(tokens).rest;
    t := [x];
    if k == End {
      assert t[1..] == [];
    } else {
      var rest := FileSound(k);
      t := [x] + rest;
    }
  }

  /** The grammar in one statement: tokens parse to a file exactly when some derivation of the whole grammar, with its
      precedence, its parentheses and its optional commas, has these tokens and this value. */
  lemma {:induction false} ParseFileIffDerives(tokens: Tokens, f: File)
    ensures ParseFile(tokens) == Some(f) <==> exists t :: FileRespects(t) && YieldFile(t) == tokens && FileOf(t) == f
  {
    hide ParseArchs, FileRespects, YieldFile;
    if ParseFile(tokens) == Some(f) {
      var t := FileSound(tokens);
      assert FileOf(t) == f;
    }
    if t :| FileRespects(t) && YieldFile(t) == tokens && FileOf(t) == f {
      FileReadsBack(t);
    }
  }

  // ---------- The statements by their words ----------

  /** The words and symbols of the statements without lists. */
  lemma {:induction false} StatementsByWord(n: nat, k: Tokens)
    ensures ParseArchStmt(Cons(Word("wordsize"), Cons(Int(n), Cons(Lit(';'), k)))) == Done(Wordsize(n), k)
    ensures ParseArchStmt(Cons(Word("endianness"), Cons(Word("little"), Cons(Lit(';'), k))))
         == Done(Endianness(true), k)
    ensures ParseArchStmt(Cons(Word("endianness"), Cons(Word("big"), Cons(Lit(';'), k)))) == Done(Endianness(false), k)
  {
    WordsDiffer();
    hide WORDSIZE, ENDIANNESS, ALIAS, REGISTER, FORMAT, MODE, OP, LITTLE, BIG;
  }

  lemma {:induction false} AliasByWord(name: Ident, target: Ident, k: Tokens)
    ensures ParseArchStmt(Cons(Word("alias"), Cons(Word(name), Cons(Lit('='), Cons(Word(target), Cons(Lit(';'), k))))))
         == Done(Alias(name, target), k)
  {
    WordsDiffer();
    hide WORDSIZE, ENDIANNESS, ALIAS, REGISTER, FORMAT, MODE, OP, LITTLE, BIG;
  }

  lemma {:induction false} RegisterByWord(n: nat, w: nat, name: Ident, k: Tokens)
    ensures ParseArchStmt(Cons(Word("register"), Cons(Word(name), Cons(Lit('['), Cons(Int(n), Cons(Lit(','),
              Cons(Int(w), Cons(Lit(']'), Cons(Lit(';'), k))))))))) == Done(RegisterDecl(name, n, w, None), k)
  {
    WordsDiffer();
    hide WORDSIZE, ENDIANNESS, ALIAS, REGISTER, FORMAT, MODE, OP, LITTLE, BIG;
  }

  lemma {:induction false} WordsDiffer()
    ensures WORDSIZE == "wordsize" && ENDIANNESS == "endianness" && ALIAS == "alias" && REGISTER == "register"
    ensures FORMAT == "format" && MODE == "mode" && OP == "op" && LITTLE == "little" && BIG == "big"
    ensures WORDSIZE != ENDIANNESS && WORDSIZE != ALIAS && WORDSIZE != REGISTER
    ensures ENDIANNESS != ALIAS && ENDIANNESS != REGISTER && ALIAS != REGISTER && LITTLE != BIG
    ensures FORMAT !in {WORDSIZE, ENDIANNESS, ALIAS, REGISTER}
      && MODE !in {WORDSIZE, ENDIANNESS, ALIAS, REGISTER, FORMAT}
    ensures OP !in {WORDSIZE, ENDIANNESS, ALIAS, REGISTER, FORMAT, MODE}
  {
    assert |WORDSIZE| == 8 && |ENDIANNESS| == 10 && |ALIAS| == 5 && |REGISTER| == 8 && |FORMAT| == 6 && |MODE| == 4;
    assert |OP| == 2 && |LITTLE| == 6 && |BIG| == 3 && WORDSIZE[0] != REGISTER[0];
  }

  /** And of those with empty lists, of attributes, and of a declaration. */
  lemma {:induction false} ListsByWord(name: Ident, text: string, k: Tokens)
    ensures ParseArchStmt(Cons(Word("format"), Cons(Word(name), Cons(Lit('{'), Cons(Lit('}'), k)))))
         == Done(FormatDecl(name, []), k)
    ensures ParseArchStmt(Cons(Word("mode"), Cons(Word(name), Cons(Lit('('), Cons(Lit(')'), Cons(Lit('{'),
              Cons(Lit('}'), k))))))) == Done(ModeDecl(name, []), k)
    ensures ParseArchStmt(Cons(Word("op"), Cons(Word(name), Cons(Lit('('), Cons(Lit(')'), Cons(Lit('{'),
              Cons(Lit('}'), k))))))) == Done(OpDecl(name, [], []), k)
  {
    WordsDiffer();
  }

  lemma {:induction false} AttributesByWord(text: string, k: Tokens)
    ensures ParseAttr(Cons(Word("syntax"), Cons(Str(text), Cons(Lit(';'), k)))) == Done(SyntaxAttr(text), k)
    ensures ParseAttr(Cons(Word("image"), Cons(Str(text), Cons(Lit(';'), k)))) == Done(ImageAttr(text), k)
    ensures ParseAttr(Cons(Word("action"), Cons(Lit('{'), Cons(Lit('}'), k)))) == Done(ActionAttr([]), k)
  {
    assert SYNTAX == "syntax" && IMAGE == "image" && ACTION == "action";
    assert |SYNTAX| == 6 && |IMAGE| == 5 && |ACTION| == 6 && SYNTAX[0] != ACTION[0];
  }

  /** A declaration; in its name the thirteen keywords cannot stand. */
  lemma {:induction false} DeclarationByWord(name: Ident, k: Tokens)
    ensures ParseNamePart(Cons(Word(name), k)).Fail? <==>
      name in {"arch", "register", "mode", "format", "op", "alias", "wordsize", "endianness", "little", "big", "syntax",
               "image", "action"}
    ensures ParseNamePart(Cons(Word(name), k)).Done? ==>
      ParseArch(Cons(Word("arch"), Cons(Word(name), Cons(Lit('{'), Cons(Lit('}'), k))))) == Done(Arch(name, []), k)
  {
    assert ARCH == "arch";
    var k0 := Cons(Lit('{'), Cons(Lit('}'), k));
    if ParseNamePart(Cons(Word(name), k)).Done? {
      assert ParseNameRest(name, k0) == Done(name, k0);
    }
  }
}
