/** uMDesc files as text: lexing with token values, writing tokens as spaced text, and the round trip of a file. */
module UmdescText {
  import opened Decimals
  import opened Results
  import opened Lists
  import opened UmdescSyntax
  import opened UmdescExpr
  import opened UmdescFile
  import opened UmdescPrinter
  import opened UmdescLexer

  // ---------- Token values ----------

  function HexDigitValue(c: char): nat
    requires IsHex(c)
  {
    if IsDigit(c) then c as int - '0' as int
    else if 'a' <= c <= 'f' then c as int - 'a' as int + 10
    else c as int - 'A' as int + 10
  }

  function HexValue(s: string): nat
    requires forall i :: 0 <= i < |s| ==> IsHex(s[i])
  {
    if s == "" then 0 else HexValue(s[..|s| - 1]) * 16 + HexDigitValue(s[|s| - 1])
  }

  /** A string token's value: the text between the quotes, with each backslash-quote replaced by a quote. */
  function Unquoted(raw: string): string {
    if raw == "" then ""
    else if |raw| >= 2 && raw[0] == '\\' && raw[1] == '\"' then ['\"'] + Unquoted(raw[2..])
    else [raw[0]] + Unquoted(raw[1..])
  }

  predicate IsNumeral(s: string) {
    if |s| > 2 && s[1] in {'x', 'X'} then forall i :: 2 <= i < |s| ==> IsHex(s[i]) else AllDigits(s)
  }

  /** int(t.value, 0). */
  function NumberValue(s: string): nat
    requires IsNumeral(s)
  {
    if |s| > 2 && s[1] in {'x', 'X'} then
      assert forall i :: 0 <= i < |s[2..]| ==> s[2..][i] == s[i + 2];
      HexValue(s[2..])
    else Value(s)
  }

  /** The text of a number is a numeral, and that of an identifier is one. */
  lemma {:induction false} LexemesAreGood(text: string, pos: nat)
    requires pos < |text| && Match(text, pos).Some?
    ensures
      var (kind, end) := Match(text, pos).value;
      && (kind == Number ==> IsNumeral(text[pos..end]))
      && (kind == Identifier ==> IsIdent(text[pos..end]))
      && (kind == Quoted ==> pos + 2 <= end)
  {
    var (kind, end) := Match(text, pos).value;
    var lexeme := text[pos..end];
    assert forall i :: 0 <= i < |lexeme| ==> lexeme[i] == text[pos + i];
    if kind == Number && !(|lexeme| > 2 && lexeme[1] in {'x', 'X'}) {
      forall c | c in lexeme ensures IsDigit(c) {
        var i :| 0 <= i < |lexeme| && lexeme[i] == c;
      }
    }
  }

  /** The token that a match stands for, if it is not skipped. */
  function TokenAt(text: string, pos: nat): Option<Token>
    requires pos < |text| && Match(text, pos).Some?
  {
    var (kind, end) := Match(text, pos).value;
    LexemesAreGood(text, pos);
    match kind
    case Number => Some(Int(NumberValue(text[pos..end])))
    case Quoted => Some(Str(Unquoted(text[pos + 1..end - 1])))
    case Identifier => Some(Word(text[pos..end]))
    case Dots => Some(DotDot)
    case Literal => Some(Lit(text[pos]))
    case _ => None
  }

  /** All tokens from pos on; None when the lexer raises. */
  function LexTokens(text: string, pos: nat): Option<Tokens>
    requires pos <= |text|
    decreases |text| - pos
  {
    if pos == |text| then Some(End)
    else match Match(text, pos)
      case None => None
      case Some((kind, end)) =>
        match LexTokens(text, end)
        case None => None
        case Some(rest) =>
          match TokenAt(text, pos)
          case None => Some(rest)
          case Some(token) => Some(Cons(token, rest))
  }

  function ReadFile(text: string): Option<File> {
    match LexTokens(text, 0) case None => None case Some(tokens) => ParseFile(tokens)
  }

  /** The lexer that counts lines raises on the same texts. */
  lemma {:induction false} LexersAgree(text: string, pos: nat)
    requires pos <= |text|
    ensures LexTokens(text, pos).Some? <==> LexAll(text, pos).Some?
    decreases |text| - pos
  {
    hide Match, TokenAt;
    if pos < |text| && Match(text, pos).Some? {
      LexersAgree(text, Match(text, pos).value.1);
    }
  }

  // ---------- Writing tokens ----------

  function Requoted(content: string): string {
    if content == "" then ""
    else (if content[0] == '\"' then "\\\"" else [content[0]]) + Requoted(content[1..])
  }

  function SpellToken(token: Token): string {
    match token
    case Word(text) => text
    case Int(n) => ToString(n)
    case Str(content) => "\"" + (Requoted(content) + "\"")
    case DotDot => ".."
    case Lit(c) => [c]
  }

  /** The tokens with a space after each. */
  function Spell(tokens: Tokens): string {
    match tokens
    case End => ""
    case Cons(token, rest) => SpellToken(token) + (" " + Spell(rest))
  }

  function WriteFile(f: File): string {
    Spell(PrintFile(f))
  }

  /** Text that may stand between quotes: each backslash goes with the character after it, which is no newline. */
  predicate Whole(raw: string) {
    if raw == "" then true
    else if raw[0] == '\\' then |raw| >= 2 && raw[1] != '\n' && Whole(raw[2..])
    else raw[0] != '\"' && Whole(raw[1..])
  }

  predicate IsContent(content: string) {
    Whole(Requoted(content))
  }

  predicate CanSpell(token: Token) {
    match token
    case Str(content) => IsContent(content)
    case Lit(c) => c in LITERALS
    case _ => true
  }

  predicate Spellable(tokens: Tokens) {
    match tokens case End => true case Cons(token, rest) => CanSpell(token) && Spellable(rest)
  }

  // ---------- Strings ----------

  lemma {:induction false} UnquotedQuote(rest: string)
    ensures Unquoted("\\\"" + rest) == ['\"'] + Unquoted(rest)
  {
    assert ("\\\"" + rest)[2..] == rest;
  }

  lemma {:induction false} UnquotedOther(c: char, rest: string)
    requires c != '\\' || rest == "" || rest[0] != '\"'
    ensures Unquoted([c] + rest) == [c] + Unquoted(rest)
  {
    assert ([c] + rest)[1..] == rest;
  }

  lemma {:induction false} UnquotedRequoted(content: string)
    ensures Unquoted(Requoted(content)) == content
    ensures Requoted(content) == "" || Requoted(content)[0] != '\"'
  {
    hide Unquoted;
    if content == "" {
      UnquotedNothing();
    } else {
      UnquotedRequoted(content[1..]);
      if content[0] == '\"' {
        UnquotedQuote(Requoted(content[1..]));
      } else {
        UnquotedOther(content[0], Requoted(content[1..]));
      }
    }
  }

  lemma UnquotedNothing()
    ensures Unquoted("") == ""
  {
  }

  lemma {:induction false} RequotedUnquoted(raw: string)
    requires Whole(raw)
    ensures Requoted(Unquoted(raw)) == raw
  {
    if raw != "" {
      if raw[0] != '\\' {
        RequotedUnquoted(raw[1..]);
        RequotedOne(raw[0], Unquoted(raw[1..]));
      } else {
        RequotedUnquoted(raw[2..]);
        if raw[1] == '\"' {
          RequotedOne('\"', Unquoted(raw[2..]));
          assert raw == "\\\"" + raw[2..];
        } else {
          assert raw[1..][1..] == raw[2..];
          assert Unquoted(raw[1..]) == [raw[1]] + Unquoted(raw[2..]);
          RequotedOne(raw[1], Unquoted(raw[2..]));
          RequotedOne('\\', Unquoted(raw[1..]));
          assert raw == ['\\'] + ([raw[1]] + raw[2..]);
        }
      }
    }
  }

  lemma {:induction false} RequotedOne(c: char, rest: string)
    ensures Requoted([c] + rest) == (if c == '\"' then "\\\"" else [c]) + Requoted(rest)
  {
    assert ([c] + rest)[1..] == rest;
  }

  /** The lexer finds the end of a whole text, and only of such. */
  lemma {:induction false} StringEnds(text: string, pos: nat, raw: string, rest: string)
    requires Whole(raw) && pos <= |text| && text[pos..] == raw + ("\"" + rest)
    ensures StringEnd(text, pos) == Some(pos + |raw| + 1)
    decreases |raw|
  {
    assert text[pos] == (raw + ("\"" + rest))[0];
    if raw != "" {
      var n := if raw[0] == '\\' then 2 else 1;
      if n == 2 {
        assert text[pos + 1] == text[pos..][1];
      }
      assert text[pos + n..] == text[pos..][n..] == raw[n..] + ("\"" + rest);
      StringEnds(text, pos + n, raw[n..], rest);
    }
  }

  lemma {:induction false} StringIsWhole(text: string, pos: nat)
    requires pos <= |text| && StringEnd(text, pos).Some?
    ensures Whole(text[pos..StringEnd(text, pos).value - 1])
    decreases |text| - pos
  {
    var end := StringEnd(text, pos).value;
    if text[pos] != '\"' {
      var n := if text[pos] == '\\' then 2 else 1;
      StringIsWhole(text, pos + n);
      assert text[pos..end - 1][n..] == text[pos + n..end - 1];
    }
  }

  // ---------- Written tokens are lexed back ----------

  /** A run of characters ends where it is followed by another one. */
  lemma {:induction false} RunEnds(text: string, pos: nat, run: string, p: char -> bool, rest: string)
    requires pos <= |text| && text[pos..] == run + rest && rest != "" && !p(rest[0])
    requires forall i :: 0 <= i < |run| ==> p(run[i])
    ensures RunEnd(text, pos, p) == pos + |run|
  {
    var end := RunEnd(text, pos, p);
    forall i | 0 <= i < |run| ensures text[pos + i] == run[i] {
      assert text[pos + i] == text[pos..][i];
    }
    assert text[pos + |run|] == text[pos..][|run|];
    assert end >= pos + |run|;
  }

  lemma {:induction false} WordLexes(text: string, pos: nat, word: Ident, rest: string)
    requires pos <= |text| && text[pos..] == word + (" " + rest)
    ensures pos < |text| && Match(text, pos) == Some((Identifier, pos + |word|)) && text[pos..pos + |word|] == word
  {
    assert text[pos] == text[pos..][0] == word[0];
    assert text[pos + 1..] == text[pos..][1..] == word[1..] + (" " + rest);
    RunEnds(text, pos + 1, word[1..], IdentChar, " " + rest);
  }

  lemma {:induction false} NumeralStart(n: nat)
    ensures AllDigits(ToString(n)) && Value(ToString(n)) == n
    ensures forall i :: 0 <= i < |ToString(n)| ==> IsDigit(ToString(n)[i])
    ensures ToString(n)[0] == '0' ==> ToString(n) == "0"
  {
    ToStringValue(n);
    if n >= 10 {
      NumeralStart(n / 10);
    }
  }

  lemma {:induction false} DigitsLex(text: string, pos: nat, s: string, rest: string)
    requires s != "" && (forall i :: 0 <= i < |s| ==> IsDigit(s[i])) && (s[0] == '0' ==> s == "0")
    requires pos <= |text| && text[pos..] == s + (" " + rest)
    ensures pos < |text| && Match(text, pos) == Some((Number, pos + |s|)) && text[pos..pos + |s|] == s
  {
    hide ScanComment, StringEnd;
    assert text[pos] == text[pos..][0] == s[0];
    assert text[pos + 1..] == text[pos..][1..] == s[1..] + (" " + rest);
    RunEnds(text, pos + 1, s[1..], IsDigit, " " + rest);
    if s[0] == '0' {
      RunEnds(text, pos, s, x => x == '0', " " + rest);
      assert text[pos + 1] == text[pos..][1] == ' ';
    }
  }

  lemma {:induction false} NumeralIsItself(n: nat)
    ensures IsNumeral(ToString(n)) && NumberValue(ToString(n)) == n
  {
    NumeralStart(n);
    hide ToString, Value;
    assert |ToString(n)| > 1 ==> IsDigit(ToString(n)[1]);
  }

  lemma {:induction false} NumberLexes(text: string, pos: nat, n: nat, rest: string)
    requires pos <= |text| && text[pos..] == ToString(n) + (" " + rest)
    ensures pos < |text| && Match(text, pos) == Some((Number, pos + |ToString(n)|))
    ensures text[pos..pos + |ToString(n)|] == ToString(n) && IsNumeral(ToString(n)) && NumberValue(ToString(n)) == n
  {
    hide ToString, Match, NumberValue, IsNumeral;
    NumeralStart(n);
    DigitsLex(text, pos, ToString(n), rest);
    NumeralIsItself(n);
  }

  lemma {:induction false} SymbolLexes(text: string, pos: nat, token: Token, rest: string)
    requires (token.DotDot? || (token.Lit? && token.symbol in LITERALS))
    requires pos <= |text| && text[pos..] == SpellToken(token) + (" " + rest)
    ensures pos < |text|
    ensures Match(text, pos) == Some(if token.DotDot? then (Dots, pos + 2) else (Literal, pos + 1))
    ensures token.Lit? ==> text[pos] == token.symbol
  {
    hide ScanComment, StringEnd, RunEnd;
    assert text[pos] == text[pos..][0] == SpellToken(token)[0];
    assert text[pos + 1] == text[pos..][1];
  }

  lemma {:induction false} QuotedLexes(text: string, pos: nat, raw: string, rest: string)
    requires Whole(raw) && pos <= |text| && text[pos..] == "\"" + (raw + ("\"" + rest))
    ensures pos < |text| && Match(text, pos) == Some((Quoted, pos + |raw| + 2)) && pos + |raw| + 2 <= |text|
    ensures text[pos + 1..pos + 1 + |raw|] == raw
  {
    hide ScanComment, RunEnd, StringEnd, Whole;
    assert text[pos] == text[pos..][0] == '\"';
    assert text[pos + 1..] == text[pos..][1..] == raw + ("\"" + rest);
    StringEnds(text, pos + 1, raw, rest);
    assert text[pos + 1..pos + 1 + |raw|] == text[pos + 1..][..|raw|] == raw;
  }

  lemma {:induction false} StringLexes(text: string, pos: nat, content: string, rest: string)
    requires IsContent(content) && pos <= |text| && text[pos..] == SpellToken(Str(content)) + (" " + rest)
    ensures pos < |text|
    ensures var end := pos + |SpellToken(Str(content))|;
      && Match(text, pos) == Some((Quoted, end)) && pos + 2 <= end <= |text|
      && Unquoted(text[pos + 1..end - 1]) == content
  {
    hide Match, Requoted, Unquoted, Whole;
    var raw := Requoted(content);
    assert text[pos..] == "\"" + (raw + ("\"" + (" " + rest)));
    QuotedLexes(text, pos, raw, " " + rest);
    UnquotedRequoted(content);
    assert |SpellToken(Str(content))| == |raw| + 2;
  }

  lemma {:induction false} TokenLexes(text: string, pos: nat, token: Token, rest: string)
    requires CanSpell(token) && pos <= |text| && text[pos..] == SpellToken(token) + (" " + rest)
    ensures pos < |text| && Match(text, pos).Some? && Match(text, pos).value.1 == pos + |SpellToken(token)|
    ensures TokenAt(text, pos) == Some(token)
  {
    hide Match, SpellToken, NumberValue, IsNumeral, Unquoted, IsContent, ToString;
    SpellingIs(token);
    match token {
      case Word(word) => WordLexes(text, pos, word, rest);
      case Int(n) => NumberLexes(text, pos, n, rest);
      case Str(content) => StringLexes(text, pos, content, rest);
      case DotDot => SymbolLexes(text, pos, token, rest);
      case Lit(_) => SymbolLexes(text, pos, token, rest);
    }
  }

  lemma SpellingIs(token: Token)
    ensures token.Word? ==> SpellToken(token) == token.text
    ensures token.Int? ==> SpellToken(token) == ToString(token.value)
    ensures token.DotDot? ==> |SpellToken(token)| == 2
    ensures token.Lit? ==> |SpellToken(token)| == 1
  {
  }

  lemma {:induction false} SpaceIsSkipped(text: string, pos: nat)
    requires pos < |text| && text[pos] == ' '
    ensures LexTokens(text, pos) == LexTokens(text, pos + 1)
  {
    assert Match(text, pos) == Some((Space, pos + 1));
  }

  lemma {:induction false} LexStep(text: string, pos: nat, end: nat, token: Token)
    requires pos < |text| && Match(text, pos).Some? && Match(text, pos).value.1 == end
    requires TokenAt(text, pos) == Some(token) && LexTokens(text, end).Some?
    ensures LexTokens(text, pos) == Some(Cons(token, LexTokens(text, end).value))
  {
    hide Match, TokenAt;
  }

  /** Spaced text of tokens is lexed to these tokens. */
  lemma {:induction false} SpelledLexes(text: string, pos: nat, tokens: Tokens)
    requires Spellable(tokens) && pos <= |text| && text[pos..] == Spell(tokens)
    ensures LexTokens(text, pos) == Some(tokens)
    decreases tokens
  {
    hide Match, TokenAt, CanSpell, SpellToken;
    if tokens.Cons? {
      var rest := Spell(tokens.tail);
      TokenLexes(text, pos, tokens.head, rest);
      var end := pos + |SpellToken(tokens.head)|;
      assert text[end..] == text[pos..][|SpellToken(tokens.head)|..] == " " + rest;
      assert text[end] == text[end..][0] == ' ';
      assert text[end + 1..] == text[end..][1..] == rest;
      SpelledLexes(text, end + 1, tokens.tail);
      SpaceIsSkipped(text, end);
      LexStep(text, pos, end, tokens.head);
    }
  }

  lemma {:induction false} TokenCanBeSpelled(text: string, pos: nat)
    requires pos < |text| && Match(text, pos).Some? && TokenAt(text, pos).Some?
    ensures CanSpell(TokenAt(text, pos).value)
  {
    hide ScanComment, RunEnd, StringEnd, Whole, Unquoted, Requoted, NumberValue;
    var (kind, end) := Match(text, pos).value;
    if kind == Quoted {
      StringIsWhole(text, pos + 1);
      RequotedUnquoted(text[pos + 1..end - 1]);
    }
  }

  /** Whatever is lexed can be written. */
  lemma {:induction false} LexedIsSpellable(text: string, pos: nat)
    requires pos <= |text| && LexTokens(text, pos).Some?
    ensures Spellable(LexTokens(text, pos).value)
    decreases |text| - pos
  {
    hide Match, TokenAt, CanSpell;
    if pos < |text| {
      LexedIsSpellable(text, Match(text, pos).value.1);
      if TokenAt(text, pos).Some? {
        TokenCanBeSpelled(text, pos);
      }
    }
  }

  lemma {:induction false} TokensRoundTrip(text: string)
    requires LexTokens(text, 0).Some?
    ensures LexTokens(Spell(LexTokens(text, 0).value), 0) == LexTokens(text, 0)
  {
    var tokens := LexTokens(text, 0).value;
    LexedIsSpellable(text, 0);
    assert Spell(tokens)[0..] == Spell(tokens);
    SpelledLexes(Spell(tokens), 0, tokens);
  }

  // ---------- Which derivations can be written ----------

  lemma SpellableCons()
    ensures forall t: Token, k: Tokens :: Spellable(Cons(t, k)) <==> CanSpell(t) && Spellable(k)
  {
  }

  lemma {:induction false} ExprSpellable(t: Tree, k: Tokens)
    requires Respects(t)
    ensures Spellable(Yield(t, k)) <==> Spellable(k)
    decreases t
  {
    SpellableCons();
    match t {
      case Paren(inner) => ExprSpellable(inner, Cons(Lit(')'), k));
      case Bin(op, left, right) =>
        ExprSpellable(left, Cons(Lit(op), Yield(right, k)));
        ExprSpellable(right, k);
      case _ =>
    }
  }

  lemma {:induction false} ArgsSpellable(es: seq<Tree>, k: Tokens)
    requires forall e :: e in es ==> Respects(e)
    ensures Spellable(YieldArgs(es, k)) <==> Spellable(k)
  {
    SpellableCons();
    hide Respects, Yield;
    if |es| == 1 {
      ExprSpellable(es[0], k);
    } else if es != [] {
      ExprSpellable(es[0], Cons(Lit(','), YieldArgs(es[1..], k)));
      ArgsSpellable(es[1..], k);
    }
  }

  lemma {:induction false} StmtSpellable(t: StmtTree, k: Tokens)
    requires StmtRespects(t)
    ensures Spellable(YieldStmt(t, k)) <==> Spellable(k)
  {
    SpellableCons();
    hide Respects, Yield, YieldArgs;
    match t {
      case AssignmentTree(lhs, rhs) => ExprSpellable(rhs, Cons(Lit(';'), k));
      case CallTree(name, args) => ArgsSpellable(args, Cons(Lit(')'), Cons(Lit(';'), k)));
    }
  }

  lemma {:induction false} StmtsSpellable(xs: seq<StmtTree>, k: Tokens)
    requires forall x :: x in xs ==> StmtRespects(x)
    ensures Spellable(YieldStmts(xs, k)) <==> Spellable(k)
  {
    hide StmtRespects, YieldStmt;
    if xs != [] {
      StmtSpellable(xs[0], YieldStmts(xs[1..], k));
      StmtsSpellable(xs[1..], k);
    }
  }

  /** The strings of an attribute can be written. */
  predicate AttrText(x: Attr) {
    match x
    case SyntaxAttr(text) => IsContent(text)
    case ImageAttr(text) => IsContent(text)
    case ActionAttr(_) => true
  }

  predicate ArchStmtText(x: ArchStmt) {
    x.OpDecl? ==> forall attr :: attr in x.attrs ==> AttrText(attr)
  }

  predicate ArchText(x: Arch) {
    forall stmt :: stmt in x.body ==> ArchStmtText(stmt)
  }

  predicate FileText(f: File) {
    forall arch :: arch in f.decls ==> ArchText(arch)
  }

  lemma {:induction false} AttrSpellable(t: AttrTree, k: Tokens)
    requires AttrRespects(t)
    ensures Spellable(YieldAttr(t, k)) <==> AttrText(AttrOf(t)) && Spellable(k)
  {
    SpellableCons();
    hide StmtRespects, YieldStmts, IsContent;
    if t.ActionTree? {
      StmtsSpellable(t.stmts, k);
    }
  }

  lemma {:induction false} AttrsSpellable(xs: seq<AttrTree>, k: Tokens)
    requires forall x :: x in xs ==> AttrRespects(x)
    ensures Spellable(YieldAttrs(xs, k)) <==> (forall x :: x in Map(AttrOf, xs) ==> AttrText(x)) && Spellable(k)
  {
    hide AttrRespects, YieldAttr, AttrOf, AttrText;
    if xs != [] {
      AttrSpellable(xs[0], YieldAttrs(xs[1..], k));
      AttrsSpellable(xs[1..], k);
    }
  }

  lemma {:induction false} ParamListSpellable(xs: seq<Param>, k: Tokens)
    ensures Spellable(YieldParamList(xs, k)) <==> Spellable(k)
  {
    SpellableCons();
    if |xs| > 1 {
      ParamListSpellable(xs[1..], k);
    }
  }

  lemma {:induction false} ParamsSpellable(xs: seq<Param>, k: Tokens)
    ensures Spellable(YieldParams(xs, k)) <==> Spellable(k)
  {
    SpellableCons();
    hide YieldParamList;
    ParamListSpellable(xs, Cons(Lit(')'), Cons(Lit('{'), k)));
  }

  lemma {:induction false} FieldsSpellable(xs: seq<FieldTree>, k: Tokens)
    ensures Spellable(YieldFields(xs, k)) <==> Spellable(k)
  {
    SpellableCons();
    if xs != [] {
      FieldsSpellable(xs[1..], k);
    }
  }

  lemma {:induction false} NamesSpellable(xs: seq<Listed>, k: Tokens)
    ensures Spellable(YieldNames(xs, k)) <==> Spellable(k)
  {
    SpellableCons();
    if xs != [] {
      NamesSpellable(xs[1..], k);
    }
  }

  lemma {:induction false} RegisterSpellable(t: ArchStmtTree, k: Tokens)
    requires t.RegisterTree?
    ensures Spellable(YieldArchStmt(t, k)) <==> Spellable(k)
  {
    SpellableCons();
    hide YieldNames;
    if t.names.Some? {
      NamesSpellable(t.names.value, Cons(Lit(';'), k));
    }
  }

  lemma {:induction false} ShortSpellable(x: ArchStmt, k: Tokens)
    requires x.Wordsize? || x.Endianness? || x.Alias? || x.ModeDecl?
    ensures Spellable(YieldShort(x, k)) <==> Spellable(k)
  {
    SpellableCons();
    hide YieldParams;
    if x.ModeDecl? {
      ParamsSpellable(x.params, Cons(Lit('}'), k));
    }
  }

  lemma {:induction false} ArchStmtSpellable(t: ArchStmtTree, k: Tokens)
    requires ArchStmtRespects(t)
    ensures Spellable(YieldArchStmt(t, k)) <==> ArchStmtText(ArchStmtOf(t)) && Spellable(k)
  {
    SpellableCons();
    hide YieldShort, YieldRegister, YieldFields, YieldParams, YieldAttrs, AttrRespects, AttrText, AttrOf, Map;
    hide OptNamesOf;
    match t {
      case ShortTree(stmt) => ShortSpellable(stmt, k);
      case RegisterTree(_, _, _, _) => RegisterSpellable(t, k);
      case FormatTree(_, fields) => FieldsSpellable(fields, k);
      case OpTree(_, params, attrs) =>
        ParamsSpellable(params, YieldAttrs(attrs, k));
        AttrsSpellable(attrs, k);
    }
  }

  lemma {:induction false} ArchStmtsSpellable(xs: seq<ArchStmtTree>, k: Tokens)
    requires forall x :: x in xs ==> ArchStmtRespects(x)
    ensures Spellable(YieldArchStmts(xs, k))
      <==> (forall x :: x in Map(ArchStmtOf, xs) ==> ArchStmtText(x)) && Spellable(k)
  {
    hide ArchStmtRespects, YieldArchStmt, ArchStmtOf, ArchStmtText;
    if xs != [] {
      ArchStmtSpellable(xs[0], YieldArchStmts(xs[1..], k));
      ArchStmtsSpellable(xs[1..], k);
    }
  }

  lemma {:induction false} PartsSpellable(parts: seq<Token>, k: Tokens)
    requires forall part :: part in parts ==> IsPart(part)
    ensures Spellable(YieldParts(parts, k)) <==> Spellable(k)
  {
    SpellableCons();
    if parts != [] {
      assert IsPart(parts[0]);
      PartsSpellable(parts[1..], k);
    }
  }

  lemma {:induction false} ArchSpellable(t: ArchTree, k: Tokens)
    requires ArchRespects(t)
    ensures Spellable(YieldArch(t, k)) <==> ArchText(ArchOf(t)) && Spellable(k)
  {
    SpellableCons();
    hide ArchStmtRespects, ArchStmtOf, ArchStmtText, YieldParts, YieldArchStmts;
    PartsSpellable(t.rest, Cons(Lit('{'), YieldArchStmts(t.body, k)));
    ArchStmtsSpellable(t.body, k);
  }

  lemma {:induction false} FileSpellable(t: seq<ArchTree>)
    requires forall x :: x in t ==> ArchRespects(x)
    ensures Spellable(YieldFile(t)) <==> FileText(FileOf(t))
  {
    hide ArchRespects, YieldArch, ArchOf, ArchText;
    if t != [] {
      ArchSpellable(t[0], YieldFile(t[1..]));
      FileSpellable(t[1..]);
    }
  }

  // ---------- The round trip of a file ----------

  /** Every well-formed file whose strings can be quoted is read back from its text. */
  lemma {:induction false} TextRoundTrip(f: File)
    requires GoodFile(f) && FileText(f)
    ensures ReadFile(WriteFile(f)) == Some(f)
  {
    hide PlainArch, ArchRespects, ArchOf, GoodArch, YieldFile, FileText, ParseFile, LexTokens, Spellable;
    var t := PlainFile(f);
    FileSpellable(t);
    FileRoundTrip(f);
    var text := WriteFile(f);
    assert text[0..] == text;
    SpelledLexes(text, 0, PrintFile(f));
  }

  /** Whatever text is read as a file, writing that file gives a text that is read as the same file. */
  lemma {:induction false} ReadTextRoundTrip(text: string)
    requires ReadFile(text).Some?
    ensures ReadFile(WriteFile(ReadFile(text).value)) == ReadFile(text)
  {
    hide ArchRespects, ArchOf, GoodArch, YieldFile, FileText, ParseArchs, LexTokens, Spellable, WriteFile;
    var tokens := LexTokens(text, 0).value;
    var t := FileSound(tokens);
    LexedIsSpellable(text, 0);
    FileSpellable(t);
    ParsedRoundTrip(tokens);
    TextRoundTrip(ReadFile(text).value);
  }

  // ---------- Numerals ----------

  /** The digits of a hexadecimal numeral, in either case. */
  lemma {:induction false} HexDigitIs(c: char)
    ensures '0' <= c <= '9' ==> HexDigitValue(c) == c as int - 48
    ensures 'a' <= c <= 'f' ==> HexDigitValue(c) == c as int - 87
    ensures 'A' <= c <= 'F' ==> HexDigitValue(c) == c as int - 55
  {
  }

  /** A further digit is worth sixteen times less than the ones before it; so for decimal numerals, ten times. */
  lemma {:induction false} NumeralWorth(s: string, c: char)
    ensures (forall i :: 0 <= i < |s| ==> IsHex(s[i])) && IsHex(c) ==>
      (forall i :: 0 <= i < |s + [c]| ==> IsHex((s + [c])[i]))
      && HexValue(s + [c]) == 16 * HexValue(s) + HexDigitValue(c) && HexValue("") == 0
    ensures AllDigits(s) && '0' <= c <= '9' ==>
      AllDigits(s + [c]) && Value(s + [c]) == 10 * Value(s) + (c as int - 48) && Value("") == 0
  {
    assert (s + [c])[..|s|] == s;
  }

  /** A number token after 0x is worth its hexadecimal digits, and any other its decimal ones. */
  lemma {:induction false} NumberIsWorth(text: string, pos: nat)
    requires pos < |text| && Match(text, pos).Some? && Match(text, pos).value.0 == Number
    ensures
      var lexeme := text[pos..Match(text, pos).value.1];
      if |lexeme| > 2 && (lexeme[1] == 'x' || lexeme[1] == 'X') then
        && (forall i :: 0 <= i < |lexeme[2..]| ==> IsHex(lexeme[2..][i]))
        && TokenAt(text, pos) == Some(Int(HexValue(lexeme[2..])))
      else AllDigits(lexeme) && TokenAt(text, pos) == Some(Int(Value(lexeme)))
  {
    hide Match, HexValue, Value;
    LexemesAreGood(text, pos);
    var lexeme := text[pos..Match(text, pos).value.1];
    if |lexeme| > 2 && (lexeme[1] == 'x' || lexeme[1] == 'X') {
      assert forall i :: 0 <= i < |lexeme[2..]| ==> lexeme[2..][i] == lexeme[i + 2];
    }
  }

  /** What a string token is worth: the backslash goes from before a quote, and stays before anything else. */
  lemma {:induction false} StringIsWorth(c: char, rest: string)
    ensures Unquoted("\\\"" + rest) == "\"" + Unquoted(rest) && Unquoted("") == ""
    ensures c != '\\' || rest == "" || rest[0] != '\"' ==> Unquoted([c] + rest) == [c] + Unquoted(rest)
  {
    UnquotedQuote(rest);
    if c != '\\' || rest == "" || rest[0] != '\"' {
      UnquotedOther(c, rest);
    }
  }
}
