/** A printer for uMDesc files, and its round trip with the parser. */
module UmdescPrinter {
  import opened Decimals
  import opened Results
  import opened Lists
  import opened UmdescSyntax
  import opened UmdescExpr
  import opened UmdescFile

  // ---------- Printing ----------

  /** Where the first hyphen is, or the length. */
  function Hyphen(s: string): (i: nat)
    ensures i <= |s| && (i < |s| ==> s[i] == '-') && '-' !in s[..i]
  {
    if s == "" || s[0] == '-' then 0
    else
      var i := Hyphen(s[1..]);
      assert s[..i + 1] == [s[0]] + s[1..][..i];
      i + 1
  }

  function PartToken(part: string): Token {
    if IsIdent(part) then Word(part) else Int(if AllDigits(part) then Value(part) else 0)
  }

  /** Parts that the grammar can have read: numbers in their shortest spelling, and words that are no keywords. */
  predicate NamePart(part: string) {
    IsPart(PartToken(part)) && Spelling(PartToken(part)) == part
  }

  predicate Name(name: string) {
    var i := Hyphen(name);
    NamePart(name[..i]) && (i < |name| ==> Name(name[i + 1..]))
  }

  function PartsOf(name: string): (parts: seq<Token>)
    ensures parts != []
  {
    var i := Hyphen(name);
    [PartToken(name[..i])] + if i < |name| then PartsOf(name[i + 1..]) else []
  }

  // The derivations with the fewest parentheses and no optional commas.

  function PlainStmt(x: Stmt): StmtTree {
    match x
    case Assignment(lhs, rhs) => AssignmentTree(lhs, Parenthesized(rhs))
    case Call(name, args) => CallTree(name, Map(Parenthesized, args))
  }

  function PlainAttr(x: Attr): AttrTree {
    match x
    case SyntaxAttr(text) => SyntaxTree(text)
    case ImageAttr(text) => ImageTree(text)
    case ActionAttr(stmts) => ActionTree(Map(PlainStmt, stmts))
  }

  function PlainArchStmt(x: ArchStmt): ArchStmtTree {
    match x
    case RegisterDecl(name, count, width, names) =>
      RegisterTree(name, count, width,
                   match names case None => None case Some(xs) => Some(Map(ident => Listed(ident, false), xs)))
    case FormatDecl(name, fields) => FormatTree(name, Map(field => FieldTree(field, false), fields))
    case OpDecl(name, params, attrs) => OpTree(name, params, Map(PlainAttr, attrs))
    case _ => ShortTree(x)
  }

  function PlainArch(x: Arch): ArchTree {
    var parts := PartsOf(x.name);
    ArchTree(parts[0], parts[1..], Map(PlainArchStmt, x.body))
  }

  function PrintFile(f: File): Tokens {
    YieldFile(Map(PlainArch, f.decls))
  }

  // ---------- What the grammar can build ----------

  predicate GoodStmt(x: Stmt) {
    match x
    case Assignment(_, rhs) => Known(rhs)
    case Call(_, args) => forall e :: e in args ==> Known(e)
  }

  predicate GoodAttr(x: Attr) {
    x.ActionAttr? ==> forall stmt :: stmt in x.stmts ==> GoodStmt(stmt)
  }

  predicate GoodArchStmt(x: ArchStmt) {
    match x
    case RegisterDecl(_, _, _, names) => names != Some([])
    case OpDecl(_, _, attrs) => forall attr :: attr in attrs ==> GoodAttr(attr)
    case _ => true
  }

  predicate GoodArch(x: Arch) {
    Name(x.name) && forall stmt :: stmt in x.body ==> GoodArchStmt(stmt)
  }

  predicate GoodFile(f: File) {
    f.decls != [] && forall arch :: arch in f.decls ==> GoodArch(arch)
  }

  // ---------- Round trip ----------

  lemma {:induction false} PlainStmtIs(x: Stmt)
    requires GoodStmt(x)
    ensures StmtRespects(PlainStmt(x)) && StmtOf(PlainStmt(x)) == x
  {
    hide Parenthesized, Respects, Known;
    if x.Call? {
      assert forall e :: e in Map(Parenthesized, x.args) ==>
        exists i :: 0 <= i < |x.args| && e == Parenthesized(x.args[i]);
      assert Map(Strip, Map(Parenthesized, x.args)) == x.args;
    }
  }

  lemma {:induction false} PlainAttrIs(x: Attr)
    requires GoodAttr(x)
    ensures AttrRespects(PlainAttr(x)) && AttrOf(PlainAttr(x)) == x
  {
    hide PlainStmt, StmtRespects, StmtOf, GoodStmt;
    if x.ActionAttr? {
      forall i | 0 <= i < |x.stmts|
        ensures StmtRespects(PlainStmt(x.stmts[i])) && StmtOf(PlainStmt(x.stmts[i])) == x.stmts[i]
      {
        PlainStmtIs(x.stmts[i]);
      }
      assert Map(StmtOf, Map(PlainStmt, x.stmts)) == x.stmts;
    }
  }

  lemma {:induction false} PlainArchStmtIs(x: ArchStmt)
    requires GoodArchStmt(x)
    ensures ArchStmtRespects(PlainArchStmt(x)) && ArchStmtOf(PlainArchStmt(x)) == x
  {
    hide PlainAttr, AttrRespects, AttrOf, GoodAttr;
    match x {
      case RegisterDecl(_, _, _, names) =>
        if names.Some? {
          assert Map(NameOf, Map(ident => Listed(ident, false), names.value)) == names.value;
        }
      case FormatDecl(_, fields) =>
        assert Map(FieldOf, Map(field => FieldTree(field, false), fields)) == fields;
      case OpDecl(_, _, attrs) =>
        forall i | 0 <= i < |attrs|
          ensures AttrRespects(PlainAttr(attrs[i])) && AttrOf(PlainAttr(attrs[i])) == attrs[i]
        {
          PlainAttrIs(attrs[i]);
        }
        assert Map(AttrOf, Map(PlainAttr, attrs)) == attrs;
      case _ =>
    }
  }

  /** A hyphenated name is taken apart into parts that spell it. */
  lemma {:induction false} NameIsSpelled(name: string)
    requires Name(name)
    ensures forall part :: part in PartsOf(name) ==> IsPart(part)
    ensures Spelling(PartsOf(name)[0]) + SpellingOfParts(PartsOf(name)[1..]) == name
    decreases |name|
  {
    hide PartToken, IsPart, Spelling, SpellingOfParts, Hyphen;
    var i := Hyphen(name);
    assert NamePart(name[..i]);
    var part := PartToken(name[..i]);
    if i < |name| {
      var rest := PartsOf(name[i + 1..]);
      NameIsSpelled(name[i + 1..]);
      assert PartsOf(name)[1..] == rest;
      SpelledFirst(part, rest);
      assert name == name[..i] + ("-" + name[i + 1..]);
    } else {
      assert PartsOf(name)[1..] == [];
      NothingSpelled();
      assert name[..i] + "" == name;
    }
  }

  lemma NothingSpelled()
    ensures SpellingOfParts([]) == ""
  {
  }

  lemma {:induction false} SpelledFirst(part: Token, rest: seq<Token>)
    requires rest != []
    ensures Spelling(part) + SpellingOfParts(rest)
      == Spelling(part) + ("-" + (Spelling(rest[0]) + SpellingOfParts(rest[1..])))
  {
    assert SpellingOfParts(rest) == "-" + (Spelling(rest[0]) + SpellingOfParts(rest[1..]));
  }

  lemma {:induction false} PlainArchIs(x: Arch)
    requires GoodArch(x)
    ensures ArchRespects(PlainArch(x)) && ArchOf(PlainArch(x)) == x
  {
    hide PlainArchStmt, ArchStmtRespects, ArchStmtOf, GoodArchStmt, PartsOf, IsPart, Spelling;
    NameIsSpelled(x.name);
    forall i | 0 <= i < |x.body|
      ensures ArchStmtRespects(PlainArchStmt(x.body[i])) && ArchStmtOf(PlainArchStmt(x.body[i])) == x.body[i] {
      PlainArchStmtIs(x.body[i]);
    }
    assert Map(ArchStmtOf, Map(PlainArchStmt, x.body)) == x.body;
  }

  lemma {:induction false} PlainFile(f: File) returns (t: seq<ArchTree>)
    requires GoodFile(f)
    ensures FileRespects(t) && FileOf(t) == f && PrintFile(f) == YieldFile(t)
  {
    hide PlainArch, ArchRespects, ArchOf, GoodArch, YieldFile;
    t := Map(PlainArch, f.decls);
    forall i | 0 <= i < |f.decls|
      ensures ArchRespects(PlainArch(f.decls[i])) && ArchOf(PlainArch(f.decls[i])) == f.decls[i] {
      PlainArchIs(f.decls[i]);
    }
    assert Map(ArchOf, t) == f.decls;
  }

  /** File round trip: every well-formed file, printed as tokens with the fewest parentheses, parses to itself. */
  lemma {:induction false} FileRoundTrip(f: File)
    requires GoodFile(f)
    ensures ParseFile(PrintFile(f)) == Some(f)
  {
    hide ArchRespects, ArchOf, YieldFile, ParseArchs, PrintFile;
    var t := PlainFile(f);
    FileReadsBack(t);
  }

  // ---------- Every parsed file can be printed ----------

  lemma {:induction false} StrippedIsKnown(t: Tree)
    requires Respects(t)
    ensures Known(Strip(t))
  {
    match t {
      case Paren(inner) => StrippedIsKnown(inner);
      case Bin(_, left, right) =>
        StrippedIsKnown(left);
        StrippedIsKnown(right);
      case _ =>
    }
  }

  lemma {:induction false} StmtIsGood(t: StmtTree)
    requires StmtRespects(t)
    ensures GoodStmt(StmtOf(t))
  {
    hide Respects, Known, Strip;
    match t {
      case AssignmentTree(_, rhs) => StrippedIsKnown(rhs);
      case CallTree(_, args) =>
        forall i | 0 <= i < |args| ensures Known(Strip(args[i])) {
          StrippedIsKnown(args[i]);
        }
    }
  }

  lemma {:induction false} AttrIsGood(t: AttrTree)
    requires AttrRespects(t)
    ensures GoodAttr(AttrOf(t))
  {
    hide StmtRespects, GoodStmt, StmtOf;
    if t.ActionTree? {
      forall i | 0 <= i < |t.stmts| ensures GoodStmt(StmtOf(t.stmts[i])) {
        StmtIsGood(t.stmts[i]);
      }
    }
  }

  lemma {:induction false} ArchStmtIsGood(t: ArchStmtTree)
    requires ArchStmtRespects(t)
    ensures GoodArchStmt(ArchStmtOf(t))
  {
    hide AttrRespects, GoodAttr, AttrOf;
    if t.OpTree? {
      forall i | 0 <= i < |t.attrs| ensures GoodAttr(AttrOf(t.attrs[i])) {
        AttrIsGood(t.attrs[i]);
      }
    }
  }

  lemma {:induction false} HyphenPrefix(a: string, b: string)
    requires '-' !in a
    ensures Hyphen(a + "-" + b) == |a| && Hyphen(a) == |a|
  {
    var s := a + "-" + b;
    if a != "" {
      assert s[1..] == a[1..] + "-" + b;
      assert s[0] == a[0] && a[0] in a;
      HyphenPrefix(a[1..], b);
    }
  }

  lemma {:induction false} PartIsGood(part: Token)
    requires IsPart(part)
    ensures NamePart(Spelling(part)) && '-' !in Spelling(part)
  {
    match part {
      case Word(text) =>
      case Int(n) =>
        ToStringValue(n);
        assert ToString(n) != "" && IsDigit(ToString(n)[0]);
    }
  }

  lemma {:induction false} SpelledIsName(part: Token, rest: seq<Token>)
    requires IsPart(part) && forall x :: x in rest ==> IsPart(x)
    ensures Name(Spelling(part) + SpellingOfParts(rest))
    decreases |rest|
  {
    hide NamePart, IsPart, Spelling, SpellingOfParts, Name, Hyphen;
    PartIsGood(part);
    var a := Spelling(part);
    if rest == [] {
      NothingSpelled();
      NameFromPart(a);
      assert a + "" == a;
    } else {
      SpelledIsName(rest[0], rest[1..]);
      SpelledFirst(part, rest);
      var b := Spelling(rest[0]) + SpellingOfParts(rest[1..]);
      NameFromParts(a, b);
      assert a + ("-" + b) == a + "-" + b;
    }
  }

  lemma {:induction false} NameFromPart(part: string)
    requires NamePart(part) && '-' !in part
    ensures Name(part)
  {
    HyphenPrefix(part, "");
    assert part[..|part|] == part;
  }

  lemma {:induction false} NameFromParts(part: string, name: string)
    requires NamePart(part) && '-' !in part && Name(name)
    ensures Name(part + "-" + name)
  {
    HyphenPrefix(part, name);
    var longer := part + "-" + name;
    assert longer[..|part|] == part && longer[|part| + 1..] == name;
  }

  lemma {:induction false} ArchIsGood(t: ArchTree)
    requires ArchRespects(t)
    ensures GoodArch(ArchOf(t))
  {
    hide ArchStmtRespects, GoodArchStmt, ArchStmtOf, Name, IsPart;
    SpelledIsName(t.first, t.rest);
    forall i | 0 <= i < |t.body| ensures GoodArchStmt(ArchStmtOf(t.body[i])) {
      ArchStmtIsGood(t.body[i]);
    }
  }

  /** Whatever the parser accepts is well formed, so printing it and parsing again gives the same file. */
  lemma {:induction false} ParsedRoundTrip(tokens: Tokens)
    requires ParseFile(tokens).Some?
    ensures GoodFile(ParseFile(tokens).value)
    ensures ParseFile(PrintFile(ParseFile(tokens).value)) == ParseFile(tokens)
  {
    hide ArchRespects, GoodArch, ArchOf, ParseArchs, YieldFile;
    var t := FileSound(tokens);
    forall i | 0 <= i < |t| ensures GoodArch(ArchOf(t[i])) {
      ArchIsGood(t[i]);
    }
    FileRoundTrip(ParseFile(tokens).value);
  }
}
