/** The uMDesc lexer: nested comments, and the line counter. */
module UmdescLexer {
  import opened Results
  import opened Decimals
  import opened UmdescSyntax

  // ---------- Nested comments ----------

  predicate At(text: string, pos: nat, a: char, b: char) {
    pos + 1 < |text| && text[pos] == a && text[pos + 1] == b
  }

  /** The scan of BLOCK_COMMENT: where the comment ends, or None when it does not. */
  function ScanComment(text: string, pos: nat, depth: nat): (r: Option<nat>)
    requires pos <= |text|
    ensures r.Some? ==> pos <= r.value <= |text|
    decreases |text| - pos
  {
    if depth == 0 then Some(pos)
    else if pos == |text| then None
    else if At(text, pos, '/', '*') then ScanComment(text, pos + 2, depth + 1)
    else if At(text, pos, '*', '/') then ScanComment(text, pos + 2, depth - 1)
    else ScanComment(text, pos + 1, depth)
  }

  // Greedy tokenising: an opener, else a closer, else one character.
  function TokenEnd(text: string, pos: nat): (r: nat)
    requires pos < |text|
    ensures pos < r <= |text|
  {
    if At(text, pos, '/', '*') || At(text, pos, '*', '/') then pos + 2 else pos + 1
  }

  function TokenDepth(text: string, pos: nat): int {
    if At(text, pos, '/', '*') then 1 else if At(text, pos, '*', '/') then -1 else 0
  }

  /** The position after n tokens; the end of the text once it is reached. */
  function After(text: string, pos: nat, n: nat): (r: nat)
    requires pos <= |text|
    ensures pos <= r <= |text|
  {
    if n == 0 then pos
    else
      var p := After(text, pos, n - 1);
      if p == |text| then p else TokenEnd(text, p)
  }

  /** How many more openers than closers there are among n tokens. */
  function Nesting(text: string, pos: nat, n: nat): int
    requires pos <= |text|
  {
    if n == 0 then 0 else Nesting(text, pos, n - 1) + TokenDepth(text, After(text, pos, n - 1))
  }

  /** n tokens take a comment of the given depth to its end for the first time. */
  ghost predicate Closes(text: string, pos: nat, depth: nat, n: nat)
    requires pos <= |text|
  {
    depth + Nesting(text, pos, n) == 0 && forall m :: 0 <= m < n ==> depth + Nesting(text, pos, m) > 0
  }

  lemma {:induction false} AfterFirst(text: string, pos: nat, n: nat)
    requires pos < |text|
    ensures After(text, TokenEnd(text, pos), n) == After(text, pos, n + 1)
    ensures Nesting(text, pos, n + 1) == TokenDepth(text, pos) + Nesting(text, TokenEnd(text, pos), n)
  {
    if n > 0 {
      AfterFirst(text, pos, n - 1);
    } else {
      assert After(text, pos, 0) == pos;
      assert Nesting(text, pos, 0) == 0;
    }
  }

  lemma {:induction false} AtTheEnd(text: string, n: nat)
    ensures After(text, |text|, n) == |text| && Nesting(text, |text|, n) == 0
  {
    if n > 0 {
      AtTheEnd(text, n - 1);
    }
  }

  lemma {:induction false} ScanFinds(text: string, pos: nat, depth: nat) returns (n: nat)
    requires pos <= |text| && ScanComment(text, pos, depth).Some?
    ensures Closes(text, pos, depth, n) && ScanComment(text, pos, depth).value == After(text, pos, n)
    decreases |text| - pos
  {
    if depth == 0 {
      n := 0;
    } else {
      var m := ScanFinds(text, TokenEnd(text, pos), depth + TokenDepth(text, pos));
      n := m + 1;
      AfterFirst(text, pos, m);
      forall i | 0 <= i < n ensures depth + Nesting(text, pos, i) > 0 {
        if i > 0 {
          AfterFirst(text, pos, i - 1);
        }
      }
    }
  }

  lemma {:induction false} ScanMisses(text: string, pos: nat, depth: nat, n: nat)
    requires pos <= |text| && ScanComment(text, pos, depth).None?
    ensures depth + Nesting(text, pos, n) > 0
    decreases |text| - pos
  {
    if pos == |text| {
      AtTheEnd(text, n);
    } else if n > 0 {
      ScanMisses(text, TokenEnd(text, pos), depth + TokenDepth(text, pos), n - 1);
      AfterFirst(text, pos, n - 1);
    }
  }

  /** The scan stops just past the first closer that balances, and fails exactly when none does. */
  lemma {:induction false} CommentEndsIff(text: string, pos: nat, depth: nat, end: nat)
    requires pos <= |text|
    ensures ScanComment(text, pos, depth) == Some(end)
      <==> exists n :: Closes(text, pos, depth, n) && After(text, pos, n) == end
    ensures ScanComment(text, pos, depth).None? <==> forall n :: depth + Nesting(text, pos, n) > 0
  {
    if ScanComment(text, pos, depth).Some? {
      var n := ScanFinds(text, pos, depth);
      assert !(depth + Nesting(text, pos, n) > 0);
      forall m | Closes(text, pos, depth, m) ensures m == n {
        assert depth + Nesting(text, pos, m) == 0 && depth + Nesting(text, pos, n) == 0;
      }
    } else {
      forall n ensures depth + Nesting(text, pos, n) > 0 {
        ScanMisses(text, pos, depth, n);
      }
    }
  }

  // ---------- Tokens ----------

  datatype Kind = Space | LineComment | BlockComment | Newlines | Dots | Number | Quoted | Identifier | Literal

  predicate IsHex(c: char) {
    IsDigit(c) || 'a' <= c <= 'f' || 'A' <= c <= 'F'
  }

  const LITERALS := {'{', '}', '[', ']', '(', ')', ',', ':', ';', '=', '+', '-', '|', '&', '^', '~'}

  /** The end of the longest run of characters that satisfy p. */
  function RunEnd(text: string, pos: nat, p: char -> bool): (r: nat)
    requires pos <= |text|
    ensures pos <= r <= |text| && (forall i :: pos <= i < r ==> p(text[i])) && (r < |text| ==> !p(text[r]))
    decreases |text| - pos
  {
    if pos < |text| && p(text[pos]) then RunEnd(text, pos + 1, p) else pos
  }

  /** The end of a string whose opening quote is just before pos. */
  function StringEnd(text: string, pos: nat): (r: Option<nat>)
    ensures r.Some? ==> pos < r.value <= |text|
    decreases |text| - pos
  {
    if pos >= |text| then None
    else if text[pos] == '\"' then Some(pos + 1)
    else if text[pos] != '\\' then StringEnd(text, pos + 1)
    else if pos + 1 < |text| && text[pos + 1] != '\n' then StringEnd(text, pos + 2)
    else None
  }

  /** The token at pos and where it ends; None for a syntax error, and for a decimal number with a leading zero, which
      int(text, 0) refuses unless it has zeros only. */
  function Match(text: string, pos: nat): (r: Option<(Kind, nat)>)
    requires pos < |text|
    ensures r.Some? ==> pos < r.value.1 <= |text|
  {
    var c := text[pos];
    if c in {' ', '\t', '\r'} then Some((Space, pos + 1))
    else if At(text, pos, '/', '/') then Some((LineComment, RunEnd(text, pos + 2, x => x != '\n')))
    else if At(text, pos, '/', '*') then
      (match ScanComment(text, pos + 2, 1) case None => None case Some(end) => Some((BlockComment, end)))
    else if c == '\n' then Some((Newlines, RunEnd(text, pos + 1, x => x == '\n')))
    else if At(text, pos, '.', '.') then Some((Dots, pos + 2))
    else if IsDigit(c) then
      if c == '0' && pos + 2 < |text| && text[pos + 1] in {'x', 'X'} && IsHex(text[pos + 2])
      then Some((Number, RunEnd(text, pos + 3, IsHex)))
      else
        var end := RunEnd(text, pos + 1, IsDigit);
        if c == '0' && RunEnd(text, pos, x => x == '0') < end then None else Some((Number, end))
    else if c == '\"' then
      (match StringEnd(text, pos + 1) case None => None case Some(end) => Some((Quoted, end)))
    else if IdentStart(c) then Some((Identifier, RunEnd(text, pos + 1, IdentChar)))
    else if c in LITERALS then Some((Literal, pos + 1))
    else None
  }

  /** str.count of newlines between two positions. */
  function Lines(text: string, from: nat, to: nat): nat
    requires from <= to <= |text|
    decreases |text| - from
  {
    if from == to then 0 else (if text[from] == '\n' then 1 else 0) + Lines(text, from + 1, to)
  }

  // ---------- The lexer ----------

  class Lexer {
    const text: string
    var index: nat
    var lineno: nat

    constructor (text: string)
      ensures this.text == text && index == 0 && lineno == 1
    {
      this.text := text;
      index, lineno := 0, 1;
    }

    method CountLines(from: nat, to: nat) returns (n: nat)
      requires from <= to <= |text|
      ensures n == Lines(text, from, to)
    {
      n := 0;
      var i := from;
      while i < to
        invariant from <= i <= to
        invariant n + Lines(text, i, to) == Lines(text, from, to)
      {
        if text[i] == '\n' {
          n := n + 1;
        }
        i := i + 1;
      }
    }

    /** The cursor is just past the opener, which is at `start`; false when the comment does not end. */
    method SkipBlockComment(start: nat) returns (ok: bool)
      requires start <= index <= |text|
      modifies this
      ensures match ScanComment(text, old(index), 1)
              case Some(end) => ok && index == end && lineno == old(lineno) + Lines(text, start, end)
              case None => !ok && index == old(index) && lineno == old(lineno)
    {
      var pos := index;
      var depth: nat := 1;
      while depth > 0 && pos < |text|
        invariant index <= pos <= |text|
        invariant ScanComment(text, pos, depth) == ScanComment(text, index, 1)
        decreases |text| - pos
      {
        if At(text, pos, '/', '*') {
          depth := depth + 1;
          pos := pos + 2;
        } else if At(text, pos, '*', '/') {
          depth := depth - 1;
          pos := pos + 2;
        } else {
          pos := pos + 1;
        }
      }
      if depth != 0 {
        return false;
      }
      var n := CountLines(start, pos);
      lineno := lineno + n;
      index := pos;
      return true;
    }

    /** One token; false for a syntax error. */
    method Next() returns (r: Option<Kind>)
      requires index < |text|
      modifies this
      ensures match Match(text, old(index))
              case Some((kind, end)) =>
                r == Some(kind) && index == end && lineno == old(lineno) + Counted(text, kind, old(index), end)
              case None => r == None
    {
      var start := index;
      if At(text, start, '/', '*') {
        index := start + 2;
        var ok := SkipBlockComment(start);
        return if ok then Some(BlockComment) else None;
      }
      var token := Match(text, start);
      if token.None? {
        return None;
      }
      index := token.value.1;
      if token.value.0 == Newlines {
        var n := CountLines(start, index);
        lineno := lineno + n;
      }
      return Some(token.value.0);
    }

    /** All tokens up to the end of the text; false when one raises. */
    method Tokenize() returns (ok: bool)
      requires index <= |text|
      modifies this
      ensures ok <==> LexAll(text, old(index)).Some?
      ensures ok ==> index == |text|
      ensures ok ==> lineno + LexAll(text, old(index)).value.quoted == old(lineno) + Lines(text, old(index), |text|)
    {
      hide Match, ScanComment, Lines, Counted;
      while index < |text|
        invariant index <= |text|
        invariant LexAll(text, old(index)).Some? <==> LexAll(text, index).Some?
        invariant LexAll(text, index).Some? ==>
          lineno + LexAll(text, index).value.counted == old(lineno) + LexAll(text, old(index)).value.counted
        decreases |text| - index
      {
        var kind := Next();
        if kind.None? {
          return false;
        }
      }
      if LexAll(text, old(index)).Some? {
        LinesCounted(text, old(index));
      }
      return true;
    }
  }

  /** What a token adds to the line counter. */
  function Counted(text: string, kind: Kind, start: nat, end: nat): nat
    requires start <= end <= |text|
  {
    if kind == BlockComment || kind == Newlines then Lines(text, start, end) else 0
  }

  // ---------- A whole text ----------

  datatype Totals = Totals(counted: nat, quoted: nat)

  /** Over the rest of the text: what is added to the line counter, and the newlines inside strings. */
  function LexAll(text: string, pos: nat): Option<Totals>
    requires pos <= |text|
    decreases |text| - pos
  {
    if pos == |text| then Some(Totals(0, 0))
    else match Match(text, pos)
      case None => None
      case Some((kind, end)) =>
        match LexAll(text, end)
        case None => None
        case Some(t) =>
          Some(Totals(Counted(text, kind, pos, end) + t.counted,
                      (if kind == Quoted then Lines(text, pos, end) else 0) + t.quoted))
  }

  lemma {:induction false} LinesSplit(text: string, a: nat, b: nat, c: nat)
    requires a <= b <= c <= |text|
    ensures Lines(text, a, c) == Lines(text, a, b) + Lines(text, b, c)
    decreases b - a
  {
    if a < b {
      LinesSplit(text, a + 1, b, c);
    }
  }

  lemma {:induction false} NoLines(text: string, a: nat, b: nat)
    requires a <= b <= |text| && forall i :: a <= i < b ==> text[i] != '\n'
    ensures Lines(text, a, b) == 0
    decreases b - a
  {
    if a < b {
      NoLines(text, a + 1, b);
    }
  }

  /** Only newline runs, block comments and strings contain newlines. */
  lemma {:induction false} OtherTokensHaveNoLines(text: string, pos: nat)
    requires pos < |text| && Match(text, pos).Some?
    ensures
      var (kind, end) := Match(text, pos).value;
      kind !in {BlockComment, Newlines, Quoted} ==> Lines(text, pos, end) == 0
  {
    var (kind, end) := Match(text, pos).value;
    if kind !in {BlockComment, Newlines, Quoted} {
      NoLines(text, pos, end);
    }
  }

  /** Lexing a whole text advances the line counter by its newlines, less those inside string literals. */
  lemma {:induction false} LinesCounted(text: string, pos: nat)
    requires pos <= |text| && LexAll(text, pos).Some?
    ensures LexAll(text, pos).value.counted + LexAll(text, pos).value.quoted == Lines(text, pos, |text|)
    decreases |text| - pos
  {
    if pos < |text| {
      var (kind, end) := Match(text, pos).value;
      LinesCounted(text, end);
      LinesSplit(text, pos, end, |text|);
      OtherTokensHaveNoLines(text, pos);
    }
  }

  // ---------- The token rules, by character ----------

  predicate InRun(text: string, from: nat, to: nat, p: char -> bool) {
    from <= to <= |text| && (forall i :: from <= i < to ==> p(text[i])) && (to < |text| ==> !p(text[to]))
  }

  predicate IsLetter(c: char) {
    'a' <= c <= 'z' || 'A' <= c <= 'Z'
  }

  /** Blanks are skipped one by one, and a literal is a character of its own. */
  lemma {:induction false} OneCharacter(text: string, pos: nat)
    requires pos < |text|
    ensures text[pos] in " \t\r" <==> Match(text, pos) == Some((Space, pos + 1))
    ensures text[pos] in "{}[](),:;=+-|&^~" <==> Match(text, pos) == Some((Literal, pos + 1))
  {
    hide ScanComment, RunEnd, StringEnd;
    OneCharacterOnly(text, pos);
  }

  lemma {:induction false} OneCharacterOnly(text: string, pos: nat)
    requires pos < |text|
    ensures text[pos] in " \t\r" <==> text[pos] in {' ', '\t', '\r'}
    ensures text[pos] in "{}[](),:;=+-|&^~" <==> text[pos] in LITERALS
  {
  }

  /** A line comment goes from its slashes to the end of the line, a block comment to its closer, and newlines go
      together. */
  lemma {:induction false} CommentsAndLines(text: string, pos: nat)
    requires pos < |text|
    ensures At(text, pos, '/', '/') ==>
      Match(text, pos).Some? && Match(text, pos).value.0 == LineComment
      && InRun(text, pos + 2, Match(text, pos).value.1, c => c != '\n')
    ensures At(text, pos, '/', '*') ==>
      Match(text, pos)
      == match ScanComment(text, pos + 2, 1) case None => None case Some(end) => Some((BlockComment, end))
    ensures text[pos] == '\n' ==>
      Match(text, pos).Some? && Match(text, pos).value.0 == Newlines
      && InRun(text, pos, Match(text, pos).value.1, c => c == '\n')
    ensures text[pos] == '/' && !At(text, pos, '/', '/') && !At(text, pos, '/', '*') ==> Match(text, pos) == None
  {
    hide ScanComment, StringEnd;
  }

  /** A word starts with a letter or an underscore and goes on with these, digits and dots. */
  lemma {:induction false} WordsAre(text: string, pos: nat)
    requires pos < |text| && (IsLetter(text[pos]) || text[pos] == '_')
    ensures Match(text, pos).Some? && Match(text, pos).value.0 == Identifier
    ensures InRun(text, pos, Match(text, pos).value.1, c => IsLetter(c) || c == '_' || '0' <= c <= '9' || c == '.')
  {
    hide ScanComment, StringEnd;
  }

  /** A number is a run of digits, with no zero before another digit than zero; or, after 0x or 0X, of hexadecimal
      ones. */
  lemma {:induction false} NumbersAre(text: string, pos: nat)
    requires pos < |text| && '0' <= text[pos] <= '9'
    ensures
      var hex := text[pos] == '0' && pos + 2 < |text| && (text[pos + 1] == 'x' || text[pos + 1] == 'X')
                 && IsHex(text[pos + 2]);
      if hex then
        Match(text, pos).Some? && Match(text, pos).value.0 == Number
        && InRun(text, pos + 2, Match(text, pos).value.1, IsHex)
      else match Match(text, pos)
        case Some((kind, end)) =>
          && kind == Number && InRun(text, pos, end, c => '0' <= c <= '9')
          && (text[pos] == '0' ==> forall i :: pos <= i < end ==> text[i] == '0')
        case None => text[pos] == '0' && exists i :: pos < i < |text| && '1' <= text[i] <= '9'
    ensures forall c :: IsHex(c) <==> '0' <= c <= '9' || 'a' <= c <= 'f' || 'A' <= c <= 'F'
  {
    hide ScanComment, StringEnd;
    if Match(text, pos) == None {
      var end := RunEnd(text, pos + 1, IsDigit);
      var zeros := RunEnd(text, pos, x => x == '0');
      assert zeros < end && text[zeros] != '0';
      assert zeros > pos;
      assert IsDigit(text[zeros]);
    }
  }

  /** Two dots are a token, and one is not; nothing else starts one. */
  lemma {:induction false} NothingElse(text: string, pos: nat)
    requires pos < |text|
    ensures At(text, pos, '.', '.') ==> Match(text, pos) == Some((Dots, pos + 2))
    ensures text[pos] == '.' && !At(text, pos, '.', '.') ==> Match(text, pos) == None
    ensures !IsLetter(text[pos]) && !('0' <= text[pos] <= '9') && text[pos] !in "_ \t\r\n./\"{}[](),:;=+-|&^~" ==>
      Match(text, pos) == None
  {
    hide ScanComment, RunEnd, StringEnd;
    OneCharacterOnly(text, pos);
    forall c ensures c in "_ \t\r\n./\"{}[](),:;=+-|&^~" <==>
        c in "_\n./\"" || c in " \t\r" || c in "{}[](),:;=+-|&^~" {
    }
  }

  /** A newline is one line, and any other character none. */
  lemma {:induction false} LineCount(text: string, i: nat)
    requires i < |text|
    ensures Lines(text, i, i + 1) == if text[i] == '\n' then 1 else 0
    ensures forall a, b :: 0 <= a <= i < b <= |text| ==> Lines(text, a, b) == Lines(text, a, i) + Lines(text, i, b)
  {
    forall a, b | 0 <= a <= i < b <= |text| ensures Lines(text, a, b) == Lines(text, a, i) + Lines(text, i, b) {
      LinesSplit(text, a, i, b);
    }
  }
}
