/** The three in-place passes of `escape` in wasm-emscripten.cpp, the single pass they amount to,
    and what that does to runs of backslashes. */
module Escape {
  import opened Results

  // ---------- The passes ----------

  /** One pass over a letter: a backslash before it becomes two. */
  function Pairs(s: string, letter: char): string {
    if |s| >= 2 && s[0] == '\\' && s[1] == letter then "\\\\" + [letter] + Pairs(s[2..], letter)
    else if s == "" then ""
    else [s[0]] + Pairs(s[1..], letter)
  }

  /** What a quote becomes after the given character. */
  function Quoted(prev: char): string {
    if prev == '\\' then "\\\\\"" else "\\\""
  }

  /** The pass over quotes; prev is the character before s. */
  function Quotes(prev: char, s: string): string
    decreases |s|
  {
    if s == "" then ""
    else if s[0] == '\"' then Quoted(prev) + Quotes('\"', s[1..])
    else [s[0]] + Quotes(s[0], s[1..])
  }

  const NONE: char := ' '

  function Escaped(s: string): string {
    Quotes(NONE, Pairs(Pairs(s, 'n'), 't'))
  }

  // ---------- The loops ----------

  predicate PairAt(s: string, i: nat, letter: char) {
    i + 1 < |s| && s[i] == '\\' && s[i + 1] == letter
  }

  /** std::string::find of a backslash and a letter. */
  method FindPair(s: string, letter: char, from: nat) returns (r: Option<nat>)
    requires from <= |s|
    ensures match r
            case Some(i) => from <= i && PairAt(s, i, letter) && forall j :: from <= j < i ==> !PairAt(s, j, letter)
            case None => forall j :: from <= j ==> !PairAt(s, j, letter)
  {
    var i := from;
    while i < |s|
      invariant from <= i <= |s|
      invariant forall j :: from <= j < i ==> !PairAt(s, j, letter)
    {
      if PairAt(s, i, letter) {
        return Some(i);
      }
      i := i + 1;
    }
    return None;
  }

  method FindQuote(s: string, from: nat) returns (r: Option<nat>)
    requires from <= |s|
    ensures match r
            case Some(i) => from <= i < |s| && s[i] == '\"' && forall j :: from <= j < i ==> s[j] != '\"'
            case None => forall j :: from <= j < |s| ==> s[j] != '\"'
  {
    var i := from;
    while i < |s|
      invariant from <= i <= |s|
      invariant forall j :: from <= j < i ==> s[j] != '\"'
    {
      if s[i] == '\"' {
        return Some(i);
      }
      i := i + 1;
    }
    return None;
  }

  /** std::string::replace. */
  function Replace(s: string, at: nat, length: nat, with: string): string
    requires at + length <= |s|
  {
    s[..at] + with + s[at + length..]
  }

  /** No pair starts before position i of s: the pass copies up to there. */
  lemma {:induction false} PairsSkip(s: string, letter: char, i: nat)
    requires i <= |s| && forall j :: 0 <= j < i ==> !PairAt(s, j, letter)
    ensures Pairs(s, letter) == s[..i] + Pairs(s[i..], letter)
  {
    if i > 0 {
      assert !PairAt(s, 0, letter);
      assert Pairs(s, letter) == [s[0]] + Pairs(s[1..], letter);
      hide Pairs;
      TailPairs(s, letter, i);
      PairsSkip(s[1..], letter, i - 1);
      Shift(s, i);
    } else {
      assert s[0..] == s && s[..0] == "";
    }
  }

  lemma {:induction false} TailPairs(s: string, letter: char, i: nat)
    requires 0 < i <= |s| && forall j :: 0 <= j < i ==> !PairAt(s, j, letter)
    ensures forall j :: 0 <= j < i - 1 ==> !PairAt(s[1..], j, letter)
  {
    forall j | 0 <= j < i - 1 ensures !PairAt(s[1..], j, letter) {
      assert !PairAt(s, j + 1, letter);
    }
  }

  lemma Shift(s: string, i: nat)
    requires 0 < i <= |s|
    ensures s[..i] == [s[0]] + s[1..][..i - 1] && s[1..][i - 1..] == s[i..]
  {
  }

  /** No pair starts between curr and i. */
  lemma {:induction false} PairsUpTo(s: string, letter: char, curr: nat, i: nat)
    requires curr <= i <= |s| && forall j :: curr <= j < i ==> !PairAt(s, j, letter)
    ensures s[..curr] + Pairs(s[curr..], letter) == s[..i] + Pairs(s[i..], letter)
  {
    var tail := s[curr..];
    forall j | 0 <= j < i - curr ensures !PairAt(tail, j, letter) {
      assert !PairAt(s, curr + j, letter);
    }
    PairsSkip(tail, letter, i - curr);
    assert tail[i - curr..] == s[i..];
    assert s[..curr] + tail[..i - curr] == s[..i];
  }

  /** One iteration of the loop. */
  lemma {:induction false} PairReplaced(s: string, letter: char, curr: nat, at: nat)
    requires curr <= at && PairAt(s, at, letter) && forall j :: curr <= j < at ==> !PairAt(s, j, letter)
    ensures
      var code := Replace(s, at, 2, "\\\\" + [letter]);
      at + 3 <= |code| && code[..at + 3] + Pairs(code[at + 3..], letter) == s[..curr] + Pairs(s[curr..], letter)
  {
    var code := Replace(s, at, 2, "\\\\" + [letter]);
    PairsUpTo(s, letter, curr, at);
    assert s[at..][2..] == s[at + 2..] == code[at + 3..];
    assert code[..at + 3] == s[..at] + ("\\\\" + [letter]);
  }

  /** The first two loops. */
  method EscapeLetter(s: string, letter: char) returns (code: string)
    requires letter != '\\'
    ensures code == Pairs(s, letter)
  {
    code := s;
    var curr: nat := 0;
    assert s[..0] + Pairs(s[0..], letter) == Pairs(s, letter) by { assert s[0..] == s; }
    while true
      invariant 0 <= curr <= |code|
      invariant code[..curr] + Pairs(code[curr..], letter) == Pairs(s, letter)
      decreases |code| - curr
    {
      var found := FindPair(code, letter, curr);
      if found.None? {
        PairsUpTo(code, letter, curr, |code|);
        assert code[..|code|] + Pairs(code[|code|..], letter) == code;
        return;
      }
      var at := found.value;
      PairReplaced(code, letter, curr, at);
      code := Replace(code, at, 2, "\\\\" + [letter]);
      curr := at + 3;
    }
  }

  lemma {:induction false} QuotesSkip(prev: char, s: string, i: nat)
    requires i <= |s| && forall j :: 0 <= j < i ==> s[j] != '\"'
    ensures Quotes(prev, s) == s[..i] + Quotes(if i == 0 then prev else s[i - 1], s[i..])
    decreases i
  {
    if i > 0 {
      QuotesSkip(s[0], s[1..], i - 1);
      Shift(s, i);
    } else {
      assert s[0..] == s && s[..0] == "";
    }
  }

  function Before(s: string, i: nat): char
    requires i <= |s|
  {
    if i == 0 then NONE else s[i - 1]
  }

  lemma {:induction false} QuotesUpTo(s: string, curr: nat, i: nat)
    requires curr <= i <= |s| && forall j :: curr <= j < i ==> s[j] != '\"'
    ensures s[..curr] + Quotes(Before(s, curr), s[curr..]) == s[..i] + Quotes(Before(s, i), s[i..])
  {
    var tail := s[curr..];
    QuotesSkip(Before(s, curr), tail, i - curr);
    assert tail[i - curr..] == s[i..];
    assert s[..curr] + tail[..i - curr] == s[..i];
  }

  /** One iteration of the loop. */
  lemma {:induction false} QuoteReplaced(s: string, curr: nat, at: nat)
    requires curr <= at < |s| && s[at] == '\"' && forall j :: curr <= j < at ==> s[j] != '\"'
    ensures
      var with := Quoted(Before(s, at));
      var code := Replace(s, at, 1, with);
      var next := at + |with|;
      next <= |code| && code[..next] + Quotes(Before(code, next), code[next..])
                     == s[..curr] + Quotes(Before(s, curr), s[curr..])
  {
    var with := Quoted(Before(s, at));
    var code := Replace(s, at, 1, with);
    QuotesUpTo(s, curr, at);
    assert s[at..][1..] == s[at + 1..] == code[at + |with|..];
    assert code[..at + |with|] == s[..at] + with;
  }

  /** The third loop. */
  method EscapeQuotes(s: string) returns (code: string)
    ensures code == Quotes(NONE, s)
  {
    code := s;
    var curr: nat := 0;
    assert s[..0] + Quotes(NONE, s[0..]) == Quotes(NONE, s) by { assert s[0..] == s; }
    while true
      invariant 0 <= curr <= |code|
      invariant code[..curr] + Quotes(Before(code, curr), code[curr..]) == Quotes(NONE, s)
      decreases |code| - curr
    {
      var found := FindQuote(code, curr);
      if found.None? {
        QuotesUpTo(code, curr, |code|);
        assert code[..|code|] + Quotes(Before(code, |code|), code[|code|..]) == code;
        return;
      }
      var at := found.value;
      QuoteReplaced(code, curr, at);
      if at == 0 || code[at - 1] != '\\' {
        code := Replace(code, at, 1, "\\\"");
        curr := at + 2;
      } else {
        code := Replace(code, at, 1, "\\\\\"");
        curr := at + 3;
      }
    }
  }

  method EscapeCode(code: string) returns (r: string)
    ensures r == Escaped(code)
  {
    r := EscapeLetter(code, 'n');
    r := EscapeLetter(r, 't');
    r := EscapeQuotes(r);
  }

  // ---------- One pass ----------

  predicate IsLetter(c: char) {
    c == 'n' || c == 't'
  }

  /** A single left-to-right rewriting. */
  function OnePass(prev: char, s: string): string
    decreases |s|
  {
    if s == "" then ""
    else if |s| >= 2 && s[0] == '\\' && IsLetter(s[1]) then "\\\\" + [s[1]] + OnePass(s[1], s[2..])
    else if s[0] == '\"' then Quoted(prev) + OnePass('\"', s[1..])
    else [s[0]] + OnePass(s[0], s[1..])
  }

  lemma PairsHead(s: string, letter: char)
    requires s != ""
    ensures Pairs(s, letter) != "" && Pairs(s, letter)[0] == s[0]
  {
  }

  /** A character that starts no pair is copied. */
  lemma {:induction false} PairsCopies(c: char, s: string, letter: char)
    requires c != '\\' || s == "" || s[0] != letter
    ensures Pairs([c] + s, letter) == [c] + Pairs(s, letter)
  {
    assert ([c] + s)[1..] == s;
  }

  /** The two letter passes as one. */
  function BothLetters(s: string): string {
    Pairs(Pairs(s, 'n'), 't')
  }

  /** What the second letter pass makes of a pair the first one has doubled. */
  lemma {:induction false} DoubledCopies(rest: string)
    ensures Pairs(['\\'] + (['\\'] + (['n'] + rest)), 't') == ['\\'] + (['\\'] + (['n'] + Pairs(rest, 't')))
  {
    PairsCopies('n', rest, 't');
    PairsCopies('\\', ['n'] + rest, 't');
    PairsCopies('\\', ['\\'] + (['n'] + rest), 't');
  }

  lemma {:induction false} BothOnN(s: string)
    requires |s| >= 2 && s[0] == '\\' && s[1] == 'n'
    ensures BothLetters(s) == ['\\'] + (['\\'] + (['n'] + BothLetters(s[2..])))
  {
    var rest := Pairs(s[2..], 'n');
    var once := Pairs(s, 'n');
    assert once == "\\\\" + ['n'] + rest;
    hide Pairs;
    assert once == ['\\'] + (['\\'] + (['n'] + rest));
    DoubledCopies(rest);
  }

  lemma {:induction false} BothOnT(s: string)
    requires |s| >= 2 && s[0] == '\\' && s[1] == 't'
    ensures BothLetters(s) == ['\\'] + (['\\'] + (['t'] + BothLetters(s[2..])))
  {
    var rest := Pairs(s[2..], 'n');
    PairsCopies('t', s[2..], 'n');
    PairsCopies('\\', ['t'] + s[2..], 'n');
    assert s == ['\\'] + (['t'] + s[2..]);
    var once := Pairs(s, 'n');
    assert once == ['\\'] + (['t'] + rest);
    assert once[2..] == rest;
  }

  lemma {:induction false} BothOnOther(s: string)
    requires s != "" && !(|s| >= 2 && s[0] == '\\' && IsLetter(s[1]))
    ensures BothLetters(s) == [s[0]] + BothLetters(s[1..])
  {
    if s[1..] != "" {
      PairsHead(s[1..], 'n');
    }
    PairsCopies(s[0], Pairs(s[1..], 'n'), 't');
  }

  lemma {:induction false} PassesAreOne(prev: char, s: string)
    ensures Quotes(prev, BothLetters(s)) == OnePass(prev, s)
    decreases |s|
  {
    if s == "" {
    } else if |s| >= 2 && s[0] == '\\' && IsLetter(s[1]) {
      PassesAreOne(s[1], s[2..]);
      if s[1] == 'n' {
        BothOnN(s);
      } else {
        BothOnT(s);
      }
      hide BothLetters;
      QuotesCopyPair(prev, s[1], BothLetters(s[2..]));
    } else {
      PassesAreOne(s[0], s[1..]);
      BothOnOther(s);
      hide BothLetters;
      var all := BothLetters(s[1..]);
      assert ([s[0]] + all)[1..] == all;
    }
  }

  lemma {:induction false} QuotesCopyPair(prev: char, letter: char, rest: string)
    requires IsLetter(letter)
    ensures Quotes(prev, ['\\'] + (['\\'] + ([letter] + rest))) == "\\\\" + [letter] + Quotes(letter, rest)
  {
    var s1 := [letter] + rest;
    assert s1[1..] == rest;
    var s2 := ['\\'] + s1;
    assert s2[1..] == s1;
    var s3 := ['\\'] + s2;
    assert s3[1..] == s2;
    assert Quotes('\\', s1) == [letter] + Quotes(letter, rest);
    assert Quotes('\\', s2) == ['\\'] + Quotes('\\', s1);
    assert ['\\'] + (['\\'] + ([letter] + Quotes(letter, rest))) == "\\\\" + [letter] + Quotes(letter, rest);
  }

  /** The three loops amount to the single pass. */
  lemma {:induction false} EscapeIsOnePass(s: string)
    ensures Escaped(s) == OnePass(NONE, s)
  {
    PassesAreOne(NONE, s);
  }

  // ---------- Runs of backslashes ----------

  function Run(s: string): (m: nat)
    ensures m <= |s| && (forall i :: 0 <= i < m ==> s[i] == '\\') && (m < |s| ==> s[m] != '\\')
  {
    if s == "" || s[0] != '\\' then 0 else 1 + Run(s[1..])
  }

  function Backslashes(n: nat): (s: string)
    ensures |s| == n && forall i :: 0 <= i < n ==> s[i] == '\\'
  {
    if n == 0 then "" else ['\\'] + Backslashes(n - 1)
  }

  /** How long a run of m backslashes becomes before the character c. */
  function NewRun(m: nat, c: char): nat {
    if c == '\"' then (if m == 0 then 1 else m + 2)
    else if IsLetter(c) && m > 0 then m + 1
    else m
  }

  /** Run by run: each maximal run of backslashes and the character it stands before. */
  function ByRuns(s: string): string
    decreases |s|
  {
    var m := Run(s);
    if m == |s| then s
    else Backslashes(NewRun(m, s[m])) + [s[m]] + ByRuns(s[m + 1..])
  }

  /** NewRun, for a run that continues one already copied. */
  function NewTail(prev: char, m: nat, c: char): nat {
    if c == '\"' then (if m == 0 && prev != '\\' then 1 else m + 2)
    else if IsLetter(c) && m > 0 then m + 1
    else m
  }

  lemma {:induction false} OnePassRun(prev: char, s: string)
    requires Run(s) < |s|
    ensures
      var m := Run(s);
      OnePass(prev, s) == Backslashes(NewTail(prev, m, s[m])) + [s[m]] + OnePass(s[m], s[m + 1..])
    decreases |s|
  {
    var m := Run(s);
    var c := s[m];
    var rest := OnePass(c, s[m + 1..]);
    if m == 0 {
      ShortRuns();
    } else if m == 1 && IsLetter(c) {
      ShortRuns();
    } else {
      OnePassRun('\\', s[1..]);
      assert Run(s[1..]) == m - 1 && s[1..][m - 1] == c && s[1..][m..] == s[m + 1..];
      CopiesBackslash(prev, s);
      RunGrows(prev, m, c, rest);
    }
  }

  lemma {:induction false} ShortRuns()
    ensures Backslashes(0) == "" && Backslashes(1) == "\\" && Backslashes(2) == "\\\\"
  {
    assert Backslashes(1) == ['\\'] + Backslashes(0);
    assert Backslashes(2) == ['\\'] + Backslashes(1);
  }

  lemma CopiesBackslash(prev: char, s: string)
    requires 0 < Run(s) < |s| && !(Run(s) == 1 && IsLetter(s[1]))
    ensures OnePass(prev, s) == ['\\'] + OnePass('\\', s[1..])
  {
  }

  lemma {:induction false} RunGrows(prev: char, m: nat, c: char, rest: string)
    requires m > 0 && !(m == 1 && IsLetter(c))
    ensures ['\\'] + (Backslashes(NewTail('\\', m - 1, c)) + [c] + rest)
      == Backslashes(NewTail(prev, m, c)) + [c] + rest
  {
    var k := NewTail('\\', m - 1, c);
    assert Backslashes(k + 1) == ['\\'] + Backslashes(k);
  }

  lemma {:induction false} OnlyBackslashes(prev: char, s: string)
    requires Run(s) == |s|
    ensures OnePass(prev, s) == s
    decreases |s|
  {
    if s != "" {
      OnlyBackslashes('\\', s[1..]);
    }
  }

  lemma {:induction false} OnePassByRuns(prev: char, s: string)
    requires prev != '\\'
    ensures OnePass(prev, s) == ByRuns(s)
    decreases |s|
  {
    var m := Run(s);
    if m == |s| {
      OnlyBackslashes(prev, s);
    } else {
      OnePassRun(prev, s);
      OnePassByRuns(s[m], s[m + 1..]);
      hide OnePass, Run, Backslashes;
      assert NewTail(prev, m, s[m]) == NewRun(m, s[m]);
    }
  }

  /** What `escape` does, run by run; in particular a quote ends up after an odd number of backslashes exactly
      when there were none or an odd number before it. */
  lemma {:induction false} EscapeByRuns(s: string)
    ensures Escaped(s) == ByRuns(s)
    ensures forall m: nat :: NewRun(m, '\"') % 2 == 1 <==> m == 0 || m % 2 == 1
  {
    EscapeIsOnePass(s);
    OnePassByRuns(NONE, s);
  }

  // ---------- The inverse ----------

  function OldRun(m: nat, c: char): nat {
    if c == '\"' then (if m < 3 then 0 else m - 2)
    else if IsLetter(c) && m > 0 then m - 1
    else m
  }

  function Unescaped(s: string): string
    decreases |s|
  {
    var m := Run(s);
    if m == |s| then s
    else Backslashes(OldRun(m, s[m])) + [s[m]] + Unescaped(s[m + 1..])
  }

  lemma {:induction false} RunOf(n: nat, c: char, rest: string)
    requires c != '\\'
    ensures Run(Backslashes(n) + [c] + rest) == n
  {
    var s := Backslashes(n) + [c] + rest;
    if n > 0 {
      RunOf(n - 1, c, rest);
      assert s[1..] == Backslashes(n - 1) + [c] + rest;
    }
  }

  lemma {:induction false} UnescapedRun(n: nat, c: char, rest: string)
    requires c != '\\'
    ensures Unescaped(Backslashes(n) + [c] + rest) == Backslashes(OldRun(n, c)) + [c] + Unescaped(rest)
  {
    var t := Backslashes(n) + [c] + rest;
    RunOf(n, c, rest);
    assert t[n] == c && t[n + 1..] == rest;
  }

  lemma {:induction false} SplitAtRun(s: string)
    requires Run(s) < |s|
    ensures Backslashes(Run(s)) + [s[Run(s)]] + s[Run(s) + 1..] == s
  {
    hide Run, Backslashes;
    AllBackslashes(Backslashes(Run(s)), s[..Run(s)]);
    SplitAt(s, Run(s));
  }

  lemma AllBackslashes(a: string, b: string)
    requires |a| == |b| && (forall i :: 0 <= i < |a| ==> a[i] == '\\') && (forall i :: 0 <= i < |b| ==> b[i] == '\\')
    ensures a == b
  {
  }

  lemma SplitAt(s: string, m: nat)
    requires m < |s|
    ensures s[..m] + [s[m]] + s[m + 1..] == s
  {
  }

  lemma OldRunInverts(m: nat, c: char)
    ensures OldRun(NewRun(m, c), c) == m
  {
  }

  lemma {:induction false} UnescapedByRuns(s: string)
    ensures Unescaped(ByRuns(s)) == s
    decreases |s|
  {
    var m := Run(s);
    if m < |s| {
      hide Unescaped, Run, Backslashes, NewRun, OldRun;
      UnescapedByRuns(s[m + 1..]);
      UnescapedRun(NewRun(m, s[m]), s[m], ByRuns(s[m + 1..]));
      OldRunInverts(m, s[m]);
      SplitAtRun(s);
    }
  }

  /** Nothing is lost: escaping has a left inverse. */
  lemma {:induction false} UnescapeInverts(s: string)
    ensures Unescaped(Escaped(s)) == s
  {
    EscapeByRuns(s);
    UnescapedByRuns(s);
  }

  lemma {:induction false} EscapeIsInjective(s: string, t: string)
    requires Escaped(s) == Escaped(t)
    ensures s == t
  {
    UnescapeInverts(s);
    UnescapeInverts(t);
  }

  /** Two backslashes before a quote are enough for it to end up unprotected. */
  lemma {:induction false} EvenRunStaysEven()
    ensures Escaped("\\\\\"") == "\\\\\\\\\""
  {
    EscapeByRuns("\\\\\"");
    assert "\\\\\""[1..][1..] == "\"";
    assert Run("\\\\\"") == 2;
    assert "\\\\\""[3..] == "";
    assert Backslashes(4) == "\\\\\\\\";
  }
}
