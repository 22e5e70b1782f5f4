/** The string methods of Python that the sources use, on ASCII text. */
module Strings {

  /** The ASCII characters that str.isspace is true of. */
  predicate IsSpace(c: char) {
    9 <= c as int <= 13 || 28 <= c as int <= 32
  }

  function StripLeft(s: string): string {
    if s != "" && IsSpace(s[0]) then StripLeft(s[1..]) else s
  }

  function StripRight(s: string): string {
    if s != "" && IsSpace(s[|s| - 1]) then StripRight(s[..|s| - 1]) else s
  }

  /** str.strip, on ASCII white space. */
  function Strip(s: string): string {
    StripRight(StripLeft(s))
  }

  function LowerChar(c: char): char {
    if 'A' <= c <= 'Z' then (c as int - 'A' as int + 'a' as int) as char else c
  }

  /** str.lower. */
  function Lower(s: string): (r: string)
    ensures |r| == |s| && forall i :: 0 <= i < |s| ==> r[i] == LowerChar(s[i])
  {
    seq(|s|, i requires 0 <= i < |s| => LowerChar(s[i]))
  }

  /** str.removeprefix. */
  function RemovePrefix(s: string, prefix: string): string {
    if prefix <= s then s[|prefix|..] else s
  }

  // ---------- What they do ----------

  predicate AllSpaces(s: string) {
    forall i :: 0 <= i < |s| ==> s[i] in " \t\n\r" || s[i] as int in {11, 12, 28, 29, 30, 31}
  }

  /** No white space at either end. */
  predicate IsStripped(s: string) {
    s == "" || (!AllSpaces(s[..1]) && !AllSpaces(s[|s| - 1..]))
  }

  /** Stripping takes away the white space at both ends, and nothing else. */
  lemma {:induction false} StripIs(before: string, s: string, after: string)
    requires AllSpaces(before) && AllSpaces(after) && IsStripped(s)
    ensures Strip(before + s + after) == s
  {
    if s == "" {
      assert before + s + after == before + after;
      LeftIs(before + after, "");
      assert before + after + "" == before + after;
      assert StripRight("") == "";
    } else {
      assert before + s + after == before + (s + after);
      assert s[..1] == [s[0]] && s[|s| - 1..] == [s[|s| - 1]];
      LeftIs(before, s + after);
      RightIs(s, after);
    }
  }

  lemma {:induction false} LeftIs(spaces: string, rest: string)
    requires AllSpaces(spaces) && (rest == "" || !IsSpace(rest[0]))
    ensures StripLeft(spaces + rest) == rest
  {
    if spaces == "" {
      assert spaces + rest == rest;
    } else {
      assert (spaces + rest)[1..] == spaces[1..] + rest;
      LeftIs(spaces[1..], rest);
    }
  }

  lemma {:induction false} RightIs(rest: string, spaces: string)
    requires AllSpaces(spaces) && (rest == "" || !IsSpace(rest[|rest| - 1]))
    ensures StripRight(rest + spaces) == rest
  {
    if spaces == "" {
      assert rest + spaces == rest;
    } else {
      var n := |spaces| - 1;
      assert (rest + spaces)[..|rest| + n] == rest + spaces[..n];
      RightIs(rest, spaces[..n]);
    }
  }

  /** Every string is a stripped one between white space. */
  lemma {:induction false} StripSplits(s: string) returns (before: string, after: string)
    ensures AllSpaces(before) && AllSpaces(after) && IsStripped(Strip(s)) && s == before + Strip(s) + after
  {
    before := SplitLeft(s);
    var rest := StripLeft(s);
    after := SplitRight(rest);
    assert Strip(s) == "" || Strip(s)[0] == rest[0];
  }

  lemma {:induction false} SplitLeft(s: string) returns (before: string)
    ensures AllSpaces(before) && s == before + StripLeft(s)
    ensures StripLeft(s) == "" || !IsSpace(StripLeft(s)[0])
  {
    if s != "" && IsSpace(s[0]) {
      var rest := SplitLeft(s[1..]);
      before := [s[0]] + rest;
    } else {
      before := "";
    }
  }

  lemma {:induction false} SplitRight(s: string) returns (after: string)
    ensures AllSpaces(after) && s == StripRight(s) + after && StripRight(s) <= s
    ensures StripRight(s) == "" || !IsSpace(StripRight(s)[|StripRight(s)| - 1])
  {
    if s != "" && IsSpace(s[|s| - 1]) {
      var rest := SplitRight(s[..|s| - 1]);
      after := rest + [s[|s| - 1]];
    } else {
      after := "";
    }
  }
}
