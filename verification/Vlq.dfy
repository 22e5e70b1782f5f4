/** Base64 VLQ numbers as source-map.cpp reads them (the Base64 VLQ encoding of ECMA-426). */
module Vlq {
  import opened Words
  import opened Results
  import opened Powers

  datatype MapError = InvalidDigit | ValueTooLarge | SecondLine | ExpectedDelimiter

  // ---------- Bits of natural numbers ----------

  /** Bitwise or. */
  function Or(a: nat, b: nat): nat
    decreases a + b
  {
    if a == 0 then b
    else if b == 0 then a
    else 2 * Or(a / 2, b / 2) + (if a % 2 == 1 || b % 2 == 1 then 1 else 0)
  }

  /** Shifting left in a uint32_t. */
  function ShiftLeft(x: nat, n: nat): Word {
    Wrap(x * Pow2(n))
  }

  /** Or of a number below 2^n and a multiple of 2^n is their sum. */
  lemma {:induction false} OrIsSum(low: nat, high: nat, n: nat)
    requires low < Pow2(n)
    ensures Or(low, high * Pow2(n)) == low + high * Pow2(n)
    decreases n
  {
    if low != 0 && high != 0 {
      var h := high * Pow2(n - 1);
      assert high * Pow2(n) == 2 * h;
      OrIsSum(low / 2, high, n - 1);
    }
  }

  // ---------- Digits ----------

  /** A final digit: no continuation bit. */
  function FinalDigit(c: char): Option<nat> {
    if 'A' <= c <= 'Z' then Some(c as int - 'A' as int)
    else if 'a' <= c < 'g' then Some(c as int - 'a' as int + 26)
    else None
  }

  /** A digit with the continuation bit set. */
  function MoreDigit(c: char): Option<nat> {
    if 'g' <= c <= 'z' then Some(c as int - 'g' as int)
    else if '0' <= c <= '9' then Some(c as int - '0' as int + 20)
    else if c == '+' then Some(30)
    else if c == '/' then Some(31)
    else None
  }

  /** The Base64 character of a six-bit number (table 1 of RFC 4648). */
  function Base64Char(n: nat): char
    requires n < 64
  {
    if n < 26 then ('A' as int + n) as char
    else if n < 52 then ('a' as int + n - 26) as char
    else if n < 62 then ('0' as int + n - 52) as char
    else if n == 62 then '+'
    else '/'
  }

  lemma DigitsAreBase64(n: nat)
    requires n < 32
    ensures FinalDigit(Base64Char(n)) == Some(n)
    ensures MoreDigit(Base64Char(n + 32)) == Some(n) && FinalDigit(Base64Char(n + 32)) == None
  {
  }

  // ---------- Reading ----------

  /** The cursor's character; the mapping string is followed by its closing quote. */
  function Peek(s: string, pos: nat): char {
    if pos < |s| then s[pos] else '\"'
  }

  /** The sign is in the lowest bit. */
  function FromBits(value: nat): int {
    if value % 2 == 1 then -(value / 2) else value / 2
  }

  /** readBase64VLQ from the digit at `pos` on: the number and the position after it. */
  function ReadDigits(s: string, pos: nat, value: nat, shift: nat): (r: Result<(int, nat), MapError>)
    requires shift < 32
    ensures r.Ok? ==> pos < r.value.1
    ensures r.Ok? && pos <= |s| ==> r.value.1 <= |s|
    decreases 32 - shift
  {
    var ch := Peek(s, pos);
    match FinalDigit(ch)
    case Some(digit) => Ok((FromBits(Or(value, ShiftLeft(digit, shift))), pos + 1))
    case None =>
      match MoreDigit(ch)
      case None => Err(InvalidDigit)
      case Some(digit) =>
        if shift + 5 >= 32 then Err(ValueTooLarge)
        else ReadDigits(s, pos + 1, Or(value, ShiftLeft(digit, shift)), shift + 5)
  }

  function ReadVlq(s: string, pos: nat): (r: Result<(int, nat), MapError>)
    ensures r.Ok? ==> pos < r.value.1
    ensures r.Ok? && pos <= |s| ==> r.value.1 <= |s|
  {
    ReadDigits(s, pos, 0, 0)
  }

  // ---------- Writing ----------

  function ToBits(n: int): nat {
    if n < 0 then 2 * -n + 1 else 2 * n
  }

  function EncodeDigits(v: nat): (s: string)
    ensures s != []
  {
    if v < 32 then [Base64Char(v)] else [Base64Char(v % 32 + 32)] + EncodeDigits(v / 32)
  }

  function EncodeVlq(n: int): string {
    EncodeDigits(ToBits(n))
  }

  const LIMIT := 0x7FFF_FFFF

  predicate Encodable(n: int) {
    -LIMIT <= n <= LIMIT
  }

  // ---------- Round trip ----------

  lemma {:induction false} Pow2Sum(a: nat, b: nat)
    ensures Pow2(a + b) == Pow2(a) * Pow2(b)
  {
    if a > 0 {
      Pow2Sum(a - 1, b);
    }
  }

  lemma {:induction false} Pow2Values()
    ensures Pow2(5) == 32 && Pow2(32) == 0x1_0000_0000
  {
    assert Pow2(5) == 32;
    Pow2Sum(5, 5);
    Pow2Sum(10, 10);
    Pow2Sum(20, 10);
    Pow2Sum(30, 2);
  }

  lemma {:induction false} Pow2Step(shift: nat)
    ensures Pow2(shift + 5) == 32 * Pow2(shift)
    ensures shift >= 32 ==> Pow2(shift) >= 0x1_0000_0000
  {
    Pow2Values();
    Pow2Sum(shift, 5);
    if shift >= 32 {
      Pow2Sum(32, shift - 32);
    }
  }

  /** Or-ing in one shifted digit adds it, when it fits 32 bits. */
  lemma {:induction false} OrDigit(value: nat, digit: nat, shift: nat)
    requires value < Pow2(shift) && digit * Pow2(shift) < 0x1_0000_0000
    ensures Or(value, ShiftLeft(digit, shift)) == value + digit * Pow2(shift)
  {
    hide Or, Pow2;
    OrIsSum(value, digit, shift);
    var shifted := digit * Pow2(shift);
    assert Wrap(shifted) == shifted;
  }

  lemma {:induction false} DigitsReadBack(s: string, pos: nat, value: nat, shift: nat, v: nat)
    requires shift < 32 && pos <= |s| && EncodeDigits(v) <= s[pos..]
    requires value < Pow2(shift) && value + v * Pow2(shift) < 0x1_0000_0000
    ensures ReadDigits(s, pos, value, shift) == Ok((FromBits(value + v * Pow2(shift)), pos + |EncodeDigits(v)|))
    decreases v
  {
    hide FinalDigit, MoreDigit, Base64Char, Or, ShiftLeft, Pow2;
    var p := Pow2(shift);
    assert s[pos] == EncodeDigits(v)[0];
    if v < 32 {
      DigitsAreBase64(v);
      OrDigit(value, v, shift);
    } else {
      var d, w := v % 32, v / 32;
      DigitsAreBase64(d);
      SplitDigit(d, w, p, value);
      Pow2Step(shift);
      Pow2Step(shift + 5);
      OrDigit(value, d, shift);
      assert s[pos..][1..] == s[pos + 1..];
      assert EncodeDigits(v)[1..] == EncodeDigits(w);
      DigitsReadBack(s, pos + 1, value + d * p, shift + 5, w);
    }
  }

  lemma {:induction false} SplitDigit(d: nat, w: nat, p: nat, value: nat)
    requires d < 32 && w >= 1 && value < p && value + (d + 32 * w) * p < 0x1_0000_0000
    ensures 0 <= d * p < 0x1_0000_0000 && value + d * p < 32 * p < 0x1_0000_0000
    ensures value + d * p + w * (32 * p) == value + (d + 32 * w) * p
  {
    var q := 32 * p;
    assert (d + 32 * w) * p == d * p + w * q;
    assert d * p <= 31 * p;
    assert w * q >= q;
    assert 0 <= d * p;
  }

  /** Reading the VLQ encoding of any number of at most 31 bits and a sign gives it back, and reads its digits only. */
  lemma {:induction false} VlqRoundTrip(s: string, pos: nat, n: int)
    requires Encodable(n) && pos <= |s| && EncodeVlq(n) <= s[pos..]
    ensures ReadVlq(s, pos) == Ok((n, pos + |EncodeVlq(n)|))
  {
    hide ReadDigits, EncodeDigits, FromBits, ToBits;
    BitsOf(n);
    assert Pow2(0) == 1;
    DigitsReadBack(s, pos, 0, 0, ToBits(n));
  }

  lemma BitsOf(n: int)
    requires Encodable(n)
    ensures ToBits(n) < 0x1_0000_0000 && FromBits(ToBits(n)) == n
  {
  }

  // ---------- Any input ----------

  lemma {:induction false} OrBelow(a: nat, b: nat, n: nat)
    requires a < Pow2(n) && b < Pow2(n)
    ensures Or(a, b) < Pow2(n)
  {
    if a != 0 && b != 0 {
      OrBelow(a / 2, b / 2, n - 1);
    }
  }

  lemma {:induction false} DigitsStop(s: string, pos: nat, value: nat, shift: nat)
    requires shift < 32 && value < 0x1_0000_0000
    ensures ReadDigits(s, pos, value, shift).Ok? ==>
              var (n, end) := ReadDigits(s, pos, value, shift).value;
              Encodable(n) && 5 * (end - pos) <= 39 - shift
    decreases 32 - shift
  {
    hide ShiftLeft;
    Pow2Values();
    var ch := Peek(s, pos);
    match FinalDigit(ch) {
      case Some(digit) => OrBelow(value, ShiftLeft(digit, shift), 32);
      case None =>
        match MoreDigit(ch) {
          case None =>
          case Some(digit) =>
            OrBelow(value, ShiftLeft(digit, shift), 32);
            if shift + 5 < 32 {
              DigitsStop(s, pos + 1, Or(value, ShiftLeft(digit, shift)), shift + 5);
            }
        }
    }
  }

  /** On any input at most seven digits are read, and the number fits a sign and 31 bits. */
  lemma {:induction false} VlqStops(s: string, pos: nat)
    ensures ReadVlq(s, pos).Ok? ==> Encodable(ReadVlq(s, pos).value.0) && ReadVlq(s, pos).value.1 <= pos + 7
    ensures (forall k :: pos <= k < pos + 7 ==> MoreDigit(Peek(s, k)).Some?) ==> ReadVlq(s, pos) == Err(ValueTooLarge)
  {
    DigitsStop(s, pos, 0, 0);
    if forall k :: pos <= k < pos + 7 ==> MoreDigit(Peek(s, k)).Some? {
      SevenAreTooMany(s, pos, 0, 0);
    }
  }

  lemma {:induction false} SevenAreTooMany(s: string, pos: nat, value: nat, shift: nat)
    requires shift < 32 && shift % 5 == 0
    requires forall k :: pos <= k < pos + 7 - shift / 5 ==> MoreDigit(Peek(s, k)).Some?
    ensures ReadDigits(s, pos, value, shift) == Err(ValueTooLarge)
    decreases 32 - shift
  {
    hide Or, ShiftLeft;
    assert MoreDigit(Peek(s, pos)).Some?;
    if shift + 5 < 32 {
      SevenAreTooMany(s, pos + 1, Or(value, ShiftLeft(MoreDigit(Peek(s, pos)).value, shift)), shift + 5);
    }
  }

  // ---------- Characters and faults ----------

  /** Table 1 of RFC 4648, by its ranges; the first 32 characters end a number, the others go on. */
  lemma {:induction false} Alphabet(n: nat)
    requires n < 64
    ensures Base64Char(0) == 'A' && Base64Char(26) == 'a' && Base64Char(52) == '0'
    ensures Base64Char(62) == '+' && Base64Char(63) == '/'
    ensures n < 25 || 26 <= n < 51 || 52 <= n < 61 ==> Base64Char(n + 1) as int == Base64Char(n) as int + 1
    ensures FinalDigit(Base64Char(n)) == if n < 32 then Some(n) else None
    ensures MoreDigit(Base64Char(n)) == if n < 32 then None else Some(n - 32)
  {
  }

  predicate IsBase64(c: char) {
    'A' <= c <= 'Z' || 'a' <= c <= 'z' || '0' <= c <= '9' || c == '+' || c == '/'
  }

  /** How many digits from pos on have the continuation bit set. */
  function GoesOn(s: string, pos: nat): (n: nat)
    ensures forall p :: pos <= p < pos + n ==> MoreDigit(Peek(s, p)).Some?
    ensures MoreDigit(Peek(s, pos + n)).None?
    decreases if pos < |s| then |s| - pos else 0
  {
    if MoreDigit(Peek(s, pos)).Some? then 1 + GoesOn(s, pos + 1) else 0
  }

  lemma {:induction false} FaultOf(s: string, pos: nat, value: nat, shift: nat)
    requires shift < 32 && shift % 5 == 0
    ensures ReadDigits(s, pos, value, shift) == Err(ValueTooLarge) <==> shift + 5 * GoesOn(s, pos) >= 35
    ensures ReadDigits(s, pos, value, shift) == Err(InvalidDigit) <==>
      shift + 5 * GoesOn(s, pos) < 35 && !IsBase64(Peek(s, pos + GoesOn(s, pos)))
    decreases 32 - shift
  {
    hide Or, ShiftLeft, FromBits;
    var c := Peek(s, pos);
    if MoreDigit(c).Some? && shift + 5 < 32 {
      FaultOf(s, pos + 1, Or(value, ShiftLeft(MoreDigit(c).value, shift)), shift + 5);
    }
  }

  /** A number is refused for being too large when seven digits go on, and otherwise for the character after those that
      do, when it is no Base64 digit. */
  lemma {:induction false} VlqFaults(s: string, pos: nat)
    ensures ReadVlq(s, pos) == Err(ValueTooLarge) <==> GoesOn(s, pos) >= 7
    ensures ReadVlq(s, pos) == Err(InvalidDigit) <==> GoesOn(s, pos) < 7 && !IsBase64(Peek(s, pos + GoesOn(s, pos)))
  {
    FaultOf(s, pos, 0, 0);
  }
}
