/** The canonical documents of xtrakt/cir.py: records to JSON-like values and back. */
module Cir {
  import opened Results
  import opened Powers
  import opened Strings

  // ---------- Bit vectors and their hexadecimal form ----------

  // A value of a fixed width; the constructor masks it.
  datatype RawBits = BitVec(width: nat, value: nat)

  type Bits = b: RawBits | b.value < Pow2(b.width) witness BitVec(0, 0)

  function MakeBits(width: nat, value: nat): Bits {
    BitVec(width, value % Pow2(width))
  }

  function HexDigit(d: nat): char
    requires d < 16
  {
    if d < 10 then ('0' as int + d) as char else ('a' as int + d - 10) as char
  }

  function DigitValue(c: char): Option<nat> {
    if '0' <= c <= '9' then Some(c as int - '0' as int)
    else if 'a' <= c <= 'f' then Some(c as int - 'a' as int + 10)
    else None
  }

  /** The shortest numeral. */
  function ToHex(n: nat): (s: string)
    ensures s != ""
  {
    if n < 16 then [HexDigit(n)] else ToHex(n / 16) + [HexDigit(n % 16)]
  }

  function Zeros(n: nat): (s: string)
    ensures |s| == n && forall i :: 0 <= i < n ==> s[i] == '0'
  {
    if n == 0 then "" else ['0'] + Zeros(n - 1)
  }

  /** format(value, "0<digits>x"). */
  function FormatHex(n: nat, digits: nat): string {
    var s := ToHex(n);
    if |s| < digits then Zeros(digits - |s|) + s else s
  }

  /** int(s, 16) on lower-case digits; None for its ValueError. */
  function FromHex(s: string): Option<nat> {
    if s == "" then None
    else
      match DigitValue(s[|s| - 1])
      case None => None
      case Some(d) =>
        if |s| == 1 then Some(d)
        else match FromHex(s[..|s| - 1]) case None => None case Some(n) => Some(16 * n + d)
  }

  function HexOf(b: Bits): string {
    if b.width == 0 then "0" else FormatHex(b.value, (b.width + 3) / 4)
  }

  /** BitVec.from_hex with a width, or with four bits for each digit. */
  function BitsFromHex(hex: string, width: Option<int>): Option<Bits> {
    var h := RemovePrefix(Lower(Strip(hex)), "0x");
    match FromHex(h)
    case None => None
    case Some(n) =>
      var w := if width.Some? then width.value else 4 * |h|;
      if w < 0 then None else Some(MakeBits(w, n))
  }

  // ---------- Values and documents ----------

  datatype Entry<+V> = Entry(key: string, value: V)

  datatype Value = Str(s: string) | Num(n: int) | Truth(b: bool) | Nothing | List(items: seq<Value>)
                 | Tuple(elements: seq<Value>) | Dict(entries: seq<Entry<Value>>) | Vector(bits: Bits)

  datatype Doc = DStr(s: string) | DNum(n: int) | DTruth(b: bool) | DNothing | DList(items: seq<Doc>)
               | DDict(entries: seq<Entry<Doc>>)

  function BitsToDoc(b: Bits): Doc {
    DDict([Entry("width", DNum(b.width)), Entry("hex", DStr(HexOf(b)))])
  }

  function Get<V>(entries: seq<Entry<V>>, key: string): Option<V> {
    if entries == [] then None
    else if entries[0].key == key then Some(entries[0].value)
    else Get(entries[1..], key)
  }

  /** BitVec.from_doc; None for an exception. */
  function BitsFromDoc(entries: seq<Entry<Doc>>): Option<Bits> {
    var found: Option<Doc> := Get(entries, "hex");
    var width: Option<Doc> := Get(entries, "width");
    match found
    case Some(DStr(hex)) =>
      (match width
       case None => BitsFromHex(hex, None)
       case Some(DNothing) => BitsFromHex(hex, None)
       case Some(DNum(w)) => BitsFromHex(hex, Some(w))
       case Some(_) => None)
    case _ => None
  }

  predicate LooksLikeBits<V>(entries: seq<Entry<V>>) {
    |entries| == 2 && Get(entries, "width").Some? && Get(entries, "hex").Some?
  }

  function FieldToDoc(v: Value): Doc {
    match v
    case Vector(b) => BitsToDoc(b)
    case List(items) => DList(AllToDoc(items))
    case Tuple(items) => DList(AllToDoc(items))
    case Dict(entries) => DDict(EntriesToDoc(entries))
    case Str(s) => DStr(s)
    case Num(n) => DNum(n)
    case Truth(b) => DTruth(b)
    case Nothing => DNothing
  }

  function AllToDoc(vs: seq<Value>): seq<Doc> {
    if vs == [] then [] else [FieldToDoc(vs[0])] + AllToDoc(vs[1..])
  }

  function EntryToDoc(e: Entry<Value>): (r: Entry<Doc>)
    ensures r.key == e.key
  {
    Entry(e.key, FieldToDoc(e.value))
  }

  function EntriesToDoc(es: seq<Entry<Value>>): (r: seq<Entry<Doc>>)
    ensures |r| == |es| && forall i :: 0 <= i < |r| ==> r[i].key == es[i].key
  {
    if es == [] then [] else [EntryToDoc(es[0])] + EntriesToDoc(es[1..])
  }

  function FieldFromDoc(d: Doc): Option<Value> {
    match d
    case DDict(entries) =>
      if LooksLikeBits(entries) then
        (match BitsFromDoc(entries) case None => None case Some(b) => Some(Vector(b)))
      else
        (match EntriesFromDoc(entries) case None => None case Some(es) => Some(Dict(es)))
    case DList(items) => (match AllFromDoc(items) case None => None case Some(vs) => Some(List(vs)))
    case DStr(s) => Some(Str(s))
    case DNum(n) => Some(Num(n))
    case DTruth(b) => Some(Truth(b))
    case DNothing => Some(Nothing)
  }

  function AllFromDoc(ds: seq<Doc>): Option<seq<Value>> {
    if ds == [] then Some([])
    else match (FieldFromDoc(ds[0]), AllFromDoc(ds[1..]))
      case (Some(v), Some(vs)) => Some([v] + vs)
      case _ => None
  }

  function EntriesFromDoc(ds: seq<Entry<Doc>>): Option<seq<Entry<Value>>> {
    if ds == [] then Some([])
    else match (EntryFromDoc(ds[0]), EntriesFromDoc(ds[1..]))
      case (Some(e), Some(es)) => Some([e] + es)
      case _ => None
  }

  function EntryFromDoc(d: Entry<Doc>): Option<Entry<Value>> {
    match FieldFromDoc(d.value) case None => None case Some(v) => Some(Entry(d.key, v))
  }

  // ---------- Hexadecimal round trip ----------

  lemma DigitRoundTrip(d: nat)
    requires d < 16
    ensures DigitValue(HexDigit(d)) == Some(d)
  {
  }

  lemma {:induction false} FromToHex(n: nat)
    ensures FromHex(ToHex(n)) == Some(n)
  {
    DigitRoundTrip(n % 16);
    if n >= 16 {
      FromToHex(n / 16);
      var s := ToHex(n);
      assert s[..|s| - 1] == ToHex(n / 16);
    }
  }

  lemma {:induction false} FromPadded(k: nat, s: string)
    requires FromHex(s).Some?
    ensures FromHex(Zeros(k) + s) == FromHex(s)
    decreases |s|
  {
    var t := Zeros(k) + s;
    assert t[|t| - 1] == s[|s| - 1];
    if k == 0 {
      assert t == s;
    } else if |s| == 1 {
      assert t[..|t| - 1] == Zeros(k);
      ZerosAreZero(k);
    } else {
      assert t[..|t| - 1] == Zeros(k) + s[..|s| - 1];
      FromPadded(k, s[..|s| - 1]);
    }
  }

  lemma {:induction false} ZerosAreZero(k: nat)
    requires k > 0
    ensures FromHex(Zeros(k)) == Some(0)
  {
    var z := Zeros(k);
    if k > 1 {
      assert z[..k - 1] == Zeros(k - 1);
      ZerosAreZero(k - 1);
    }
  }

  /** A numeral of lower-case digits is not changed by stripping, lowering or removing a prefix 0x. */
  lemma {:induction false} Normal(s: string)
    requires s != "" && forall i :: 0 <= i < |s| ==> DigitValue(s[i]).Some?
    ensures RemovePrefix(Lower(Strip(s)), "0x") == s
  {
    assert DigitValue(s[0]).Some? && DigitValue(s[|s| - 1]).Some?;
    assert Lower(s) == s;
    assert |s| > 1 ==> s[1] != 'x';
  }

  lemma {:induction false} HexIsDigits(n: nat)
    ensures forall i :: 0 <= i < |ToHex(n)| ==> DigitValue(ToHex(n)[i]).Some?
  {
    DigitRoundTrip(n % 16);
    if n >= 16 {
      HexIsDigits(n / 16);
    }
  }

  /** Zero-padded hexadecimal loses nothing, at every width. */
  lemma {:induction false} BitsRoundTrip(b: Bits)
    ensures BitsFromHex(HexOf(b), Some(b.width)) == Some(b)
  {
    hide ToHex, FromHex, Zeros, RemovePrefix, Lower, Strip, Pow2;
    if b.width == 0 {
      ZeroIsZero();
      Normal("0");
      assert Pow2(0) == 1 by { ZeroIsZero(); }
    } else {
      FormatRoundTrip(b.value, (b.width + 3) / 4);
      assert b.value % Pow2(b.width) == b.value;
    }
  }

  lemma ZeroIsZero()
    ensures FromHex("0") == Some(0) && Pow2(0) == 1
  {
  }

  lemma {:induction false} FormatRoundTrip(n: nat, digits: nat)
    ensures FromHex(RemovePrefix(Lower(Strip(FormatHex(n, digits))), "0x")) == Some(n)
  {
    hide ToHex, FromHex, RemovePrefix, Lower, Strip;
    var s := ToHex(n);
    FromToHex(n);
    HexIsDigits(n);
    if |s| < digits {
      FromPadded(digits - |s|, s);
      Normal(Zeros(digits - |s|) + s);
    } else {
      Normal(s);
    }
  }

  lemma {:induction false} BitsDocRoundTrip(b: Bits)
    ensures FieldFromDoc(BitsToDoc(b)) == Some(Vector(b))
  {
    hide HexOf, BitsFromHex;
    BitsRoundTrip(b);
    var hex := Entry("hex", DStr(HexOf(b)));
    var entries := [Entry("width", DNum(b.width)), hex];
    assert entries[1..] == [hex];
    assert Get(entries, "width") == Some(DNum(b.width));
    assert Get(entries[1..], "hex") == Some(DStr(HexOf(b)));
    assert Get(entries, "hex") == Some(DStr(HexOf(b)));
  }

  // ---------- Values round trip ----------

  /** No tuple, and no dictionary that would be taken for a bit vector. */
  predicate Plain(v: Value) {
    match v
    case List(items) => forall x :: x in items ==> Plain(x)
    case Tuple(_) => false
    case Dict(entries) => !LooksLikeBits(entries) && forall e :: e in entries ==> PlainEntry(e)
    case _ => true
  }

  predicate PlainEntry(e: Entry<Value>) {
    Plain(e.value)
  }

  lemma {:induction false} GetInDoc(es: seq<Entry<Value>>, key: string)
    ensures Get(EntriesToDoc(es), key).Some? <==> Get(es, key).Some?
  {
    if es != [] {
      GetInDoc(es[1..], key);
    }
  }

  lemma {:induction false} AllRoundTrip(vs: seq<Value>)
    ensures AllFromDoc(AllToDoc(vs)) == Some(vs) <==> forall x :: x in vs ==> Plain(x)
    decreases vs, 0
  {
    if vs != [] {
      FieldRoundTrip(vs[0]);
      AllRoundTrip(vs[1..]);
      assert vs == [vs[0]] + vs[1..];
      assert AllToDoc(vs)[1..] == AllToDoc(vs[1..]);
      if AllFromDoc(AllToDoc(vs)) == Some(vs) {
        var rest := AllFromDoc(AllToDoc(vs[1..])).value;
        var first := FieldFromDoc(FieldToDoc(vs[0])).value;
        assert ([first] + rest)[0] == vs[0] && ([first] + rest)[1..] == rest;
      }
    }
  }

  lemma {:induction false} EntriesRoundTrip(es: seq<Entry<Value>>)
    ensures EntriesFromDoc(EntriesToDoc(es)) == Some(es) <==> forall e :: e in es ==> PlainEntry(e)
    decreases es, 0
  {
    if es != [] {
      var e := es[0];
      EntryRoundTrip(e);
      EntriesRoundTrip(es[1..]);
      assert es == [e] + es[1..];
      assert EntriesToDoc(es)[1..] == EntriesToDoc(es[1..]);
      if EntriesFromDoc(EntriesToDoc(es)) == Some(es) {
        var rest := EntriesFromDoc(EntriesToDoc(es[1..])).value;
        var first := EntryFromDoc(EntryToDoc(e)).value;
        assert ([first] + rest)[0] == e && ([first] + rest)[1..] == rest;
      }
    }
  }

  lemma {:induction false} EntryRoundTrip(e: Entry<Value>)
    ensures EntryFromDoc(EntryToDoc(e)) == Some(e) <==> PlainEntry(e)
    decreases e, 0
  {
    FieldRoundTrip(e.value);
  }

  /** A value survives the document form exactly when it has no tuple and no look-alike of a bit vector in it. */
  lemma {:induction false} FieldRoundTrip(v: Value)
    ensures FieldFromDoc(FieldToDoc(v)) == Some(v) <==> Plain(v)
    decreases v, 1
  {
    match v {
      case Vector(b) => BitsDocRoundTrip(b);
      case List(items) => AllRoundTrip(items);
      case Dict(entries) =>
        GetInDoc(entries, "width");
        GetInDoc(entries, "hex");
        EntriesRoundTrip(entries);
      case _ =>
    }
  }

  // ---------- The text of a bit vector ----------

  lemma {:induction false} HexLength(n: nat, k: nat)
    requires k > 0 && n < Pow2(4 * k)
    ensures |ToHex(n)| <= k
  {
    if n >= 16 {
      FourBits(4 * (k - 1));
      assert k > 1;
      HexLength(n / 16, k - 1);
    }
  }

  lemma {:induction false} FourBits(n: nat)
    ensures Pow2(n + 4) == 16 * Pow2(n) && Pow2(0) == 1
  {
    assert Pow2(n + 1) == 2 * Pow2(n);
    assert Pow2(n + 2) == 2 * Pow2(n + 1);
    assert Pow2(n + 3) == 2 * Pow2(n + 2);
    assert Pow2(n + 4) == 2 * Pow2(n + 3);
  }

  lemma {:induction false} Pow2Grows(a: nat, b: nat)
    requires a <= b
    ensures Pow2(a) <= Pow2(b)
  {
    if a < b {
      Pow2Grows(a, b - 1);
    }
  }

  /** One lower-case digit for every four bits, the last four perhaps not all used; one zero for no bits. */
  lemma {:induction false} HexDigits(b: Bits)
    ensures |HexOf(b)| == if b.width == 0 then 1 else (b.width + 3) / 4
    ensures forall i :: 0 <= i < |HexOf(b)| ==> HexOf(b)[i] in "0123456789abcdef"
    ensures b.width == 0 ==> HexOf(b) == "0"
  {
    if b.width > 0 {
      var k := (b.width + 3) / 4;
      Pow2Grows(b.width, 4 * k);
      HexLength(b.value, k);
      LowerDigits(b.value);
    }
  }

  lemma {:induction false} LowerDigits(n: nat)
    ensures forall i :: 0 <= i < |ToHex(n)| ==> ToHex(n)[i] in "0123456789abcdef"
  {
    DigitAt(n % 16);
    if n >= 16 {
      LowerDigits(n / 16);
    }
  }

  lemma {:induction false} DigitAt(d: nat)
    requires d < 16
    ensures HexDigit(d) == "0123456789abcdef"[d]
  {
  }

  predicate AnyHex(c: char) {
    '0' <= c <= '9' || 'a' <= c <= 'f' || 'A' <= c <= 'F'
  }

  lemma {:induction false} LowerIsRead(h: string)
    requires h != "" && forall i :: 0 <= i < |h| ==> AnyHex(h[i])
    ensures FromHex(Lower(h)).Some?
    decreases |h|
  {
    var n := |h| - 1;
    assert Lower(h)[n] == LowerChar(h[n]);
    if n > 0 {
      LowerIsRead(h[..n]);
      assert Lower(h)[..n] == Lower(h[..n]);
    }
  }

  /** What is left of a text with a prefix x, which is empty, 0x or 0X. */
  lemma {:induction false} TextIsStripped(before: string, x: string, h: string, after: string)
    requires AllSpaces(before) && AllSpaces(after) && h != "" && forall i :: 0 <= i < |h| ==> AnyHex(h[i])
    requires x == "" || x == "0x" || x == "0X"
    ensures RemovePrefix(Lower(Strip(before + (x + h) + after)), "0x") == Lower(h)
  {
    hide Strip, IsStripped, AllSpaces;
    assert AnyHex(h[0]) && AnyHex(h[|h| - 1]);
    var t := x + h;
    assert t[0] == (if x == "" then h[0] else '0') && t[|t| - 1] == h[|h| - 1];
    HexIsStripped(t);
    StripIs(before, t, after);
    PrefixRemoved(x, h);
  }

  lemma {:induction false} HexIsStripped(t: string)
    requires t != "" && AnyHex(t[0]) && AnyHex(t[|t| - 1])
    ensures IsStripped(t)
  {
    assert t[..1][0] == t[0] && t[|t| - 1..][0] == t[|t| - 1];
  }

  lemma {:induction false} PrefixRemoved(x: string, h: string)
    requires h != "" && forall i :: 0 <= i < |h| ==> AnyHex(h[i])
    requires x == "" || x == "0x" || x == "0X"
    ensures RemovePrefix(Lower(x + h), "0x") == Lower(h)
  {
    var low := Lower(x + h);
    if x == "" {
      assert x + h == h;
      assert |low| > 1 ==> AnyHex(h[1]) && low[1] == LowerChar(h[1]) != 'x';
    } else {
      assert low[0] == LowerChar('0') && low[1] == LowerChar(x[1]);
      assert low[..2] == "0x" && low[2..] == Lower(h);
    }
  }

  /** Reading takes white space, capitals and a prefix, and masks the value to the width, or to the digits' width. */
  lemma {:induction false} HexIsRead(before: string, x: string, h: string, after: string, width: Option<int>)
    requires AllSpaces(before) && AllSpaces(after) && h != "" && forall i :: 0 <= i < |h| ==> AnyHex(h[i])
    requires x == "" || x == "0x" || x == "0X"
    ensures FromHex(Lower(h)).Some?
    ensures
      var w := if width.Some? then width.value else 4 * |h|;
      BitsFromHex(before + (x + h) + after, width)
      == if w < 0 then None else Some(BitVec(w, FromHex(Lower(h)).value % Pow2(w)))
  {
    hide FromHex, Strip, Pow2, RemovePrefix;
    LowerIsRead(h);
    TextIsStripped(before, x, h, after);
  }

  /** Any other text is refused. */
  lemma {:induction false} FromHexFails(s: string, i: nat)
    requires i < |s| && s[i] !in "0123456789abcdef"
    ensures FromHex(s) == None && FromHex("") == None
  {
    if i < |s| - 1 {
      FromHexFails(s[..|s| - 1], i);
    }
  }

  /** A dictionary looks like a bit vector when its keys are exactly these two. */
  lemma {:induction false} BitsByKeys<V>(es: seq<Entry<V>>)
    requires forall i, j :: 0 <= i < j < |es| ==> es[i].key != es[j].key
    ensures LooksLikeBits(es) <==> (set e | e in es :: e.key) == {"width", "hex"}
  {
    KeysAreAsMany(es);
    TwoKeys();
    if |es| == 2 {
      assert es == [es[0], es[1]];
      assert (set e | e in es :: e.key) == {es[0].key, es[1].key};
      GetOfTwo(es, "width");
      GetOfTwo(es, "hex");
    }
  }

  lemma TwoKeys()
    ensures |{"width", "hex"}| == 2 && "width" != "hex"
  {
    assert "width"[0] != "hex"[0];
  }

  lemma {:induction false} GetOfTwo<V>(es: seq<Entry<V>>, key: string)
    requires |es| == 2
    ensures Get(es, key).Some? <==> key == es[0].key || key == es[1].key
  {
    assert es[1..][1..] == [] && es[1..][0] == es[1];
    assert Get(es[1..], key) == if es[1].key == key then Some(es[1].value) else Get([], key);
  }

  lemma {:induction false} KeysAreAsMany<V>(es: seq<Entry<V>>)
    requires forall i, j :: 0 <= i < j < |es| ==> es[i].key != es[j].key
    ensures |set e | e in es :: e.key| == |es|
  {
    if es != [] {
      var n := |es| - 1;
      KeysAreAsMany(es[..n]);
      var before := set e | e in es[..n] :: e.key;
      assert es == es[..n] + [es[n]];
      assert (set e | e in es :: e.key) == before + {es[n].key};
      assert es[n].key !in before;
    }
  }
}
