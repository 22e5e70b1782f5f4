/** The streaming reader answers as a lookup in the fully decoded table would. */
module SourceMapLookup {
  import opened Words
  import opened Results
  import opened Vlq
  import opened SourceMap

  // A record: from this location on, this is the debug info, if any.
  datatype Entry = Entry(location: nat, info: Option<Info>)

  // ---------- The table ----------

  /** All records from the reader's on. */
  function Table(s: string, r: Reader): Result<seq<Entry>, MapError>
    requires r.pos <= |s|
    decreases if r.location == 0 then 0 else |s| - r.pos + 1
  {
    if r.location == 0 then Ok([])
    else
      var next :- ReadRecord(s, r);
      var rest :- Table(s, next);
      Ok([Entry(r.location, next.Current())] + rest)
  }

  predicate Increasing(table: seq<Entry>) {
    forall i, j :: 0 <= i < j < |table| ==> table[i].location < table[j].location
  }

  /** The info of the last record at or before a location; nothing before the first. */
  function Lookup(table: seq<Entry>, query: nat): Option<Info> {
    if table == [] then None
    else if table[|table| - 1].location <= query then table[|table| - 1].info
    else Lookup(table[..|table| - 1], query)
  }

  /** How many records are at or before a location, in a table in order. */
  function Reached(table: seq<Entry>, query: nat): (n: nat)
    ensures n <= |table|
    ensures forall k :: 0 <= k < n ==> table[k].location <= query
    ensures n < |table| ==> table[n].location > query
  {
    if table == [] || table[0].location > query then 0 else 1 + Reached(table[1..], query)
  }

  lemma {:induction false} LookupIsReached(table: seq<Entry>, query: nat)
    requires Increasing(table)
    ensures Lookup(table, query) == if Reached(table, query) == 0 then None else table[Reached(table, query) - 1].info
  {
    var n := Reached(table, query);
    if table != [] {
      var last := |table| - 1;
      if table[last].location > query {
        LookupIsReached(table[..last], query);
        ReachedIsUnique(table[..last], query, n);
      } else {
        ReachedIsUnique(table, query, |table|);
      }
    }
  }

  lemma {:induction false} ReachedIsUnique(table: seq<Entry>, query: nat, n: nat)
    requires Increasing(table) && n <= |table|
    requires n > 0 ==> table[n - 1].location <= query
    requires n < |table| ==> table[n].location > query
    ensures Reached(table, query) == n
  {
    if n > 0 {
      assert n == 1 || table[0].location < table[n - 1].location;
      ReachedIsUnique(table[1..], query, n - 1);
    }
  }

  // ---------- One query ----------

  /** A query decodes the records up to its location, answers with the last of them, and leaves the others. */
  lemma {:induction false} ReadAtIsReached(s: string, r: Reader, query: nat)
    requires r.pos <= |s| && Table(s, r).Ok?
    ensures ReadAt(s, r, query).Ok?
    ensures
      var table := Table(s, r).value;
      var n := Reached(table, query);
      var (info, last, decoded) := ReadAt(s, r, query).value;
      && decoded == n
      && info == (if n == 0 then r.Current() else table[n - 1].info)
      && last.Current() == info && last.pos <= |s|
      && Table(s, last) == Ok(table[n..])
    decreases if r.location == 0 then 0 else |s| - r.pos + 1
  {
    hide ReadRecord;
    if r.location != 0 && r.location <= query {
      var next := ReadRecord(s, r).value;
      ReadAtIsReached(s, next, query);
      var rest := Table(s, next).value;
      assert Table(s, r).value[1..] == rest;
    }
  }

  // ---------- Any run of queries ----------

  /** The answers to a sequence of queries, and how many records were decoded in all. */
  function Answers(s: string, r: Reader, queries: seq<nat>): Result<(seq<Option<Info>>, nat), MapError>
    requires r.pos <= |s|
    decreases |queries|
  {
    hide ReadRecord;
    if queries == [] then Ok(([], 0))
    else
      var (info, next, n) :- ReadAt(s, r, queries[0]);
      var (rest, m) :- Answers(s, next, queries[1..]);
      Ok(([info] + rest, n + m))
  }

  function Max(a: nat, b: nat): nat {
    if a > b then a else b
  }

  /** The furthest of the queries up to the n-th. */
  function Furthest(queries: seq<nat>, n: nat): (m: nat)
    requires n < |queries|
    ensures queries[n] <= m
  {
    if n == 0 then queries[0] else Max(Furthest(queries, n - 1), queries[n])
  }

  predicate NonDecreasing(queries: seq<nat>) {
    forall i, j :: 0 <= i < j < |queries| ==> queries[i] <= queries[j]
  }

  lemma {:induction false} FurthestIsLast(queries: seq<nat>, n: nat)
    requires n < |queries| && NonDecreasing(queries)
    ensures Furthest(queries, n) == queries[n]
  {
    if n > 0 {
      FurthestIsLast(queries, n - 1);
    }
  }

  /** The reader after its first k records. */
  ghost predicate Consumed(s: string, table: seq<Entry>, k: nat, r: Reader) {
    && k <= |table| && r.pos <= |s| && Table(s, r) == Ok(table[k..])
    && r.Current() == if k == 0 then None else table[k - 1].info
  }

  lemma {:induction false} ReachedSuffix(table: seq<Entry>, k: nat, query: nat)
    requires Increasing(table) && k <= |table|
    ensures k <= Reached(table, query) ==> Reached(table[k..], query) == Reached(table, query) - k
    ensures k >= Reached(table, query) ==> Reached(table[k..], query) == 0
  {
    var n := Reached(table, query);
    if k <= n {
      ReachedIsUnique(table[k..], query, n - k);
    } else {
      assert table[n].location <= table[k - 1].location;
    }
  }

  /** One query on a reader that has consumed k records. */
  lemma {:induction false} QueryConsumes(s: string, table: seq<Entry>, k: nat, r: Reader, query: nat)
    requires Increasing(table) && Consumed(s, table, k, r)
    ensures ReadAt(s, r, query).Ok?
    ensures
      var (info, next, decoded) := ReadAt(s, r, query).value;
      var n := if Reached(table, query) > k then Reached(table, query) else k;
      Consumed(s, table, n, next) && decoded == n - k && info == (if n == 0 then None else table[n - 1].info)
  {
    hide ReadRecord, ReadAt, Table, Reached;
    ReadAtIsReached(s, r, query);
    ReachedSuffix(table, k, query);
  }

  /** The lookups at the furthest location so far, when it was m before. */
  function Lookups(table: seq<Entry>, m: nat, queries: seq<nat>): (r: seq<Option<Info>>)
    ensures |r| == |queries|
    decreases |queries|
  {
    if queries == [] then []
    else [Lookup(table, Max(m, queries[0]))] + Lookups(table, Max(m, queries[0]), queries[1..])
  }

  lemma {:induction false} FirstAnswer(s: string, table: seq<Entry>, m: nat, r: Reader, query: nat)
    requires Increasing(table) && Consumed(s, table, Reached(table, m), r)
    ensures ReadAt(s, r, query).Ok?
    ensures
      var (info, next, decoded) := ReadAt(s, r, query).value;
      var far := Max(m, query);
      && info == Lookup(table, far) && Consumed(s, table, Reached(table, far), next)
      && Reached(table, m) + decoded == Reached(table, far)
  {
    hide ReadRecord, ReadAt, Table, Consumed, Lookup, Reached, Increasing;
    QueryConsumes(s, table, Reached(table, m), r, query);
    ReachedMonotone(table, query, m);
    ReachedMonotone(table, m, query);
    LookupIsReached(table, Max(m, query));
  }

  lemma {:induction false} AnswersFrom(s: string, table: seq<Entry>, m: nat, r: Reader, queries: seq<nat>)
    requires Increasing(table) && Consumed(s, table, Reached(table, m), r)
    ensures Answers(s, r, queries).Ok?
    ensures Answers(s, r, queries).value.0 == Lookups(table, m, queries)
    ensures Reached(table, m) + Answers(s, r, queries).value.1 <= |table|
    decreases |queries|
  {
    assert r.pos <= |s|;
    hide ReadRecord, ReadAt, Table, Consumed, Lookup, Reached, Increasing, Max;
    if queries == [] {
      ReachedMonotone(table, m, m);
    } else {
      FirstAnswer(s, table, m, r, queries[0]);
      AnswersFrom(s, table, Max(m, queries[0]), ReadAt(s, r, queries[0]).value.1, queries[1..]);
    }
  }

  lemma {:induction false} LookupsAt(table: seq<Entry>, m: nat, queries: seq<nat>, i: nat)
    requires i < |queries|
    ensures Lookups(table, m, queries)[i] == Lookup(table, Max(m, Furthest(queries, i)))
    decreases i
  {
    if i > 0 {
      LookupsAt(table, Max(m, queries[0]), queries[1..], i - 1);
      FurthestTail(queries, i);
    }
  }

  lemma {:induction false} FurthestTail(queries: seq<nat>, i: nat)
    requires 0 < i < |queries|
    ensures Furthest(queries, i) == Max(queries[0], Furthest(queries[1..], i - 1))
  {
    if i > 1 {
      FurthestTail(queries, i - 1);
    }
  }

  lemma {:induction false} ReachedMonotone(table: seq<Entry>, a: nat, b: nat)
    ensures a <= b ==> Reached(table, a) <= Reached(table, b)
    ensures Reached(table, a) <= |table|
  {
    if table != [] {
      ReachedMonotone(table[1..], a, b);
    }
  }

  /** Streaming equals lookup: over any mappings string with increasing locations, each answer in any run of
      queries is the table's at the furthest location asked for so far, and no record is decoded twice. */
  lemma {:induction false} StreamingIsLookup(s: string, r: Reader, queries: seq<nat>)
    requires r.pos <= |s| && !r.hasInfo && Table(s, r).Ok? && Increasing(Table(s, r).value)
    ensures Answers(s, r, queries).Ok?
    ensures
      var table := Table(s, r).value;
      var (infos, decoded) := Answers(s, r, queries).value;
      && |infos| == |queries| && decoded <= |table|
      && forall i :: 0 <= i < |queries| ==> infos[i] == Lookup(table, Furthest(queries, i))
  {
    hide ReadRecord;
    var table := Table(s, r).value;
    assert table[0..] == table;
    assert table != [] ==> table[0].location == r.location > 0;
    assert Reached(table, 0) == 0;
    AnswersFrom(s, table, 0, r, queries);
    forall i | 0 <= i < |queries|
      ensures Answers(s, r, queries).value.0[i] == Lookup(table, Furthest(queries, i))
    {
      LookupsAt(table, 0, queries, i);
    }
  }

  /** In particular, queries in order are answered one by one as lookups. */
  lemma {:induction false} OrderedQueriesAreLookups(s: string, r: Reader, queries: seq<nat>)
    requires r.pos <= |s| && !r.hasInfo && Table(s, r).Ok? && Increasing(Table(s, r).value) && NonDecreasing(queries)
    ensures Answers(s, r, queries).Ok?
    ensures forall i :: 0 <= i < |queries| ==>
      |Answers(s, r, queries).value.0| == |queries|
      && Answers(s, r, queries).value.0[i] == Lookup(Table(s, r).value, queries[i])
  {
    hide ReadRecord, Table;
    StreamingIsLookup(s, r, queries);
    forall i | 0 <= i < |queries| ensures Furthest(queries, i) == queries[i] {
      FurthestIsLast(queries, i);
    }
  }

  // ---------- Tables that were written ----------

  // The values the next deltas are relative to.
  datatype Base = Base(file: Word, line: Word, col: Word, symbol: Word)

  function BaseOf(r: Reader): Base {
    Base(r.file, r.line, r.col, r.symbol)
  }

  function After(info: Option<Info>, b: Base): Base {
    match info
    case None => b
    case Some(i) => Base(i.file, i.line, i.col, if i.symbol.Some? then i.symbol.value else b.symbol)
  }

  /** The fields of a record after its location, as ECMA-426 writes them. */
  function WriteFields(info: Option<Info>, b: Base): string {
    match info
    case None => ""
    case Some(i) =>
      EncodeVlq(i.file - b.file) + (EncodeVlq(i.line - b.line) + (EncodeVlq(i.col - b.col) +
        if i.symbol.Some? then EncodeVlq(i.symbol.value - b.symbol) else ""))
  }

  /** The rest of the mappings string after the location of the first entry. */
  function WriteEntries(table: seq<Entry>, b: Base): string
    requires table != []
  {
    WriteFields(table[0].info, b) +
    if |table| == 1 then ""
    else "," + (EncodeVlq(table[1].location - table[0].location) + WriteEntries(table[1..], After(table[0].info, b)))
  }

  function Write(table: seq<Entry>, b: Base): string {
    if table == [] then "" else EncodeVlq(table[0].location) + WriteEntries(table, b)
  }

  /** Each step from one set of values to the next has an encoding. */
  predicate Close(b: Base, c: Base) {
    && Encodable(c.file - b.file) && Encodable(c.line - b.line)
    && Encodable(c.col - b.col) && Encodable(c.symbol - b.symbol)
  }

  /** Locations increase from a positive one, below 2^64, and each step from one record to the next has an encoding. */
  predicate StepsWritable(table: seq<Entry>, b: Base)
    decreases |table|
  {
    table != [] ==>
      && 0 < table[0].location < SIZE_MAX && Close(b, After(table[0].info, b))
      && (|table| > 1 ==> 0 < table[1].location - table[0].location <= LIMIT)
      && StepsWritable(table[1..], After(table[0].info, b))
  }

  /** The first location, too, has an encoding. */
  predicate Writable(table: seq<Entry>, b: Base) {
    StepsWritable(table, b) && (table != [] ==> table[0].location <= LIMIT)
  }

  lemma {:induction false} StepsIncrease(table: seq<Entry>, b: Base)
    requires StepsWritable(table, b)
    ensures Increasing(table)
    decreases |table|
  {
    if table != [] {
      StepsIncrease(table[1..], After(table[0].info, b));
      forall i, j | 0 <= i < j < |table| ensures table[i].location < table[j].location {
        assert table[j] == table[1..][j - 1];
        if i > 0 {
          assert table[i] == table[1..][i - 1];
        } else if j > 1 {
          assert table[1] == table[1..][0];
        }
      }
    }
  }

  /** The first character of a number is a Base64 digit, so it ends nothing. */
  lemma {:induction false} NumberEndsNothing(s: string, pos: nat, n: int)
    requires pos <= |s| && EncodeVlq(n) <= s[pos..]
    ensures !EndsRecord(Peek(s, pos)) && Peek(s, pos) != ';'
  {
    assert s[pos] == EncodeVlq(n)[0];
    var v := ToBits(n);
    if v < 32 {
      DigitsAreBase64(v);
    } else {
      DigitsAreBase64(v % 32);
    }
  }

  /** Reads one number of a written string. */
  lemma {:induction false} ReadNumber(s: string, pos: nat, n: int, rest: string)
    requires Encodable(n) && pos <= |s| && s[pos..] == EncodeVlq(n) + rest
    ensures ReadVlq(s, pos) == Ok((n, pos + |EncodeVlq(n)|))
    ensures pos + |EncodeVlq(n)| <= |s| && s[pos + |EncodeVlq(n)|..] == rest
    ensures !EndsRecord(Peek(s, pos)) && Peek(s, pos) != ';'
  {
    hide EncodeVlq, ReadVlq;
    VlqRoundTrip(s, pos, n);
    NumberEndsNothing(s, pos, n);
    assert s[pos + |EncodeVlq(n)|..] == s[pos..][|EncodeVlq(n)|..];
  }

  lemma WrapDelta(a: Word, b: Word)
    ensures Wrap(a + (b - a)) == b
  {
  }

  predicate EndOrComma(rest: string) {
    rest == "" || rest[0] == ','
  }

  /** The fields of a written record, read back. */
  lemma {:induction false} FieldsReadBack(s: string, r: Reader, info: Option<Info>, rest: string)
    requires r.pos <= |s| && s[r.pos..] == WriteFields(info, BaseOf(r)) + rest && EndOrComma(rest)
    requires Close(BaseOf(r), After(info, BaseOf(r)))
    ensures ReadFields(s, r).Ok?
    ensures
      var read := ReadFields(s, r).value;
      && read.pos <= |s| && s[read.pos..] == rest && read.Current() == info && BaseOf(read) == After(info, BaseOf(r))
  {
    hide ReadVlq, EncodeVlq, Wrap;
    match info {
      case None =>
        assert s[r.pos..] == rest;
        PeekRest(s, r.pos, rest);
      case Some(i) => InfoReadsBack(s, r, i, rest);
    }
  }

  lemma {:induction false} InfoReadsBack(s: string, r: Reader, i: Info, rest: string)
    requires r.pos <= |s| && s[r.pos..] == WriteFields(Some(i), BaseOf(r)) + rest && EndOrComma(rest)
    requires Close(BaseOf(r), After(Some(i), BaseOf(r)))
    ensures ReadFields(s, r).Ok?
    ensures
      var read := ReadFields(s, r).value;
      && read.pos <= |s| && s[read.pos..] == rest && read.Current() == Some(i)
      && BaseOf(read) == After(Some(i), BaseOf(r))
  {
    hide ReadVlq, EncodeVlq, Wrap, Peek, EndsRecord, EndOrComma;
    var symbols := if i.symbol.Some? then EncodeVlq(i.symbol.value - r.symbol) else "";
    var p1 := r.pos + |EncodeVlq(i.file - r.file)|;
    var p2 := p1 + |EncodeVlq(i.line - r.line)|;
    var p3 := p2 + |EncodeVlq(i.col - r.col)|;
    ReadThree(s, r.pos, i.file - r.file, i.line - r.line, i.col - r.col, symbols, rest);
    WrapDelta(r.file, i.file);
    WrapDelta(r.line, i.line);
    WrapDelta(r.col, i.col);
    if i.symbol.Some? {
      ReadNumber(s, p3, i.symbol.value - r.symbol, rest);
      WrapDelta(r.symbol, i.symbol.value);
    } else {
      assert symbols + rest == rest;
      PeekRest(s, p3, rest);
    }
  }

  lemma {:induction false} ReadThree(s: string, pos: nat, a: int, b: int, c: int, symbols: string, rest: string)
    requires Encodable(a) && Encodable(b) && Encodable(c) && pos <= |s|
    requires s[pos..] == EncodeVlq(a) + (EncodeVlq(b) + (EncodeVlq(c) + symbols)) + rest
    ensures
      var p1 := pos + |EncodeVlq(a)|;
      var p2 := p1 + |EncodeVlq(b)|;
      var p3 := p2 + |EncodeVlq(c)|;
      && !EndsRecord(Peek(s, pos))
      && ReadVlq(s, pos) == Ok((a, p1)) && ReadVlq(s, p1) == Ok((b, p2)) && ReadVlq(s, p2) == Ok((c, p3))
      && p3 <= |s| && s[p3..] == symbols + rest
  {
    hide ReadVlq, EncodeVlq, Peek, EndsRecord;
    var cols := EncodeVlq(c) + symbols;
    var lines := EncodeVlq(b) + cols;
    assert EncodeVlq(a) + lines + rest == EncodeVlq(a) + (lines + rest);
    ReadNumber(s, pos, a, lines + rest);
    assert lines + rest == EncodeVlq(b) + (cols + rest);
    ReadNumber(s, pos + |EncodeVlq(a)|, b, cols + rest);
    assert cols + rest == EncodeVlq(c) + (symbols + rest);
    ReadNumber(s, pos + |EncodeVlq(a)| + |EncodeVlq(b)|, c, symbols + rest);
  }

  lemma {:induction false} PeekRest(s: string, pos: nat, rest: string)
    requires pos <= |s| && s[pos..] == rest && EndOrComma(rest)
    ensures EndsRecord(Peek(s, pos)) && Peek(s, pos) != ';'
    ensures rest == "" ==> Peek(s, pos) == '\"'
    ensures rest != "" ==> Peek(s, pos) == ',' && pos + 1 <= |s| && s[pos + 1..] == rest[1..]
  {
    if rest != "" {
      assert s[pos] == rest[0];
    }
  }

  /** One written record that is followed by another one. */
  lemma {:induction false} RecordReadsBack(s: string, r: Reader, info: Option<Info>, delta: nat, tail: string)
    requires r.pos <= |s|
    requires s[r.pos..] == WriteFields(info, BaseOf(r)) + ("," + (EncodeVlq(delta) + tail))
    requires Close(BaseOf(r), After(info, BaseOf(r))) && Encodable(delta) && r.location + delta < SIZE_MAX
    ensures ReadRecord(s, r).Ok?
    ensures
      var next := ReadRecord(s, r).value;
      && next.pos <= |s| && s[next.pos..] == tail && next.location == r.location + delta
      && next.Current() == info && BaseOf(next) == After(info, BaseOf(r))
  {
    hide ReadVlq, EncodeVlq, WriteFields, ReadFields, After, Close;
    var rest := "," + (EncodeVlq(delta) + tail);
    FieldsReadBack(s, r, info, rest);
    var read := ReadFields(s, r).value;
    PeekRest(s, read.pos, rest);
    assert rest[1..] == EncodeVlq(delta) + tail;
    ReadNumber(s, read.pos + 1, delta, tail);
  }

  lemma {:induction false} LastReadsBack(s: string, r: Reader, info: Option<Info>)
    requires r.pos <= |s| && s[r.pos..] == WriteFields(info, BaseOf(r)) && Close(BaseOf(r), After(info, BaseOf(r)))
    ensures ReadRecord(s, r).Ok? && ReadRecord(s, r).value.location == 0 && ReadRecord(s, r).value.Current() == info
  {
    hide ReadVlq, EncodeVlq, WriteFields, ReadFields, After, Close;
    assert s[r.pos..] == WriteFields(info, BaseOf(r)) + "";
    FieldsReadBack(s, r, info, "");
    PeekRest(s, ReadFields(s, r).value.pos, "");
  }

  /** Writing a table and decoding the string gives the table back. */
  lemma {:induction false} TableReadsBack(s: string, r: Reader, table: seq<Entry>)
    requires table != [] && StepsWritable(table, BaseOf(r)) && r.location == table[0].location
    requires r.pos <= |s| && s[r.pos..] == WriteEntries(table, BaseOf(r))
    ensures Table(s, r) == Ok(table)
    decreases |table|
  {
    hide ReadVlq, EncodeVlq, WriteFields, ReadRecord, Close, After;
    var info := table[0].info;
    if |table| == 1 {
      assert s[r.pos..] == WriteFields(info, BaseOf(r));
      LastReadsBack(s, r, info);
      assert Table(s, ReadRecord(s, r).value) == Ok([]);
      assert table == [Entry(r.location, info)] + [];
    } else {
      var tail := WriteEntries(table[1..], After(info, BaseOf(r)));
      RecordReadsBack(s, r, info, table[1].location - table[0].location, tail);
      TableReadsBack(s, ReadRecord(s, r).value, table[1..]);
      assert table == [Entry(r.location, info)] + table[1..];
    }
  }

  /** The whole way: any table of records at increasing locations, written as a mappings string and read as a
      stream, answers every run of queries as lookups in that table. */
  lemma {:induction false} WrittenTableIsLookedUp(table: seq<Entry>, r: Reader, queries: seq<nat>)
    requires r.pos == 0 && !r.hasInfo && Writable(table, BaseOf(r))
    ensures Started(Write(table, BaseOf(r)), r).Ok?
    ensures
      var s := Write(table, BaseOf(r));
      var started := Started(s, r).value;
      && Answers(s, started, queries).Ok?
      && |Answers(s, started, queries).value.0| == |queries|
      && forall i :: 0 <= i < |queries| ==>
           Answers(s, started, queries).value.0[i] == Lookup(table, Furthest(queries, i))
  {
    hide ReadVlq, EncodeVlq, Answers, Lookup;
    var s := Write(table, BaseOf(r));
    if table != [] {
      assert s[0..] == s;
      ReadNumber(s, 0, table[0].location, WriteEntries(table, BaseOf(r)));
      TableReadsBack(s, Started(s, r).value, table);
    }
    StepsIncrease(table, BaseOf(r));
    StreamingIsLookup(s, Started(s, r).value, queries);
  }
}
