/** The streaming reader of source-map.cpp over a mappings string (ECMA-426, without a second line). */
module SourceMap {
  import opened Words
  import opened Results
  import opened Vlq

  datatype Info = Info(file: Word, line: Word, col: Word, symbol: Option<Word>)

  // The reader's fields; location 0 means that there is no further record.
  datatype Reader = Reader(pos: nat, location: nat, file: Word, line: Word, col: Word, symbol: Word,
                           hasInfo: bool, hasSymbol: bool)
  {
    function Current(): Option<Info> {
      if !hasInfo then None else Some(Info(file, line, col, if hasSymbol then Some(symbol) else None))
    }
  }

  const SIZE_MAX: nat := 0x1_0000_0000_0000_0000

  /** size_t addition of an int32_t. */
  function Moved(location: nat, delta: int): nat {
    (location + delta) % SIZE_MAX
  }

  predicate EndsRecord(c: char) {
    c == ',' || c == '\"'
  }

  /** The fields of a record after its location. */
  function ReadFields(s: string, r: Reader): (res: Result<Reader, MapError>)
    ensures res.Ok? ==> res.value.pos >= r.pos && res.value.location == r.location
    ensures res.Ok? && r.pos <= |s| ==> res.value.pos <= |s|
  {
    if EndsRecord(Peek(s, r.pos)) then Ok(r.(hasInfo := false))
    else
      var (file, p1) :- ReadVlq(s, r.pos);
      var (line, p2) :- ReadVlq(s, p1);
      var (col, p3) :- ReadVlq(s, p2);
      var moved := r.(pos := p3, hasInfo := true, file := Wrap(r.file + file), line := Wrap(r.line + line),
                      col := Wrap(r.col + col));
      if Peek(s, p3) == ';' then Err(SecondLine)
      else if EndsRecord(Peek(s, p3)) then Ok(moved.(hasSymbol := false))
      else
        var (symbol, p4) :- ReadVlq(s, p3);
        Ok(moved.(pos := p4, hasSymbol := true, symbol := Wrap(r.symbol + symbol)))
  }

  /** One iteration: the record at the cursor, then the location of the next one. */
  function ReadRecord(s: string, r: Reader): (res: Result<Reader, MapError>)
    ensures res.Ok? && r.pos <= |s| ==> res.value.pos <= |s| && (res.value.location == 0 || res.value.pos > r.pos)
  {
    var read :- ReadFields(s, r);
    if Peek(s, read.pos) == '\"' then Ok(read.(location := 0))
    else if Peek(s, read.pos) != ',' then Err(ExpectedDelimiter)
    else
      var (delta, next) :- ReadVlq(s, read.pos + 1);
      Ok(read.(pos := next, location := Moved(read.location, delta)))
  }

  /** readDebugLocationAt: the answer, the reader after it, and how many records were decoded. */
  function ReadAt(s: string, r: Reader, query: nat): (res: Result<(Option<Info>, Reader, nat), MapError>)
    requires r.pos <= |s|
    ensures res.Ok? ==> res.value.1.pos <= |s|
    decreases if r.location == 0 then 0 else |s| - r.pos + 1
  {
    if r.location == 0 || r.location > query then Ok((r.Current(), r, 0))
    else
      var next :- ReadRecord(s, r);
      var (info, last, n) :- ReadAt(s, next, query);
      Ok((info, last, n + 1))
  }

  class SourceMapReader {
    const mappings: string
    var pos: nat
    var location: nat
    var file: Word
    var line: Word
    var col: Word
    var symbol: Word
    var hasInfo: bool
    var hasSymbol: bool

    function State(): Reader
      reads this
    {
      Reader(pos, location, file, line, col, symbol, hasInfo, hasSymbol)
    }

    constructor (mappings: string, file: Word, line: Word, col: Word, symbol: Word)
      ensures this.mappings == mappings && State() == Reader(0, 0, file, line, col, symbol, false, false)
    {
      this.mappings := mappings;
      pos, location := 0, 0;
      this.file, this.line, this.col, this.symbol := file, line, col, symbol;
      hasInfo, hasSymbol := false, false;
    }

    function PeekChar(): char
      reads this
    {
      Peek(mappings, pos)
    }

    method Get() returns (c: char)
      modifies this`pos
      ensures c == Peek(mappings, old(pos)) && pos == old(pos) + 1
    {
      c := PeekChar();
      pos := pos + 1;
    }

    method ReadBase64VLQ() returns (r: Result<int, MapError>)
      modifies this`pos
      ensures match ReadVlq(mappings, old(pos))
              case Ok((n, end)) => r == Ok(n) && pos == end
              case Err(error) => r == Err(error)
    {
      hide Or, ShiftLeft;
      var value: nat := 0;
      var shift: nat := 0;
      while true
        invariant shift < 32
        invariant ReadVlq(mappings, old(pos)) == ReadDigits(mappings, pos, value, shift)
        decreases 32 - shift
      {
        var ch := Get();
        if 'A' <= ch <= 'Z' || 'a' <= ch < 'g' {
          var digit := if ch < 'a' then ch as int - 'A' as int else ch as int - 'a' as int + 26;
          value := Or(value, ShiftLeft(digit, shift));
          break;
        }
        if !('g' <= ch <= 'z') && !('0' <= ch <= '9') && ch != '+' && ch != '/' {
          return Err(InvalidDigit);
        }
        var digit := if ch > '9' then ch as int - 'g' as int
                     else if ch >= '0' then ch as int - '0' as int + 20
                     else if ch == '+' then 30 else 31;
        value := Or(value, ShiftLeft(digit, shift));
        shift := shift + 5;
        if shift >= 32 {
          return Err(ValueTooLarge);
        }
      }
      return Ok(if value % 2 == 1 then -(value / 2) else value / 2);
    }

    /** The record at the cursor, up to its delimiter. */
    method ReadRecordFields() returns (r: Result<(), MapError>)
      modifies this
      ensures match ReadFields(mappings, old(State()))
              case Ok(next) => r == Ok(()) && State() == next
              case Err(error) => r == Err(error)
    {
      hide ReadVlq, Peek;
      var next := PeekChar();
      if next == ',' || next == '\"' {
        hasInfo := false;
        return Ok(());
      }
      hasInfo := true;
      var delta :- ReadBase64VLQ();
      file := Wrap(file + delta);
      delta :- ReadBase64VLQ();
      line := Wrap(line + delta);
      delta :- ReadBase64VLQ();
      col := Wrap(col + delta);
      next := PeekChar();
      if next == ';' {
        return Err(SecondLine);
      }
      if next == ',' || next == '\"' {
        hasSymbol := false;
        return Ok(());
      }
      hasSymbol := true;
      delta :- ReadBase64VLQ();
      symbol := Wrap(symbol + delta);
      return Ok(());
    }

    /** The loop body: the record at the cursor, then the location of the next one. */
    method ReadOneRecord() returns (r: Result<(), MapError>)
      modifies this
      ensures match ReadRecord(mappings, old(State()))
              case Ok(next) => r == Ok(()) && State() == next
              case Err(error) => r == Err(error)
    {
      hide ReadVlq, ReadFields;
      var _ :- ReadRecordFields();
      if PeekChar() == '\"' {
        location := 0;
        return Ok(());
      }
      var c := Get();
      if c != ',' {
        return Err(ExpectedDelimiter);
      }
      var delta :- ReadBase64VLQ();
      location := Moved(location, delta);
      return Ok(());
    }

    method ReadDebugLocationAt(currLocation: nat) returns (r: Result<Option<Info>, MapError>)
      requires pos <= |mappings|
      modifies this
      ensures match ReadAt(mappings, old(State()), currLocation)
              case Ok((info, last, _)) => r == Ok(info) && State() == last && pos <= |mappings|
              case Err(error) => r == Err(error)
    {
      hide ReadRecord;
      ghost var decoded: nat := 0;
      while location != 0 && location <= currLocation
        invariant pos <= |mappings|
        invariant ReadAt(mappings, old(State()), currLocation) ==
                  match ReadAt(mappings, State(), currLocation)
                  case Ok((info, last, n)) => Ok((info, last, decoded + n))
                  case Err(error) => Err(error)
        decreases if location == 0 then 0 else |mappings| - pos + 1
      {
        var _ :- ReadOneRecord();
        decoded := decoded + 1;
      }
      if !hasInfo {
        return Ok(None);
      }
      var sym := if hasSymbol then Some(symbol) else None;
      return Ok(Some(Info(file, line, col, sym)));
    }

    /** The end of `parse`: the location of the first record. */
    method Start() returns (r: Result<(), MapError>)
      requires pos == 0
      modifies this
      ensures match Started(mappings, old(State()))
              case Ok(next) => r == Ok(()) && State() == next
              case Err(error) => r == Err(error)
    {
      if mappings == "" {
        location := 0;
        return Ok(());
      }
      var delta :- ReadBase64VLQ();
      location := Moved(0, delta);
      return Ok(());
    }
  }

  function Started(s: string, r: Reader): (res: Result<Reader, MapError>)
    requires r.pos <= |s|
    ensures res.Ok? ==> res.value.pos <= |s|
  {
    if s == "" then Ok(r.(location := 0))
    else
      var (delta, next) :- ReadVlq(s, r.pos);
      Ok(r.(pos := next, location := Moved(0, delta)))
  }

  // ---------- Steps and faults ----------

  /** A location is 64 bits wide, and the other values 32. */
  lemma {:induction false} StepsWrap(location: nat, delta: int)
    ensures Moved(location, delta) == (location + delta) % 18446744073709551616
    ensures 0 <= location + delta < 18446744073709551616 ==> Moved(location, delta) == location + delta
  {
  }

  /** A record's fields are refused for one of their numbers, or for a second line after three numbers. */
  lemma {:induction false} FieldFaults(s: string, r: Reader)
    ensures
      var file := ReadVlq(s, r.pos);
      var line := if file.Ok? then ReadVlq(s, file.value.1) else file;
      var col := if line.Ok? then ReadVlq(s, line.value.1) else line;
      if Peek(s, r.pos) == ',' || Peek(s, r.pos) == '\"' then ReadFields(s, r) == Ok(r.(hasInfo := false))
      else if col.Err? then ReadFields(s, r) == Err(col.error)
      else if Peek(s, col.value.1) == ';' then ReadFields(s, r) == Err(SecondLine)
      else if Peek(s, col.value.1) == ',' || Peek(s, col.value.1) == '\"' then
        ReadFields(s, r).Ok? && ReadFields(s, r).value.pos == col.value.1 && !ReadFields(s, r).value.hasSymbol
      else match ReadVlq(s, col.value.1)
        case Err(error) => ReadFields(s, r) == Err(error)
        case Ok((_, end)) =>
          ReadFields(s, r).Ok? && ReadFields(s, r).value.pos == end && ReadFields(s, r).value.hasSymbol
  {
    hide ReadVlq;
  }

  /** After its fields a record must end the mappings, or be followed by a comma and the next location. */
  lemma {:induction false} RecordFaults(s: string, r: Reader)
    requires ReadFields(s, r).Ok?
    ensures
      var read := ReadFields(s, r).value;
      var c := Peek(s, read.pos);
      && (c == '\"' ==> ReadRecord(s, r).Ok? && ReadRecord(s, r).value.location == 0)
      && (c != '\"' && c != ',' ==> ReadRecord(s, r) == Err(ExpectedDelimiter))
      && (c == ',' ==> match ReadVlq(s, read.pos + 1)
                       case Err(error) => ReadRecord(s, r) == Err(error)
                       case Ok((delta, next)) =>
                         ReadRecord(s, r) == Ok(read.(pos := next, location := Moved(r.location, delta))))
  {
    hide ReadVlq, ReadFields;
  }
}
