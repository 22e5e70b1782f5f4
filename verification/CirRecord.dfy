/** InstructionRecord.to_doc and from_doc of xtrakt/cir.py. */
module CirRecord {
  import opened Results
  import opened Cir

  const BASE_FIELDS := ["mnemonic", "aliases", "isa_ext", "cpuid", "encoding_class", "encoding_function", "decode_mask",
                        "decode_match", "semantics", "flags_read", "flags_write", "memory_access", "category",
                        "privilege"]

  // The fields without a default.
  const REQUIRED := ["mnemonic", "isa_ext", "encoding_class", "encoding_function"]

  predicate IsMask(f: string) {
    f == "decode_mask" || f == "decode_match"
  }

  // The base fields by name, and the fields particular to the architecture.
  datatype Record = Record(arch: string, base: map<string, Value>, fields: seq<Entry<Value>>, banks: seq<string>,
                           schematic: bool)

  /** Every base field is there, and the masks are bit vectors or None, as declared. */
  ghost predicate Valid(r: Record) {
    && (forall f :: f in r.base <==> f in BASE_FIELDS)
    && forall f :: f in BASE_FIELDS && IsMask(f) ==> r.base[f].Vector? || r.base[f].Nothing?
  }

  function BaseToDoc(f: string, v: Value): Doc {
    if IsMask(f) then (if v.Vector? then BitsToDoc(v.bits) else DNothing) else FieldToDoc(v)
  }

  /** Empty containers, zero, the empty string and None are false. */
  predicate Truthy(d: Doc) {
    match d
    case DStr(s) => s != ""
    case DNum(n) => n != 0
    case DTruth(b) => b
    case DNothing => false
    case DList(items) => items != []
    case DDict(entries) => entries != []
  }

  function BaseFromDoc(f: string, d: Doc): Option<Value> {
    if !IsMask(f) then FieldFromDoc(d)
    else if !Truthy(d) then Some(Nothing)
    else if !d.DDict? then None
    else match BitsFromDoc(d.entries) case None => None case Some(b) => Some(Vector(b))
  }

  function Strings(banks: seq<string>): (r: seq<Doc>)
    ensures |r| == |banks| && forall i :: 0 <= i < |r| ==> r[i] == DStr(banks[i])
  {
    seq(|banks|, i requires 0 <= i < |banks| => DStr(banks[i]))
  }

  ghost function RecordToDoc(r: Record): map<string, Doc>
    requires Valid(r)
  {
    (map f | f in BASE_FIELDS :: BaseToDoc(f, r.base[f]))
    + map["arch" := DStr(r.arch), "fields" := DDict(EntriesToDoc(r.fields)), "source_banks" := DList(Strings(r.banks)),
          "decode_schematic" := DTruth(r.schematic)]
  }

  method ToDoc(r: Record) returns (d: map<string, Doc>)
    requires Valid(r)
    ensures d == RecordToDoc(r)
  {
    hide BaseToDoc, FieldToDoc, BASE_FIELDS;
    d := map["arch" := DStr(r.arch)];
    d := BaseLoop(d, BASE_FIELDS, r.base);
    forall f | f in BASE_FIELDS ensures f !in {"arch", "fields", "source_banks", "decode_schematic"} {
      OtherKeys(f);
    }
    d := d["fields" := DDict(EntriesToDoc(r.fields))];
    d := d["source_banks" := DList(Strings(r.banks))];
    d := d["decode_schematic" := DTruth(r.schematic)];
  }

  /** The loop over the base fields. */
  method BaseLoop(before: map<string, Doc>, names: seq<string>, base: map<string, Value>) returns (d: map<string, Doc>)
    requires forall f :: f in names ==> f in base
    ensures d == before + map f | f in names :: BaseToDoc(f, base[f])
  {
    hide BaseToDoc;
    d := before;
    for i := 0 to |names|
      invariant d == before + map f | f in names[..i] :: BaseToDoc(f, base[f])
    {
      var f := names[i];
      assert names[..i + 1] == names[..i] + [f];
      d := d[f := BaseToDoc(f, base[f])];
    }
    assert names[..|names|] == names;
  }

  /** The other keys of a document are no base fields. */
  lemma OtherKeys(f: string)
    requires f in BASE_FIELDS
    ensures f !in {"arch", "fields", "source_banks", "decode_schematic"}
  {
  }

  function AllStrings(ds: seq<Doc>): Option<seq<string>> {
    if ds == [] then Some([])
    else match (ds[0], AllStrings(ds[1..]))
      case (DStr(s), Some(rest)) => Some([s] + rest)
      case _ => None
  }

  /** from_doc on documents whose parts have the declared types; None for an exception. */
  ghost function RecordFromDoc(d: map<string, Doc>): Option<Record> {
    if exists f :: f in BASE_FIELDS && f in d && BaseFromDoc(f, d[f]).None? then None
    else if exists f :: f in REQUIRED && f !in d then None
    else
      var base := map f | f in BASE_FIELDS :: if f in d then BaseFromDoc(f, d[f]).GetOr(Nothing) else Nothing;
      var arch := if "arch" in d then d["arch"] else DStr("");
      var fields := if "fields" in d && Truthy(d["fields"]) then d["fields"] else DDict([]);
      var banks := if "source_banks" in d && Truthy(d["source_banks"]) then d["source_banks"] else DList([]);
      if !arch.DStr? || !fields.DDict? || !banks.DList? then None
      else match (EntriesFromDoc(fields.entries), AllStrings(banks.items))
        case (Some(es), Some(names)) =>
          Some(Record(arch.s, base, es, names, "decode_schematic" in d && Truthy(d["decode_schematic"])))
        case _ => None
  }

  // ---------- Round trip ----------

  /** Nothing in the record would come back as something else. */
  ghost predicate PlainRecord(r: Record)
    requires Valid(r)
  {
    && (forall f :: f in BASE_FIELDS && !IsMask(f) ==> Plain(r.base[f]))
    && forall e :: e in r.fields ==> PlainEntry(e)
  }

  lemma {:induction false} BaseRoundTrip(f: string, v: Value)
    requires IsMask(f) ==> v.Vector? || v.Nothing?
    ensures BaseFromDoc(f, BaseToDoc(f, v)) == Some(v) <==> IsMask(f) || Plain(v)
  {
    hide FieldFromDoc, FieldToDoc, BitsFromDoc, BitsToDoc;
    if !IsMask(f) {
      FieldRoundTrip(v);
    } else if v.Vector? {
      MaskRoundTrip(v.bits);
    }
  }

  lemma {:induction false} MaskRoundTrip(b: Bits)
    ensures BitsToDoc(b).DDict? && BitsToDoc(b).entries != [] && BitsFromDoc(BitsToDoc(b).entries) == Some(b)
  {
    BitsDocRoundTrip(b);
    var entries := BitsToDoc(b).entries;
    assert entries[1..][0].key == "hex";
    assert Get(entries[1..], "hex").Some?;
  }

  lemma {:induction false} StringsRoundTrip(banks: seq<string>)
    ensures AllStrings(Strings(banks)) == Some(banks)
  {
    if banks != [] {
      StringsRoundTrip(banks[1..]);
      assert Strings(banks)[1..] == Strings(banks[1..]);
      assert banks == [banks[0]] + banks[1..];
    }
  }

  lemma {:induction false} DocParts(r: Record)
    requires Valid(r)
    ensures
      var d := RecordToDoc(r);
      && (forall f :: f in BASE_FIELDS ==> f in d && d[f] == BaseToDoc(f, r.base[f]))
      && "arch" in d && d["arch"] == DStr(r.arch)
      && "fields" in d && d["fields"] == DDict(EntriesToDoc(r.fields))
      && "source_banks" in d && d["source_banks"] == DList(Strings(r.banks))
      && "decode_schematic" in d && d["decode_schematic"] == DTruth(r.schematic)
  {
    hide BASE_FIELDS, BaseToDoc;
    forall f | f in BASE_FIELDS ensures f !in {"arch", "fields", "source_banks", "decode_schematic"} {
      OtherKeys(f);
    }
  }

  /** A base map that comes back from the documents of its values. */
  ghost predicate Returns(names: seq<string>, base: map<string, Value>, d: map<string, Doc>) {
    forall f :: f in names ==> f in d && f in base && BaseFromDoc(f, d[f]) == Some(base[f])
  }

  lemma {:induction false} BaseReturns(r: Record)
    requires Valid(r)
    ensures Returns(BASE_FIELDS, r.base, RecordToDoc(r))
      <==> forall f :: f in BASE_FIELDS && !IsMask(f) ==> Plain(r.base[f])
  {
    hide BaseToDoc, BaseFromDoc, Plain, IsMask;
    DocParts(r);
    var d := RecordToDoc(r);
    forall f | f in BASE_FIELDS
      ensures BaseFromDoc(f, d[f]) == Some(r.base[f]) <==> IsMask(f) || Plain(r.base[f])
    {
      BaseRoundTrip(f, r.base[f]);
    }
  }

  /** from_doc finds a record exactly when its parts come back. */
  lemma {:induction false} RecordFromParts(r: Record, d: map<string, Doc>)
    requires Valid(r) && (forall f :: f in BASE_FIELDS ==> f in d) && (forall f :: f in REQUIRED ==> f in d)
    requires "arch" in d && d["arch"] == DStr(r.arch)
    requires "fields" in d && d["fields"].DDict? && (!Truthy(d["fields"]) ==> d["fields"] == DDict([]))
    requires "source_banks" in d && d["source_banks"].DList?
    requires !Truthy(d["source_banks"]) ==> d["source_banks"] == DList([])
    requires AllStrings(d["source_banks"].items) == Some(r.banks)
    requires "decode_schematic" in d && Truthy(d["decode_schematic"]) == r.schematic
    ensures RecordFromDoc(d) == Some(r) <==>
              Returns(BASE_FIELDS, r.base, d) && EntriesFromDoc(d["fields"].entries) == Some(r.fields)
  {
    hide BaseFromDoc, IsMask, Truthy, AllStrings, EntriesFromDoc, BASE_FIELDS, REQUIRED;
    if Returns(BASE_FIELDS, r.base, d) {
      var base := map f | f in BASE_FIELDS :: if f in d then BaseFromDoc(f, d[f]).GetOr(Nothing) else Nothing;
      assert base == r.base;
    }
  }

  lemma RequiredAreBase()
    ensures forall f :: f in REQUIRED ==> f in BASE_FIELDS
  {
  }

  /** Canonical document round trip: a record comes back as it was exactly when nothing in it is a tuple or a
      dictionary that looks like a bit vector. */
  lemma {:induction false} RecordRoundTrip(r: Record)
    requires Valid(r)
    ensures RecordFromDoc(RecordToDoc(r)) == Some(r) <==> PlainRecord(r)
  {
    hide BaseToDoc, BaseFromDoc, Plain, PlainEntry, IsMask, RecordToDoc, RecordFromDoc, Returns, EntriesToDoc;
    hide AllStrings;
    RequiredAreBase();
    hide BASE_FIELDS, REQUIRED;
    DocParts(r);
    BaseReturns(r);
    EntriesRoundTrip(r.fields);
    StringsRoundTrip(r.banks);
    EmptyIsEmpty(r);
    RecordFromParts(r, RecordToDoc(r));
  }

  /** An empty dictionary or list is false, and read as an empty one. */
  lemma EmptyIsEmpty(r: Record)
    ensures !Truthy(DDict(EntriesToDoc(r.fields))) ==> EntriesToDoc(r.fields) == []
    ensures !Truthy(DList(Strings(r.banks))) ==> Strings(r.banks) == []
  {
  }

  // ---------- The keys of a document ----------

  lemma {:induction false} BaseFieldsAre(f: string)
    ensures f in BASE_FIELDS <==>
      f in {"mnemonic", "aliases", "isa_ext", "cpuid", "encoding_class", "encoding_function", "decode_mask",
            "decode_match", "semantics", "flags_read", "flags_write", "memory_access", "category", "privilege"}
    ensures f in REQUIRED <==> f in {"mnemonic", "isa_ext", "encoding_class", "encoding_function"}
    ensures IsMask(f) <==> f in {"decode_mask", "decode_match"}
  {
  }

  /** A document has these keys and no others; the masks are bit vectors or null. */
  lemma {:induction false} DocumentKeys(r: Record)
    requires Valid(r)
    ensures RecordToDoc(r).Keys ==
            {"arch", "mnemonic", "aliases", "isa_ext", "cpuid", "encoding_class", "encoding_function", "decode_mask",
             "decode_match", "semantics", "flags_read", "flags_write", "memory_access", "category", "privilege",
             "fields", "source_banks", "decode_schematic"}
  {
    hide BASE_FIELDS, BaseToDoc, EntriesToDoc, Strings;
    assert RecordToDoc(r).Keys
        == (set f | f in BASE_FIELDS) + {"arch", "fields", "source_banks", "decode_schematic"};
    BaseFieldSet();
  }

  lemma {:induction false} BaseFieldSet()
    ensures (set f | f in BASE_FIELDS) ==
            {"mnemonic", "aliases", "isa_ext", "cpuid", "encoding_class", "encoding_function", "decode_mask",
             "decode_match", "semantics", "flags_read", "flags_write", "memory_access", "category", "privilege"}
  {
    hide BASE_FIELDS;
    var base := {"mnemonic", "aliases", "isa_ext", "cpuid", "encoding_class", "encoding_function", "decode_mask",
                 "decode_match", "semantics", "flags_read", "flags_write", "memory_access", "category", "privilege"};
    forall f ensures f in BASE_FIELDS <==> f in base {
      BaseFieldsAre(f);
    }
  }

  /** A mask is a bit vector or null in the document, and every other base field its own document. */
  lemma {:induction false} DocumentFields(r: Record, f: string)
    requires Valid(r) && f in BASE_FIELDS
    ensures f in RecordToDoc(r) && f in r.base
    ensures f in {"decode_mask", "decode_match"} ==>
              RecordToDoc(r)[f] == match r.base[f] case Vector(b) => BitsToDoc(b) case _ => DNothing
    ensures f !in {"decode_mask", "decode_match"} ==> RecordToDoc(r)[f] == FieldToDoc(r.base[f])
  {
    hide BASE_FIELDS, FieldToDoc, BitsToDoc;
    DocParts(r);
  }

  /** A document without one of the four fields that have no default is refused. */
  lemma {:induction false} RequiredKeys(d: map<string, Doc>, f: string)
    requires f in {"mnemonic", "isa_ext", "encoding_class", "encoding_function"} && f !in d
    ensures RecordFromDoc(d) == None
  {
    assert f in REQUIRED;
  }

  /** Whatever else is missing has its default. */
  lemma {:induction false} Defaults(d: map<string, Doc>)
    requires d.Keys == {"mnemonic", "isa_ext", "encoding_class", "encoding_function"}
    requires forall f :: f in d ==> d[f].DStr?
    ensures RecordFromDoc(d).Some?
    ensures
      var r := RecordFromDoc(d).value;
      && r.arch == "" && r.fields == [] && r.banks == [] && !r.schematic
      && forall f :: f in r.base ==> r.base[f] == if f in d then Value.Str(d[f].s) else Nothing
  {
    hide BASE_FIELDS, REQUIRED;
    forall f | f in BASE_FIELDS && f in d ensures BaseFromDoc(f, d[f]) == Some(Value.Str(d[f].s)) {
      BaseFieldsAre(f);
    }
    forall f | f in REQUIRED ensures f in d {
      BaseFieldsAre(f);
    }
  }

  /** What counts as missing: each kind of document has one value that does. */
  lemma {:induction false} FalseDocuments(d: Doc)
    ensures Truthy(d) <==>
      d != DStr("") && d != DNum(0) && d != DTruth(false) && d != DNothing && d != DList([]) && d != DDict([])
  {
  }
}
