/** The merge index of xtrakt/normalize.py: records with equal keys are merged as they arrive. */
module MergeIndex {
  import opened Results
  import opened Strings
  import opened Lists

  // arch, mnemonic, encoding class, operand signature, isa extension; none of them changes in a merge.
  datatype Key = Key(arch: string, mnemonic: string, encodingClass: string, signature: string, isaExt: string)

  datatype Rec = Rec(key: Key, encoding: string, banks: seq<string>, semantics: Option<string>)

  datatype Conflict = Conflict(key: Key, banks: seq<string>)

  // The dictionary, with its keys in insertion order, and the conflict log.
  datatype Index = Index(order: seq<Key>, byKey: map<Key, Rec>, conflicts: seq<Conflict>)

  const NOTHING := Index([], map[], [])

  type Precedence = string -> int

  // ---------- Strings and lists ----------

  /** Appends what is not there yet, in order. */
  function Union(a: seq<string>, b: seq<string>): (r: seq<string>)
    ensures a <= r
    ensures forall x :: x in r <==> x in a || x in b
    ensures Distinct(a) ==> Distinct(r)
    decreases |b|
  {
    if b == [] then a
    else if b[0] in a then Union(a, b[1..])
    else Union(a + [b[0]], b[1..])
  }

  /** Neither None nor the empty string. */
  predicate Truthy(s: Option<string>) {
    s.Some? && s.value != ""
  }

  // ---------- One add ----------

  function Absorb(kept: Rec, other: Rec): Rec {
    kept.(banks := Union(kept.banks, other.banks),
          semantics := if !Truthy(kept.semantics) && Truthy(other.semantics) then other.semantics else kept.semantics)
  }

  predicate Conflicting(a: Rec, b: Rec) {
    Strip(a.encoding) != Strip(b.encoding)
  }

  /** The stored record is kept unless the new one has higher precedence. */
  predicate KeepsStored(stored: Rec, new_: Rec, precedence: Precedence)
    requires stored.banks != [] && new_.banks != []
  {
    precedence(stored.banks[0]) >= precedence(new_.banks[0])
  }

  datatype Outcome = Outcome(index: Index, returned: Rec, argument: Rec)

  /** add: the index, the record returned and the argument afterwards; None when a bank list is empty and its
      first element is asked for. A new record that wins absorbs the stored one, but is not stored. */
  function Added(index: Index, new_: Rec, precedence: Precedence): Option<Outcome> {
    var k := new_.key;
    if k !in index.byKey then
      Some(Outcome(index.(order := index.order + [k], byKey := index.byKey[k := new_]), new_, new_))
    else
      var stored := index.byKey[k];
      if stored.banks == [] || new_.banks == [] then None
      else
        var keeps := KeepsStored(stored, new_, precedence);
        var kept := if keeps then Absorb(stored, new_) else Absorb(new_, stored);
        var logged := if Conflicting(stored, new_) then index.conflicts + [Conflict(kept.key, kept.banks)]
          else index.conflicts;
        if keeps then Some(Outcome(index.(byKey := index.byKey[k := kept], conflicts := logged), kept, new_))
        else Some(Outcome(index.(conflicts := logged), kept, kept))
  }

  class Record {
    const key: Key
    const encoding: string
    var sourceBanks: seq<string>
    var semantics: Option<string>

    function Value(): Rec
      reads this
    {
      Rec(key, encoding, sourceBanks, semantics)
    }

    constructor (r: Rec)
      ensures Value() == r
    {
      key, encoding, sourceBanks, semantics := r.key, r.encoding, r.banks, r.semantics;
    }
  }

  class Merger {
    const precedence: Precedence
    var order: seq<Key>
    var byKey: map<Key, Record>
    var conflicts: seq<Conflict>

    ghost predicate Valid()
      reads this
    {
      forall k :: k in byKey ==> byKey[k].key == k
    }

    ghost function Stored(): set<object>
      reads this
    {
      set k | k in byKey :: byKey[k]
    }

    ghost function View(): Index
      reads this, Stored()
    {
      Index(order, map k | k in byKey :: byKey[k].Value(), conflicts)
    }

    constructor (precedence: Precedence)
      ensures Valid() && View() == NOTHING && this.precedence == precedence
    {
      this.precedence := precedence;
      order, byKey, conflicts := [], map[], [];
    }

    /** Appends the other record's banks that are missing. */
    method UniteBanks(kept: Record, other: Record)
      modifies kept`sourceBanks
      ensures kept.sourceBanks == Union(old(kept.sourceBanks), old(other.sourceBanks))
    {
      var banks := other.sourceBanks;
      var i := 0;
      while i < |banks|
        invariant 0 <= i <= |banks|
        invariant Union(kept.sourceBanks, banks[i..]) == Union(old(kept.sourceBanks), banks)
      {
        assert banks[i..][1..] == banks[i + 1..];
        if banks[i] !in kept.sourceBanks {
          kept.sourceBanks := kept.sourceBanks + [banks[i]];
        }
        i := i + 1;
      }
    }

    method Merge(prev: Record, new_: Record) returns (r: Option<Record>)
      requires prev.key == new_.key
      modifies this`conflicts, prev, new_
      ensures r.None? <==> old(prev.sourceBanks) == [] || old(new_.sourceBanks) == []
      ensures r.None? ==> prev.Value() == old(prev.Value()) && new_.Value() == old(new_.Value())
      ensures r.None? ==> conflicts == old(conflicts)
      ensures r.Some? ==>
        var p, n := old(prev.Value()), old(new_.Value());
        var keeps := KeepsStored(p, n, precedence);
        var kept := if keeps then Absorb(p, n) else Absorb(n, p);
        && r.value == (if keeps then prev else new_) && r.value.Value() == kept
        && (prev != new_ ==> (if keeps then new_.Value() == n else prev.Value() == p))
        && conflicts == if Conflicting(p, n) then old(conflicts) + [Conflict(kept.key, kept.banks)] else old(conflicts)
    {
      if prev.sourceBanks == [] || new_.sourceBanks == [] {
        return None;
      }
      var keeps := precedence(prev.sourceBanks[0]) >= precedence(new_.sourceBanks[0]);
      var kept, other := prev, new_;
      if !keeps {
        kept, other := new_, prev;
      }
      if kept == other {
        UnionSelf(kept.sourceBanks, kept.sourceBanks);
      }
      UniteBanks(kept, other);
      if Strip(kept.encoding) != Strip(other.encoding) {
        conflicts := conflicts + [Conflict(kept.key, kept.sourceBanks)];
      }
      if !Truthy(kept.semantics) && Truthy(other.semantics) {
        kept.semantics := other.semantics;
      }
      return Some(kept);
    }

    method Add(rec: Record) returns (r: Option<Record>)
      requires Valid()
      modifies this, rec, Stored()
      ensures Valid()
      ensures match Added(old(View()), old(rec.Value()), precedence)
              case None => r == None && View() == old(View())
              case Some(outcome) =>
                && View() == outcome.index
                && r.Some? && r.value.Value() == outcome.returned
                && (rec !in old(Stored()) ==> rec.Value() == outcome.argument)
    {
      if rec.key !in byKey {
        order := order + [rec.key];
        byKey := byKey[rec.key := rec];
        return Some(rec);
      }
      r := MergeStored(rec);
    }

    /** The rest of add, for a key that is there. */
    method MergeStored(rec: Record) returns (r: Option<Record>)
      requires Valid() && rec.key in byKey
      modifies this, rec, Stored()
      ensures Valid()
      ensures match Added(old(View()), old(rec.Value()), precedence)
              case None => r == None && View() == old(View())
              case Some(outcome) =>
                && View() == outcome.index
                && r.Some? && r.value.Value() == outcome.returned
                && (rec !in old(Stored()) ==> rec.Value() == outcome.argument)
    {
      hide Absorb, Conflicting;
      ghost var before := View();
      var prev := byKey[rec.key];
      ghost var new_ := rec.Value();
      assert before.byKey[rec.key] == prev.Value();
      r := Merge(prev, rec);
      forall k | k in byKey && k != rec.key ensures byKey[k].Value() == before.byKey[k] {
        assert byKey[k].key == k;
        assert byKey[k] != prev && byKey[k] != rec;
      }
      OneChanged(before.byKey, View().byKey, rec.key);
    }
  }

  lemma OneChanged(before: map<Key, Rec>, after: map<Key, Rec>, k: Key)
    requires k in before && after.Keys == before.Keys && forall j :: j in before && j != k ==> after[j] == before[j]
    ensures after == before[k := after[k]]
    ensures after[k] == before[k] ==> after == before
  {
  }

  lemma {:induction false} UnionSelf(a: seq<string>, b: seq<string>)
    requires forall x :: x in b ==> x in a
    ensures Union(a, b) == a
  {
    if b != [] {
      UnionSelf(a, b[1..]);
    }
  }

  // ---------- Any sequence of adds ----------

  /** The index after adding records one by one, when no list of banks that is looked at is empty. */
  function AddAll(recs: seq<Rec>, precedence: Precedence): Option<Index> {
    if recs == [] then Some(NOTHING)
    else
      var last := |recs| - 1;
      match AddAll(recs[..last], precedence)
      case None => None
      case Some(index) =>
        match Added(index, recs[last], precedence) case None => None case Some(outcome) => Some(outcome.index)
  }

  /** The records with this key, in order of arrival. */
  function Of(recs: seq<Rec>, k: Key): (r: seq<Rec>)
    ensures forall x :: x in r ==> x.key == k
  {
    if recs == [] then []
    else
      var last := |recs| - 1;
      Of(recs[..last], k) + if recs[last].key == k then [recs[last]] else []
  }

  /** Distinct keys in order of first arrival. */
  function Keys(recs: seq<Rec>): (r: seq<Key>)
    ensures Distinct(r) && forall k :: k in r <==> exists i :: 0 <= i < |recs| && recs[i].key == k
  {
    if recs == [] then []
    else
      var last := |recs| - 1;
      var before := Keys(recs[..last]);
      if recs[last].key in before then before else before + [recs[last].key]
  }

  /** Arrival for one key: the first record is stored, and the ones of no higher precedence are absorbed. */
  function Gathered(arrivals: seq<Rec>, precedence: Precedence): Rec
    requires arrivals != []
  {
    var last := |arrivals| - 1;
    if last == 0 then arrivals[0]
    else
      var before := Gathered(arrivals[..last], precedence);
      if Contributes(arrivals[0], arrivals[last], precedence) then Absorb(before, arrivals[last]) else before
  }

  predicate Contributes(first: Rec, later: Rec, precedence: Precedence) {
    first.banks != [] && later.banks != [] && precedence(first.banks[0]) >= precedence(later.banks[0])
  }

  lemma {:induction false} GatheredKeeps(arrivals: seq<Rec>, precedence: Precedence)
    requires arrivals != []
    ensures
      var g := Gathered(arrivals, precedence);
      && g.key == arrivals[0].key && g.encoding == arrivals[0].encoding && arrivals[0].banks <= g.banks
  {
    if |arrivals| > 1 {
      GatheredKeeps(arrivals[..|arrivals| - 1], precedence);
    }
  }

  /** How many later arrivals have an encoding that, stripped, differs from the first one's. */
  function Differing(arrivals: seq<Rec>): nat {
    if |arrivals| <= 1 then 0
    else
      Differing(arrivals[..|arrivals| - 1]) + if Conflicting(arrivals[0], arrivals[|arrivals| - 1]) then 1 else 0
  }

  /** The logged conflicts for one key. */
  function Logged(conflicts: seq<Conflict>, k: Key): nat {
    if conflicts == [] then 0
    else Logged(conflicts[..|conflicts| - 1], k) + if conflicts[|conflicts| - 1].key == k then 1 else 0
  }

  /** What the index holds for one key, given its arrivals. */
  ghost predicate KeyDescribed(index: Index, arrivals: seq<Rec>, precedence: Precedence, k: Key) {
    && (k in index.byKey <==> arrivals != [])
    && (k in index.byKey ==> index.byKey[k] == Gathered(arrivals, precedence))
    && Logged(index.conflicts, k) == Differing(arrivals)
  }

  ghost predicate Describes(index: Index, recs: seq<Rec>, precedence: Precedence) {
    && index.order == Keys(recs)
    && (forall k :: k in index.byKey <==> k in index.order)
    && (forall k :: KeyDescribed(index, Of(recs, k), precedence, k))
  }

  /** After any adds: one record per distinct key, in order of first arrival, that is the first arrival with what
      its contributors added; and one conflict for each later arrival whose stripped encoding differs. */
  lemma {:induction false} AddAllDescribes(recs: seq<Rec>, precedence: Precedence)
    requires AddAll(recs, precedence).Some?
    ensures Describes(AddAll(recs, precedence).value, recs, precedence)
  {
    if recs != [] {
      var last := |recs| - 1;
      AddAllDescribes(recs[..last], precedence);
      AddedDescribes(AddAll(recs[..last], precedence).value, recs, precedence);
    }
  }

  lemma OfLast(recs: seq<Rec>, k: Key)
    requires recs != []
    ensures
      var before, new_ := recs[..|recs| - 1], recs[|recs| - 1];
      && Of(recs, k) == (if new_.key == k then Of(before, k) + [new_] else Of(before, k))
      && Keys(recs) == if new_.key in Keys(before) then Keys(before) else Keys(before) + [new_.key]
  {
  }

  /** What one more arrival for a key makes of what was gathered for it. */
  lemma {:induction false} GatheredLast(arrivals: seq<Rec>, new_: Rec, precedence: Precedence)
    requires arrivals != []
    ensures
      var more := arrivals + [new_];
      && Gathered(more, precedence) ==
         (if Contributes(arrivals[0], new_, precedence) then Absorb(Gathered(arrivals, precedence), new_)
          else Gathered(arrivals, precedence))
      && Differing(more) == Differing(arrivals) + if Conflicting(arrivals[0], new_) then 1 else 0
  {
    assert (arrivals + [new_])[..|arrivals|] == arrivals;
  }

  /** The stored record for one key after one more add. */
  lemma {:induction false} StoredAfter(index: Index, arrivals: seq<Rec>, new_: Rec, precedence: Precedence)
    requires Added(index, new_, precedence).Some?
    requires if new_.key in index.byKey
             then arrivals != [] && index.byKey[new_.key] == Gathered(arrivals, precedence)
             else arrivals == []
    requires Logged(index.conflicts, new_.key) == Differing(arrivals)
    requires arrivals != [] ==> arrivals[0].key == new_.key
    ensures
      var after := Added(index, new_, precedence).value.index;
      && new_.key in after.byKey && after.byKey[new_.key] == Gathered(arrivals + [new_], precedence)
      && Logged(after.conflicts, new_.key) == Differing(arrivals + [new_])
  {
    if arrivals == [] {
      assert arrivals + [new_] == [new_];
    } else {
      GatheredKeeps(arrivals, precedence);
      GatheredLast(arrivals, new_, precedence);
      FirstBank(arrivals, precedence);
      var after := Added(index, new_, precedence).value.index;
      LoggedAppended(index.conflicts, after.conflicts, new_.key);
    }
  }

  lemma {:induction false} FirstBank(arrivals: seq<Rec>, precedence: Precedence)
    requires arrivals != []
    ensures arrivals[0].banks == [] ==> Gathered(arrivals, precedence).banks == []
  {
    if |arrivals| > 1 {
      FirstBank(arrivals[..|arrivals| - 1], precedence);
    }
  }

  lemma LoggedAppended(before: seq<Conflict>, after: seq<Conflict>, k: Key)
    requires after == before || (|after| == |before| + 1 && after[..|before|] == before)
    ensures Logged(after, k) == Logged(before, k) + if |after| > |before| && after[|before|].key == k then 1 else 0
  {
  }

  lemma {:induction false} KeyAfter(index: Index, recs: seq<Rec>, precedence: Precedence, k: Key)
    requires recs != [] && KeyDescribed(index, Of(recs[..|recs| - 1], k), precedence, k)
    requires recs[|recs| - 1].key in index.byKey ==> index.byKey[recs[|recs| - 1].key].key == recs[|recs| - 1].key
    requires Added(index, recs[|recs| - 1], precedence).Some?
    ensures KeyDescribed(Added(index, recs[|recs| - 1], precedence).value.index, Of(recs, k), precedence, k)
  {
    hide Of, Gathered, Differing, Logged, Added;
    var before, new_ := recs[..|recs| - 1], recs[|recs| - 1];
    OfLast(recs, k);
    AddedShape(index, new_, precedence);
    if k == new_.key {
      StoredAfter(index, Of(before, k), new_, precedence);
    } else {
      OnlyItsKey(index, new_, precedence, k);
    }
  }

  lemma {:induction false} AddedDescribes(index: Index, recs: seq<Rec>, precedence: Precedence)
    requires recs != [] && Describes(index, recs[..|recs| - 1], precedence)
    requires Added(index, recs[|recs| - 1], precedence).Some?
    ensures Describes(Added(index, recs[|recs| - 1], precedence).value.index, recs, precedence)
  {
    hide Of, Gathered, Differing, Logged, Added, Keys;
    var before, new_ := recs[..|recs| - 1], recs[|recs| - 1];
    assert KeyDescribed(index, Of(before, new_.key), precedence, new_.key);
    if new_.key in index.byKey {
      GatheredKeeps(Of(before, new_.key), precedence);
    }
    OfLast(recs, new_.key);
    AddedShape(index, new_, precedence);
    hide KeyDescribed;
    forall k ensures KeyDescribed(Added(index, new_, precedence).value.index, Of(recs, k), precedence, k) {
      assert KeyDescribed(index, Of(before, k), precedence, k);
      KeyAfter(index, recs, precedence, k);
    }
  }

  /** Which keys there are, and in what order, after one add; only the record under its key changes. */
  lemma AddedShape(index: Index, new_: Rec, precedence: Precedence)
    requires Added(index, new_, precedence).Some?
    ensures
      var after := Added(index, new_, precedence).value.index;
      && after.order == (if new_.key in index.byKey then index.order else index.order + [new_.key])
      && (forall j :: j in after.byKey <==> j == new_.key || j in index.byKey)
      && (forall j :: j in index.byKey && j != new_.key ==> after.byKey[j] == index.byKey[j])
  {
  }

  lemma {:induction false} OnlyItsKey(index: Index, new_: Rec, precedence: Precedence, j: Key)
    requires Added(index, new_, precedence).Some? && j != new_.key
    requires new_.key in index.byKey ==> index.byKey[new_.key].key == new_.key
    ensures Logged(Added(index, new_, precedence).value.index.conflicts, j) == Logged(index.conflicts, j)
  {
    LoggedAppended(index.conflicts, Added(index, new_, precedence).value.index.conflicts, j);
  }

  lemma {:induction false} FirstArrival(recs: seq<Rec>, k: Key) returns (f: nat)
    requires Of(recs, k) != []
    ensures f < |recs| && recs[f] == Of(recs, k)[0] && recs[f].key == k
    ensures forall i :: 0 <= i < f ==> recs[i].key != k
  {
    var last := |recs| - 1;
    if Of(recs[..last], k) != [] {
      f := FirstArrival(recs[..last], k);
    } else {
      f := last;
      NoArrival(recs[..last], k);
    }
  }

  lemma {:induction false} NoArrival(recs: seq<Rec>, k: Key)
    requires Of(recs, k) == []
    ensures forall i :: 0 <= i < |recs| ==> recs[i].key != k
  {
    if recs != [] {
      NoArrival(recs[..|recs| - 1], k);
    }
  }

  /** No record without banks shares its key with another. */
  predicate BanksWhereNeeded(recs: seq<Rec>) {
    forall i, j :: 0 <= i < j < |recs| && recs[i].key == recs[j].key ==> recs[i].banks != [] && recs[j].banks != []
  }

  /** A sequence of adds raises no exception exactly when no record without banks meets its key again. */
  lemma {:induction false} AddAllSucceedsIff(recs: seq<Rec>, precedence: Precedence)
    ensures AddAll(recs, precedence).Some? <==> BanksWhereNeeded(recs)
  {
    if recs != [] {
      var last := |recs| - 1;
      var before := recs[..last];
      AddAllSucceedsIff(before, precedence);
      if AddAll(before, precedence).Some? {
        AddAllDescribes(before, precedence);
        LastAddSucceedsIff(AddAll(before, precedence).value, recs, precedence);
      }
    }
  }

  lemma {:induction false} LastAddSucceedsIff(index: Index, recs: seq<Rec>, precedence: Precedence)
    requires recs != [] && Describes(index, recs[..|recs| - 1], precedence) && BanksWhereNeeded(recs[..|recs| - 1])
    ensures Added(index, recs[|recs| - 1], precedence).Some? <==> BanksWhereNeeded(recs)
  {
    hide Of, Gathered, Differing, Logged, Keys, Absorb, Conflicting, KeepsStored;
    var last := |recs| - 1;
    var before, new_ := recs[..last], recs[last];
    var arrivals := Of(before, new_.key);
    assert KeyDescribed(index, arrivals, precedence, new_.key);
    if arrivals == [] {
      NoArrival(before, new_.key);
    } else {
      GatheredKeeps(arrivals, precedence);
      FirstBank(arrivals, precedence);
      var f := FirstArrival(before, new_.key);
      assert recs[f] == before[f] && recs[f].key == recs[last].key;
      assert index.byKey[new_.key].banks == [] <==> recs[f].banks == [];
      forall i | 0 <= i < last && recs[i].key == new_.key ensures i == f || recs[i].banks != [] {
        assert before[i] == recs[i];
      }
    }
  }

  // ---------- What is gathered ----------

  /** The first arrival and the later ones that have no higher precedence. */
  function Contributors(arrivals: seq<Rec>, precedence: Precedence): seq<Rec>
    requires arrivals != []
  {
    var last := |arrivals| - 1;
    if last == 0 then arrivals
    else
      var before := Contributors(arrivals[..last], precedence);
      if Contributes(arrivals[0], arrivals[last], precedence) then before + [arrivals[last]] else before
  }

  /** The semantics of the first record that has some, and otherwise the first record's. */
  function FirstSemantics(recs: seq<Rec>): Option<string>
    requires recs != []
  {
    var last := |recs| - 1;
    if last == 0 then recs[0].semantics
    else
      var before := FirstSemantics(recs[..last]);
      if !Truthy(before) && Truthy(recs[last].semantics) then recs[last].semantics else before
  }

  /** All their banks, one list after the other. */
  function AllBanks(recs: seq<Rec>): seq<string> {
    if recs == [] then [] else AllBanks(recs[..|recs| - 1]) + recs[|recs| - 1].banks
  }

  /** Each element where it first occurs. */
  function Firsts(s: seq<string>): (r: seq<string>)
    ensures forall x :: x in r <==> x in s
    ensures Distinct(r) && (Distinct(s) ==> r == s)
  {
    if s == [] then []
    else
      var before := s[..|s| - 1];
      Firsts(before) + if s[|s| - 1] in before then [] else [s[|s| - 1]]
  }

  /** What a union appends depends only on what is there, not on its order. */
  lemma {:induction false} UnionAppends(a: seq<string>, c: seq<string>, b: seq<string>)
    requires forall x :: x in a <==> x in c
    ensures Union(a, b)[|a|..] == Union(c, b)[|c|..]
    decreases |b|
  {
    if b != [] {
      if b[0] in a {
        UnionAppends(a, c, b[1..]);
      } else {
        UnionAppends(a + [b[0]], c + [b[0]], b[1..]);
        assert Union(a, b)[|a|..] == [b[0]] + Union(a + [b[0]], b[1..])[|a| + 1..];
        assert Union(c, b)[|c|..] == [b[0]] + Union(c + [b[0]], b[1..])[|c| + 1..];
      }
    }
  }

  lemma {:induction false} FirstsOfTwo(a: seq<string>, b: seq<string>)
    ensures Firsts(a + b) == Union(Firsts(a), b)
    decreases |b|
  {
    hide Firsts, Distinct;
    if b == [] {
      assert a + b == a;
    } else {
      assert (a + [b[0]]) + b[1..] == a + b;
      FirstsOfOneMore(a, b[0]);
      FirstsOfTwo(a + [b[0]], b[1..]);
      if b[0] in a {
        assert Firsts(a) + [] == Firsts(a);
      }
    }
  }

  lemma {:induction false} FirstsOfOneMore(a: seq<string>, x: string)
    ensures Firsts(a + [x]) == Firsts(a) + if x in a then [] else [x]
  {
    assert (a + [x])[..|a|] == a;
  }

  /** A union is in order: after the first list come the first occurrences among what the second one adds. */
  lemma {:induction false} UnionInOrder(a: seq<string>, b: seq<string>)
    ensures Firsts(a) <= Firsts(a + b) && Union(a, b) == a + Firsts(a + b)[|Firsts(a)|..]
    ensures Distinct(a) ==> Union(a, b) == Firsts(a + b)
  {
    hide Union, Firsts;
    FirstsOfTwo(a, b);
    UnionAppends(a, Firsts(a), b);
  }

  /** The stored banks, in order: the first arrival's, and after them the first occurrences among all contributors'
      banks taken one record after the other. */
  lemma {:induction false} GatheredInOrder(arrivals: seq<Rec>, precedence: Precedence)
    requires arrivals != []
    ensures
      var first, all := arrivals[0].banks, AllBanks(Contributors(arrivals, precedence));
      && Firsts(first) <= Firsts(all) && (forall b :: b in Gathered(arrivals, precedence).banks <==> b in all)
      && Gathered(arrivals, precedence).banks == first + Firsts(all)[|Firsts(first)|..]
      && (Distinct(first) ==> Gathered(arrivals, precedence).banks == Firsts(all))
  {
    hide Firsts, Union, AllBanks, Distinct, Contributes;
    var last := |arrivals| - 1;
    if last == 0 {
      OnlyBanks(arrivals[0]);
      assert arrivals == [arrivals[0]];
      assert arrivals[0].banks + [] == arrivals[0].banks;
    } else {
      GatheredInOrder(arrivals[..last], precedence);
      if Contributes(arrivals[0], arrivals[last], precedence) {
        var cs := Contributors(arrivals[..last], precedence);
        AllBanksMore(cs, arrivals[last]);
        UnionContinues(arrivals[0].banks, AllBanks(cs), Gathered(arrivals[..last], precedence).banks,
          arrivals[last].banks);
      }
    }
  }

  lemma {:induction false} OnlyBanks(rec: Rec)
    ensures AllBanks([rec]) == rec.banks
  {
    assert [rec][..0] == [] && [] + rec.banks == rec.banks;
  }

  lemma {:induction false} AllBanksMore(recs: seq<Rec>, last: Rec)
    ensures AllBanks(recs + [last]) == AllBanks(recs) + last.banks
  {
    assert (recs + [last])[..|recs|] == recs;
  }

  lemma {:induction false} UnionContinues(first: seq<string>, all: seq<string>, g: seq<string>, new_: seq<string>)
    requires Firsts(first) <= Firsts(all) && g == first + Firsts(all)[|Firsts(first)|..]
    requires forall b :: b in g <==> b in all
    ensures Firsts(first) <= Firsts(all + new_) && Union(g, new_) == first + Firsts(all + new_)[|Firsts(first)|..]
    ensures forall b :: b in Union(g, new_) <==> b in all + new_
  {
    hide Firsts, Union;
    FirstsOfTwo(all, new_);
    UnionAppends(g, Firsts(all), new_);
    assert Union(g, new_) == g + Union(Firsts(all), new_)[|Firsts(all)|..];
  }

  ghost predicate InSome(b: string, recs: seq<Rec>) {
    exists i :: 0 <= i < |recs| && b in recs[i].banks
  }

  lemma {:induction false} InSomeAppended(b: string, recs: seq<Rec>, last: Rec)
    ensures InSome(b, recs + [last]) <==> InSome(b, recs) || b in last.banks
  {
    var more := recs + [last];
    assert more[|recs|] == last;
    assert forall i :: 0 <= i < |recs| ==> more[i] == recs[i];
  }

  /** The stored banks are exactly the contributors', first arrival's first, without a repeat if it had none; the
      stored semantics is the first non-empty one among the contributors; the encoding is the first arrival's. */
  lemma {:induction false} GatheredIsUnion(arrivals: seq<Rec>, precedence: Precedence)
    requires arrivals != []
    ensures
      var g := Gathered(arrivals, precedence);
      var cs := Contributors(arrivals, precedence);
      && g.encoding == arrivals[0].encoding && arrivals[0].banks <= g.banks
      && (forall b :: b in g.banks <==> InSome(b, cs))
      && (Distinct(arrivals[0].banks) ==> Distinct(g.banks))
      && cs != [] && g.semantics == FirstSemantics(cs)
  {
    var last := |arrivals| - 1;
    if last > 0 {
      GatheredIsUnion(arrivals[..last], precedence);
      var g := Gathered(arrivals[..last], precedence);
      var cs := Contributors(arrivals[..last], precedence);
      if Contributes(arrivals[0], arrivals[last], precedence) {
        var more := cs + [arrivals[last]];
        assert more[..|cs|] == cs;
        forall b ensures InSome(b, more) <==> InSome(b, cs) || b in arrivals[last].banks {
          InSomeAppended(b, cs, arrivals[last]);
        }
      }
    }
  }

  /** Every arrival contributes exactly when none has higher precedence than the first one. */
  lemma {:induction false} AllContribute(arrivals: seq<Rec>, precedence: Precedence)
    requires arrivals != []
    ensures Contributors(arrivals, precedence) == arrivals
       <==> forall i :: 0 < i < |arrivals| ==> Contributes(arrivals[0], arrivals[i], precedence)
    ensures |Contributors(arrivals, precedence)| <= |arrivals|
  {
    var last := |arrivals| - 1;
    if last > 0 {
      var before := arrivals[..last];
      AllContribute(before, precedence);
      assert arrivals == before + [arrivals[last]];
      if Contributors(arrivals, precedence) == arrivals {
        assert Contributes(arrivals[0], arrivals[last], precedence);
        assert (Contributors(before, precedence) + [arrivals[last]])[..last] == Contributors(before, precedence);
      }
    }
  }

  predicate Outranks(later: Rec, first: Rec, precedence: Precedence) {
    first.banks != [] && later.banks != [] && precedence(later.banks[0]) > precedence(first.banks[0])
  }

  /** Where records of one key met without an exception, each of them has a bank. */
  lemma {:induction false} ArrivalsHaveBanks(recs: seq<Rec>, precedence: Precedence, k: Key)
    requires AddAll(recs, precedence).Some? && |Of(recs, k)| > 1
    ensures forall r :: r in Of(recs, k) ==> r.banks != []
  {
    hide Describes, Absorb, Conflicting;
    var last := |recs| - 1;
    var before, new_ := recs[..last], recs[last];
    if new_.key != k {
      ArrivalsHaveBanks(before, precedence, k);
    } else {
      var index, arrivals := AddAll(before, precedence).value, Of(before, k);
      StoredOf(before, precedence, k);
      GatheredKeeps(arrivals, precedence);
      FirstBank(arrivals, precedence);
      if |arrivals| > 1 {
        ArrivalsHaveBanks(before, precedence, k);
      }
    }
  }

  lemma {:induction false} StoredOf(recs: seq<Rec>, precedence: Precedence, k: Key)
    requires AddAll(recs, precedence).Some? && Of(recs, k) != []
    ensures k in AddAll(recs, precedence).value.byKey
    ensures AddAll(recs, precedence).value.byKey[k] == Gathered(Of(recs, k), precedence)
  {
    AddAllDescribes(recs, precedence);
    hide AddAll, Of, Gathered;
    assert KeyDescribed(AddAll(recs, precedence).value, Of(recs, k), precedence, k);
  }

  /** Over any run of adds: if no later record of a key has higher precedence than the first one, and that one's banks
      do not repeat, the stored banks are the ordered duplicate-free union of all of them, and the stored semantics is
      the first non-empty one. */
  lemma {:induction false} UnionWhenNoneOutranks(recs: seq<Rec>, precedence: Precedence, k: Key)
    requires AddAll(recs, precedence).Some?
    requires Of(recs, k) != [] && Distinct(Of(recs, k)[0].banks)
    requires forall r :: r in Of(recs, k) ==> !Outranks(r, Of(recs, k)[0], precedence)
    ensures
      var index, arrivals := AddAll(recs, precedence).value, Of(recs, k);
      && k in index.byKey
      && index.byKey[k] == Rec(k, arrivals[0].encoding, Firsts(AllBanks(arrivals)), FirstSemantics(arrivals))
  {
    hide AddAll, Of, Gathered, Contributors, Firsts, AllBanks, FirstSemantics, InSome;
    var arrivals := Of(recs, k);
    StoredOf(recs, precedence, k);
    if |arrivals| > 1 {
      ArrivalsHaveBanks(recs, precedence, k);
    }
    forall i | 0 < i < |arrivals| ensures Contributes(arrivals[0], arrivals[i], precedence) {
      assert arrivals[i] in arrivals && arrivals[0] in arrivals;
      assert !Outranks(arrivals[i], arrivals[0], precedence);
    }
    GatheredKeeps(arrivals, precedence);
    GatheredIsUnion(arrivals, precedence);
    GatheredInOrder(arrivals, precedence);
    AllContribute(arrivals, precedence);
  }

  const KEY := Key("a", "m", "c", "", "i")
  const LOW := Rec(KEY, "(lo)", ["low"], None)
  const HIGH := Rec(KEY, "(hi)", ["high"], Some("sem"))

  /** The record of higher precedence is not the one that stays. */
  lemma {:induction false} HighestPrecedenceIsNotKept(precedence: Precedence)
    requires precedence("high") > precedence("low")
    ensures AddAll([LOW, HIGH], precedence).Some?
    ensures
      var byKey := AddAll([LOW, HIGH], precedence).value.byKey;
      KEY in byKey && byKey[KEY] == LOW
    ensures Added(ONLY_LOW, HIGH, precedence).Some?
    ensures Added(ONLY_LOW, HIGH, precedence).value.returned.encoding == "(hi)"
  {
    assert [LOW, HIGH][..1] == [LOW];
    assert [LOW][..0] == [];
    assert Added(NOTHING, LOW, precedence).value.index == ONLY_LOW;
    assert AddAll([LOW], precedence) == Some(ONLY_LOW);
    assert Added(ONLY_LOW, HIGH, precedence).Some?;
  }

  const ONLY_LOW := Index([KEY], map[KEY := LOW], [])

  // ---------- Conflicts and empty semantics ----------

  /** Encodings conflict when they differ by more than white space around them. */
  lemma {:induction false} ConflictsBySpace(a: Rec, b: Rec, s: string, t: string, x: string, y: string, z: string,
                                            w: string)
    requires AllSpaces(x) && AllSpaces(y) && AllSpaces(z) && AllSpaces(w) && IsStripped(s) && IsStripped(t)
    requires a.encoding == x + s + y && b.encoding == z + t + w
    ensures Conflicting(a, b) <==> s != t
  {
    StripIs(x, s, y);
    StripIs(z, t, w);
  }

  /** A conflict is logged with the key and the united banks, those of the record of higher precedence, or else of the
      stored one, first. */
  lemma {:induction false} ConflictIsLogged(index: Index, new_: Rec, precedence: Precedence)
    requires Added(index, new_, precedence).Some? && new_.key in index.byKey && index.byKey[new_.key].key == new_.key
    ensures
      var stored := index.byKey[new_.key];
      var after := Added(index, new_, precedence).value.index.conflicts;
      && stored.banks != [] && new_.banks != []
      && var higher := precedence(new_.banks[0]) > precedence(stored.banks[0]);
         var first, second := if higher then new_.banks else stored.banks, if higher then stored.banks else new_.banks;
         after == if Strip(stored.encoding) == Strip(new_.encoding) then index.conflicts
                  else index.conflicts + [Conflict(new_.key, Union(first, second))]
  {
    hide Union;
  }

  /** Semantics that are missing or empty give way, and no others do. */
  lemma {:induction false} EmptySemanticsGiveWay(kept: Rec, other: Rec)
    ensures kept.semantics == None || kept.semantics == Some("") ==>
      Absorb(kept, other).semantics
      == if other.semantics == None || other.semantics == Some("") then kept.semantics else other.semantics
    ensures kept.semantics != None && kept.semantics != Some("") ==> Absorb(kept, other).semantics == kept.semantics
    ensures Absorb(kept, other).encoding == kept.encoding && Absorb(kept, other).key == kept.key
  {
  }
}
