/** The submission store: the `submissions` object store of database
    `MultiStepWizardDB` (version 1, key path `id`), the random identifier
    generator, and the five service operations. Opening the database and the
    request callbacks are browser I/O; what remains is the keyed table, whose
    operations follow the object store semantics of the W3C Indexed Database
    API: `add` refuses an existing key, `put` overwrites, `delete` of a
    missing key succeeds, and a value without its key path is refused. */
module IndexedDB {
  import opened Wrappers
  import opened JsString
  import opened Types

  /** The `DOMException` names a request on the store can fail with. */
  datatype StoreError = ConstraintError | DataError

  /** The store's key path: a record is stored under its own `id`. */
  predicate KeyedById(t: map<string, FormData>) {
    forall k :: k in t ==> t[k].id == Some(k)
  }

  // ---------------------------------------------------------------------------
  // The table operations as functions on the stored map

  /** `store.add(v)`. */
  function TableAdd(t: map<string, FormData>, v: FormData): Result<map<string, FormData>, StoreError> {
    if v.id.None? then Failure(DataError)
    else if v.id.value in t then Failure(ConstraintError)
    else Success(t[v.id.value := v])
  }

  /** `store.put(v)`. */
  function TablePut(t: map<string, FormData>, v: FormData): Result<map<string, FormData>, StoreError> {
    if v.id.None? then Failure(DataError) else Success(t[v.id.value := v])
  }

  /** `store.get(k)`: the record, or `undefined` for a missing key. */
  function TableGet(t: map<string, FormData>, k: string): Option<FormData> {
    if k in t then Some(t[k]) else None
  }

  /** `store.delete(k)`. */
  function TableDelete(t: map<string, FormData>, k: string): map<string, FormData> {
    t - {k}
  }

  /** `add` fails exactly when the value has no key or its key is taken; a
      successful add makes the value readable under its key, changes no other
      key, and keeps every record under its own id. */
  lemma AddSpec(t: map<string, FormData>, v: FormData)
    ensures TableAdd(t, v).Failure? <==> v.id.None? || v.id.value in t
    ensures v.id.None? ==> TableAdd(t, v) == Failure(DataError)
    ensures v.id.Some? && v.id.value in t ==> TableAdd(t, v) == Failure(ConstraintError)
    ensures TableAdd(t, v).Success? ==>
              && TableGet(TableAdd(t, v).value, v.id.value) == Some(v)
              && (forall k :: k != v.id.value ==> TableGet(TableAdd(t, v).value, k) == TableGet(t, k))
              && (KeyedById(t) ==> KeyedById(TableAdd(t, v).value))
  {
  }

  /** `put` fails only for a value without a key; otherwise the value is
      readable under its key, whether the key was new or not, and no other key
      changes. */
  lemma PutSpec(t: map<string, FormData>, v: FormData)
    ensures TablePut(t, v).Failure? <==> v.id.None?
    ensures TablePut(t, v).Success? ==>
              && TableGet(TablePut(t, v).value, v.id.value) == Some(v)
              && (forall k :: k != v.id.value ==> TableGet(TablePut(t, v).value, k) == TableGet(t, k))
              && (KeyedById(t) ==> KeyedById(TablePut(t, v).value))
  {
  }

  /** After `delete(k)` the key reads as absent, every other key is unchanged,
      and a second delete changes nothing. */
  lemma DeleteSpec(t: map<string, FormData>, k: string)
    ensures TableGet(TableDelete(t, k), k) == None
    ensures forall j :: j != k ==> TableGet(TableDelete(t, k), j) == TableGet(t, j)
    ensures TableDelete(TableDelete(t, k), k) == TableDelete(t, k)
    ensures k !in t ==> TableDelete(t, k) == t
    ensures KeyedById(t) ==> KeyedById(TableDelete(t, k))
  {
  }

  // ---------------------------------------------------------------------------
  // The object store

  /** The `submissions` object store. */
  class ObjectStore {
    var records: map<string, FormData>

    ghost predicate Valid()
      reads this
    {
      KeyedById(records)
    }

    /** A freshly created, empty store (`createObjectStore` in
        `onupgradeneeded`). */
    constructor ()
      ensures Valid() && records == map[]
    {
      records := map[];
    }

    method Add(value: FormData) returns (r: Result<string, StoreError>)
      requires Valid()
      modifies this
      ensures Valid()
      ensures match TableAdd(old(records), value)
        case Success(t) => records == t && r == Success(value.id.value)
        case Failure(e) => records == old(records) && r == Failure(e)
    {
      if value.id.None? {
        return Failure(DataError);
      }
      var key := value.id.value;
      if key in records {
        return Failure(ConstraintError);
      }
      records := records[key := value];
      return Success(key);
    }

    method Put(value: FormData) returns (r: Result<string, StoreError>)
      requires Valid()
      modifies this
      ensures Valid()
      ensures match TablePut(old(records), value)
        case Success(t) => records == t && r == Success(value.id.value)
        case Failure(e) => records == old(records) && r == Failure(e)
    {
      if value.id.None? {
        return Failure(DataError);
      }
      records := records[value.id.value := value];
      return Success(value.id.value);
    }

    method Get(key: string) returns (r: Option<FormData>)
      ensures r == TableGet(records, key)
    {
      if key in records {
        r := Some(records[key]);
      } else {
        r := None;
      }
    }

    /** `store.getAll()`: every stored record exactly once. */
    method GetAll() returns (r: seq<FormData>)
      requires Valid()
      ensures |r| == |records|
      ensures forall k :: k in records ==> records[k] in r
      ensures forall i :: 0 <= i < |r| ==> r[i].id.Some? && TableGet(records, r[i].id.value) == Some(r[i])
      ensures forall i, j :: 0 <= i < j < |r| ==> r[i] != r[j]
    {
      var keys := records.Keys;
      r := [];
      while keys != {}
        invariant keys <= records.Keys
        invariant |r| + |keys| == |records.Keys|
        invariant forall k :: k in records && k !in keys ==> records[k] in r
        invariant forall i :: 0 <= i < |r| ==>
                    r[i].id.Some? && r[i].id.value in records && r[i].id.value !in keys
                    && records[r[i].id.value] == r[i]
        invariant forall i, j :: 0 <= i < j < |r| ==> r[i] != r[j]
        decreases |keys|
      {
        var k :| k in keys;
        r := r + [records[k]];
        keys := keys - {k};
      }
      assert |records.Keys| == |records|;
    }

    method Delete(key: string)
      requires Valid()
      modifies this
      ensures Valid()
      ensures records == TableDelete(old(records), key)
    {
      records := records - {key};
    }
  }

  // ---------------------------------------------------------------------------
  // Identifiers

  /** A lower-case hexadecimal digit, as `toString(16)` writes one. */
  predicate IsLowerHex(c: char) {
    IsAsciiDigit(c) || ('a' <= c <= 'f')
  }

  /** Eight draws of `Math.random()`, each in `[0, 1)`. */
  predicate ValidDraws(draws: seq<real>) {
    |draws| == 8 && forall i :: 0 <= i < |draws| ==> 0.0 <= draws[i] < 1.0
  }

  /** `Math.floor(x * 16).toString(16)` for one draw; multiplying by 16 is
      exact in binary floating point. */
  function Nibble(x: real): (c: char)
    requires 0.0 <= x < 1.0
    ensures IsLowerHex(c)
    ensures HexDigitValue(c) == (x * 16.0).Floor
  {
    var d := (x * 16.0).Floor;
    HexChar(d)
  }

  /** The identifier the draws spell, one hexadecimal digit per draw. */
  function IdFromDraws(draws: seq<real>): (id: string)
    requires ValidDraws(draws)
    ensures |id| == 8
    ensures forall i :: 0 <= i < 8 ==> IsLowerHex(id[i])
  {
    seq(8, i requires 0 <= i < 8 => Nibble(draws[i]))
  }

  /** `generateId()`: eight draws, one digit at a time. */
  method GenerateId(draws: seq<real>) returns (id: string)
    requires ValidDraws(draws)
    ensures id == IdFromDraws(draws)
  {
    id := "";
    var i := 0;
    while i < 8
      invariant 0 <= i <= 8
      invariant id == IdFromDraws(draws)[..i]
    {
      id := id + [Nibble(draws[i])];
      i := i + 1;
    }
  }

  /** The draw that yields a given digit. */
  function DrawFor(c: char): (x: real)
    requires IsLowerHex(c)
    ensures 0.0 <= x < 1.0
  {
    (HexDigitValue(c) as real) / 16.0
  }

  /** Every eight-digit lower-case hexadecimal string is an identifier some
      draws produce: the generator covers its whole space of 16^8 values. */
  lemma EveryIdReachable(id: string)
    requires |id| == 8 && forall i :: 0 <= i < 8 ==> IsLowerHex(id[i])
    ensures var draws := seq(8, i requires 0 <= i < 8 => DrawFor(id[i]));
      ValidDraws(draws) && IdFromDraws(draws) == id
  {
    var draws := seq(8, i requires 0 <= i < 8 => DrawFor(id[i]));
    forall i | 0 <= i < 8 ensures IdFromDraws(draws)[i] == id[i] {
      NibbleOfDraw(id[i]);
    }
  }

  lemma NibbleOfDraw(c: char)
    requires IsLowerHex(c)
    ensures Nibble(DrawFor(c)) == c
  {
    var d := HexDigitValue(c);
    assert DrawFor(c) * 16.0 == d as real;
    assert (DrawFor(c) * 16.0).Floor == d;
  }

  // ---------------------------------------------------------------------------
  // The submission service

  /** The record `createSubmission` builds: the sections as given, a fresh
      id, and both timestamps from the clock (read twice). */
  function NewSubmission(data: FormData, id: string, createdAt: string, updatedAt: string): (r: FormData)
    ensures r.id == Some(id) && r.createdAt == Some(createdAt) && r.updatedAt == Some(updatedAt)
    ensures r.personalInfo == data.personalInfo && r.educationInfo == data.educationInfo
    ensures r.workExperience == data.workExperience
  {
    data.(id := Some(id), createdAt := Some(createdAt), updatedAt := Some(updatedAt))
  }

  /** `createSubmission(data)`: builds the record and adds it; a taken id
      makes the add fail and leaves the table unchanged. */
  method CreateSubmission(store: ObjectStore, data: FormData, draws: seq<real>, createdAt: string, updatedAt: string)
    returns (r: Result<FormData, StoreError>)
    requires store.Valid() && ValidDraws(draws)
    modifies store
    ensures store.Valid()
    ensures var v := NewSubmission(data, IdFromDraws(draws), createdAt, updatedAt);
      if IdFromDraws(draws) in old(store.records) then
        r == Failure(ConstraintError) && store.records == old(store.records)
      else
        r == Success(v) && store.records == old(store.records)[IdFromDraws(draws) := v]
  {
    var id := GenerateId(draws);
    var newData := NewSubmission(data, id, createdAt, updatedAt);
    var added := store.Add(newData);
    match added
    case Success(_) => r := Success(newData);
    case Failure(e) => r := Failure(e);
  }

  /** `getAllSubmissions()`. */
  method GetAllSubmissions(store: ObjectStore) returns (r: seq<FormData>)
    requires store.Valid()
    ensures |r| == |store.records|
    ensures forall k :: k in store.records ==> store.records[k] in r
    ensures forall i :: 0 <= i < |r| ==> r[i].id.Some? && TableGet(store.records, r[i].id.value) == Some(r[i])
  {
    r := store.GetAll();
  }

  /** `getSubmissionById(id)`: absent, not an error, for an unknown id. */
  method GetSubmissionById(store: ObjectStore, id: string) returns (r: Option<FormData>)
    ensures r == TableGet(store.records, id)
  {
    r := store.Get(id);
  }

  /** The record `updateSubmission` writes: everything as supplied except a
      fresh `updatedAt`. */
  function UpdatedRecord(data: FormData, updatedAt: string): (r: FormData)
    ensures r.updatedAt == Some(updatedAt)
    ensures r.id == data.id && r.createdAt == data.createdAt
    ensures r.personalInfo == data.personalInfo && r.educationInfo == data.educationInfo
    ensures r.workExperience == data.workExperience
  {
    data.(updatedAt := Some(updatedAt))
  }

  /** `updateSubmission(data)`: the whole record is written with `put`,
      overwriting or inserting. */
  method UpdateSubmission(store: ObjectStore, data: FormData, updatedAt: string)
    returns (r: Result<FormData, StoreError>)
    requires store.Valid()
    modifies store
    ensures store.Valid()
    ensures data.id.None? ==> r == Failure(DataError) && store.records == old(store.records)
    ensures data.id.Some? ==>
              r == Success(UpdatedRecord(data, updatedAt)) &&
              store.records == old(store.records)[data.id.value := UpdatedRecord(data, updatedAt)]
  {
    var updatedData := UpdatedRecord(data, updatedAt);
    var put := store.Put(updatedData);
    match put
    case Success(_) => r := Success(updatedData);
    case Failure(e) => r := Failure(e);
  }

  /** `deleteSubmission(id)`: always succeeds. */
  method DeleteSubmission(store: ObjectStore, id: string)
    requires store.Valid()
    modifies store
    ensures store.Valid()
    ensures store.records == TableDelete(old(store.records), id)
  {
    store.Delete(id);
  }

  // ---------------------------------------------------------------------------
  // Round trips

  /** A created record reads back unchanged under its new id. */
  lemma CreateThenGet(t: map<string, FormData>, data: FormData, id: string, createdAt: string, updatedAt: string)
    requires id !in t
    ensures var v := NewSubmission(data, id, createdAt, updatedAt);
      TableAdd(t, v).Success? && TableGet(TableAdd(t, v).value, id) == Some(v)
  {
  }

  /** An updated record reads back with the supplied fields and the new
      `updatedAt`, and keeps its `createdAt`. */
  lemma UpdateThenGet(t: map<string, FormData>, data: FormData, updatedAt: string)
    requires data.id.Some?
    ensures var v := UpdatedRecord(data, updatedAt);
      && TablePut(t, v).Success?
      && TableGet(TablePut(t, v).value, data.id.value) == Some(v)
      && v.createdAt == data.createdAt && v.updatedAt == Some(updatedAt)
  {
  }
}
