/** The decision logic shared by Dataset and FilebaseDataset, as functions
    of the coordinator's whole observable state: the volatile flag, the
    cache slot and the backing file. Each operation gives its result and
    the state it leaves; the classes' methods are proved to follow these. */
module Coordinator {
  import opened Wrappers
  import opened FileStorage
  import opened RecordMaps

  datatype State<T> = State(isVolatile: bool, cache: Option<map<string, T>>, file: File)

  /** What an operation returns, and the state after it. */
  datatype Step<R, T> = Step(result: R, state: State<T>)

  /** GetRecords: a non-volatile dataset with cached data answers from the
      cache; otherwise storage is read, and a non-volatile dataset caches
      what it read. A read that throws leaves the cache as it was. */
  function GetRecords<T(!new)>(s: State<T>, codec: Codec<T>): (step: Step<Result<map<string, T>, StorageError>, T>)
    ensures step.state.isVolatile == s.isVolatile && step.state.file == s.file
    ensures step.result.Failure? ==> step.state == s
  {
    if !s.isVolatile && s.cache.Some? then Step(Success(s.cache.value), s)
    else
      var records := Read(s.file, codec);
      if records.Failure? || s.isVolatile then Step(records, s)
      else Step(records, s.(cache := Some(records.value)))
  }

  /** PersistRecords: a non-volatile dataset caches the map first; then the
      map is written to storage. */
  function PersistRecords<T(!new)>(s: State<T>, records: map<string, T>, codec: Codec<T>): (t: State<T>)
    ensures t.isVolatile == s.isVolatile
    ensures t.cache == if s.isVolatile then s.cache else Some(records)
    ensures t.file == Write(s.file, records, codec)
  {
    var cached := if s.isVolatile then s.cache else Some(records);
    s.(cache := cached, file := Write(s.file, records, codec))
  }

  /** GetAll: the values of the current map. */
  ghost function GetAll<T(!new)>(s: State<T>, codec: Codec<T>): (step: Step<Result<multiset<T>, StorageError>, T>)
    ensures step.state == GetRecords(s, codec).state
    ensures step.result.Failure? <==> GetRecords(s, codec).result.Failure?
  {
    var fetched := GetRecords(s, codec);
    match fetched.result
    case Success(records) => Step(Success(ValuesOf(records)), fetched.state)
    case Failure(e) => Step(Failure(e), fetched.state)
  }

  /** GetById: the record stored under `id`, or null when there is none. */
  function GetById<T(!new)>(s: State<T>, id: string, codec: Codec<T>): (step: Step<Result<Option<T>, StorageError>, T>)
    ensures step.state == GetRecords(s, codec).state
    ensures step.result.Failure? <==> GetRecords(s, codec).result.Failure?
    ensures step.result.Success? ==>
      var records := GetRecords(s, codec).result.value;
      (step.result.value.Some? <==> id in records) &&
      (id in records ==> step.result.value.value == records[id])
  {
    var fetched := GetRecords(s, codec);
    match fetched.result
    case Success(records) =>
      Step(Success(if id in records then Some(records[id]) else None), fetched.state)
    case Failure(e) => Step(Failure(e), fetched.state)
  }

  /** AddOrUpdate: read the current map, set `idOf(record)` to `record`,
      persist the whole map. */
  function AddOrUpdate<T(!new)>(s: State<T>, record: T, idOf: T -> string, codec: Codec<T>): (step: Step<Outcome<StorageError>, T>)
    ensures step.result.Pass? <==> GetRecords(s, codec).result.Success?
    ensures step.result.Fail? ==> step.state == s
    ensures step.state.isVolatile == s.isVolatile
  {
    var fetched := GetRecords(s, codec);
    match fetched.result
    case Success(records) =>
      Step(Pass, PersistRecords(fetched.state, records[idOf(record) := record], codec))
    case Failure(e) => Step(Fail(e), s)
  }

  /** Delete: read the current map, drop `id` if present, and persist the
      map in either case. */
  function Delete<T(!new)>(s: State<T>, id: string, codec: Codec<T>): (step: Step<Outcome<StorageError>, T>)
    ensures step.result.Pass? <==> GetRecords(s, codec).result.Success?
    ensures step.result.Fail? ==> step.state == s
    ensures step.state.isVolatile == s.isVolatile
  {
    var fetched := GetRecords(s, codec);
    match fetched.result
    case Success(records) =>
      var remaining := if id in records then records - {id} else records;
      Step(Pass, PersistRecords(fetched.state, remaining, codec))
    case Failure(e) => Step(Fail(e), s)
  }

  /** Cache and storage agree: whenever a non-volatile dataset would serve
      the cache, storage holds the same map. */
  ghost predicate Coherent<T(!new)>(s: State<T>, codec: Codec<T>)
  {
    !s.isVolatile && s.cache.Some? ==> Read(s.file, codec) == Success(s.cache.value)
  }

  // ---------------------------------------------------------------------
  // The read policy

  /** A volatile dataset reads storage every time, and neither its reads
      nor its writes touch the cache. */
  lemma VolatileBypassesCache<T(!new)>(s: State<T>, record: T, idOf: T -> string, id: string, codec: Codec<T>)
    requires s.isVolatile
    ensures GetRecords(s, codec) == Step(Read(s.file, codec), s)
    ensures AddOrUpdate(s, record, idOf, codec).state.cache == s.cache
    ensures Delete(s, id, codec).state.cache == s.cache
  {
  }

  /** A non-volatile dataset with cached data answers from the cache and
      does not consult storage: whatever the file holds, the answer and the
      state are the same. */
  lemma CachedReadIgnoresStorage<T(!new)>(s: State<T>, other: File, codec: Codec<T>)
    requires !s.isVolatile && s.cache.Some?
    ensures GetRecords(s.(file := other), codec) == Step(Success(s.cache.value), s.(file := other))
  {
  }

  /** On a cache miss, a non-volatile dataset caches the map it read from
      storage; a failed read caches nothing. */
  lemma MissFillsCache<T(!new)>(s: State<T>, codec: Codec<T>)
    requires !s.isVolatile && s.cache.None?
    ensures GetRecords(s, codec).result == Read(s.file, codec)
    ensures GetRecords(s, codec).state.cache ==
      if Read(s.file, codec).Success? then Some(Read(s.file, codec).value) else None
  {
  }

  /** A first read fills the cache; after another writer changes the file,
      a non-volatile dataset still returns the stale cached map while a
      volatile one returns the new contents. */
  lemma StaleCacheAfterOutOfBandWrite<T(!new)>(s: State<T>, other: File, codec: Codec<T>)
    requires !s.isVolatile && s.cache.None? && Read(s.file, codec).Success?
    ensures var filled := GetRecords(s, codec).state;
      GetRecords(filled.(file := other), codec).result == Read(s.file, codec)
    ensures GetRecords(s.(isVolatile := true, file := other), codec).result == Read(other, codec)
  {
  }

  // ---------------------------------------------------------------------
  // Reads

  /** GetAll yields exactly the stored values: as many as there are ids,
      and a record occurs exactly when some id maps to it. */
  lemma GetAllIsTheValues<T(!new)>(s: State<T>, codec: Codec<T>, v: T)
    requires GetRecords(s, codec).result.Success?
    ensures GetAll(s, codec).result.Success?
    ensures |GetAll(s, codec).result.value| == |GetRecords(s, codec).result.value|
    ensures v in GetAll(s, codec).result.value <==> v in GetRecords(s, codec).result.value.Values
  {
    ValuesOfSize(GetRecords(s, codec).result.value);
    ValuesOfMembers(GetRecords(s, codec).result.value, v);
  }

  /** With nothing cached (or the dataset volatile), a missing file or an
      empty one gives an empty collection, not an error. */
  lemma GetAllOfEmptyStorage<T(!new)>(s: State<T>, codec: Codec<T>)
    requires codec.Lawful()
    requires s.isVolatile || s.cache.None?
    requires s.file == Absent || s.file == Present("")
    ensures GetAll(s, codec).result == Success(multiset{})
  {
  }

  /** GetById of an id that is not stored is null, not an error; in
      particular when the backing file does not exist. */
  lemma GetByIdOfMissingRecord<T(!new)>(s: State<T>, id: string, codec: Codec<T>)
    requires s.isVolatile || s.cache.None?
    requires s.file == Absent || (Read(s.file, codec).Success? && id !in Read(s.file, codec).value)
    ensures GetById(s, id, codec).result == Success(None)
  {
  }

  // ---------------------------------------------------------------------
  // AddOrUpdate

  /** After AddOrUpdate(record), GetById of the record's id yields it. */
  lemma GetByIdAfterAddOrUpdate<T(!new)>(s: State<T>, record: T, idOf: T -> string, codec: Codec<T>)
    requires codec.Lawful()
    requires AddOrUpdate(s, record, idOf, codec).result.Pass?
    ensures GetById(AddOrUpdate(s, record, idOf, codec).state, idOf(record), codec).result == Success(Some(record))
  {
    var m := GetRecords(s, codec).result.value;
    ReadAfterWrite(GetRecords(s, codec).state.file, m[idOf(record) := record], codec);
  }

  /** AddOrUpdate persists the map it read with the record's id set and
      every other id unchanged; the next read returns that map. */
  lemma AddOrUpdateStoresUpdatedMap<T(!new)>(s: State<T>, record: T, idOf: T -> string, codec: Codec<T>)
    requires codec.Lawful()
    requires GetRecords(s, codec).result.Success?
    ensures var updated := GetRecords(s, codec).result.value[idOf(record) := record];
      var after := AddOrUpdate(s, record, idOf, codec).state;
      after.file == Write(s.file, updated, codec) &&
      GetRecords(after, codec).result == Success(updated)
  {
    var updated := GetRecords(s, codec).result.value[idOf(record) := record];
    ReadAfterWrite(s.file, updated, codec);
  }

  /** Other ids read the same before and after AddOrUpdate. */
  lemma AddOrUpdateLeavesOtherIds<T(!new)>(s: State<T>, record: T, idOf: T -> string, k: string, codec: Codec<T>)
    requires codec.Lawful()
    requires AddOrUpdate(s, record, idOf, codec).result.Pass?
    requires k != idOf(record)
    ensures GetById(AddOrUpdate(s, record, idOf, codec).state, k, codec).result == GetById(s, k, codec).result
  {
    AddOrUpdateStoresUpdatedMap(s, record, idOf, codec);
  }

  /** A new id grows the collection by one; an existing id keeps the count
      and its value is replaced. Either way the record is in the collection. */
  lemma AddOrUpdateCount<T(!new)>(s: State<T>, record: T, idOf: T -> string, codec: Codec<T>)
    requires codec.Lawful()
    requires GetRecords(s, codec).result.Success?
    ensures var before := GetAll(s, codec).result.value;
      var after := GetAll(AddOrUpdate(s, record, idOf, codec).state, codec).result;
      after.Success? &&
      |after.value| == (if idOf(record) in GetRecords(s, codec).result.value then |before| else |before| + 1) &&
      record in after.value
  {
    var m := GetRecords(s, codec).result.value;
    var updated := m[idOf(record) := record];
    AddOrUpdateStoresUpdatedMap(s, record, idOf, codec);
    ValuesOfSize(m);
    ValuesOfSize(updated);
    ValuesOfStore(m, idOf(record), record);
  }

  // ---------------------------------------------------------------------
  // Delete

  /** After Delete(id), GetById(id) is null and every other id reads as
      before. */
  lemma DeleteRemovesOnlyId<T(!new)>(s: State<T>, id: string, k: string, codec: Codec<T>)
    requires codec.Lawful()
    requires GetRecords(s, codec).result.Success?
    ensures var after := Delete(s, id, codec).state;
      GetById(after, id, codec).result == Success(None) &&
      (k != id ==> GetById(after, k, codec).result == GetById(s, k, codec).result)
  {
    var m := GetRecords(s, codec).result.value;
    var remaining := if id in m then m - {id} else m;
    ReadAfterWrite(s.file, remaining, codec);
  }

  /** Deleting an id that is not stored still writes the unchanged map and
      the next read returns the same map. */
  lemma DeleteOfMissingIdRewrites<T(!new)>(s: State<T>, id: string, codec: Codec<T>)
    requires codec.Lawful()
    requires GetRecords(s, codec).result.Success? && id !in GetRecords(s, codec).result.value
    ensures var after := Delete(s, id, codec).state;
      after.file == Write(s.file, GetRecords(s, codec).result.value, codec) &&
      GetRecords(after, codec).result == GetRecords(s, codec).result
  {
    ReadAfterWrite(s.file, GetRecords(s, codec).result.value, codec);
  }

  /** Because the delete guard needs the file to exist, deleting from a
      dataset whose file is missing creates a file holding the encoded
      empty map. */
  lemma DeleteWithoutFileCreatesFile<T(!new)>(id: string, codec: Codec<T>)
    ensures Delete(State(true, None, Absent), id, codec).state.file == Present(codec.encode(map[]))
  {
  }

  /** Deleting a stored id removes exactly one occurrence of its record
      from the collection. */
  lemma DeleteCount<T(!new)>(s: State<T>, id: string, codec: Codec<T>)
    requires codec.Lawful()
    requires GetRecords(s, codec).result.Success? && id in GetRecords(s, codec).result.value
    ensures var before := GetAll(s, codec).result.value;
      var after := GetAll(Delete(s, id, codec).state, codec).result;
      after.Success? &&
      before == after.value + multiset{GetRecords(s, codec).result.value[id]} &&
      |after.value| == |before| - 1
  {
    var m := GetRecords(s, codec).result.value;
    ReadAfterWrite(s.file, m - {id}, codec);
    ValuesOfRemove(m, id);
  }

  /** Deleting one of two records leaves one, and the other is still found. */
  lemma DeleteOneOfTwo<T(!new)>(s: State<T>, a: string, ra: T, b: string, rb: T, codec: Codec<T>)
    requires codec.Lawful()
    requires a != b
    requires GetRecords(s, codec).result == Success(map[a := ra, b := rb])
    ensures var after := Delete(s, a, codec).state;
      |GetAll(after, codec).result.value| == 1 &&
      GetById(after, b, codec).result == Success(Some(rb))
  {
    var remaining := map[a := ra, b := rb] - {a};
    assert remaining == map[b := rb];
    ReadAfterWrite(s.file, remaining, codec);
    ValuesOfSize(remaining);
  }

  /** Deleting the last record from a coherent dataset removes the backing
      file, and GetAll is then empty. */
  lemma DeleteLastRemovesFile<T(!new)>(s: State<T>, id: string, r: T, codec: Codec<T>)
    requires codec.Lawful()
    requires Coherent(s, codec)
    requires GetRecords(s, codec).result == Success(map[id := r])
    ensures var after := Delete(s, id, codec).state;
      after.file == Absent &&
      GetAll(after, codec).result == Success(multiset{})
  {
    assert Read(s.file, codec) == Success(map[id := r]);
    assert map[id := r] - {id} == map[];
  }

  // ---------------------------------------------------------------------
  // Cache and storage consistency

  /** A successful write in non-volatile mode leaves the cache holding the
      map that storage now holds. */
  lemma WriteSynchronisesCache<T(!new)>(s: State<T>, record: T, idOf: T -> string, id: string, codec: Codec<T>)
    requires codec.Lawful()
    requires !s.isVolatile
    ensures var after := AddOrUpdate(s, record, idOf, codec);
      after.result.Pass? ==> after.state.cache.Some? && Read(after.state.file, codec) == Success(after.state.cache.value)
    ensures var after := Delete(s, id, codec);
      after.result.Pass? ==> after.state.cache.Some? && Read(after.state.file, codec) == Success(after.state.cache.value)
  {
    if GetRecords(s, codec).result.Success? {
      var m := GetRecords(s, codec).result.value;
      ReadAfterWrite(s.file, m[idOf(record) := record], codec);
      ReadAfterWrite(s.file, if id in m then m - {id} else m, codec);
    }
  }

  /** No operation of the dataset breaks cache/storage agreement. */
  lemma OperationsPreserveCoherence<T(!new)>(s: State<T>, record: T, idOf: T -> string, id: string, codec: Codec<T>)
    requires codec.Lawful()
    requires Coherent(s, codec)
    ensures Coherent(GetRecords(s, codec).state, codec)
    ensures Coherent(GetById(s, id, codec).state, codec)
    ensures Coherent(GetAll(s, codec).state, codec)
    ensures Coherent(AddOrUpdate(s, record, idOf, codec).state, codec)
    ensures Coherent(Delete(s, id, codec).state, codec)
  {
    if !s.isVolatile {
      WriteSynchronisesCache(s, record, idOf, id, codec);
    }
  }

  /** Switching the flag leaves the cache alone, so a cache filled before a
      volatile phase is served afterwards even though storage has moved on:
      a record added while volatile is not found once the dataset is
      non-volatile again. */
  lemma ToggleServesStaleCache<T(!new)>(file: File, record: T, idOf: T -> string, codec: Codec<T>)
    requires codec.Lawful()
    requires Read(file, codec) == Success(map[])
    ensures var filled := GetRecords(State(false, None, file), codec).state;
      var added := AddOrUpdate(filled.(isVolatile := true), record, idOf, codec).state;
      GetRecords(added, codec).result == Success(map[idOf(record) := record]) &&
      GetById(added.(isVolatile := false), idOf(record), codec).result == Success(None)
  {
    ReadAfterWrite(file, map[idOf(record) := record], codec);
  }
}
