/** Dataset: CRUD over one record map, reading through an optional cache
    and persisting the whole map on every change. */
module Datasets {
  import opened Wrappers
  import opened FileStorage
  import opened RecordCache
  import opened RecordMaps
  import C = Coordinator

  class Dataset<T(!new)> {
    const idExtractor: T -> string
    const localRecords: LocalRecordCache<map<string, T>>
    const fileStorageProvider: FileStorageProvider<T>
    /** Volatile: every read goes to storage. Otherwise reads are cached. */
    var isVolatile: bool

    /** The coordinator's observable state. */
    ghost function Model(): C.State<T>
      reads this, localRecords, fileStorageProvider
    {
      C.State(isVolatile, localRecords.cache, fileStorageProvider.file)
    }

    /** A new dataset is volatile and has nothing cached. */
    constructor (storageProvider: FileStorageProvider<T>, idExtractor: T -> string)
      ensures this.fileStorageProvider == storageProvider && this.idExtractor == idExtractor
      ensures fresh(localRecords)
      ensures Model() == C.State(true, None, storageProvider.file)
    {
      this.idExtractor := idExtractor;
      localRecords := new LocalRecordCache<map<string, T>>();
      fileStorageProvider := storageProvider;
      isVolatile := true;
    }

    method GetAll() returns (r: Result<seq<T>, StorageError>)
      modifies localRecords
      ensures var step := C.GetAll(old(Model()), fileStorageProvider.codec);
        Model() == step.state &&
        (r.Success? <==> step.result.Success?) &&
        (r.Success? ==> multiset(r.value) == step.result.value) &&
        (r.Failure? ==> r.error == step.result.error)
    {
      var records := GetRecords();
      if records.Failure? {
        return Failure(records.error);
      }
      var values := ValuesToArray(records.value);
      r := Success(values);
    }

    method GetById(id: string) returns (r: Result<Option<T>, StorageError>)
      modifies localRecords
      ensures C.Step(r, Model()) == C.GetById(old(Model()), id, fileStorageProvider.codec)
    {
      var records := GetRecords();
      if records.Failure? {
        return Failure(records.error);
      }
      r := Success(if id in records.value then Some(records.value[id]) else None);
    }

    method AddOrUpdate(record: T) returns (r: Outcome<StorageError>)
      modifies localRecords, fileStorageProvider
      ensures C.Step(r, Model()) == C.AddOrUpdate(old(Model()), record, idExtractor, fileStorageProvider.codec)
    {
      var fetched := GetRecords();
      if fetched.Failure? {
        return Fail(fetched.error);
      }
      var records := fetched.value;
      var id := idExtractor(record);
      records := records[id := record];
      PersistRecords(records);
      r := Pass;
    }

    method Delete(id: string) returns (r: Outcome<StorageError>)
      modifies localRecords, fileStorageProvider
      ensures C.Step(r, Model()) == C.Delete(old(Model()), id, fileStorageProvider.codec)
    {
      var fetched := GetRecords();
      if fetched.Failure? {
        return Fail(fetched.error);
      }
      var records := fetched.value;
      if id in records {
        records := records - {id};
      }
      PersistRecords(records);
      r := Pass;
    }

    method GetRecords() returns (r: Result<map<string, T>, StorageError>)
      modifies localRecords
      ensures C.Step(r, Model()) == C.GetRecords(old(Model()), fileStorageProvider.codec)
    {
      if !isVolatile && localRecords.HasCachedData() {
        var cached := localRecords.GetCachedData();
        return Success(cached.value);
      }
      r := fileStorageProvider.ReadFile();
      if r.Failure? {
        return;
      }
      if !isVolatile {
        localRecords.UpdateCachedData(Some(r.value));
      }
    }

    method PersistRecords(records: map<string, T>)
      modifies localRecords, fileStorageProvider
      ensures Model() == C.PersistRecords(old(Model()), records, fileStorageProvider.codec)
    {
      if !isVolatile {
        localRecords.UpdateCachedData(Some(records));
      }
      fileStorageProvider.WriteFile(records);
    }
  }
}
