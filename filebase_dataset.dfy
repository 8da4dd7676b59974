/** FilebaseDataset: the same CRUD and cache logic as Dataset, over a
    storage provider whose backing file lies in the context's root
    directory and is named after the dataset. */
module FilebaseDatasets {
  import opened Wrappers
  import opened FileStorage
  import opened RecordCache
  import opened RecordMaps
  import C = Coordinator

  /** Path rules of .NET on Unix: one separator, and a path is rooted when
      it starts with it. */
  const DirectorySeparator: char := '/'

  predicate IsRooted(path: string)
  {
    |path| > 0 && path[0] == DirectorySeparator
  }

  /** Path.Combine(first, second): `second` alone when `first` is empty or
      `second` is rooted; otherwise the two joined by exactly one separator
      unless `first` already ends with one. */
  function Combine(first: string, second: string): (path: string)
    ensures first == "" || IsRooted(second) ==> path == second
    ensures first != "" && second == "" ==> path == first
    ensures first != "" && second != "" && !IsRooted(second) ==>
      path == first + second || path == first + [DirectorySeparator] + second
    ensures first != "" && second != "" && !IsRooted(second) ==>
      (path == first + second <==> first[|first| - 1] == DirectorySeparator)
  {
    if first == "" then second
    else if second == "" then first
    else if IsRooted(second) then second
    else if first[|first| - 1] == DirectorySeparator then first + second
    else first + [DirectorySeparator] + second
  }

  /** The backing file of dataset `name` in `rootDirectory`. */
  function BackingFilePath(rootDirectory: string, name: string): (path: string)
    ensures |path| >= |name| + 5 && path[|path| - |name| - 5..] == name + ".json"
    ensures rootDirectory == "" || IsRooted(name) ==> path == name + ".json"
  {
    Combine(rootDirectory, name + ".json")
  }

  /** The backing file is `<root>/<name>.json`: it starts with the root
      directory, ends with the name and the ".json" extension, and between
      them is at most the one separator. */
  lemma BackingFilePathShape(rootDirectory: string, name: string)
    requires rootDirectory != "" && !IsRooted(name)
    ensures var path := BackingFilePath(rootDirectory, name);
      path == rootDirectory + name + ".json" ||
      path == rootDirectory + [DirectorySeparator] + name + ".json"
    ensures var path := BackingFilePath(rootDirectory, name);
      |path| >= |rootDirectory| + |name| + 5 &&
      path[..|rootDirectory|] == rootDirectory &&
      path[|path| - |name| - 5..] == name + ".json"
  {
    var second := name + ".json";
    assert !IsRooted(second) by {
      if name == "" {
        assert second[0] == '.';
      } else {
        assert second[0] == name[0];
      }
    }
    var path := BackingFilePath(rootDirectory, name);
    if path == rootDirectory + second {
      assert path == rootDirectory + name + ".json";
    } else {
      assert path == rootDirectory + [DirectorySeparator] + second;
      assert path == rootDirectory + [DirectorySeparator] + name + ".json";
    }
  }

  class FilebaseDataset<T(!new)> {
    const idExtractor: T -> string
    const localRecords: LocalRecordCache<map<string, T>>
    const fileStorageProvider: FileStorageProvider<T>
    /** Volatile: every read goes to storage. Otherwise reads are cached. */
    var isVolatile: bool

    /** The coordinator's observable state. */
    ghost function Model(): C.State<T>
      reads this, localRecords, fileStorageProvider
    {
      C.State(isVolatile, localRecords.cache, fileStorageProvider.file)
    }

    /** A new dataset named `name` stores its records in `name.json` under
        the context's root directory, whose current state on disk is
        `disk`; it is volatile and has nothing cached. */
    constructor (name: string, rootDirectory: string, idExtractor: T -> string, codec: Codec<T>, disk: File)
      ensures this.idExtractor == idExtractor
      ensures fresh(localRecords) && fresh(fileStorageProvider)
      ensures fileStorageProvider.backingFile == BackingFilePath(rootDirectory, name)
      ensures fileStorageProvider.codec == codec
      ensures Model() == C.State(true, None, disk)
    {
      this.idExtractor := idExtractor;
      localRecords := new LocalRecordCache<map<string, T>>();
      var backingFilePath := Combine(rootDirectory, name + ".json");
      fileStorageProvider := new FileStorageProvider<T>(backingFilePath, codec, disk);
      isVolatile := true;
    }

    method GetAll() returns (r: Result<seq<T>, StorageError>)
      modifies localRecords
      ensures var step := C.GetAll(old(Model()), fileStorageProvider.codec);
        Model() == step.state &&
        (r.Success? <==> step.result.Success?) &&
        (r.Success? ==> multiset(r.value) == step.result.value) &&
        (r.Failure? ==> r.error == step.result.error)
    {
      var records := GetRecords();
      if records.Failure? {
        return Failure(records.error);
      }
      var values := ValuesToArray(records.value);
      r := Success(values);
    }

    method GetById(id: string) returns (r: Result<Option<T>, StorageError>)
      modifies localRecords
      ensures C.Step(r, Model()) == C.GetById(old(Model()), id, fileStorageProvider.codec)
    {
      var records := GetRecords();
      if records.Failure? {
        return Failure(records.error);
      }
      r := Success(if id in records.value then Some(records.value[id]) else None);
    }

    method AddOrUpdate(record: T) returns (r: Outcome<StorageError>)
      modifies localRecords, fileStorageProvider
      ensures C.Step(r, Model()) == C.AddOrUpdate(old(Model()), record, idExtractor, fileStorageProvider.codec)
    {
      var fetched := GetRecords();
      if fetched.Failure? {
        return Fail(fetched.error);
      }
      var records := fetched.value;
      var id := idExtractor(record);
      records := records[id := record];
      PersistRecords(records);
      r := Pass;
    }

    method Delete(id: string) returns (r: Outcome<StorageError>)
      modifies localRecords, fileStorageProvider
      ensures C.Step(r, Model()) == C.Delete(old(Model()), id, fileStorageProvider.codec)
    {
      var fetched := GetRecords();
      if fetched.Failure? {
        return Fail(fetched.error);
      }
      var records := fetched.value;
      if id in records {
        records := records - {id};
      }
      PersistRecords(records);
      r := Pass;
    }

    method GetRecords() returns (r: Result<map<string, T>, StorageError>)
      modifies localRecords
      ensures C.Step(r, Model()) == C.GetRecords(old(Model()), fileStorageProvider.codec)
    {
      if !isVolatile && localRecords.HasCachedData() {
        var cached := localRecords.GetCachedData();
        return Success(cached.value);
      }
      r := fileStorageProvider.ReadFile();
      if r.Failure? {
        return;
      }
      if !isVolatile {
        localRecords.UpdateCachedData(Some(r.value));
      }
    }

    method PersistRecords(records: map<string, T>)
      modifies localRecords, fileStorageProvider
      ensures Model() == C.PersistRecords(old(Model()), records, fileStorageProvider.codec)
    {
      if !isVolatile {
        localRecords.UpdateCachedData(Some(records));
      }
      fileStorageProvider.WriteFile(records);
    }
  }

  /** A client of the dataset: a record just added is found by its id, as
      long as the map could be read. */
  method AddThenFind<T(!new)>(dataset: FilebaseDataset<T>, record: T) returns (found: Result<Option<T>, StorageError>)
    requires dataset.fileStorageProvider.codec.Lawful()
    modifies dataset.localRecords, dataset.fileStorageProvider
    ensures old(C.GetRecords(dataset.Model(), dataset.fileStorageProvider.codec).result).Success? ==>
      found == Success(Some(record))
  {
    var added := dataset.AddOrUpdate(record);
    if added.Pass? {
      C.GetByIdAfterAddOrUpdate(old(dataset.Model()), record, dataset.idExtractor, dataset.fileStorageProvider.codec);
    }
    found := dataset.GetById(dataset.idExtractor(record));
  }
}
