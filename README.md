# Filebase record store, modelled in Dafny

Filebase keeps a dataset of typed records in one JSON file. The file holds a
single object that maps each record's id to the record. Each read and each
change handles the whole id-to-record map at once. The model covers three
layers:

- **Storage** (`FileStorageProvider`). The backing file is either absent or
  present with some text. Reading a missing file, or a file whose text
  deserialises to null (an empty file does), gives the empty map. Text the
  deserialiser rejects raises an exception, modelled as
  `Failure(CorruptData)`. Writing an empty map while the file exists deletes
  the file. Any other write creates or overwrites the file with the map's
  encoding. That includes an empty map written while the file is absent: the
  guard is a conjunction, so the result is a file holding `{}`.
- **Cache** (`LocalRecordCache`). One slot that is null or holds a map. A
  cached empty map still counts as cached data.
- **Coordinators** (`Dataset` and its near-duplicate `FilebaseDataset`).
  Each has a mutable `isVolatile` flag, which is true on a new dataset.
  - A volatile dataset reads storage on every call and never touches the
    cache.
  - A non-volatile dataset answers from the cache when it holds data.
    Otherwise it reads storage and caches what it read.
  - `AddOrUpdate` and `Delete` read the current map, change it, and persist
    the whole map. When the dataset is non-volatile, the cache is set to
    that map just before the file is written.
  - `Delete` of an id that is not stored still writes the unchanged map.

The JSON library is a `Codec`: a pair of functions, `encode` and `decode`.
`Codec.Lawful()` states what the storage layer relies on. The empty text
decodes to null, and decoding an encoded map gives that map back. The
round-trip properties assume `Lawful()`. The properties about missing or
empty files assume it too, but use only its first half (the empty text
decodes to null).

`Coordinator` states the coordinators' logic as functions of the observable
state `State(isVolatile, cache, file)`. Each function returns the call's
result and the state after it. The methods of both classes are proved to
follow these functions, and the properties are lemmas about them.
`Coherent` says the cache and storage agree whenever a non-volatile dataset
would serve from the cache. Every read and write preserves it
(`OperationsPreserveCoherence`). Setting `isVolatile` to false does not.

Some behaviours are stated explicitly:

- Toggling `isVolatile` neither clears nor fills the cache, so a dataset can
  serve a stale cache (`ToggleServesStaleCache`).
- A `Delete` on a dataset with no backing file creates a file
  (`DeleteWithoutFileCreatesFile`).

Where the code and its comments differ, or the code departs from the
intended design, the model follows the code:

- The doc comment of `Delete` says the method exits at once when the record
  does not exist. The code always persists.
- The code updates the cache before it writes the file, not after a
  successful write. It validates no arguments and has no lock-retry or
  backoff.
- `Dataset` is declared against `IPersistentStorageProvider`
  (`ReadEntities`/`WriteEntities`), but the only storage class is
  `FileStorageProvider`, and `DatasetFactory` passes one to `Dataset`. The
  model therefore gives both coordinators the same storage class. Its
  `ReadFile` and `WriteFile` stand for `ReadEntities` and `WriteEntities`.

## Model

| member | source | states |
|---|---|---|
| `RecordMaps.ValuesToArray` | Filebase/Dataset.cs:45 | `Values.ToArray()` returns every value of the map once per key: the multiset of its result equals the multiset of the map's values, and it has as many elements as the map has keys |
| `RecordMaps.ValuesOfSize` | Filebase/Dataset.cs:45 | the collection of values has exactly as many elements as the map has ids |
| `RecordMaps.ValuesOfMembers` | Filebase/Dataset.cs:45 | a record is in the collection exactly when some id maps to it |
| `RecordMaps.ValuesOfStore` | Filebase/Dataset.cs:89 | storing a record at an id adds that record once and drops whatever the id held before |
| `RecordMaps.ValuesOfRemove` | Filebase/Dataset.cs:111-114 | removing a stored id removes exactly one occurrence of its record |
| `RecordCache.LocalRecordCache.constructor` | Filebase/LocalRecordCache.cs:5-7 | a fresh cache holds nothing and reports no cached data |
| `RecordCache.LocalRecordCache.HasCachedData` | Filebase/LocalRecordCache.cs:7 | presence means the slot is non-null, whatever the map, so a cached empty map is data |
| `RecordCache.LocalRecordCache.GetCachedData` | Filebase/LocalRecordCache.cs:9-12 | returns the slot, which is non-null exactly when there is cached data |
| `RecordCache.LocalRecordCache.UpdateCachedData` | Filebase/LocalRecordCache.cs:14-17 | replaces the slot entirely: afterwards `GetCachedData()` is the argument and `HasCachedData()` holds iff it is non-null, so passing null has the same effect as `ClearCache` |
| `RecordCache.LocalRecordCache.ClearCache` | Filebase/LocalRecordCache.cs:19-22 | returns the cache to the no-data state |
| `FileStorage.Read` | Filebase/FileStorageProvider.cs:20-41 | a missing file, or a present file whose text decodes to null, reads as the empty map; a present file whose text decodes to a map reads as exactly that map; reading fails exactly when the deserialiser rejects the text; any non-empty map read is the decoded content of a present file |
| `FileStorage.Write` | Filebase/FileStorageProvider.cs:65-79 | the file becomes absent exactly when the map is empty and the file existed; otherwise it holds the map's encoding |
| `FileStorage.ReadAfterWrite` | Filebase/FileStorageProvider.cs:20-79 | with a lawful codec, for any prior file and any map, reading after writing the map yields exactly that map |
| `FileStorage.MissingOrEmptyFileReadsEmpty` | Filebase/FileStorageProvider.cs:24-38 | a missing file and an empty file both read as the empty map, not an error |
| `FileStorage.EmptyWriteCollapses` | Filebase/FileStorageProvider.cs:67-78 | writing an empty map deletes an existing file, creates a file holding the encoded empty map when there was none, and either way the file then reads as empty |
| `FileStorage.FileStorageProvider.constructor` | Filebase/FileStorageProvider.cs:15-18 | the provider is bound to the given backing file |
| `FileStorage.FileStorageProvider.BackingFileExists` | Filebase/FileStorageProvider.cs:97-104 | true exactly when the backing file is on disk |
| `FileStorage.FileStorageProvider.ReadFile` | Filebase/FileStorageProvider.cs:20-41 | returns `Read` of the current file and changes nothing; an empty file gives the empty map |
| `FileStorage.FileStorageProvider.WriteFile` | Filebase/FileStorageProvider.cs:65-79 | the new file state is `Write` of the old one, and with a lawful codec the file now reads as the map written |
| `Coordinator.GetRecords` | Filebase/Dataset.cs:134-149 | a read never changes the flag or the file, and a read that throws leaves the state unchanged |
| `Coordinator.PersistRecords` | Filebase/Dataset.cs:168-176 | the file becomes `Write` of the map; the cache becomes the map exactly when the dataset is non-volatile and is untouched otherwise |
| `Coordinator.GetAll` | Filebase/Dataset.cs:42-46 | leaves the state `GetRecords` leaves and fails exactly when the read fails |
| `Coordinator.GetById` | Filebase/Dataset.cs:61-67 | fails exactly when the read fails; otherwise yields a record exactly when the id is stored, and then the stored record |
| `Coordinator.AddOrUpdate` | Filebase/Dataset.cs:85-91 | succeeds exactly when the current map can be read, leaves the state unchanged when it cannot, and never changes the flag |
| `Coordinator.Delete` | Filebase/Dataset.cs:108-117 | succeeds exactly when the current map can be read, leaves the state unchanged when it cannot, and never changes the flag |
| `Coordinator.VolatileBypassesCache` | Filebase/Dataset.cs:134-176 | a volatile dataset reads storage and leaves the state as it was; its writes leave the cache untouched |
| `Coordinator.CachedReadIgnoresStorage` | Filebase/Dataset.cs:136-139 | a non-volatile dataset with cached data returns the cached map whatever the file holds, and changes nothing |
| `Coordinator.MissFillsCache` | Filebase/Dataset.cs:141-148 | on a cache miss a non-volatile dataset returns what storage gives and caches it; a failed read caches nothing |
| `Coordinator.StaleCacheAfterOutOfBandWrite` | Filebase/Dataset.cs:134-149 | after a read has filled the cache, a change to the file by another writer is not seen by a non-volatile dataset but is seen by a volatile one |
| `Coordinator.GetAllIsTheValues` | Filebase/Dataset.cs:42-46 | `GetAll` yields as many records as there are ids, and a record occurs exactly when some id maps to it |
| `Coordinator.GetAllOfEmptyStorage` | Tests/DatasetTests.cs:46-52 | with nothing to serve from the cache, a missing or empty file gives an empty collection, not an error |
| `Coordinator.GetByIdOfMissingRecord` | Filebase/FilebaseDataset.cs:65-71 | `GetById` is null, not an error, when the backing file is missing or the id is not stored |
| `Coordinator.GetByIdAfterAddOrUpdate` | Filebase/Dataset.cs:85-91 | after a successful `AddOrUpdate(r)`, `GetById(idExtractor(r))` yields `r`, in either mode |
| `Coordinator.AddOrUpdateStoresUpdatedMap` | Filebase/Dataset.cs:87-90 | the file becomes the write of the map just read with the record's id set, and the next read returns that map |
| `Coordinator.AddOrUpdateLeavesOtherIds` | Filebase/Dataset.cs:89 | every other id reads the same before and after `AddOrUpdate` |
| `Coordinator.AddOrUpdateCount` | Tests/FilebaseDatasetTests.cs:158-191 | a new id grows `GetAll` by one, an existing id keeps the count, and the record is in the collection afterwards |
| `Coordinator.DeleteRemovesOnlyId` | Filebase/Dataset.cs:108-117 | after `Delete(id)`, `GetById(id)` is null and every other id reads as before |
| `Coordinator.DeleteCount` | Filebase/FilebaseDataset.cs:112-121 | deleting a stored id removes exactly one occurrence of its record and shrinks the count by one |
| `Coordinator.DeleteOfMissingIdRewrites` | Filebase/Dataset.cs:105-117 | deleting an id that is not stored still writes the unchanged map, with no early exit, and the next read returns the same map |
| `Coordinator.DeleteWithoutFileCreatesFile` | Filebase/FileStorageProvider.cs:67-78 | a delete on a fresh dataset with no backing file creates a file holding the encoded empty map |
| `Coordinator.DeleteOneOfTwo` | Tests/FilebaseDatasetTests.cs:194-209 | deleting one of two records leaves a count of one, and the other record is still retrieved |
| `Coordinator.DeleteLastRemovesFile` | Tests/FilebaseDatasetTests.cs:212-227 | deleting the last record of a coherent dataset removes the backing file, and `GetAll` is then empty |
| `Coordinator.WriteSynchronisesCache` | Filebase/Dataset.cs:168-176 | after a successful write in non-volatile mode, the cache holds exactly the map storage holds |
| `Coordinator.OperationsPreserveCoherence` | Filebase/Dataset.cs:134-176 | every read and write keeps the cache and storage in agreement |
| `Coordinator.ToggleServesStaleCache` | Filebase/Dataset.cs:35 | the flag does not clear the cache: a cache filled before a volatile phase hides a record that was added during it |
| `Datasets.Dataset.constructor` | Filebase/Dataset.cs:23-35 | a new dataset is volatile, has a fresh empty cache, and uses the given storage |
| `Datasets.Dataset.GetAll` | Filebase/Dataset.cs:42-46 | returns the records of the current map (as a multiset) and leaves the state `Coordinator.GetAll` gives |
| `Datasets.Dataset.GetById` | Filebase/Dataset.cs:61-67 | result and new state are those of `Coordinator.GetById` |
| `Datasets.Dataset.AddOrUpdate` | Filebase/Dataset.cs:85-91 | result and new state are those of `Coordinator.AddOrUpdate` |
| `Datasets.Dataset.Delete` | Filebase/Dataset.cs:108-117 | result and new state are those of `Coordinator.Delete` |
| `Datasets.Dataset.GetRecords` | Filebase/Dataset.cs:134-149 | result and new state are those of `Coordinator.GetRecords` |
| `Datasets.Dataset.PersistRecords` | Filebase/Dataset.cs:168-176 | the new state is that of `Coordinator.PersistRecords` |
| `FilebaseDatasets.Combine` | Filebase/FilebaseDataset.cs:30 | `Path.Combine` returns the second path when the first is empty or the second is rooted (`IsRooted`: it starts with '/'), and the first path when the second is empty; when both are non-empty and the second is not rooted, it joins them, adding one separator exactly when the first does not already end with one |
| `FilebaseDatasets.BackingFilePath` | Filebase/FilebaseDataset.cs:30 | the backing file path `Path.Combine(root, name + ".json")` always ends with the name plus `.json`, and is just `name.json` when the root is empty or the name is rooted |
| `FilebaseDatasets.BackingFilePathShape` | Tests/FilebaseDatasetTests.cs:153 | the backing file is `<root>/<name>.json`: it starts with the root directory, ends with the name plus `.json`, and has at most the one separator between them |
| `FilebaseDatasets.FilebaseDataset.constructor` | Filebase/FilebaseDataset.cs:25-39 | a new dataset's storage is bound to `Combine(root, name + ".json")`; the dataset is volatile and has nothing cached |
| `FilebaseDatasets.FilebaseDataset.GetAll` | Filebase/FilebaseDataset.cs:46-50 | returns the records of the current map (as a multiset) and leaves the state `Coordinator.GetAll` gives |
| `FilebaseDatasets.FilebaseDataset.GetById` | Filebase/FilebaseDataset.cs:65-71 | result and new state are those of `Coordinator.GetById` |
| `FilebaseDatasets.FilebaseDataset.AddOrUpdate` | Filebase/FilebaseDataset.cs:89-95 | result and new state are those of `Coordinator.AddOrUpdate` |
| `FilebaseDatasets.FilebaseDataset.Delete` | Filebase/FilebaseDataset.cs:112-121 | result and new state are those of `Coordinator.Delete` |
| `FilebaseDatasets.FilebaseDataset.GetRecords` | Filebase/FilebaseDataset.cs:138-153 | result and new state are those of `Coordinator.GetRecords` |
| `FilebaseDatasets.FilebaseDataset.PersistRecords` | Filebase/FilebaseDataset.cs:172-180 | the new state is that of `Coordinator.PersistRecords` |
| `FilebaseDatasets.AddThenFind` | Tests/FilebaseDatasetTests.cs:158-174 | a caller that adds a record and then looks up its id finds that record, provided the map could be read |

## Left out

- The asynchronous twins (`GetAllAsync`, `ReadFileAsync`, `WriteFileAsync` and the rest) have the same decision structure as the blocking methods, so only the blocking path is modelled.
- Real file I/O: opening, reading, writing and deleting the file, and `Refresh`, are reduced to the `file` field. OS-level failures are not modelled, so a write never fails. As a result, the order "cache first, then write" in `PersistRecords` has no observable effect in the model.
- Newtonsoft.Json is the `Codec` parameter. Its formatting, and exceptions raised while serialising (a reference loop, for example), are not modelled. Its round trip is the `Lawful()` assumption, not a proof.
- Null arguments: the code does not check `record` or `id` itself. A null id makes the dictionary throw. Ids are modelled as non-null strings and records as values, so this error path does not exist in the model.
- The `?? new T[0]` and `?? Enumerable.Empty<T>()` fallbacks in `GetAll` are not modelled. They only fire when the map is null, and the storage provider never returns null.
- Aliasing: in non-volatile mode the dictionary handed back by `GetRecords` is the cached object itself, mutated in place before `PersistRecords` stores it again. The model uses values. The final state is the same, because nothing can throw between the in-place change and the cache update. Two aliasing effects are not captured. A `FilebaseDataset.GetAll` result is a live view of the cached dictionary's values. Records are shared references that callers could mutate.
- `FilebaseDataset.FileStorageProvider` has an internal setter. The model binds the provider once, in the constructor.
- The directory creation done by `FilebaseContext` and `DatasetFactory` is not part of this model. The context's root directory is given as its full path.
- `FilebaseDatasets.Combine` models `Path.Combine` with the Unix rules ('/' separator, rooted when the path starts with '/'). Windows drive letters and the '\' separator are not modelled.
- `Datasets.Dataset.GetAll` and `FilebaseDatasets.FilebaseDataset.GetAll` return the records in an unspecified order, because the dictionary's enumeration order is not specified. The contract fixes the multiset of records, not their order.
- The mocked storage used by `Tests/DatasetTests.cs`, which returns a fixed dictionary, is represented by a backing file whose content decodes to that dictionary.
- Concurrency is not modelled. The code has no locks, retries or backoff, and the tests that start parallel reads and writes assert nothing beyond completion.
