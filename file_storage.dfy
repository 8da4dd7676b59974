/** FileStorageProvider: reads and writes a dataset's whole record map as
    the text of one backing file. The file system is the `file` field (the
    backing file is absent, or present with some text); the JSON library is
    a `Codec` given as two functions. */
module FileStorage {
  import opened Wrappers

  /** What deserialising a file's text yields: a JSON null (the result for
      an empty text), a record map, or an exception for any other text. */
  datatype Decoded<T> = Null | Records(records: map<string, T>) | Malformed

  /** The JSON serialiser and deserialiser for a record map. */
  datatype Codec<!T(!new)> = Codec(encode: map<string, T> -> string, decode: string -> Decoded<T>)
  {
    /** What the storage layer relies on: an empty text reads as null, and
        whatever the serialiser writes reads back as the same map. */
    ghost predicate Lawful()
    {
      && decode("") == Null
      && forall m :: decode(encode(m)) == Records(m)
    }
  }

  /** The state of the backing file on disk. */
  datatype File = Absent | Present(text: string)

  /** The deserialiser rejected the file's text. */
  datatype StorageError = CorruptData

  /** ReadFile's outcome for a given file state. */
  function Read<T(!new)>(file: File, codec: Codec<T>): (r: Result<map<string, T>, StorageError>)
    ensures r.Failure? <==> file.Present? && codec.decode(file.text).Malformed?
    ensures r.Success? && r.value != map[] ==> file.Present? && codec.decode(file.text) == Records(r.value)
    ensures file.Present? && codec.decode(file.text).Records? ==> r == Success(codec.decode(file.text).records)
    ensures file.Absent? || (file.Present? && codec.decode(file.text).Null?) ==> r == Success(map[])
  {
    match file
    case Absent => Success(map[])
    case Present(text) =>
      match codec.decode(text)
      case Null => Success(map[])
      case Records(records) => Success(records)
      case Malformed => Failure(CorruptData)
  }

  /** The file state WriteFile leaves behind. */
  function Write<T(!new)>(file: File, records: map<string, T>, codec: Codec<T>): (written: File)
    ensures written == Absent <==> |records| == 0 && file.Present?
    ensures written.Present? ==> written.text == codec.encode(records)
  {
    if |records| == 0 && file.Present? then Absent else Present(codec.encode(records))
  }

  /** Whatever the file held before, reading after a write yields exactly
      the map that was written. */
  lemma ReadAfterWrite<T(!new)>(file: File, records: map<string, T>, codec: Codec<T>)
    requires codec.Lawful()
    ensures Read(Write(file, records, codec), codec) == Success(records)
  {
    if |records| == 0 {
      assert records == map[];
    }
  }

  /** A missing file and an empty file both read as the empty map. */
  lemma MissingOrEmptyFileReadsEmpty<T(!new)>(codec: Codec<T>)
    requires codec.Lawful()
    ensures Read(Absent, codec) == Success(map[])
    ensures Read(Present(""), codec) == Success(map[])
  {
  }

  /** Writing an empty map deletes an existing file, and writes nothing; on
      a missing file it creates one holding the encoded empty map. Either
      way the file then reads as empty. */
  lemma EmptyWriteCollapses<T(!new)>(file: File, codec: Codec<T>)
    requires codec.Lawful()
    ensures file.Present? ==> Write(file, map[], codec) == Absent
    ensures file.Absent? ==> Write(file, map[], codec) == Present(codec.encode(map[]))
    ensures Read(Write(file, map[], codec), codec) == Success(map[])
  {
  }

  class FileStorageProvider<T(!new)> {
    /** The backing file's path. */
    const backingFile: string
    const codec: Codec<T>
    /** The backing file as it is on disk now. */
    var file: File

    constructor (backingFile: string, codec: Codec<T>, file: File)
      ensures this.backingFile == backingFile && this.codec == codec && this.file == file
    {
      this.backingFile := backingFile;
      this.codec := codec;
      this.file := file;
    }

    /** After a refresh, whether the backing file is on disk. */
    function BackingFileExists(): (present: bool)
      reads this
      ensures present <==> file != Absent
    {
      file.Present?
    }

    /** Reads and decodes the whole file; a missing file or a null decode
        gives the empty map. Nothing on disk changes. */
    method ReadFile() returns (r: Result<map<string, T>, StorageError>)
      ensures r == Read(file, codec)
      ensures codec.Lawful() && file == Present("") ==> r == Success(map[])
    {
      if !BackingFileExists() {
        return Success(map[]);
      }
      var json := file.text;
      var records := codec.decode(json);
      match records
      case Malformed =>
        r := Failure(CorruptData);
      case Null =>
        r := Success(map[]);
      case Records(m) =>
        r := Success(m);
    }

    /** Deletes the file when the map is empty and the file exists;
        otherwise creates or overwrites it with the map's encoding. */
    method WriteFile(records: map<string, T>)
      modifies this
      ensures file == Write(old(file), records, codec)
      ensures codec.Lawful() ==> Read(file, codec) == Success(records)
    {
      if |records| == 0 && BackingFileExists() {
        file := Absent;
        return;
      }
      var newJson := codec.encode(records);
      file := Present(newJson);
      if codec.Lawful() {
        ReadAfterWrite(old(file), records, codec);
      }
    }
  }
}
