/** The `Server` of src/server/server.go and the methods of
    src/server/file.go that act on it. The server holds its configuration,
    the in-memory `Metadatas` (persisted as metadata.json under the runtime
    directory), the bolt database (which buckets exist, the "Metadata"
    bucket, and the recently-uploaded list kept in the "LastUploaded"
    bucket), and the blob backend. */
module ServerCore {
  import opened Wrappers
  import opened Records
  import Storage

  /** metadata.json as the server finds it: absent, present but unreadable,
      or readable, with the snapshot it decodes to (None when it does not
      decode). */
  datatype JsonFile = Missing | Unreadable | Present(decoded: Option<Metadatas>)

  /** Whether the daemon goes on, or exits with a status code. */
  datatype Startup = Running | Exit(code: int)

  /** A lookup failure: the stored bytes under `key` do not decode. */
  datatype LookupError = Undecodable(key: string)

  /** The persistent state the process starts from. */
  datatype World = World(
    metadataFile: JsonFile,
    buckets: set<string>,
    metaBucket: map<string, Entry>,
    lastUploaded: seq<string>,
    backend: Storage.Backend)

  const METADATA_BUCKET: string := "Metadata"
  const LAST_UPLOADED_BUCKET: string := "LastUploaded"

  class Server {
    const config: Config
    const lib: Library
    var metadata: Metadatas
    var metadataFile: JsonFile
    var dbOpen: bool
    var buckets: set<string>
    var metaBucket: map<string, Entry>
    var lastUploaded: seq<string>
    var backend: Storage.Backend

    /** What ingest keeps true: the recently-uploaded list is within its
        bound, and every decodable record sits under its own generated name
        with its expiration derived from its ttl and creation instant. */
    ghost predicate Valid()
      reads this
    {
      && |lastUploaded| <= MAX_LAST_UPLOADED
      && forall k | k in metaBucket && metaBucket[k].Decoded? ::
           metaBucket[k].meta.filename == k && Storage.Consistent(lib.parseDuration, metaBucket[k].meta)
    }

    /** `NewServer`: the configured storage kind and an empty map in the
        in-memory metadata; the database is not open yet. */
    constructor (config: Config, lib: Library, now: Time, world: World)
      ensures this.config == config && this.lib == lib
      ensures metadata == Metadatas(config.storage, now, map[])
      ensures !dbOpen
      ensures metadataFile == world.metadataFile && buckets == world.buckets
      ensures metaBucket == world.metaBucket && lastUploaded == world.lastUploaded
      ensures backend == world.backend
    {
      this.config := config;
      this.lib := lib;
      metadata := Metadatas(config.storage, now, map[]);
      metadataFile := world.metadataFile;
      dbOpen := false;
      buckets := world.buckets;
      metaBucket := world.metaBucket;
      lastUploaded := world.lastUploaded;
      backend := world.backend;
    }

    /** `GetEntry` (its body is not part of this model): a missing name reads
        as the zero record, whose file name is empty, and a value that does
        not decode is an error. */
    function GetEntry(name: string): (r: Result<Metadata, LookupError>)
      reads this
      ensures name !in metaBucket ==> r == Ok(ZERO_METADATA)
      ensures r.Err? <==> name in metaBucket && metaBucket[name].Garbled?
      ensures r.Ok? && r.value.filename != "" ==> name in metaBucket && metaBucket[name] == Decoded(r.value)
    {
      if name !in metaBucket then Ok(ZERO_METADATA)
      else match metaBucket[name]
        case Decoded(m) => Ok(m)
        case Garbled => Err(Undecodable(name))
    }

    method WriteFile(filename: string, data: Bytes, fault: bool) returns (err: Option<Storage.StorageError>)
      modifies this`backend
      ensures (backend, err) == Storage.WriteFile(config, old(backend), filename, data, fault)
    {
      var written := Storage.WriteFile(config, backend, filename, data, fault);
      backend, err := written.0, written.1;
    }

    method ReadFile(filename: string, fault: bool) returns (r: Result<Bytes, Storage.StorageError>)
      ensures r == Storage.ReadFile(config, backend, filename, fault)
      ensures r.Ok? ==> config.storage == FS_STORAGE || config.storage == S3_STORAGE
    {
      r := Storage.ReadFile(config, backend, filename, fault);
    }

    /** `Expire`: the record is deleted from the store first (from the bolt
        bucket and from the in-memory map), and only then is the blob
        removed, so the record is gone even when the removal fails. */
    method Expire(m: Metadata, fault: bool) returns (err: Option<Storage.StorageError>)
      modifies this`metaBucket, this`metadata, this`backend
      ensures metaBucket == old(metaBucket) - {m.filename}
      ensures metadata == old(metadata).(data := old(metadata.data) - {m.filename})
      ensures (backend, err) == Storage.RemoveFile(config, old(backend), m.filename, fault)
      ensures old(Valid()) ==> Valid()
    {
      // deleteMetadata
      metaBucket := metaBucket - {m.filename};
      metadata := metadata.(data := metadata.data - {m.filename});
      var removed := Storage.RemoveFile(config, backend, m.filename, fault);
      backend, err := removed.0, removed.1;
    }

    /** `writeMetadata`: metadata.json now holds the in-memory snapshot. */
    method WriteMetadata()
      modifies this`metadataFile
      ensures metadataFile == Present(Some(metadata))
    {
      metadataFile := Present(Some(metadata));
    }

    /** `readMetadata`: with no metadata.json one is written from the
        in-memory snapshot; an unreadable one stops the process; otherwise
        its decoded content replaces the snapshot wholesale (content that
        does not decode gives the zero snapshot), and a storage kind other
        than the configured one stops the process. */
    method ReadMetadata() returns (status: Startup)
      modifies this`metadata, this`metadataFile
      ensures old(metadataFile).Missing? ==>
        status == Running && metadata == old(metadata) && metadataFile == Present(Some(old(metadata)))
      ensures old(metadataFile).Unreadable? ==>
        status == Exit(1) && metadata == old(metadata) && metadataFile == old(metadataFile)
      ensures old(metadataFile).Present? ==>
        && metadataFile == old(metadataFile)
        && metadata == old(metadataFile).decoded.GetOr(ZERO_METADATAS)
        && status == (if metadata.storage == config.storage then Running else Exit(1))
    {
      match metadataFile
      case Missing =>
        WriteMetadata();
        status := Running;
      case Unreadable =>
        status := Exit(1);
      case Present(decoded) =>
        var data := decoded.GetOr(ZERO_METADATAS);
        metadata := data;
        if data.storage != config.storage {
          status := Exit(1);
          return;
        }
        status := Running;
    }

    /** `openBoltDatabase`: a failing open stops the process; otherwise the
        database is open and both buckets exist. */
    method OpenBoltDatabase(openFault: bool) returns (status: Startup)
      modifies this`dbOpen, this`buckets
      ensures openFault ==> status == Exit(1) && dbOpen == old(dbOpen) && buckets == old(buckets)
      ensures !openFault ==> status == Running && dbOpen && buckets == old(buckets) + {METADATA_BUCKET, LAST_UPLOADED_BUCKET}
    {
      if openFault {
        return Exit(1);
      }
      dbOpen := true;
      buckets := buckets + {METADATA_BUCKET, LAST_UPLOADED_BUCKET};
      status := Running;
    }

    /** The startup part of `Start`: open the database, then read the
        metadata. A daemon that goes on runs with the storage kind its
        persisted metadata was created with. */
    method Start(openFault: bool) returns (status: Startup)
      modifies this`dbOpen, this`buckets, this`metadata, this`metadataFile
      ensures status.Running? ==> dbOpen && METADATA_BUCKET in buckets && LAST_UPLOADED_BUCKET in buckets
      ensures status.Running? && old(metadataFile).Present? ==> metadata.storage == config.storage
      ensures old(metadataFile).Missing? ==>
        status == (if openFault then Exit(1) else Running) && metadata == old(metadata)
      ensures status.Running? && old(metadataFile).Missing? ==> metadataFile == Present(Some(metadata))
      ensures !status.Running? ==> status == Exit(1)
    {
      status := OpenBoltDatabase(openFault);
      if status.Running? {
        status := ReadMetadata();
      }
    }
  }

  /** A freshly constructed server runs on its configured storage kind,
      both before and after a startup that found no metadata.json. */
  method NewServerStorage(config: Config, lib: Library, now: Time, world: World) returns (status: Startup, s: Server)
    requires world.metadataFile.Missing?
    ensures status == Running
    ensures s.metadata.storage == config.storage && s.metadataFile == Present(Some(s.metadata))
  {
    s := new Server(config, lib, now, world);
    status := s.Start(false);
  }
}
