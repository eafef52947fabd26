/** The storage dispatch of src/server/file.go: where `WriteFile`,
    `ReadFile` and the backend half of `Expire` put, find and remove a blob
    for each storage kind, and `computeEndOfLife`. The backend is a value
    here; the `Server` methods of the same names apply these functions to
    the server's backend field. */
module Storage {
  import opened Wrappers
  import opened Records

  /** The blobs: local files by full path, and objects of the configured S3
      bucket by key. */
  datatype Backend = Backend(disk: map<string, Bytes>, objects: map<string, Bytes>)

  /** Why a storage call failed. `Unsupported` carries the storage kind, as
      the "[err] Unsupported storage: %s" error does. */
  datatype StorageError = IoError(path: string) | S3Error(key: string) | Unsupported(storage: string)

  /** The path of a file named `filename` in directory `dir`. */
  function FsPath(dir: string, filename: string): string
  {
    dir + "/" + filename
  }

  /** `Server.WriteFile`. On "fs" the file goes under the output directory;
      `fault` stands for a failing create, write or close, which leaves no
      file. On "s3" `fault` is a failing `PutObject`; a successful put still
      reaches the final "Unsupported storage" return. */
  function WriteFile(cfg: Config, b: Backend, filename: string, data: Bytes, fault: bool): (Backend, Option<StorageError>)
  {
    if cfg.storage == FS_STORAGE then
      var path := FsPath(cfg.fs.outputDirectory, filename);
      if fault then (b, Some(IoError(path))) else (b.(disk := b.disk[path := data]), None)
    else if cfg.storage == S3_STORAGE then
      if fault then (b, Some(S3Error(filename)))
      else (b.(objects := b.objects[filename := data]), Some(Unsupported(cfg.storage)))
    else (b, Some(Unsupported(cfg.storage)))
  }

  /** `Server.ReadFile`. On "fs" a missing file is the open error; `fault`
      stands for a failing read of an opened file, or for a failing
      `GetObject` or body read on "s3". */
  function ReadFile(cfg: Config, b: Backend, filename: string, fault: bool): Result<Bytes, StorageError>
  {
    if cfg.storage == FS_STORAGE then
      var path := FsPath(cfg.fs.outputDirectory, filename);
      if path !in b.disk || fault then Err(IoError(path)) else Ok(b.disk[path])
    else if cfg.storage == S3_STORAGE then
      if filename !in b.objects || fault then Err(S3Error(filename)) else Ok(b.objects[filename])
    else Err(Unsupported(cfg.storage))
  }

  /** The backend half of `Server.Expire`. On "fs" the file removed is the
      one under the runtime directory; removing a missing file is an error.
      On "s3" `fault` is a failing `DeleteObject`; deleting a missing key
      succeeds, as it does on S3. */
  function RemoveFile(cfg: Config, b: Backend, filename: string, fault: bool): (Backend, Option<StorageError>)
  {
    if cfg.storage == FS_STORAGE then
      var path := FsPath(cfg.runtimeDir, filename);
      if path !in b.disk || fault then (b, Some(IoError(path))) else (b.(disk := b.disk - {path}), None)
    else if cfg.storage == S3_STORAGE then
      if fault then (b, Some(S3Error(filename))) else (b.(objects := b.objects - {filename}), None)
    else (b, Some(Unsupported(cfg.storage)))
  }

  /** `computeEndOfLife`: the zero instant for an empty ttl, otherwise
      `now` plus the parsed duration (a duration that does not parse counts
      as zero, the error being dropped). */
  function ComputeEndOfLife(parse: string -> Option<Duration>, ttl: string, now: Time): (t: Time)
    ensures |ttl| == 0 ==> t == ZERO_TIME
    ensures |ttl| > 0 && parse(ttl).Some? ==> t == now + parse(ttl).value
  {
    if |ttl| == 0 then ZERO_TIME else now + parse(ttl).GetOr(0)
  }

  /** A record as the send handler builds it: its ttl parses (or is empty)
      and its expiration instant is the end of life computed from its
      creation instant. */
  ghost predicate Consistent(parse: string -> Option<Duration>, m: Metadata)
  {
    && (m.ttl != "" ==> parse(m.ttl).Some?)
    && m.expirationTime == ComputeEndOfLife(parse, m.ttl, m.creationTime)
  }

  /** Each of the three calls reports "Unsupported storage" for a storage
      kind other than "fs" and "s3", and leaves the backend alone. */
  lemma UnsupportedStorage(cfg: Config, b: Backend, filename: string, data: Bytes, fault: bool)
    requires cfg.storage != FS_STORAGE && cfg.storage != S3_STORAGE
    ensures WriteFile(cfg, b, filename, data, fault) == (b, Some(Unsupported(cfg.storage)))
    ensures ReadFile(cfg, b, filename, fault) == Err(Unsupported(cfg.storage))
    ensures RemoveFile(cfg, b, filename, fault) == (b, Some(Unsupported(cfg.storage)))
  {
  }

  /** On either supported storage, reading a name just written without a
      fault gives back the written bytes. */
  lemma ReadAfterWrite(cfg: Config, b: Backend, filename: string, data: Bytes)
    requires cfg.storage == FS_STORAGE || cfg.storage == S3_STORAGE
    ensures ReadFile(cfg, WriteFile(cfg, b, filename, data, false).0, filename, false) == Ok(data)
  {
  }

  /** The S3 write stores the object and still returns an error: the
      success path falls through to "Unsupported storage". A failed put
      returns its own error and stores nothing. */
  lemma S3WriteOutcome(cfg: Config, b: Backend, filename: string, data: Bytes, fault: bool)
    requires cfg.storage == S3_STORAGE
    ensures var (b', err) := WriteFile(cfg, b, filename, data, fault);
      && err.Some?
      && (fault ==> b' == b && err == Some(S3Error(filename)))
      && (!fault ==> filename in b'.objects && b'.objects[filename] == data && err == Some(Unsupported(S3_STORAGE)))
  {
  }

  /** Two paths that end in the same file name are equal only when their
      directories are. */
  lemma PathsAgree(d1: string, d2: string, filename: string)
    ensures FsPath(d1, filename) == FsPath(d2, filename) <==> d1 == d2
  {
    if FsPath(d1, filename) == FsPath(d2, filename) {
      var p := FsPath(d1, filename);
      assert |d1| == |d2|;
      assert d1 == p[..|d1|];
      assert d2 == p[..|d2|];
    }
  }

  /** On "fs", expiring a blob just written removes it exactly when the
      runtime directory is the output directory: the write goes under one
      and the removal under the other. */
  lemma ExpireAfterWriteOnFs(cfg: Config, b: Backend, filename: string, data: Bytes)
    requires cfg.storage == FS_STORAGE
    ensures var written := WriteFile(cfg, b, filename, data, false).0;
      var (removed, err) := RemoveFile(cfg, written, filename, false);
      && (FsPath(cfg.fs.outputDirectory, filename) !in removed.disk <==> cfg.runtimeDir == cfg.fs.outputDirectory)
      && (cfg.runtimeDir == cfg.fs.outputDirectory ==> err.None?)
  {
    PathsAgree(cfg.runtimeDir, cfg.fs.outputDirectory, filename);
  }
}
