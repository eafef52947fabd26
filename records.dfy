/** The values the server keeps: the per-file `Metadata` record, the way a
    record sits in the bolt "Metadata" bucket, the in-memory `Metadatas`
    snapshot persisted to metadata.json, the configuration, and the foreign
    library calls the handlers make, gathered in one `Library` value. */
module Records {
  import opened Wrappers

  newtype byte = x: int | 0 <= x < 256
  type Bytes = seq<byte>

  /** An instant, as nanoseconds since Go's zero `time.Time`
      (January 1 of year 1, UTC). The zero instant stands for "never". */
  type Time = int
  const ZERO_TIME: Time := 0

  const MIN_DURATION: int := -0x8000_0000_0000_0000
  const MAX_DURATION: int := 0x7FFF_FFFF_FFFF_FFFF

  /** `time.Duration`: a signed 64-bit count of nanoseconds. */
  type Duration = d: int | MIN_DURATION <= d <= MAX_DURATION

  /** The two storage kinds the server knows. */
  const FS_STORAGE: string := "fs"
  const S3_STORAGE: string := "s3"

  /** The record kept for each hosted file. */
  datatype Metadata = Metadata(
    original: string,        // original name of the file
    filename: string,        // generated name, also the storage key
    tags: seq<string>,
    ttl: string,             // duration text as uploaded, "" for none
    expirationTime: Time,    // ZERO_TIME for never
    deleteKey: string,
    creationTime: Time)

  /** What decoding a missing key gives: every field empty. */
  const ZERO_METADATA: Metadata := Metadata("", "", [], "", ZERO_TIME, "", ZERO_TIME)

  /** A value of the bolt "Metadata" bucket: JSON that decodes to a record,
      or bytes that do not decode. */
  datatype Entry = Decoded(meta: Metadata) | Garbled

  /** The (key, value) pairs a bolt cursor visits, in its order. */
  type Cursor = seq<(string, Entry)>

  /** A cursor over `bucket` visits each of its pairs, and nothing else. */
  predicate IsSnapshot(bucket: map<string, Entry>, cursor: Cursor)
  {
    && (forall k | k in bucket :: exists i | 0 <= i < |cursor| :: cursor[i] == (k, bucket[k]))
    && (forall i | 0 <= i < |cursor| :: cursor[i].0 in bucket && bucket[cursor[i].0] == cursor[i].1)
  }

  /** The in-memory snapshot saved to metadata.json. */
  datatype Metadatas = Metadatas(storage: string, creationTime: Time, data: map<string, Metadata>)

  /** What unmarshalling nothing gives. */
  const ZERO_METADATAS: Metadatas := Metadatas("", ZERO_TIME, map[])

  datatype FSConfig = FSConfig(outputDirectory: string)

  datatype S3Config = S3Config(accessKey: string, accessSecret: string, bucket: string)

  /** The server configuration read from the TOML file. */
  datatype Config = Config(
    addr: string,
    secretKey: string,
    runtimeDir: string,
    route: string,
    certificateFile: string,
    certificateKey: string,
    storage: string,
    fs: FSConfig,
    s3: S3Config)

  /** The foreign calls of the server, fixed for the life of the process:
      `time.ParseDuration` (None for an error), `filepath.Base`,
      `http.DetectContentType`, `strconv.Atoi` (None for an error), and the
      decode-resize-encode of an image of the given content type (None when
      decoding or encoding fails). */
  datatype Library = Library(
    parseDuration: string -> Option<Duration>,
    base: string -> string,
    detectContentType: Bytes -> string,
    atoi: string -> Option<int>,
    resizeImage: (string, Bytes, nat, nat) -> Option<Bytes>)

  /** Bound on the recently-uploaded list. */
  const MAX_LAST_UPLOADED: nat := 20

  /** The header carrying the shared secret. */
  const SECRET_KEY_HEADER: string := "X-upd-key"
}
