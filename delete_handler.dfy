/** The delete route of src/server/delete_handler.go: a file is removed
    only by whoever holds the delete key returned at upload. The record is
    looked up in the in-memory metadata map, not in the bolt bucket. */
module DeleteHandler {
  import opened Wrappers
  import opened Records
  import Storage
  import opened ServerCore

  datatype DeleteOutcome = BadRequest | NotFound | Forbidden | InternalError | Deleted(body: string)

  const DELETED_BODY: string := "File deleted."

  /** `Metadata.Data[id]`: a missing key reads as the zero record. */
  function Lookup(data: map<string, Metadata>, id: string): (m: Metadata)
    ensures id !in data ==> m == ZERO_METADATA
    ensures id in data ==> m == data[id]
  {
    if id in data then data[id] else ZERO_METADATA
  }

  /** `DeleteHandler.ServeHTTP` for the route variables `id` and `key`;
      `fault` is a failing backend removal. */
  method ServeDelete(s: Server, id: string, key: string, fault: bool) returns (out: DeleteOutcome)
    modifies s`metaBucket, s`metadata, s`backend, s`metadataFile
    ensures out == BadRequest <==> id == "" || key == ""
    ensures id != "" && key != "" && Lookup(old(s.metadata.data), id).filename == "" ==> out == NotFound
    ensures (id != "" && key != "" && Lookup(old(s.metadata.data), id).filename != "" &&
             Lookup(old(s.metadata.data), id).deleteKey != key) ==> out == Forbidden
    ensures (id != "" && key != "" && Lookup(old(s.metadata.data), id).filename != "" &&
             Lookup(old(s.metadata.data), id).deleteKey == key) ==> out.InternalError? || out.Deleted?
    ensures out.BadRequest? || out.NotFound? || out.Forbidden? ==>
      && s.metaBucket == old(s.metaBucket) && s.metadata == old(s.metadata)
      && s.backend == old(s.backend) && s.metadataFile == old(s.metadataFile)
    ensures out.InternalError? || out.Deleted? ==>
      var entry := Lookup(old(s.metadata.data), id);
      var (backend', err) := Storage.RemoveFile(s.config, old(s.backend), entry.filename, fault);
      && id != "" && key != "" && entry.filename != "" && entry.deleteKey == key
      && s.metaBucket == old(s.metaBucket) - {entry.filename}
      && s.metadata == old(s.metadata).(data := old(s.metadata.data) - {entry.filename})
      && s.backend == backend'
      && (out.InternalError? <==> err.Some?)
      && (out.InternalError? ==> s.metadataFile == old(s.metadataFile))
      && (out.Deleted? ==> out.body == DELETED_BODY && s.metadataFile == Present(Some(s.metadata)))
    ensures old(s.Valid()) ==> s.Valid()
  {
    if |id| == 0 || |key| == 0 {
      return BadRequest;
    }

    var entry := Lookup(s.metadata.data, id);
    if entry.filename == "" {
      return NotFound;
    }

    if entry.deleteKey != key {
      return Forbidden;
    }

    var err := s.Expire(entry, fault);
    if err.Some? {
      return InternalError;
    }

    s.WriteMetadata();
    out := Deleted(DELETED_BODY);
  }
}
