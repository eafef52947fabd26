/** The serving route of src/server/serving_handler.go: look the record
    up, expire it on the spot when its ttl has run out, otherwise read the
    blob and answer it, resized when both a width and a height are given. */
module ServingHandler {
  import opened Wrappers
  import opened Records
  import Storage
  import opened ServerCore

  /** The response header carrying the original file name. */
  const HEADER_ORIGINAL_FILENAME: string := "X-Upd-Orig-Filename"

  const PNG: string := "image/png"
  const JPEG: string := "image/jpeg"

  /** Go's `uint(x)` on a 64-bit platform: the value modulo 2^64. */
  function ToUint(x: int): (u: nat)
    ensures u < 0x1_0000_0000_0000_0000
    ensures 0 <= x < 0x1_0000_0000_0000_0000 ==> u == x
    ensures (u - x) % 0x1_0000_0000_0000_0000 == 0
  {
    x % 0x1_0000_0000_0000_0000
  }

  /** The lazy check on read: a record with a ttl is dead once its creation
      instant plus the parsed ttl (zero when it does not parse, the error
      being dropped) lies strictly before `now`. */
  predicate LazyDead(parse: string -> Option<Duration>, m: Metadata, now: Time)
  {
    m.ttl != "" && m.creationTime + parse(m.ttl).GetOr(0) < now
  }

  /** Whether serving `id` expires the record the lookup found: there is
      one, and it is dead. */
  predicate Expires(parse: string -> Option<Duration>, id: string, entry: Result<Metadata, LookupError>, now: Time)
  {
    id != "" && entry.Ok? && entry.value.filename != "" && LazyDead(parse, entry.value, now)
  }

  /** Whether the lookup found a record that is still alive, so that the
      route goes on to read its blob. */
  predicate Live(parse: string -> Option<Duration>, id: string, entry: Result<Metadata, LookupError>, now: Time)
  {
    id != "" && entry.Ok? && entry.value.filename != "" && !LazyDead(parse, entry.value, now)
  }

  /** `Resize`: empty data and content types other than PNG and JPEG pass
      through untouched; otherwise the resized image, or the original data
      when decoding or encoding fails. */
  function Resize(lib: Library, contentType: string, data: Bytes, width: nat, height: nat): (r: Bytes)
    ensures |data| == 0 ==> r == data
    ensures contentType != PNG && contentType != JPEG ==> r == data
    ensures lib.resizeImage(contentType, data, width, height).None? ==> r == data
    ensures r == data || lib.resizeImage(contentType, data, width, height) == Some(r)
  {
    if |data| == 0 then data
    else if contentType != PNG && contentType != JPEG then data
    else match lib.resizeImage(contentType, data, width, height)
      case None => data
      case Some(resized) => resized
  }

  /** What the route answers: a bare status, or the served body with its
      content type and original name. */
  datatype ServeOutcome =
    | NotFound
    | InternalError
    | BadRequest
    | Served(contentType: string, originalName: string, body: Bytes)

  /** Injected failures: of the expiry's backend removal, and of the read. */
  datatype ServeFaults = ServeFaults(expire: bool, read: bool)

  /** `ServingHandler.ServeHTTP` for the file `id` with the "w" and "h"
      form values (empty when absent). */
  method ServeFile(s: Server, id: string, width: string, height: string, now: Time, faults: ServeFaults)
    returns (out: ServeOutcome)
    modifies s`metaBucket, s`metadata, s`backend
    ensures id == "" ==> out == NotFound
    ensures id != "" && old(s.GetEntry(id)).Err? ==> out == InternalError
    ensures id != "" && old(s.GetEntry(id)).Ok? && old(s.GetEntry(id)).value.filename == "" ==> out == NotFound
    ensures Expires(s.lib.parseDuration, id, old(s.GetEntry(id)), now) ==>
      var m := old(s.GetEntry(id)).value;
      && out == NotFound
      && s.metaBucket == old(s.metaBucket) - {m.filename}
      && s.metadata == old(s.metadata).(data := old(s.metadata.data) - {m.filename})
      && s.backend == Storage.RemoveFile(s.config, old(s.backend), m.filename, faults.expire).0
    ensures !Expires(s.lib.parseDuration, id, old(s.GetEntry(id)), now) ==>
      s.metaBucket == old(s.metaBucket) && s.metadata == old(s.metadata) && s.backend == old(s.backend)
    ensures out.BadRequest? ==>
      width != "" && height != "" && (s.lib.atoi(width).None? || s.lib.atoi(height).None?)
    ensures out.Served? ==>
      var m := old(s.GetEntry(id)).value;
      var data := Storage.ReadFile(s.config, s.backend, m.filename, faults.read);
      && id != "" && old(s.GetEntry(id)).Ok? && m.filename != ""
      && !LazyDead(s.lib.parseDuration, m, now)
      && data.Ok?
      && out.originalName == m.original
      && out.contentType == s.lib.detectContentType(data.value)
      && (width == "" || height == "" ==> out.body == data.value)
      && (width != "" && height != "" ==>
            && s.lib.atoi(width).Some? && s.lib.atoi(height).Some?
            && out.body == Resize(s.lib, out.contentType, data.value,
                                  ToUint(s.lib.atoi(width).value), ToUint(s.lib.atoi(height).value)))
    ensures && id != "" && old(s.GetEntry(id)).Ok? && old(s.GetEntry(id)).value.filename != ""
            && !LazyDead(s.lib.parseDuration, old(s.GetEntry(id)).value, now)
            && (width == "" || height == "")
            ==> (out.Served? <==> Storage.ReadFile(s.config, old(s.backend), old(s.GetEntry(id)).value.filename, faults.read).Ok?)
    ensures Live(s.lib.parseDuration, id, old(s.GetEntry(id)), now) &&
            Storage.ReadFile(s.config, old(s.backend), old(s.GetEntry(id)).value.filename, faults.read).Err?
            ==> out == InternalError
    ensures Live(s.lib.parseDuration, id, old(s.GetEntry(id)), now) &&
            Storage.ReadFile(s.config, old(s.backend), old(s.GetEntry(id)).value.filename, faults.read).Ok? &&
            width != "" && height != ""
            ==> (out == BadRequest <==> s.lib.atoi(width).None? || s.lib.atoi(height).None?)
    ensures Live(s.lib.parseDuration, id, old(s.GetEntry(id)), now) &&
            Storage.ReadFile(s.config, old(s.backend), old(s.GetEntry(id)).value.filename, faults.read).Ok? &&
            (width == "" || height == "" || (s.lib.atoi(width).Some? && s.lib.atoi(height).Some?))
            ==> out.Served?
    ensures old(s.Valid()) ==> s.Valid()
  {
    if |id| == 0 {
      return NotFound;
    }
    var entry := s.GetEntry(id);
    if entry.Err? {
      return InternalError;
    }
    var m := entry.value;
    if m.filename == "" {
      return NotFound;
    }

    if m.ttl != "" {
      var duration := s.lib.parseDuration(m.ttl).GetOr(0);
      var fileEndlife := m.creationTime + duration;
      if fileEndlife < now {
        var _ := s.Expire(m, faults.expire);
        return NotFound;
      }
    }

    var read := s.ReadFile(m.filename, faults.read);
    if read.Err? {
      return InternalError;
    }
    var data := read.value;
    var contentType := s.lib.detectContentType(data);

    if |width| != 0 && |height| != 0 {
      var iwidth := s.lib.atoi(width);
      if iwidth.None? {
        return BadRequest;
      }
      var iheight := s.lib.atoi(height);
      if iheight.None? {
        return BadRequest;
      }
      data := Resize(s.lib, contentType, data, ToUint(iwidth.value), ToUint(iheight.value));
    }

    out := Served(contentType, m.original, data);
  }
}
