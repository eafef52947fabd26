/** The ingest route of src/server/send_handler.go: a request is checked
    for the shared secret, a data part and a name, a fresh 8-character name
    is drawn until the store has no record under it, the ttl is validated,
    the tags are split, the blob is written, and `addMetadata` stores the
    record and pushes the name onto the recently-uploaded list. */
module SendHandler {
  import opened Wrappers
  import opened Records
  import Text
  import Storage
  import Auth
  import opened ServerCore

  /** The 62 symbols generated names and delete keys are drawn from. */
  const DICTIONARY: string := "abcdefghijklmnopqrstuvwxyzABCDEFGHIJKLMNOPQRSTUVWXYZ0123456789"
  const NAME_SIZE: nat := 8
  const DELETE_KEY_SIZE: nat := 16

  /** The process-wide `math/rand` source. `draw` is the stream of values it
      produces; the k-th call of `Int31n(n)` answers `draw(k) % n`. */
  class Rng {
    const draw: nat -> nat
    var drawn: nat

    constructor (draw: nat -> nat)
      ensures this.draw == draw && drawn == 0
    {
      this.draw := draw;
      drawn := 0;
    }

    /** `rand.Int31n(n)`: a value in [0, n). */
    method Int31n(n: nat) returns (r: nat)
      requires n > 0
      modifies this`drawn
      ensures r < n
      ensures r == draw(old(drawn)) % n && drawn == old(drawn) + 1
    {
      r := draw(drawn) % n;
      drawn := drawn + 1;
    }
  }

  /** The `size` characters a source with stream `draw` produces from its
      `from`-th draw on. */
  function RandomChars(draw: nat -> nat, from: nat, size: nat): (r: string)
    ensures |r| == size
    ensures forall k | 0 <= k < size :: r[k] in DICTIONARY
  {
    if size == 0 then []
    else RandomChars(draw, from, size - 1) + [DICTIONARY[draw(from + size - 1) % |DICTIONARY|]]
  }

  /** `randomString(size)`: one character of the dictionary per draw. */
  method RandomString(rng: Rng, size: nat) returns (result: string)
    modifies rng`drawn
    ensures result == RandomChars(rng.draw, old(rng.drawn), size)
    ensures rng.drawn == old(rng.drawn) + size
  {
    result := "";
    var i := 0;
    while i < size
      invariant 0 <= i <= size
      invariant rng.drawn == old(rng.drawn) + i
      invariant result == RandomChars(rng.draw, old(rng.drawn), i)
    {
      var c := rng.Int31n(|DICTIONARY|);
      result := result + [DICTIONARY[c]];
      i := i + 1;
    }
  }

  /** How the name-allocation loop ends. The source loops until it finds a
      free name; `Exhausted` is what the model returns when its bound on
      attempts runs out first. */
  datatype Allocation = Allocated(name: string) | LookupFailed(name: string) | Exhausted

  /** What the allocation loop ends with on the store `bucket`, when the
      source's draws are taken from its `from`-th on and at most `fuel`
      names are tried: a name whose lookup fails stops it with an error, a
      name whose lookup finds no record (or one with an empty file name)
      is taken. */
  function AllocationOf(draw: nat -> nat, from: nat, bucket: map<string, Entry>, fuel: nat): (r: Allocation)
    ensures r.Allocated? ==> |r.name| == NAME_SIZE && forall k | 0 <= k < |r.name| :: r.name[k] in DICTIONARY
    ensures r.Allocated? ==> r.name !in bucket || (bucket[r.name].Decoded? && bucket[r.name].meta.filename == "")
    ensures r.LookupFailed? ==> r.name in bucket && bucket[r.name].Garbled?
    ensures fuel > 0 && bucket == map[] ==> r.Allocated?
    decreases fuel
  {
    if fuel == 0 then Exhausted
    else
      var name := RandomChars(draw, from, NAME_SIZE);
      if name in bucket && bucket[name].Garbled? then LookupFailed(name)
      else if name !in bucket || bucket[name].meta.filename == "" then Allocated(name)
      else AllocationOf(draw, from + NAME_SIZE, bucket, fuel - 1)
  }

  /** The allocation loop: draw a name, look it up, stop with an error when
      the lookup fails, stop with the name when the record found has an
      empty file name. */
  method AllocateName(s: Server, rng: Rng, fuel: nat) returns (r: Allocation)
    modifies rng`drawn
    ensures r == AllocationOf(rng.draw, old(rng.drawn), s.metaBucket, fuel)
  {
    var tries := 0;
    while tries < fuel
      invariant tries <= fuel
      invariant AllocationOf(rng.draw, old(rng.drawn), s.metaBucket, fuel) ==
                AllocationOf(rng.draw, rng.drawn, s.metaBucket, fuel - tries)
      decreases fuel - tries
    {
      var name := RandomString(rng, NAME_SIZE);
      var entry := s.GetEntry(name);
      if entry.Err? {
        return LookupFailed(name);
      }
      if entry.value.filename == "" {
        return Allocated(name);
      }
      tries := tries + 1;
    }
    return Exhausted;
  }

  /** `tags`: no field gives no tags, otherwise its first value split on
      ','. */
  function TagsOf(tagsField: seq<string>): (tags: seq<string>)
    ensures |tagsField| == 0 ==> tags == []
    ensures |tagsField| > 0 ==> |tags| >= 1 && Text.Join(tags, ',') == tagsField[0]
    ensures forall i | 0 <= i < |tags| :: ',' !in tags[i]
  {
    if |tagsField| == 0 then []
    else
      Text.JoinSplit(tagsField[0], ',');
      Text.Split(tagsField[0], ',')
  }

  /** The recently-uploaded list after `name` was stored: `name` first,
      then the old list, whose last element is dropped when the list would
      grow past the bound. */
  function PushRecent(list: seq<string>, name: string): (r: seq<string>)
    ensures |r| == if |list| + 1 > MAX_LAST_UPLOADED then |list| else |list| + 1
    ensures |r| >= 1 && r[0] == name
    ensures r[1..] == list[..|r| - 1]
  {
    var pushed := [name] + list;
    if |pushed| > MAX_LAST_UPLOADED then pushed[..|pushed| - 1] else pushed
  }

  /** A list within the bound stays within it. */
  lemma PushRecentBounded(list: seq<string>, name: string)
    requires |list| <= MAX_LAST_UPLOADED
    ensures |PushRecent(list, name)| <= MAX_LAST_UPLOADED
  {
  }

  /** The list after storing each of `names` in turn. */
  function PushAll(list: seq<string>, names: seq<string>): seq<string>
    decreases |names|
  {
    if names == [] then list else PushAll(PushRecent(list, names[0]), names[1..])
  }

  function Reversed(s: seq<string>): (r: seq<string>)
    ensures |r| == |s|
  {
    if s == [] then [] else Reversed(s[1..]) + [s[0]]
  }

  function Min(a: int, b: int): int
  {
    if a <= b then a else b
  }

  // The lemmas from here to `PushAllRecent` are the steps of its proof,
  // each stated on its own so that the solver proves one small fact at a
  // time; they state nothing about the source beyond that proof.

  /** Appending the same front to a sequence and to a prefix of it keeps
      the prefix relation. */
  lemma AppendPrefix(r: seq<string>, x: seq<string>, p: seq<string>)
    requires |p| <= |x| && p == x[..|p|]
    ensures r + p == (r + x)[..|r| + |p|]
  {
  }

  /** A prefix of a prefix is a prefix. */
  lemma PrefixOfPrefix(a: seq<string>, b: seq<string>, k: nat)
    requires |a| <= |b| && a == b[..|a|] && k <= |a|
    ensures a[..k] == b[..k]
  {
  }

  /** Pushing one name behind a front `r`: the list cut to the bound is
      the front, the name and the old list, cut to the bound. */
  lemma PushRecentPrefix(r: seq<string>, list: seq<string>, name: string)
    requires |list| <= MAX_LAST_UPLOADED
    ensures var p := PushRecent(list, name);
      (r + p)[..Min(|r| + |p|, MAX_LAST_UPLOADED)] == (r + ([name] + list))[..Min(|r| + 1 + |list|, MAX_LAST_UPLOADED)]
  {
    var p := PushRecent(list, name);
    assert p == ([name] + list)[..|p|];
    AppendPrefix(r, [name] + list, p);
    PrefixOfPrefix(r + p, r + ([name] + list), Min(|r| + |p|, MAX_LAST_UPLOADED));
  }

  /** The inductive step: if storing the other names after the first one
      gives their listing, storing all of them gives the listing of all. */
  lemma PushAllStep(list: seq<string>, names: seq<string>)
    requires |list| <= MAX_LAST_UPLOADED && names != []
    requires var p := PushRecent(list, names[0]);
      PushAll(p, names[1..]) == (Reversed(names[1..]) + p)[..Min(|names| - 1 + |p|, MAX_LAST_UPLOADED)]
    ensures PushAll(list, names) == (Reversed(names) + list)[..Min(|names| + |list|, MAX_LAST_UPLOADED)]
  {
    var r := Reversed(names[1..]);
    PushRecentPrefix(r, list, names[0]);
    ReversedAppend(names, list);
    assert |r| + 1 + |list| == |names| + |list|;
  }

  /** Reversing puts the first name right before what followed the list. */
  lemma ReversedAppend(names: seq<string>, list: seq<string>)
    requires names != []
    ensures Reversed(names) + list == Reversed(names[1..]) + ([names[0]] + list)
  {
    var r := Reversed(names[1..]);
    assert Reversed(names) == r + [names[0]];
    AppendAssoc(r, [names[0]], list);
  }

  /** Sequence concatenation is associative. */
  lemma AppendAssoc(a: seq<string>, b: seq<string>, c: seq<string>)
    ensures (a + b) + c == a + (b + c)
  {
  }

  /** Storing names one after another on a list within the bound leaves the
      most recent names first: the newest ones, newest first, then the
      oldest of the old list cut to the bound. */
  lemma {:induction false} PushAllRecent(list: seq<string>, names: seq<string>)
    requires |list| <= MAX_LAST_UPLOADED
    ensures PushAll(list, names) == (Reversed(names) + list)[..Min(|names| + |list|, MAX_LAST_UPLOADED)]
    decreases |names|
  {
    if names != [] {
      PushRecentBounded(list, names[0]);
      PushAllRecent(PushRecent(list, names[0]), names[1..]);
      PushAllStep(list, names);
    }
  }

  /** Injected failures of the steps whose errors the source only logs:
      the blob write, the bolt `Put` of the record, and the read of the
      recently-uploaded list. */
  datatype SendFaults = SendFaults(write: bool, store: bool, readRecent: bool)

  /** `addMetadata`: store the record under `name`; only when that
      succeeded and the recently-uploaded list could be read, push `name`
      onto it. Every failure is only logged. */
  method AddMetadata(s: Server, name: string, original: string, tags: seq<string>, expirationTime: Time,
                     ttl: string, key: string, now: Time, faults: SendFaults)
    modifies s`metaBucket, s`lastUploaded
    ensures faults.store ==> s.metaBucket == old(s.metaBucket)
    ensures !faults.store ==>
      s.metaBucket == old(s.metaBucket)[name := Decoded(Metadata(original, name, tags, ttl, expirationTime, key, now))]
    ensures s.lastUploaded == if faults.store || faults.readRecent then old(s.lastUploaded)
                              else PushRecent(old(s.lastUploaded), name)
    ensures old(s.Valid()) && Storage.Consistent(s.lib.parseDuration, Metadata(original, name, tags, ttl, expirationTime, key, now))
            ==> s.Valid()
  {
    var metadata := Metadata(original, name, tags, ttl, expirationTime, key, now);
    if faults.store {
      return;
    }
    s.metaBucket := s.metaBucket[name := Decoded(metadata)];
    if faults.readRecent {
      return;
    }
    var lastUploaded := [name] + s.lastUploaded;
    if |lastUploaded| > MAX_LAST_UPLOADED {
      lastUploaded := lastUploaded[..|lastUploaded| - 1];
    }
    s.lastUploaded := lastUploaded;
  }

  /** A multipart upload: the secret header, the data part (None when it
      cannot be received or read), and the values of the "name", "ttl" and
      "tags" form fields. */
  datatype SendRequest = SendRequest(
    secretHeader: string,
    data: Option<Bytes>,
    nameField: seq<string>,
    ttlField: seq<string>,
    tagsField: seq<string>)

  /** The JSON answer of a successful upload. */
  datatype SendResponse = SendResponse(name: string, deleteKey: string, expirationTime: Time)

  datatype SendOutcome = Forbidden | BadRequest | InternalError | Sent(response: SendResponse)

  /** The ttl the record keeps: the first "ttl" value, or "" without one. */
  function TtlOf(ttlField: seq<string>): string
  {
    if |ttlField| > 0 then ttlField[0] else ""
  }

  /** The last steps of the ingest route, once the name is allocated and
      the ttl checked: split the tags, write the blob (its failure is only
      logged), draw the delete key and store the record. */
  method StoreUpload(s: Server, rng: Rng, name: string, original: string, data: Bytes, ttl: string,
                     expirationTime: Time, tagsField: seq<string>, now: Time, faults: SendFaults)
    returns (response: SendResponse)
    modifies s`backend, s`metaBucket, s`lastUploaded, rng`drawn
    ensures response.name == name && response.expirationTime == expirationTime
    ensures |response.deleteKey| == DELETE_KEY_SIZE
    ensures s.backend == Storage.WriteFile(s.config, old(s.backend), name, data, faults.write).0
    ensures s.metaBucket == if faults.store then old(s.metaBucket)
                            else old(s.metaBucket)[name := Decoded(Metadata(
                              original, name, TagsOf(tagsField), ttl, expirationTime, response.deleteKey, now))]
    ensures s.lastUploaded == if faults.store || faults.readRecent then old(s.lastUploaded)
                              else PushRecent(old(s.lastUploaded), name)
    ensures old(s.Valid()) && (ttl != "" ==> s.lib.parseDuration(ttl).Some?)
            && expirationTime == Storage.ComputeEndOfLife(s.lib.parseDuration, ttl, now)
            ==> s.Valid()
  {
    var tags := TagsOf(tagsField);

    var _ := s.WriteFile(name, data, faults.write);

    var deleteKey := RandomString(rng, DELETE_KEY_SIZE);
    AddMetadata(s, name, original, tags, expirationTime, ttl, deleteKey, now, faults);

    response := SendResponse(name, deleteKey, expirationTime);
  }

  /** `SendHandler.ServeHTTP`. */
  method ServeSend(s: Server, rng: Rng, req: SendRequest, now: Time, fuel: nat, faults: SendFaults)
    returns (out: SendOutcome)
    modifies s`backend, s`metaBucket, s`lastUploaded, rng`drawn
    ensures out == Forbidden <==> !Auth.IsAuthValid(s.config.secretKey, req.secretHeader)
    ensures Auth.IsAuthValid(s.config.secretKey, req.secretHeader) && req.data.None? ==> out == InternalError
    ensures Auth.IsAuthValid(s.config.secretKey, req.secretHeader) && req.data.Some? && req.nameField == [] ==>
      out == BadRequest
    ensures out == BadRequest ==>
      req.nameField == [] || (|req.ttlField| > 0 && s.lib.parseDuration(req.ttlField[0]).None?)
    ensures var allocation := AllocationOf(rng.draw, old(rng.drawn), old(s.metaBucket), fuel);
      Auth.IsAuthValid(s.config.secretKey, req.secretHeader) && req.data.Some? && req.nameField != [] ==>
        && (!allocation.Allocated? ==> out == InternalError)
        && (allocation.Allocated? && |req.ttlField| > 0 && s.lib.parseDuration(req.ttlField[0]).None? ==>
              out == BadRequest)
        && (allocation.Allocated? && (|req.ttlField| > 0 ==> s.lib.parseDuration(req.ttlField[0]).Some?) ==>
              out.Sent? && out.response.name == allocation.name)
    ensures !out.Sent? ==>
      s.backend == old(s.backend) && s.metaBucket == old(s.metaBucket) && s.lastUploaded == old(s.lastUploaded)
    ensures out.Sent? ==>
      var name := out.response.name;
      var ttl := TtlOf(req.ttlField);
      && req.data.Some? && req.nameField != []
      && |name| == NAME_SIZE && (forall k | 0 <= k < |name| :: name[k] in DICTIONARY)
      && |out.response.deleteKey| == DELETE_KEY_SIZE
      && (old(s.Valid()) ==> name !in old(s.metaBucket))
      && (ttl != "" ==> s.lib.parseDuration(ttl).Some?)
      && out.response.expirationTime == Storage.ComputeEndOfLife(s.lib.parseDuration, ttl, now)
      && s.backend == Storage.WriteFile(s.config, old(s.backend), name, req.data.value, faults.write).0
      && s.metaBucket == (if faults.store then old(s.metaBucket)
                          else old(s.metaBucket)[name := Decoded(Metadata(
                            s.lib.base(req.nameField[0]), name, TagsOf(req.tagsField), ttl,
                            out.response.expirationTime, out.response.deleteKey, now))])
      && s.lastUploaded == (if faults.store || faults.readRecent then old(s.lastUploaded)
                            else PushRecent(old(s.lastUploaded), name))
    ensures && Auth.IsAuthValid(s.config.secretKey, req.secretHeader) && req.data.Some? && req.nameField != []
            && (|req.ttlField| > 0 ==> s.lib.parseDuration(req.ttlField[0]).Some?)
            && fuel > 0 && old(s.metaBucket) == map[]
            ==> out.Sent?
    ensures old(s.Valid()) ==> s.Valid()
  {
    var key := req.secretHeader;
    if s.config.secretKey != "" && key != s.config.secretKey {
      return Forbidden;
    }
    if req.data.None? {
      return InternalError;
    }
    var data := req.data.value;
    if |req.nameField| == 0 {
      return BadRequest;
    }
    var original := s.lib.base(req.nameField[0]);

    var allocation := AllocateName(s, rng, fuel);
    if !allocation.Allocated? {
      return InternalError;
    }
    var name := allocation.name;

    var expirationTime := ZERO_TIME;
    var ttl := "";
    if |req.ttlField| > 0 {
      ttl := req.ttlField[0];
      if s.lib.parseDuration(ttl).None? {
        return BadRequest;
      }
      expirationTime := Storage.ComputeEndOfLife(s.lib.parseDuration, ttl, now);
    }

    var response := StoreUpload(s, rng, name, original, data, ttl, expirationTime, req.tagsField, now, faults);
    out := Sent(response);
  }
}
