# upd: a verified model of the file host's server and client logic

upd is a small ephemeral file host. A client uploads a file over HTTP. The
server stores the blob on the local file system or on S3. It keeps a
metadata record under a generated 8-character name, with an optional ttl,
tags and a delete key. The record can then be:

- served back, and expired lazily on read once its ttl has run out;
- deleted by whoever holds the delete key;
- swept by a background job once its expiration instant has passed;
- found by tag search;
- listed among the recent uploads.

This Dafny project models that logic and proves properties about it.

**The record store** (`ServerCore`) is a class `Server`. Its fields are the
state the Go `Server` changes:

- the in-memory `Metadatas` snapshot and the metadata.json file;
- the bolt database: whether it is open, which buckets exist, the
  "Metadata" bucket as a map from name to stored entry, and the
  recently-uploaded list;
- the blob backend, as a map per storage kind (`Storage.Backend`).

**Time** is an integer count of nanoseconds, with 0 as Go's zero
`time.Time`, which means "never". A duration is a value in the signed
64-bit range.

**Foreign calls are parameters.** The calls into Go's standard library
and into image codecs are fields of a `Library` value:

- `time.ParseDuration`, as a partial function;
- `filepath.Base`, `http.DetectContentType` and `strconv.Atoi`;
- decode-resize-encode of an image.

Other outside inputs are passed in as well:

- randomness is a stream of draws (`SendHandler.Rng`);
- the current instant is a parameter;
- bolt cursors are sequences of (key, entry) pairs in cursor order;
- failures of the file system, S3 and bolt are boolean fault parameters.

**What the handlers are proved to do.** Each route handler is a method
whose `ensures` gives:

- its decision chain: for each status (400/403/404/500 and success), the
  condition under which it is answered;
- its effect on the store;
- that it preserves the store invariant `Server.Valid()`. That invariant
  says every decodable record sits under its own name, with an expiration
  computed from its ttl and creation instant.

**Properties proved across modules**, each by its own lemma:

- the lazy expiry check on read and the sweep agree on every record
  ingest builds;
- the sweep expires exactly the decodable records whose expiration
  instant is set and past;
- tag search answers exactly the decodable records sharing a tag with
  the query;
- the recently-uploaded list stays most-recent-first within its bound;
- the routes dispatch as registered;
- the links the client prints reach the serving and delete routes.

**The executables** are modelled too:

- the server's configuration loading;
- the client's URI building;
- the command-line handling of both generations of the server and
  client.

Files: `wrappers.dfy` (Option/Result), `text.dfy` (`strings.Split`,
`strings.Trim`, `bytes.Compare`), `records.dfy` (the record types and
constants), `storage.dfy`, `server.dfy`, `router.dfy`, `auth.dfy`,
`send_handler.dfy`, `serving_handler.dfy`, `delete_handler.dfy`,
`clean_job.dfy`, `search_tags.dfy`, `last_uploaded.dfy`, `paths.dfy`,
`client.dfy`, `bin_server.dfy`, `legacy_server.dfy`, `bin_client.dfy`,
`legacy_client.dfy`, `lifecycle.dfy`.

## Model

| member | source | states |
|---|---|---|
| Text.JoinSplit | src/server/send_handler.go:113 | joining the pieces of `strings.Split` with the separator gives back the original string |
| Text.SplitJoin | src/server/send_handler.go:113 | splitting a join of separator-free pieces gives back the pieces |
| Text.Trim | src/server/search_tags.go:53 | `strings.Trim(s, " ")`: the result is the middle of `s` with no space at either end, and every character removed is a space |
| Text.Compare | src/server/last_uploaded.go:43 | `bytes.Compare`: -1, 0 or 1, and 0 exactly when the strings are equal |
| Text.CompareAntisymmetric | src/server/last_uploaded.go:43 | swapping the arguments negates the comparison |
| Text.CompareTransitive | src/server/last_uploaded.go:43 | the byte order is transitive |
| Storage.ComputeEndOfLife | src/server/file.go:152-159 | the zero instant for an empty ttl, otherwise `now` plus the parsed duration |
| Storage.UnsupportedStorage | src/server/file.go:28-149 | for a storage kind other than "fs" and "s3", write, read and removal all report "Unsupported storage" and change nothing |
| Storage.ReadAfterWrite | src/server/file.go:28-117 | on "fs" and on "s3", reading a name just written gives back the written bytes |
| Storage.S3WriteOutcome | src/server/file.go:48-69 | the S3 write returns an error on both paths: a failed put stores nothing, and a successful put stores the object and still reports "Unsupported storage" |
| Storage.ExpireAfterWriteOnFs | src/server/file.go:28-128 | on "fs" the write goes under the output directory and the removal under the runtime directory, so expiring a blob just written removes it exactly when the two directories are equal |
| ServerCore.Server.constructor | src/server/server.go:25-37 | `NewServer`: the snapshot carries the configured storage kind, the start instant and an empty data map |
| ServerCore.Server.GetEntry | src/server/serving_handler.go:42-53 | a missing name reads as the zero record, whose file name is empty; a stored value that does not decode is an error; a non-empty file name comes from a stored decodable record |
| ServerCore.Server.WriteFile | src/server/file.go:28-70 | the backend and error are those of the storage dispatch for the configured kind |
| ServerCore.Server.ReadFile | src/server/file.go:75-117 | the storage dispatch's read; success only on "fs" or "s3" |
| ServerCore.Server.Expire | src/server/file.go:121-149 | the record leaves the bolt bucket and the in-memory map before the blob is removed, so it is gone even when the removal fails; the store invariant is preserved |
| ServerCore.Server.WriteMetadata | src/server/server.go:149-164 | metadata.json holds the in-memory snapshot |
| ServerCore.Server.ReadMetadata | src/server/server.go:76-110 | no file: one is written from the snapshot; an unreadable file: exit 1; otherwise the decoded content replaces the snapshot wholesale (the zero snapshot when it does not decode), and a storage kind other than the configured one exits 1 |
| ServerCore.Server.OpenBoltDatabase | src/server/server.go:118-146 | an open failure exits 1 and changes nothing; otherwise the database is open and both buckets exist |
| ServerCore.Server.Start | src/server/server.go:40-50 | a daemon that goes on has its database open, both buckets, and persisted metadata of the configured storage kind |
| ServerCore.NewServerStorage | src/server/server.go:29-36 | a fresh server started without metadata.json runs on its configured storage and persists that snapshot |
| Router.DispatchUnderPrefix | src/server/server.go:167-186 | under a common route prefix, dispatching prefix + "/" + joined segments is dispatching the segments |
| Router.ApiDispatch | src/server/server.go:170-177 | "/1.0/send", "/1.0/list" and "/1.0/search_tags" under the route reach their handlers |
| Router.ApiSegments | src/server/server.go:170-177 | the segments "1.0" and an API name select that name's route, ahead of the routes made of variables |
| Router.DeleteDispatch | src/server/server.go:179-180 | `/{file}/{key}` reaches the delete handler for every pair of segments that is not one of the API paths |
| Router.ServeDispatch | src/server/server.go:182-183 | `/{file}` reaches the serving handler for every segment |
| Router.TableDispatch | src/server/server.go:167-186 | in the registered table each API path reaches its own handler although `/{file}/{key}` matches it too, every other two-segment path reaches the delete handler and every one-segment path the serving handler |
| Router.PrepareRouter | src/server/server.go:167-186 | the five routes are registered under the route, API routes first, in the order of the route table |
| Auth.IsAuthValid | src/server/auth_check.go:23-26 | true whenever no secret is configured; otherwise true exactly when the header equals the secret |
| Auth.AuthCheck | src/server/auth_check.go:12-19 | 403 with the invalid_credentials body exactly when the credentials are invalid, otherwise 200 with the ok body |
| Auth.InlineCheckAgrees | src/server/send_handler.go:40-44 | the check written inline in the handlers rejects exactly what `IsAuthValid` rejects |
| SendHandler.Rng.Int31n | src/server/send_handler.go:143 | each draw is below its bound and consumes one value of the stream |
| SendHandler.RandomChars | src/server/send_handler.go:139-147 | exactly `size` characters, each one of the 62 symbols of the dictionary |
| SendHandler.RandomString | src/server/send_handler.go:139-147 | `randomString` produces the characters of the next `size` draws and consumes exactly `size` draws |
| SendHandler.AllocationOf | src/server/send_handler.go:77-89 | a taken name is 8 dictionary characters whose lookup finds no record (or one with an empty file name); a failed lookup is a name whose stored value does not decode; on an empty store the first name drawn is taken |
| SendHandler.AllocateName | src/server/send_handler.go:77-89 | the loop ends with exactly the outcome `AllocationOf` gives for the store, the draws from the current position of the source, and the bound on attempts |
| SendHandler.TagsOf | src/server/send_handler.go:111-114 | no field gives no tags; otherwise comma-free tags that join back to the field's first value |
| SendHandler.PushRecent | src/server/send_handler.go:189-192 | the name comes first, followed by the old list, whose last element is dropped when the bound would be exceeded |
| SendHandler.PushRecentBounded | src/server/send_handler.go:189-192 | a list within the bound stays within it |
| SendHandler.PushAllRecent | src/server/send_handler.go:183-194 | after a series of uploads the list is the newest names, newest first, then the old list, cut to the bound |
| SendHandler.StoreUpload | src/server/send_handler.go:110-130 | writes the data under the name, stores the record with the split tags and a fresh 16-character delete key (unless the store fails), pushes the name on the recent list, keeps the store valid when the end of life is the one computed from the ttl, and answers the name, the key and the end of life |
| SendHandler.AddMetadata | src/server/send_handler.go:150-200 | stores the record built from its arguments under the name; pushes the name onto the recent list only when the store succeeded and the list was read; a failed store changes nothing |
| SendHandler.ServeSend | src/server/send_handler.go:38-136 | 403 exactly on bad credentials; 500 without data; 400 for a missing name; once a name is given, 500 when the allocation does not take a name, 400 when it does and the ttl does not parse, and otherwise success under the allocated name; 400 for nothing else; nothing changes unless the upload succeeds; on success the blob is written (its failure ignored), the record holds the base name, tags, ttl, end of life and delete key, the name was free in a valid store, and the answer repeats the name, key and expiration; validity is preserved |
| ServingHandler.ToUint | src/server/serving_handler.go:106 | Go's `uint` conversion on 64 bits: the value modulo 2^64 |
| ServingHandler.Resize | src/server/serving_handler.go:115-162 | empty data, a content type other than PNG or JPEG, and a failed decode or encode all return the data unchanged; otherwise the resized image |
| ServingHandler.ServeFile | src/server/serving_handler.go:29-113 | 404 for an empty id or no record, 500 for a lookup error; a dead ttl expires the record and answers 404 without reading; a live record answers 500 exactly when the read fails, and otherwise its bytes (resized only when both dimensions are given, 400 when either is not an integer) with its detected content type and original name |
| DeleteHandler.Lookup | src/server/delete_handler.go:30 | an id missing from the in-memory map reads as the zero record |
| DeleteHandler.ServeDelete | src/server/delete_handler.go:17-56 | 400, then 404, then 403, each leaving everything unchanged; a matching key expires the record, answering 500 on a removal error and otherwise re-saving metadata.json and answering "File deleted." |
| CleanJob.SweepSelection | src/server/clean_job.go:28-48 | the sweep selects at most one record per cursor position |
| CleanJob.SweepSelectionExact | src/server/clean_job.go:28-48 | a record is expired exactly when it is the decodable value of some cursor position and its expiration instant is set and before now |
| CleanJob.NeverExpiringKept | src/server/clean_job.go:37 | a record with the zero expiration instant is never swept |
| CleanJob.NoDeadRecordLeft | src/server/clean_job.go:28-39 | once the selection of a snapshot is removed from a store whose records sit under their own names, no decodable record left is dead |
| CleanJob.Run | src/server/clean_job.go:21-52 | expires exactly the selection in cursor order, removing those names from the bucket and the in-memory map and their blobs, whatever removal fails; reports a change exactly when something was expired; validity is preserved; on a snapshot of a valid store, no decodable record whose expiration is set and past remains |
| SearchTags.StringArrayContainsOne | src/server/search_tags.go:98-107 | true exactly when some value equals some tag |
| SearchTags.IntersectsEmpty | src/server/search_tags.go:98-107 | no match against an empty list |
| SearchTags.IntersectsSymmetric | src/server/search_tags.go:98-107 | the match does not depend on the order of the arguments |
| SearchTags.QueryTags | src/server/search_tags.go:50-54 | one query tag per comma-separated piece, trimmed of surrounding spaces |
| SearchTags.EntryOf | src/server/search_tags.go:74-81 | a result copies name, original, delete key, creation, expiration and tags from the record |
| SearchTags.SearchResults | src/server/search_tags.go:60-86 | at most one result per cursor position |
| SearchTags.SearchResultsExact | src/server/search_tags.go:60-86 | a result is answered exactly when it is the entry of a decodable record whose tags meet the query |
| SearchTags.SearchResultsOfStore | src/server/search_tags.go:60-86 | on a snapshot of the store, an entry is a result exactly when it is the entry of a decodable record of the store whose tags meet the query |
| SearchTags.ServeSearch | src/server/search_tags.go:35-95 | 403 exactly on bad credentials, 400 exactly for a missing or empty "tags", otherwise the search results of the trimmed query in cursor order; on a snapshot of the bucket, exactly the entries of the bucket's decodable records that share a tag with the query |
| LastUploaded.SeekIndex | src/server/last_uploaded.go:40-43 | `Seek(min)` lands on the first key at or after `min`, every earlier key sorting before it |
| LastUploaded.SeekIndexExact | src/server/last_uploaded.go:40-43 | on an ascending cursor, a position is at or after the seek exactly when its key sorts at or after `min` |
| LastUploaded.EntryOf | src/server/last_uploaded.go:52-57 | a listed entry carries name, original, delete key and creation instant of the record |
| LastUploaded.ScanUpToExact | src/server/last_uploaded.go:43-58 | on an ascending cursor, the scan up to `max` lists exactly the decodable values from the start position whose key sorts at or before `max` |
| LastUploaded.ListingExact | src/server/last_uploaded.go:36-60 | the listing holds exactly the decodable uploads keyed between "1990-01-01T00:00:00Z" and now |
| LastUploaded.ScanAsWritten | src/server/last_uploaded.go:41-43 | the loop as written: from the seek, it lists while keys sort at or after now |
| LastUploaded.AsWrittenMissesPastUploads | src/server/last_uploaded.go:41-43 | an upload keyed in 1999, listed in 2015, is missed by the loop as written and found by the intended one |
| LastUploaded.ServeList | src/server/last_uploaded.go:27-69 | 403 exactly on bad credentials, otherwise the intended listing |
| Paths.WithLeadingSlash | bin/server/server.go:44-46 | a route gets a '/' prepended only when it lacks one |
| Paths.StripTrailingSlash | bin/client/client.go:34-36 | one trailing '/' is removed when present, otherwise the string is unchanged |
| Paths.StripTrailingSlashShape | client/client.go:30-32 | the string is unchanged exactly when it does not end in '/', and loses at most one character |
| Paths.NormalizedRouteShape | bin/server/server.go:44-49 | the normalised route is empty exactly for "/", otherwise starts with '/', and is the slash-prefixed route with at most one trailing '/' removed |
| Paths.NormalizedRouteFixpoint | bin/server/server.go:44-49 | a route starting with '/' and not ending with '/' is left alone |
| Paths.NormalizedRouteIdempotent | bin/server/server.go:44-49 | normalising twice is normalising once, unless the route ended in "//" |
| Client.CreateClient | src/client/client.go:44-66 | "unsafe" skips certificate checks, a non-empty CA other than "none" is trusted as a file, anything else gives a plain client (each an if-and-only-if) |
| Client.UploadUri | src/client/client.go:95-106 | server URL + "/1.0/send", then "?ttl=" + ttl when a ttl is set, then '&' or '?' and "name=" + the escaped base name when the name is kept |
| Client.Send | src/client/client.go:33-155 | a read error is returned before anything is sent; the request carries the data, the upload URI `UploadUri`, the transport and the secret header only when a secret is set; no reply is a request failure; exactly the non-200 statuses are reported, with the status and the file name; after a 200 a body that cannot be read is a failure and otherwise the links are server URL + "/" + name and that + "/" + delete key |
| BinServer.Overlay | bin/server/server.go:38 | the decoded TOML overrides exactly the keys it sets |
| BinServer.ReadFromFile | bin/server/server.go:19-57 | defaults plus the error when the file cannot be read or decoded; otherwise the overlaid configuration with its route normalised (an empty route panics), and exit 1 exactly for a storage other than "fs" or "s3" |
| BinServer.StartupConfig | bin/server/server.go:71-82 | a configuration file that cannot be read or decoded starts the server on the defaults; any started configuration has a supported storage and a route that is empty or starts with '/' |
| LegacyServer.ParseFlags | server/server.go:12-36 | defaults ":9000", "./" and "/clioud"; the route normalised; an empty route panics |
| Flags.FlagValue | bin/client/client.go:24-28 | a flag's value is the given one, or its default |
| BinClient.ParseFlags | bin/client/client.go:20-47 | defaults "none" and "http://localhost:9000/clioud"; one trailing '/' stripped from the URL (an empty URL panics); a ttl error exactly when a non-empty ttl does not parse |
| BinClient.RunClient | bin/client/client.go:60-84 | exit 1 exactly on a ttl error; usage printed without file arguments; every file argument sent, in order |
| LegacyClient.ParseFlags | client/client.go:19-35 | default "http://localhost:9000/files"; one trailing '/' stripped (an empty URL panics) |
| LegacyClient.RunClient | client/client.go:48-68 | usage exactly when the process has no argument; every argument after the program name is sent, so none without arguments |
| Lifecycle.LazyDeadIffSweepDead | src/server/serving_handler.go:58-62 | for a record as ingest builds it (creation instant past 2^63 ns), the lazy check on read and the sweep's test agree on whether it is dead |
| Lifecycle.ValidRecordsAgree | src/server/clean_job.go:37 | the same agreement for every decodable record of a valid store |
| Lifecycle.UploadThenServe | src/server/send_handler.go:117-123 | on a fresh server, on "fs" or "s3", an upload without ttl is served back as the same bytes with their detected content type and the uploaded base name |
| Lifecycle.UploadExpiresOnRead | src/server/serving_handler.go:58-74 | once an upload's ttl has run out, reading it answers 404 and removes the record, and reading it again answers 404 |
| Lifecycle.UploadThenDelete | src/server/delete_handler.go:30-34 | the delete route answers 404 to the name and key an upload returned, because it looks in the in-memory map that ingest does not fill; the file stays served |
| Lifecycle.ClientLinksReachHandlers | src/client/client.go:147-148 | the printed links, on a server URL ending in the route, dispatch to the serving and the delete handler |

## Left out

- HTTP plumbing is not modelled: form and multipart parsing, header and response writing, JSON encoding and decoding, and gorilla/mux itself. Outcomes are status values. A request's data part that cannot be received or read is `None`. Route matching is a model of mux's `{variable}` templates.
- The JSON marshal failures are not modelled: in `addMetadata`, and when search or listing answers 500 and then still writes its body. The Content-Disposition header of the serving route is not modelled.
- Concurrency is not modelled: the ticker goroutine of the clean job, the per-file goroutines of the clients, and the unlocked writes of metadata.json. The sweep and tag search take the cursor as a parameter; what they promise about the store holds when the cursor visits exactly the bucket's pairs (`IsSnapshot`).
- CleanJob.Run: the source reads the clock once per record (src/server/clean_job.go:37). The model uses one instant `now` for the whole sweep, so a record whose expiration falls while the sweep runs is not modelled.
- Storage.WriteFile: on "fs", a write or close failure after the file was created (src/server/file.go:30-45) leaves an empty or partial file. The model's failing write leaves the backend unchanged.
- ServerCore.Server.ReadMetadata: the error of `json.Unmarshal` is ignored (src/server/server.go:98-100), so a file that fails to decode part-way yields the fields decoded so far. The model yields the zero snapshot for any content that does not decode.
- The AWS SDK, bolt, the file system and image codecs are abstract. The backend is two maps. Failures are boolean fault parameters. Resizing is a `Library` oracle.
- The S3 region setting is not modelled: the credentials and region are not part of where an object lives in the model.
- `GetEntry`, `deleteMetadata`, `GetLastUploaded`, `SetLastUploaded` and `MAX_LAST_UPLOADED` are not part of this model's source files. They are modelled as:
  - a missing key reads as the zero record, and an undecodable value is an error;
  - deletion removes from the bolt bucket and the in-memory map;
  - the list is a field of the server;
  - the bound is 20.
- The error checked after `SetLastUploaded` is not modelled (src/server/send_handler.go:194-199). That check re-tests the earlier read error, so a failing `SetLastUploaded` goes unnoticed.
- SendHandler.AllocateName: the source redraws names until one is free, with no bound. The model takes a bound on attempts (`fuel`); running out of it is the `Exhausted` outcome, which answers 500.
- Storage.ComputeEndOfLife: Go's `Time.Add` keeps seconds and nanoseconds in fixed-width fields. Instants here are unbounded integers, so an end of life beyond Go's range is not wrapped.
- Lifecycle.LazyDeadIffSweepDead: requires a creation instant more than 2^63 ns after the zero instant. Before that, an end of life of exactly the zero instant reads as "never" to the sweep.
- ServerCore.Server.WriteMetadata: the exit on a failing create of metadata.json is not modelled.
- ServerCore.Server.OpenBoltDatabase: bucket creation errors are not modelled; the source only logs them.
- BinServer.ReadFromFile: a TOML file that fails to decode part-way leaves the fields decoded so far in the returned configuration. The model returns the defaults for any decoding error.
- The `-c` flag of bin/server/server.go (the configuration file name) is not modelled: the file's contents are the parameter.
- Printing the usage text and the flag defaults is not modelled: the clients report only whether usage was printed. `server/server.go` calls `NewServer` with its `Flags`, a type the current server package does not take. Only its `parseFlags` is modelled.
- Client.Send: the multipart encoding errors and a failing `http.NewRequest` are not modelled. The "Available until" line is not modelled either, since it reads a field the answer does not have.
- `src/client/send.go` and `src/client/search_tags.go` are not modelled: they depend on helpers that are not part of this model's source files, and are network and printing code. `src/server/cors.go` is not modelled: it is header middleware.

## Findings

| source | as written | input that shows it | evidently intended | confidence | as-written member | corrected member |
|---|---|---|---|---|---|---|
| src/server/last_uploaded.go:41-43 | after seeking to "1990-01-01T00:00:00Z", the scan continues while the key sorts at or after `time.Now().String()` | one upload keyed "1999-12-31T00:00:00Z" in the "LastUploaded" bucket, listed on 2015-06-01: the key sorts before now, so nothing is listed | list the uploads whose keys lie between the lower bound and now: continue while the key sorts at or before now | medium, not executed | LastUploaded.ScanAsWritten, LastUploaded.AsWrittenMissesPastUploads | LastUploaded.ServeList, LastUploaded.ListingExact |
