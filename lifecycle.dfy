/** How the routes of one server fit together over the life of a file:
    the two expiry checks agree on the records ingest stores, an upload is
    served back byte for byte, a ttl makes the next read expire the file,
    the delete route does not find a fresh upload, and the links the
    client prints reach the serving and delete routes. */
module Lifecycle {
  import opened Wrappers
  import opened Records
  import Storage
  import opened ServerCore
  import SendHandler
  import ServingHandler
  import DeleteHandler
  import CleanJob
  import Router

  /** The lazy check of the serving route and the test of the sweep agree
      on a record as ingest builds it, once its creation instant lies more
      than 2^63 ns after the zero instant (any date after the year 293):
      before that, an end of life computed as exactly the zero instant
      would read as "never" to the sweep. */
  lemma LazyDeadIffSweepDead(parse: string -> Option<Duration>, m: Metadata, now: Time)
    requires Storage.Consistent(parse, m)
    requires m.creationTime > -MIN_DURATION
    ensures ServingHandler.LazyDead(parse, m, now) <==> CleanJob.SweepDead(m, now)
  {
    if m.ttl != "" {
      var d := parse(m.ttl).value;
      assert m.expirationTime == m.creationTime + d;
      assert m.expirationTime != ZERO_TIME;
    }
  }

  /** The same, for every decodable record of a server whose store is
      valid. */
  lemma ValidRecordsAgree(s: Server, k: string, now: Time)
    requires s.Valid()
    requires k in s.metaBucket && s.metaBucket[k].Decoded?
    requires s.metaBucket[k].meta.creationTime > -MIN_DURATION
    ensures ServingHandler.LazyDead(s.lib.parseDuration, s.metaBucket[k].meta, now) <==>
            CleanJob.SweepDead(s.metaBucket[k].meta, now)
  {
    LazyDeadIffSweepDead(s.lib.parseDuration, s.metaBucket[k].meta, now);
  }

  /** An upload with the given "ttl" field and no tags, by a client that
      sends the configured secret. */
  function Upload(config: Config, data: Bytes, filename: string, ttlField: seq<string>): SendHandler.SendRequest
  {
    SendHandler.SendRequest(config.secretKey, Some(data), [filename], ttlField, [])
  }

  const NO_SEND_FAULTS: SendHandler.SendFaults := SendHandler.SendFaults(false, false, false)
  const NO_SERVE_FAULTS: ServingHandler.ServeFaults := ServingHandler.ServeFaults(false, false)

  /** A fresh server on either storage kind stores an upload without a
      ttl and then serves it back: the same bytes, their detected content
      type, and the base name of the uploaded file. */
  method UploadThenServe(config: Config, lib: Library, started: Time, world: World, draw: nat -> nat,
                         data: Bytes, filename: string, now: Time, later: Time, fuel: nat)
    returns (sent: SendHandler.SendOutcome, served: ServingHandler.ServeOutcome)
    requires config.storage == FS_STORAGE || config.storage == S3_STORAGE
    requires world.metaBucket == map[]
    requires fuel > 0
    ensures sent.Sent? && sent.response.expirationTime == ZERO_TIME
    ensures served == ServingHandler.Served(lib.detectContentType(data), lib.base(filename), data)
  {
    var s := new Server(config, lib, started, world);
    var rng := new SendHandler.Rng(draw);
    sent := SendHandler.ServeSend(s, rng, Upload(config, data, filename, []), now, fuel, NO_SEND_FAULTS);
    var name := sent.response.name;
    Storage.ReadAfterWrite(config, world.backend, name, data);
    served := ServingHandler.ServeFile(s, name, "", "", later, NO_SERVE_FAULTS);
  }

  /** An upload with a ttl that parses is gone once the ttl has run out:
      the next read answers 404 and removes the record, so a second read
      answers 404 as well. */
  method UploadExpiresOnRead(config: Config, lib: Library, started: Time, world: World, draw: nat -> nat,
                             data: Bytes, filename: string, ttl: string, now: Time, later: Time, fuel: nat)
    returns (sent: SendHandler.SendOutcome, served: ServingHandler.ServeOutcome,
             servedAgain: ServingHandler.ServeOutcome, remaining: map<string, Entry>)
    requires world.metaBucket == map[]
    requires fuel > 0
    requires ttl != "" && lib.parseDuration(ttl).Some?
    requires later > now + lib.parseDuration(ttl).value
    ensures sent.Sent? && sent.response.expirationTime == now + lib.parseDuration(ttl).value
    ensures served == ServingHandler.NotFound && servedAgain == ServingHandler.NotFound
    ensures remaining == map[]
  {
    var s := new Server(config, lib, started, world);
    var rng := new SendHandler.Rng(draw);
    sent := SendHandler.ServeSend(s, rng, Upload(config, data, filename, [ttl]), now, fuel, NO_SEND_FAULTS);
    var name := sent.response.name;
    served := ServingHandler.ServeFile(s, name, "", "", later, NO_SERVE_FAULTS);
    servedAgain := ServingHandler.ServeFile(s, name, "", "", later, NO_SERVE_FAULTS);
    remaining := s.metaBucket;
  }

  /** The delete route looks records up in the in-memory map, which ingest
      does not fill: on a fresh server it answers 404 to the very name and
      delete key an upload returned, and the file is still served. */
  method UploadThenDelete(config: Config, lib: Library, started: Time, world: World, draw: nat -> nat,
                          data: Bytes, filename: string, now: Time, later: Time, fuel: nat)
    returns (sent: SendHandler.SendOutcome, deleted: DeleteHandler.DeleteOutcome, served: ServingHandler.ServeOutcome)
    requires config.storage == FS_STORAGE || config.storage == S3_STORAGE
    requires world.metaBucket == map[]
    requires fuel > 0
    ensures sent.Sent?
    ensures deleted == DeleteHandler.NotFound
    ensures served == ServingHandler.Served(lib.detectContentType(data), lib.base(filename), data)
  {
    var s := new Server(config, lib, started, world);
    var rng := new SendHandler.Rng(draw);
    sent := SendHandler.ServeSend(s, rng, Upload(config, data, filename, []), now, fuel, NO_SEND_FAULTS);
    var name := sent.response.name;
    deleted := DeleteHandler.ServeDelete(s, name, sent.response.deleteKey, false);
    Storage.ReadAfterWrite(config, world.backend, name, data);
    served := ServingHandler.ServeFile(s, name, "", "", later, NO_SERVE_FAULTS);
  }

  /** The links the client prints after an upload, `serverUrl + "/" + name`
      and that followed by `"/" + deleteKey`, reach the serving and the
      delete route of a server whose route is the path part of the server
      URL (a generated name is never "1.0", so no API route shadows them). */
  lemma ClientLinksReachHandlers(routes: seq<Router.Route>, host: string, route: string, name: string, deleteKey: string)
    requires Router.IsRouteTable(routes, route)
    requires Router.IsSegment(name) && Router.IsSegment(deleteKey) && !Router.IsApiPath(name, deleteKey)
    ensures var url := (host + route) + "/" + name;
      && url == host + Router.ServePath(route, name)
      && Router.Dispatch(routes, url[|host|..]) == Some(Router.ServeFile)
    ensures var deleteUrl := ((host + route) + "/" + name) + "/" + deleteKey;
      && deleteUrl == host + Router.DeletePath(route, name, deleteKey)
      && Router.Dispatch(routes, deleteUrl[|host|..]) == Some(Router.DeleteFile)
  {
    var url := (host + route) + "/" + name;
    assert url[|host|..] == Router.ServePath(route, name);
    Router.ServeDispatch(routes, route, name);
    var deleteUrl := ((host + route) + "/" + name) + "/" + deleteKey;
    assert deleteUrl[|host|..] == Router.DeletePath(route, name, deleteKey);
    Router.DeleteDispatch(routes, route, name, deleteKey);
  }
}
