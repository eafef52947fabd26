/** The upload client of src/client/client.go: the transport chosen from
    the CA setting, the upload URI, and what `Send` reports for a file. The
    network exchange is a parameter: the reply the server gives to a
    request. */
module Client {
  import opened Wrappers
  import opened Records

  /** The client's settings (the `Flags` of src/client/flags.go together
      with the `Keepname` switch the client reads). */
  datatype ClientFlags = ClientFlags(serverUrl: string, secretKey: string, ttl: string, ca: string, keepname: bool)

  /** The HTTP client `createClient` builds. */
  datatype Transport = Insecure | WithCA(caFile: string) | Plain

  /** `createClient`: "unsafe" skips certificate checks, any other
      non-empty value but "none" names a CA file to trust, and anything else
      gives a plain client. */
  function CreateClient(ca: string): (t: Transport)
    ensures t == Insecure <==> ca == "unsafe"
    ensures t.WithCA? <==> ca != "unsafe" && ca != "" && ca != "none"
    ensures t.WithCA? ==> t.caFile == ca
    ensures t == Plain <==> ca == "" || ca == "none"
  {
    if ca == "unsafe" then Insecure
    else if |ca| > 0 && ca != "none" then WithCA(ca)
    else Plain
  }

  const SEND_PATH: string := "/1.0/send"

  /** The upload URI of `sendData`: the send path, then the ttl, then the
      base name of the file when it is kept. `escape` is `url.QueryEscape`
      and `base` is `filepath.Base`. */
  function UploadUri(flags: ClientFlags, filename: string, escape: string -> string, base: string -> string): (uri: string)
    ensures |uri| >= |flags.serverUrl + SEND_PATH| && uri[..|flags.serverUrl + SEND_PATH|] == flags.serverUrl + SEND_PATH
    ensures !flags.keepname ==> uri == flags.serverUrl + SEND_PATH + (if flags.ttl != "" then "?ttl=" + flags.ttl else "")
    ensures flags.keepname ==>
      var name := "name=" + escape(base(filename));
      var start := |uri| - |name| - 1;
      && start >= |flags.serverUrl + SEND_PATH|
      && uri[start + 1..] == name
      && uri[start] == (if flags.ttl != "" then '&' else '?')
      && uri[..start] == flags.serverUrl + SEND_PATH + (if flags.ttl != "" then "?ttl=" + flags.ttl else "")
  {
    var withTtl := flags.serverUrl + SEND_PATH + (if |flags.ttl| > 0 then "?ttl=" + flags.ttl else "");
    if flags.keepname then
      var uri := withTtl + [if |flags.ttl| != 0 then '&' else '?'] + ("name=" + escape(base(filename)));
      assert uri[..|withTtl|] == withTtl;
      uri
    else withTtl
  }

  /** The upload request: URI, body data, secret header (only set when a
      secret is configured) and transport. */
  datatype Request = Request(uri: string, data: Bytes, secretHeader: Option<string>, transport: Transport)

  /** The server's JSON answer, as far as the client reads it. */
  datatype Answer = Answer(name: string, deleteKey: string)

  /** What the exchange gives: no response, or a status code with the body
      (None when it cannot be read) and what the body decodes to (None
      when it does not decode). */
  datatype Reply = NoReply | Reply(status: int, body: Option<Option<Answer>>)

  datatype SendOutcome =
    | ReadFailed
    | RequestFailed
    | BadStatus(status: int, filename: string)
    | BodyFailed
    | Uploaded(url: string, deleteUrl: string)

  /** `Send`: read the file (None when that fails) and send it. The links
      printed after a 200 are the serving and delete URLs of the returned
      name; a body that does not decode gives the links of the empty name. */
  method Send(flags: ClientFlags, filename: string, file: Option<Bytes>, exchange: Request -> Reply,
              escape: string -> string, base: string -> string)
    returns (out: SendOutcome, sent: Option<Request>)
    ensures file.None? <==> out == ReadFailed
    ensures file.None? ==> sent.None?
    ensures file.Some? ==> sent.Some? && sent.value.data == file.value && sent.value.transport == CreateClient(flags.ca)
    ensures sent.Some? ==> sent.value.uri == UploadUri(flags, filename, escape, base)
    ensures sent.Some? ==> (sent.value.secretHeader.Some? <==> flags.secretKey != "")
    ensures sent.Some? && sent.value.secretHeader.Some? ==> sent.value.secretHeader.value == flags.secretKey
    ensures sent.Some? ==> (out == RequestFailed <==> exchange(sent.value).NoReply?)
    ensures sent.Some? && exchange(sent.value).Reply? && exchange(sent.value).status != 200 ==>
      out == BadStatus(exchange(sent.value).status, filename)
    ensures out.BadStatus? ==>
      sent.Some? && exchange(sent.value).Reply? && out.status == exchange(sent.value).status != 200 && out.filename == filename
    ensures sent.Some? && exchange(sent.value).Reply? && exchange(sent.value).status == 200 ==>
      (out == BodyFailed <==> exchange(sent.value).body.None?) && (out.Uploaded? <==> exchange(sent.value).body.Some?)
    ensures out.Uploaded? ==>
      && sent.Some? && exchange(sent.value).Reply? && exchange(sent.value).status == 200
      && exchange(sent.value).body.Some?
      && var answer := exchange(sent.value).body.value.GetOr(Answer("", ""));
         && out.url == flags.serverUrl + "/" + answer.name
         && out.deleteUrl == out.url + "/" + answer.deleteKey
  {
    if file.None? {
      return ReadFailed, None;
    }
    var transport := CreateClient(flags.ca);
    var uri := UploadUri(flags, filename, escape, base);
    var header := if |flags.secretKey| > 0 then Some(flags.secretKey) else None;
    var request := Request(uri, file.value, header, transport);
    sent := Some(request);

    var reply := exchange(request);
    if reply.NoReply? {
      return RequestFailed, sent;
    }
    if reply.status != 200 {
      return BadStatus(reply.status, filename), sent;
    }
    if reply.body.None? {
      return BodyFailed, sent;
    }
    var answer := reply.body.value.GetOr(Answer("", ""));
    var url := flags.serverUrl + "/" + answer.name;
    out := Uploaded(url, flags.serverUrl + "/" + answer.name + "/" + answer.deleteKey);
  }
}
