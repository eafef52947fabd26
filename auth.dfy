/** src/server/auth_check.go: the shared-secret check and the route that
    only reports its outcome. */
module Auth {

  /** `IsAuthValid`: a request is accepted when no secret is configured, or
      when its secret header carries exactly the configured one. */
  function IsAuthValid(secretKey: string, header: string): (ok: bool)
    ensures secretKey == "" ==> ok
    ensures secretKey != "" ==> (ok <==> header == secretKey)
  {
    secretKey == "" || header == secretKey
  }

  /** The status code and body of the auth-check route. */
  datatype Reply = Reply(status: int, body: string)

  const INVALID_CREDENTIALS_BODY: string := "{auth_status:'invalid_credentials'}"
  const OK_BODY: string := "{auth_status:'ok'}"

  /** `AuthCheckHandler.ServeHTTP`: 403 with the invalid-credentials body,
      or the default 200 with the ok body. */
  function AuthCheck(secretKey: string, header: string): (r: Reply)
    ensures r.status == 403 <==> !IsAuthValid(secretKey, header)
    ensures r.status == 403 ==> r.body == INVALID_CREDENTIALS_BODY
    ensures r.status != 403 ==> r.status == 200 && r.body == OK_BODY
  {
    if !IsAuthValid(secretKey, header) then Reply(403, INVALID_CREDENTIALS_BODY)
    else Reply(200, OK_BODY)
  }

  /** The check the send, search and list handlers write inline (reject when
      a secret is configured and the header differs) rejects exactly the
      requests `IsAuthValid` refuses. */
  lemma InlineCheckAgrees(secretKey: string, header: string)
    ensures (secretKey != "" && header != secretKey) <==> !IsAuthValid(secretKey, header)
  {
  }
}
