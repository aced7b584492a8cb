/** The parts of an HTTP exchange the middleware reads and writes. */
module Http {
  import opened Wrappers
  import opened Tokens
  import opened Strings

  /** An incoming request: the server parameters, the `Authorization` header
      (no value when the header is absent), the resource and action being
      asked for, and the user and application the authorization step attaches. */
  datatype Request = Request(
    serverParams: map<string, string>, authorization: Option<string>,
    resource: string, action: string,
    user: Option<ClaimUser>, applicationId: Option<int>)

  /** A response body: a JSON object in field order, or whatever a handler wrote. */
  datatype Body = JsonObject(fields: seq<(string, Json)>) | Text(text: string)

  datatype Response = Response(status: int, headers: map<string, string>, body: Body)

  /** What the next handler does with a request: it answers, or throws an
      `\Exception` with a message. */
  datatype Outcome = Returned(response: Response) | Threw(message: string)

  /** `$response->withHeader(name, value)`: header names compare without
      regard to case, so every spelling of the name is replaced; the other
      headers are kept. */
  function WithHeader(r: Response, name: string, value: string): (q: Response)
    ensures q.status == r.status && q.body == r.body
    ensures name in q.headers && q.headers[name] == value
    ensures forall h :: h in q.headers && h != name ==> !SameName(h, name)
    ensures forall h :: h in r.headers && !SameName(h, name) ==> h in q.headers && q.headers[h] == r.headers[h]
    ensures forall h :: h in q.headers && h != name ==> h in r.headers
  {
    r.(headers := (map h | h in r.headers && !SameName(h, name) :: r.headers[h])[name := value])
  }
}
