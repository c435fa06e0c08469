/**
 * What a route handler sees of a request and what it answers: request
 * headers, a JSON reply with a status code, and the cookies it sets.
 */
module Http {
  import opened Wrappers
  import opened Js
  import opened Cookies

  /** Request headers by lower-case name (`Headers.get` is case-insensitive). */
  type Headers = map<string, string>

  /** `headers.get(name)`: the value, or `null`. */
  function Header(h: Headers, name: string): Option<string> {
    if name in h then Some(h[name]) else None
  }

  /** A JSON body: a flat object. */
  type Body = map<string, JsValue>

  /** `{ error: msg }` */
  function ErrorBody(msg: string): (b: Body)
    ensures b.Keys == {"error"} && b["error"] == Str(msg)
  {
    map["error" := Str(msg)]
  }

  /** A handler's JSON response, with the cookies set while producing it. */
  datatype Reply = Reply(status: int, body: Body, cookies: seq<SetCookie>)

  function Error(status: int, msg: string): (r: Reply)
    ensures r.status == status && r.body == ErrorBody(msg) && r.cookies == []
  {
    Reply(status, ErrorBody(msg), [])
  }

  /** An exception the handler does not catch: the framework answers 500. */
  function Crash(): (r: Reply)
    ensures r.status == 500 && r.cookies == []
  {
    Reply(500, map[], [])
  }
}
