/** The slice of `net/http` the handlers touch: query lookup, and the
    ResponseWriter as a value that records the headers, the status line and
    the body chunks a handler has sent. */
module Http {
  import opened Wrappers
  import Json

  const StatusOK := 200
  const StatusCreated := 201
  const StatusNoContent := 204
  const StatusBadRequest := 400
  const StatusNotFound := 404
  const StatusInternalServerError := 500

  const ContentType := "Content-Type"
  const JsonUtf8 := "application/json; charset=utf-8"

  /** `url.Values`: every query parameter with all the values it was given. */
  type Query = map<string, seq<string>>

  /** `url.Values.Get`: the first value of `key`, or "" when there is none. */
  function QueryGet(q: Query, key: string): string {
    if key in q && |q[key]| > 0 then q[key][0] else ""
  }

  datatype Method = GET | PUT | PATCH | DELETE | POST

  /** One call to `ResponseWriter.Write`: either a JSON value marshalled with
      the given line prefix and indent, or bytes passed through as they are. */
  datatype Body =
    | JsonText(value: Json.Value, prefix: string, indent: string)
    | RawBytes(bytes: Json.Bytes)

  /** What a handler has sent: the headers fixed when the status line went
      out, the status line (None while not yet written) and the body chunks. */
  datatype Resp = Resp(header: map<string, string>, status: Option<int>, chunks: seq<Body>)

  /** The writer a handler receives: nothing sent yet. */
  function Fresh(): Resp {
    Resp(map[], None, [])
  }

  /** `WriteHeader` refuses codes outside three digits. */
  predicate ValidCode(code: int) {
    100 <= code <= 999
  }

  /** Informational, 204 and 304 responses carry no body. */
  predicate BodyAllowed(code: int) {
    !(100 <= code <= 199 || code == 204 || code == 304)
  }

  /** `w.Header().Set(key, value)`: takes effect only before the status line. */
  function SetHeader(w: Resp, key: string, value: string): (r: Resp)
    ensures w.status.None? ==> r == w.(header := w.header[key := value])
    ensures w.status.Some? ==> r == w
  {
    if w.status.None? then w.(header := w.header[key := value]) else w
  }

  /** `w.WriteHeader(code)`: the first call wins, later ones are ignored. */
  function WriteHeader(w: Resp, code: int): (r: Resp)
    requires ValidCode(code)
    ensures r.status == Some(w.status.GetOr(code))
    ensures r.header == w.header && r.chunks == w.chunks
  {
    if w.status.None? then w.(status := Some(code)) else w
  }

  /** `w.Write(b)`: sends a 200 status line first if none was sent, and is
      refused when the status forbids a body. */
  function Write(w: Resp, b: Body): (r: Resp)
    ensures r.status == Some(w.status.GetOr(StatusOK))
    ensures r.header == w.header
    ensures r.chunks == if BodyAllowed(r.status.value) then w.chunks + [b] else w.chunks
  {
    var w' := WriteHeader(w, StatusOK);
    if BodyAllowed(w'.status.value) then w'.(chunks := w'.chunks + [b]) else w'
  }

  /** The status the client sees: a handler that never wrote anything is
      answered with 200 by the server. */
  function StatusSent(w: Resp): int {
    w.status.GetOr(StatusOK)
  }

  /** How a handler invocation ends: a response was sent; the handler
      panicked (the server recovers and drops the connection, so nothing is
      sent); or the handler called `log.Fatal` and the whole process exited. */
  datatype Reply = Sent(resp: Resp) | Panicked(reason: string) | Exited(reason: string)
}
