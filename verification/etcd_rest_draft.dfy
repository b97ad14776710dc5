/** The earlier etcd-rest drafts. They share the response writer of the
    etcdrest server, `write` and `writeErrors` being the same code, but
    their `writeError` has its call to `writeErrors` commented out, and
    their one handler, `all`, lists a whole directory. */
module EtcdRestDraft {
  import opened Wrappers
  import opened Http
  import Json
  import Etcd
  import Writer

  /** `writeError` as the drafts have it: the body is a comment, so the
      writer is handed back with no header, status line or body added. */
  function WriteErrorAsWritten(w: Resp, error: string, code: int): (r: Resp)
    ensures r.header == w.header && r.status == w.status && r.chunks == w.chunks
  {
    w
  }

  /** `all` as written: a recursive read of the route's path. "Key not
      found" is a bare 404; any other failure goes to the silent
      `writeError`; a tree is written as its materialised map. */
  function All(defaultEnvelope: bool, q: Query, s: Etcd.Store, path: string,
               materialise: Etcd.Node -> Json.Value): (w: Resp)
    ensures Etcd.BackendGet(s, path).Success? ==>
              var doc := materialise(Etcd.BackendGet(s, path).value);
              && StatusSent(w) == StatusOK && |w.chunks| == 1 && w.chunks[0].JsonText?
              && (!Writer.EffectiveEnvelope(defaultEnvelope, q) ==> w.chunks[0].value == doc)
              && (Writer.EffectiveEnvelope(defaultEnvelope, q) ==>
                    w.chunks[0].value == Writer.EnvelopeJson(Writer.Envelope(StatusOK, doc, [])))
              && (Writer.EffectiveEnvelope(defaultEnvelope, q) ==>
                    Writer.Unwrap(w.chunks[0].value) == Some(Writer.Envelope(StatusOK, doc, [])))
    ensures Etcd.BackendGet(s, path).Failure? ==>
              var e := Etcd.BackendGet(s, path).error;
              && w.chunks == [] && w.header == map[]
              && (e.ClientError? && e.code == Etcd.KeyNotFound ==> w.status == Some(StatusNotFound))
              && (!(e.ClientError? && e.code == Etcd.KeyNotFound) ==> w.status == None)
  {
    match Etcd.BackendGet(s, path)
    case Failure(e) =>
      if e.ClientError? && e.code == Etcd.KeyNotFound then WriteHeader(Fresh(), StatusNotFound)
      else WriteErrorAsWritten(Fresh(), e.Text(), StatusInternalServerError)
    case Success(node) => Writer.Write(defaultEnvelope, q, materialise(node))
  }

  /** A backend failure other than "key not found" (a timeout, a refused
      connection) reaches the client as a 200 with an empty body: the same
      answer an empty successful response would give, and nothing says the
      read failed. */
  lemma AllHidesBackendFailure(defaultEnvelope: bool, q: Query, docs: map<string, Etcd.Node>,
                               path: string, materialise: Etcd.Node -> Json.Value)
    ensures var s := Etcd.Store(docs, map[Etcd.Fault(Etcd.GetOp, path) := Etcd.TransportError("timeout")]);
            var w := All(defaultEnvelope, q, s, path, materialise);
            StatusSent(w) == StatusOK && w.chunks == []
  {
  }

  /** `all` as its author meant it, with `writeError` delegating to
      `writeErrors` like the etcdrest server's does: the failure is a 500
      carrying the backend's message. */
  function AllIntended(defaultEnvelope: bool, q: Query, s: Etcd.Store, path: string,
                       materialise: Etcd.Node -> Json.Value): (w: Resp)
    ensures Etcd.BackendGet(s, path).Failure? && Etcd.StatusOf(Etcd.BackendGet(s, path).error) != StatusNotFound ==>
              var e := Etcd.BackendGet(s, path).error;
              && StatusSent(w) == StatusInternalServerError
              && |w.chunks| == 1 && w.chunks[0].JsonText?
              && (!Writer.EffectiveEnvelope(defaultEnvelope, q) ==>
                    Json.StringList(w.chunks[0].value) == Some([e.Text()]))
              && (Writer.EffectiveEnvelope(defaultEnvelope, q) ==>
                    w.chunks[0].value ==
                    Writer.EnvelopeJson(Writer.Envelope(StatusInternalServerError, Json.Null, [e.Text()])))
              && (Writer.EffectiveEnvelope(defaultEnvelope, q) ==>
                    Writer.Unwrap(w.chunks[0].value) ==
                    Some(Writer.Envelope(StatusInternalServerError, Json.Null, [e.Text()])))
  {
    match Etcd.BackendGet(s, path)
    case Failure(e) =>
      if e.ClientError? && e.code == Etcd.KeyNotFound then WriteHeader(Fresh(), StatusNotFound)
      else Writer.WriteError(defaultEnvelope, q, e.Text(), StatusInternalServerError)
    case Success(node) => Writer.Write(defaultEnvelope, q, materialise(node))
  }

  /** The correction changes nothing but the failure branch: a read that
      succeeds or finds no key is answered the same way by both. */
  lemma IntendedAgreesElsewhere(defaultEnvelope: bool, q: Query, s: Etcd.Store, path: string,
                                materialise: Etcd.Node -> Json.Value)
    ensures StatusSent(AllIntended(defaultEnvelope, q, s, path, materialise)) == StatusOK <==>
              Etcd.BackendGet(s, path).Success?
    ensures Etcd.BackendGet(s, path).Success? || Etcd.StatusOf(Etcd.BackendGet(s, path).error) == StatusNotFound ==>
              AllIntended(defaultEnvelope, q, s, path, materialise) == All(defaultEnvelope, q, s, path, materialise)
  {
  }
}
