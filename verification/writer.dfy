/** The response writer of the etcdrest server: how a document or a list of
    error messages becomes the JSON the client receives, with or without the
    `{code, data, errors}` envelope. */
module Writer {
  import opened Wrappers
  import opened Json
  import opened Http
  import Strings

  /** The envelope struct. `data` and `errors` are tagged `omitempty`: an
      interface field is omitted when it is nil (JSON null), a list when it
      is empty. `code` is always present. */
  datatype Envelope = Envelope(code: int, data: Json.Value, errors: seq<string>)

  /** The object the envelope marshals to, members in declaration order. */
  function EnvelopeJson(e: Envelope): (r: Json.Value)
    ensures r.Obj? && |r.members| >= 1 && r.members[0] == Member("code", Num(e.code))
    ensures Lookup(r, "data").Some? <==> e.data != Null
    ensures Lookup(r, "errors").Some? <==> |e.errors| > 0
  {
    var data := if e.data == Null then [] else [Member("data", e.data)];
    var errors := if |e.errors| == 0 then [] else [Member("errors", Json.Strings(e.errors))];
    var r := Obj([Member("code", Num(e.code))] + data + errors);
    assert e.data != Null ==> r.members[1] == Member("data", e.data);
    assert |e.errors| > 0 ==> r.members[|r.members| - 1] == Member("errors", Json.Strings(e.errors));
    r
  }

  /** Reads an enveloped response back, treating an absent `data` as null and
      an absent `errors` as the empty list, as a JSON client would. */
  function Unwrap(v: Json.Value): Option<Envelope> {
    match Lookup(v, "code")
    case Some(Num(code)) =>
      var data := Lookup(v, "data").GetOr(Null);
      var errors := match Lookup(v, "errors")
        case None => Some([])
        case Some(list) => StringList(list);
      if errors.Some? then Some(Envelope(code, data, errors.value)) else None
    case _ => None
  }

  /** Every envelope, whatever is omitted from it, reads back as itself. */
  lemma EnvelopeRoundTrip(e: Envelope)
    ensures Unwrap(EnvelopeJson(e)) == Some(e)
  {
    var v := EnvelopeJson(e);
    var data := if e.data == Null then [] else [Member("data", e.data)];
    var errors := if |e.errors| == 0 then [] else [Member("errors", Json.Strings(e.errors))];
    assert v.members == [Member("code", Num(e.code))] + data + errors;
    assert Lookup(v, "code") == Some(Num(e.code));
    if e.data != Null {
      assert v.members[1..] == data + errors;
      assert Lookup(v, "data") == Some(e.data);
    }
    if |e.errors| > 0 {
      assert Lookup(v, "errors") == Some(Json.Strings(e.errors)) by {
        assert v.members[1..] == data + errors;
        if e.data != Null {
          assert v.members[2..] == errors;
        }
      }
      StringsRoundTrip(e.errors);
    }
  }

  /** The envelope switch of one request: the `envelope` query parameter,
      compared case-insensitively, overrides the configured default when it
      says "true" or "false"; any other value is ignored. */
  function EffectiveEnvelope(default: bool, q: Query): (on: bool)
    ensures Strings.ToLower(QueryGet(q, "envelope")) == "true" ==> on
    ensures Strings.ToLower(QueryGet(q, "envelope")) == "false" ==> !on
    ensures Strings.ToLower(QueryGet(q, "envelope")) !in {"true", "false"} ==> on == default
  {
    match Strings.ToLower(QueryGet(q, "envelope"))
    case "true" => true
    case "false" => false
    case _ => default
  }

  /** Both directions of the switch: enveloping is on exactly when the
      parameter says "true" in any case, or says neither "true" nor "false"
      and the default is on; a missing parameter leaves the default. */
  lemma EnvelopeSwitch(default: bool, q: Query)
    ensures EffectiveEnvelope(default, q) <==>
              Strings.ToLower(QueryGet(q, "envelope")) == "true" ||
              (Strings.ToLower(QueryGet(q, "envelope")) != "false" && default)
    ensures "envelope" !in q ==> EffectiveEnvelope(default, q) == default
  {
    if "envelope" !in q {
      assert Strings.ToLower(QueryGet(q, "envelope")) == "";
    }
  }

  /** Indented JSON: no line prefix, two spaces per level. */
  function Indented(v: Json.Value): Body {
    JsonText(v, "", "  ")
  }

  /** `write`: a 200 JSON response holding the bare document, or the envelope
      `{code: 200, data}` when enveloping is on for this request. */
  function Write(defaultEnvelope: bool, q: Query, data: Json.Value): (w: Resp)
    ensures w.status == Some(StatusOK) && StatusSent(w) == StatusOK
    ensures w.header == map[ContentType := JsonUtf8]
    ensures |w.chunks| == 1 && w.chunks[0].JsonText?
    ensures w.chunks[0].prefix == "" && w.chunks[0].indent == "  "
    ensures !EffectiveEnvelope(defaultEnvelope, q) ==> w.chunks[0].value == data
    ensures EffectiveEnvelope(defaultEnvelope, q) ==>
              w.chunks[0].value == EnvelopeJson(Envelope(StatusOK, data, []))
    ensures EffectiveEnvelope(defaultEnvelope, q) ==>
              Unwrap(w.chunks[0].value) == Some(Envelope(StatusOK, data, []))
  {
    var w := SetHeader(Fresh(), ContentType, JsonUtf8);
    var w := WriteHeader(w, StatusOK);
    if !EffectiveEnvelope(defaultEnvelope, q) then
      Http.Write(w, Indented(data))
    else
      EnvelopeRoundTrip(Envelope(StatusOK, data, []));
      Http.Write(w, Indented(EnvelopeJson(Envelope(StatusOK, data, []))))
  }

  /** `writeErrors`: a JSON response whose status is exactly `code`, holding
      the bare list of messages, or the envelope `{code, errors}`. */
  function WriteErrors(defaultEnvelope: bool, q: Query, errors: seq<string>, code: int): (w: Resp)
    requires ValidCode(code)
    ensures w.status == Some(code) && StatusSent(w) == code
    ensures w.header == map[ContentType := JsonUtf8]
    ensures !BodyAllowed(code) ==> w.chunks == []
    ensures BodyAllowed(code) ==>
              |w.chunks| == 1 && w.chunks[0].JsonText? &&
              w.chunks[0].prefix == "" && w.chunks[0].indent == "  "
    ensures BodyAllowed(code) && !EffectiveEnvelope(defaultEnvelope, q) ==>
              StringList(w.chunks[0].value) == Some(errors)
    ensures BodyAllowed(code) && EffectiveEnvelope(defaultEnvelope, q) ==>
              w.chunks[0].value == EnvelopeJson(Envelope(code, Null, errors))
    ensures BodyAllowed(code) && EffectiveEnvelope(defaultEnvelope, q) ==>
              Unwrap(w.chunks[0].value) == Some(Envelope(code, Null, errors))
  {
    var w := SetHeader(Fresh(), ContentType, JsonUtf8);
    var w := WriteHeader(w, code);
    if !EffectiveEnvelope(defaultEnvelope, q) then
      StringsRoundTrip(errors);
      Http.Write(w, Indented(Json.Strings(errors)))
    else
      EnvelopeRoundTrip(Envelope(code, Null, errors));
      Http.Write(w, Indented(EnvelopeJson(Envelope(code, Null, errors))))
  }

  /** `writeError`: one message, through `writeErrors`. */
  function WriteError(defaultEnvelope: bool, q: Query, error: string, code: int): (w: Resp)
    requires ValidCode(code)
    ensures w == WriteErrors(defaultEnvelope, q, [error], code)
  {
    WriteErrors(defaultEnvelope, q, [error], code)
  }

  /** The only thing the query can change is the envelope: two requests that
      agree on it get the same response, and an enveloped body always carries
      the same code as the status line. */
  lemma ErrorsOnlyDependOnSwitch(d1: bool, q1: Query, d2: bool, q2: Query, errors: seq<string>, code: int)
    requires ValidCode(code) && BodyAllowed(code)
    requires EffectiveEnvelope(d1, q1) == EffectiveEnvelope(d2, q2)
    ensures WriteErrors(d1, q1, errors, code) == WriteErrors(d2, q2, errors, code)
    ensures EffectiveEnvelope(d1, q1) ==>
              Unwrap(WriteErrors(d1, q1, errors, code).chunks[0].value).value.code ==
              StatusSent(WriteErrors(d1, q1, errors, code))
  {
  }
}
