/** etcd-drowsy, the earliest draft: a REST front for etcd directories whose
    routes are themselves stored in etcd under "/routes". It reads two
    settings from the environment, turns the route records into a router,
    and serves each directory with four fixed handlers. */
module Drowsy {
  import opened Wrappers
  import opened Http
  import Json
  import Strings
  import Etcd
  import Server

  // ---- Environment ----

  datatype Env = Env(peers: string, bind: string)

  const DefaultPeers := "http://127.0.0.1:4001,http://127.0.0.1:2379"
  const DefaultBind := "127.0.0.1:8080"

  /** One `KEY=VALUE` entry: the key is the text before the first '=', the
      value the text between the first and the second. An entry that names a
      known key but has no '=' makes the lookup of the value panic: None. */
  function ApplyEntry(env: Env, entry: string): (r: Option<Env>)
    ensures var a := Strings.Split(entry, '=');
            && (a[0] !in {"ETCD_PEERS", "ETCD_BIND"} ==> r == Some(env))
            && (a[0] in {"ETCD_PEERS", "ETCD_BIND"} ==> (r.Some? <==> |a| >= 2))
            && (a[0] == "ETCD_PEERS" && |a| >= 2 ==> r == Some(env.(peers := a[1])))
            && (a[0] == "ETCD_BIND" && |a| >= 2 ==> r == Some(env.(bind := a[1])))
  {
    var a := Strings.Split(entry, '=');
    match a[0]
    case "ETCD_PEERS" => if |a| >= 2 then Some(env.(peers := a[1])) else None
    case "ETCD_BIND" => if |a| >= 2 then Some(env.(bind := a[1])) else None
    case _ => Some(env)
  }

  /** `getEnv` over the entries of the process environment, in order. */
  function GetEnv(entries: seq<string>): (r: Option<Env>)
    ensures |entries| == 0 ==> r == Some(Env(DefaultPeers, DefaultBind))
    decreases |entries|
  {
    if |entries| == 0 then Some(Env(DefaultPeers, DefaultBind))
    else
      match GetEnv(entries[..|entries| - 1])
      case None => None
      case Some(env) => ApplyEntry(env, entries[|entries| - 1])
  }

  /** The value an entry gives its key, if it is for `key`. */
  function ValueFor(entry: string, key: string): Option<string> {
    var a := Strings.Split(entry, '=');
    if a[0] == key && |a| >= 2 then Some(a[1]) else None
  }

  /** The last entry for a key wins, and without one the default stays:
      whenever no entry panics, each setting is the value of the last entry
      naming it, or its default. */
  lemma {:induction false} GetEnvLastWins(entries: seq<string>)
    requires GetEnv(entries).Some?
    ensures var env := GetEnv(entries).value;
            && ((forall i :: 0 <= i < |entries| ==> ValueFor(entries[i], "ETCD_PEERS").None?) ==>
                  env.peers == DefaultPeers)
            && ((forall i :: 0 <= i < |entries| ==> ValueFor(entries[i], "ETCD_BIND").None?) ==>
                  env.bind == DefaultBind)
    ensures var env := GetEnv(entries).value;
            forall i :: 0 <= i < |entries| && ValueFor(entries[i], "ETCD_PEERS").Some? &&
                        (forall j :: i < j < |entries| ==> ValueFor(entries[j], "ETCD_PEERS").None?) ==>
                          env.peers == ValueFor(entries[i], "ETCD_PEERS").value
    ensures var env := GetEnv(entries).value;
            forall i :: 0 <= i < |entries| && ValueFor(entries[i], "ETCD_BIND").Some? &&
                        (forall j :: i < j < |entries| ==> ValueFor(entries[j], "ETCD_BIND").None?) ==>
                          env.bind == ValueFor(entries[i], "ETCD_BIND").value
    decreases |entries|
  {
    if |entries| > 0 {
      var init := entries[..|entries| - 1];
      var last := entries[|entries| - 1];
      assert GetEnv(init).Some?;
      GetEnvLastWins(init);
      assert forall i :: 0 <= i < |init| ==> init[i] == entries[i];
    }
  }

  /** A value is cut at its second '=': the entry "ETCD_BIND=a=b" sets the
      bind address to "a", and whatever follows is lost. */
  lemma ValueTruncated(a: string, b: string)
    requires '=' !in a
    ensures GetEnv(["ETCD_BIND=" + a + "=" + b]) == Some(Env(DefaultPeers, a))
  {
    var entry := "ETCD_BIND=" + a + "=" + b;
    assert entry == "ETCD_BIND" + ['='] + (a + ['='] + b);
    Etcd.SplitPrefix("ETCD_BIND", a + ['='] + b, '=');
    Etcd.SplitPrefix(a, b, '=');
    assert Strings.Split(entry, '=')[..2] == ["ETCD_BIND", a];
    assert GetEnv([entry]) == ApplyEntry(Env(DefaultPeers, DefaultBind), entry);
  }

  // ---- Error bodies ----

  /** A struct field as `encoding/json` sees it: only exported fields (those
      whose Go name starts with a capital) are marshalled. */
  datatype Field = Field(name: string, exported: bool, value: Json.Value)

  /** `json.Marshal` of a struct: one member per exported field, in order. */
  function MarshalStruct(fields: seq<Field>): (r: Json.Value)
    ensures r.Obj?
    ensures forall m :: m in r.members ==> exists f :: f in fields && f.exported && m == Json.Member(f.name, f.value)
    ensures forall f :: f in fields && f.exported ==> Json.Member(f.name, f.value) in r.members
    decreases |fields|
  {
    if |fields| == 0 then Json.Obj([])
    else
      var rest := MarshalStruct(fields[1..]);
      assert forall f :: f in fields[1..] ==> f in fields;
      assert forall f :: f in fields ==> f == fields[0] || f in fields[1..];
      if fields[0].exported then Json.Obj([Json.Member(fields[0].name, fields[0].value)] + rest.members)
      else rest
  }

  /** `errToJSON` as written: `JSONError`'s one field, `message`, is
      unexported, so the marshalled error is `{}` whatever the message. */
  function ErrToJsonAsWritten(message: string): (r: Json.Value)
    ensures r == Json.Obj([])
  {
    var fields := [Field("message", false, Json.Str(message))];
    var r := MarshalStruct(fields);
    assert fields[1..] == [];
    assert r == MarshalStruct(fields[1..]);
    r
  }

  /** The message is lost: two different errors marshal the same. */
  lemma ErrToJsonLosesMessage()
    ensures ErrToJsonAsWritten("connection refused") == ErrToJsonAsWritten("")
    ensures Json.Lookup(ErrToJsonAsWritten("connection refused"), "message").None?
  {
  }

  /** `errToJSON` as its tag `json:"message"` means it: `{"message": ...}`. */
  function ErrToJson(message: string): (r: Json.Value)
    ensures r.Obj? && Json.Lookup(r, "message") == Some(Json.Str(message))
    ensures forall m :: m in r.members ==> m.name == "message"
  {
    var r := MarshalStruct([Field("message", true, Json.Str(message))]);
    assert Json.Member("message", Json.Str(message)) in r.members;
    assert forall m :: m in r.members ==> m == Json.Member("message", Json.Str(message));
    assert r.members[0] == Json.Member("message", Json.Str(message));
    r
  }

  // ---- Routes ----

  datatype Route = Route(path: string, endpoint: string, schema: string)

  /** A record becomes a route when it is a map holding all of path,
      endpoint and schema. */
  predicate IsRouteRecord(v: Json.Value) {
    v.Obj? && Json.Lookup(v, "path").Some? && Json.Lookup(v, "endpoint").Some? &&
    Json.Lookup(v, "schema").Some?
  }

  /** A route record whose three fields are strings. */
  predicate WellTyped(v: Json.Value)
    requires IsRouteRecord(v)
  {
    Json.Lookup(v, "path").value.Str? && Json.Lookup(v, "endpoint").value.Str? &&
    Json.Lookup(v, "schema").value.Str?
  }

  function RouteOf(v: Json.Value): Route
    requires IsRouteRecord(v) && WellTyped(v)
  {
    Route(Json.Lookup(v, "path").value.s, Json.Lookup(v, "endpoint").value.s,
          Json.Lookup(v, "schema").value.s)
  }

  /** The route loop of `main` over the records under "/routes", in the
      order the map is iterated. Records that are not maps or lack a field are
      skipped; a route record with a non-string field fails the type
      assertion and panics: None. */
  function ExtractRoutes(records: seq<Json.Value>): (r: Option<seq<Route>>)
    ensures r.Some? <==> forall i :: 0 <= i < |records| && IsRouteRecord(records[i]) ==> WellTyped(records[i])
    ensures r.Some? ==> |r.value| <= |records|
    ensures r.Some? ==> forall rt :: rt in r.value ==>
              exists i :: 0 <= i < |records| && IsRouteRecord(records[i]) && WellTyped(records[i]) &&
                          rt == RouteOf(records[i])
    ensures r.Some? ==> forall i :: 0 <= i < |records| && IsRouteRecord(records[i]) ==>
              RouteOf(records[i]) in r.value
    decreases |records|
  {
    if |records| == 0 then Some([])
    else
      var rest := ExtractRoutes(records[1..]);
      assert forall i :: 1 <= i < |records| ==> records[1..][i - 1] == records[i];
      if !IsRouteRecord(records[0]) then
        rest
      else if !WellTyped(records[0]) then
        None
      else if rest.None? then
        None
      else
        var r := Some([RouteOf(records[0])] + rest.value);
        assert forall rt :: rt in rest.value ==> rt in r.value;
        r
  }

  /** Why `main` stops before serving: `log.Fatal` (the routes could not be
      read, or there are none) or a panic in the route loop. */
  datatype Boot = Serving(routes: seq<Route>) | Fatal(reason: string) | Panic(reason: string)

  /** Reading the routes at startup; `records` lists the values of the
      "/routes" map in iteration order. */
  function Startup(s: Etcd.Store, records: Etcd.Node -> seq<Json.Value>): (b: Boot)
    ensures b.Serving? ==> |b.routes| >= 1
    ensures Etcd.BackendGet(s, "/routes").Failure? ==> b.Fatal?
    ensures b.Serving? <==>
              && Etcd.BackendGet(s, "/routes").Success?
              && ExtractRoutes(records(Etcd.BackendGet(s, "/routes").value)).Some?
              && |ExtractRoutes(records(Etcd.BackendGet(s, "/routes").value)).value| >= 1
  {
    match Etcd.BackendGet(s, "/routes")
    case Failure(e) => Fatal(e.Text())
    case Success(node) =>
      match ExtractRoutes(records(node))
      case None => Panic("interface conversion: interface {} is not string")
      case Some(routes) => if |routes| < 1 then Fatal("No registered endpoints") else Serving(routes)
  }

  // ---- Router ----

  datatype Handler = GetAllEntries(route: Route) | GetEntry(route: Route) | CreateEntry(route: Route) |
                     DeleteEntry(route: Route)

  datatype Registration = Registration(pattern: string, verb: Method, handler: Handler)

  /** The four registrations of one route. */
  function RegisterOne(rt: Route): (regs: seq<Registration>)
    ensures |regs| == 4
  {
    [Registration(rt.path, GET, GetAllEntries(rt)),
     Registration(rt.path + "/{name}", GET, GetEntry(rt)),
     Registration(rt.path + "/{name}", PUT, CreateEntry(rt)),
     Registration(rt.path + "/{name}", DELETE, DeleteEntry(rt))]
  }

  /** The router `main` builds: for each route in order, GET on its path and
      GET, PUT and DELETE on its path followed by "/{name}". */
  function Register(routes: seq<Route>): (table: seq<Registration>)
    ensures |table| == 4 * |routes|
    ensures forall i :: 0 <= i < |routes| ==>
              && table[4 * i] == Registration(routes[i].path, GET, GetAllEntries(routes[i]))
              && table[4 * i + 1] == Registration(routes[i].path + "/{name}", GET, GetEntry(routes[i]))
              && table[4 * i + 2] == Registration(routes[i].path + "/{name}", PUT, CreateEntry(routes[i]))
              && table[4 * i + 3] == Registration(routes[i].path + "/{name}", DELETE, DeleteEntry(routes[i]))
    ensures forall k :: 0 <= k < |table| ==> table[k].verb in {GET, PUT, DELETE}
    decreases |routes|
  {
    if |routes| == 0 then []
    else
      var n := |routes| - 1;
      var init := Register(routes[..n]);
      var table := init + RegisterOne(routes[n]);
      assert forall i :: 0 <= i < n ==> routes[..n][i] == routes[i];
      table
  }

  // ---- Handlers ----

  /** The backend calls behind the handlers: `etcdmap.JSONIndent`, which
      can fail, and the decoding and tree-building halves of
      `etcdmap.CreateJSON`. */
  datatype Collaborators = Collaborators(
    jsonIndent: Etcd.Node -> Result<Json.Value, string>,
    decode: Json.Bytes -> Option<Json.Value>,
    dematerialise: Json.Value -> Etcd.Node)

  /** The etcd key of one entry: the route's endpoint, '/', the `name`
      variable (missing variables read as ""). */
  function EntryKey(rt: Route, vars: map<string, string>): string {
    rt.endpoint + "/" + (if "name" in vars then vars["name"] else "")
  }

  /** Tab-indented JSON, as `JSONIndent(node, "\t")` produces it. */
  function Tabbed(v: Json.Value): Body {
    JsonText(v, "", "\t")
  }

  function Compact(v: Json.Value): Body {
    JsonText(v, "", "")
  }

  /** `getAllEntries`: a failed read answers 204, whose error body the
      server drops; a tree that cannot be rendered answers a bare 500; a
      tree is sent with 200. The directory read is the route's endpoint. */
  function GetAll(colab: Collaborators, s: Etcd.Store, rt: Route): (w: Resp)
    ensures Etcd.BackendGet(s, rt.endpoint).Failure? ==> StatusSent(w) == StatusNoContent && w.chunks == []
    ensures Etcd.BackendGet(s, rt.endpoint).Success? ==>
              match colab.jsonIndent(Etcd.BackendGet(s, rt.endpoint).value)
              case Failure(_) => StatusSent(w) == StatusInternalServerError && w.chunks == [] && w.header == map[]
              case Success(v) => StatusSent(w) == StatusOK && w.chunks == [Tabbed(v)] &&
                                 w.header == map[ContentType := JsonUtf8]
  {
    match Etcd.BackendGet(s, rt.endpoint)
    case Failure(e) =>
      var w := WriteHeader(SetHeader(Fresh(), ContentType, JsonUtf8), StatusNoContent);
      Http.Write(w, Compact(ErrToJson(e.Text())))
    case Success(node) =>
      match colab.jsonIndent(node)
      case Failure(_) => WriteHeader(Fresh(), StatusInternalServerError)
      case Success(v) =>
        Http.Write(WriteHeader(SetHeader(Fresh(), ContentType, JsonUtf8), StatusOK), Tabbed(v))
  }

  /** `getEntry`: the same for one entry, except that a failed read is a bare
      204 and a tree that cannot be rendered is a 500 with an error body. */
  function GetOne(colab: Collaborators, s: Etcd.Store, rt: Route, vars: map<string, string>): (w: Resp)
    ensures Etcd.BackendGet(s, EntryKey(rt, vars)).Failure? ==>
              w.status == Some(StatusNoContent) && w.chunks == [] && w.header == map[]
    ensures Etcd.BackendGet(s, EntryKey(rt, vars)).Success? ==>
              match colab.jsonIndent(Etcd.BackendGet(s, EntryKey(rt, vars)).value)
              case Failure(m) => StatusSent(w) == StatusInternalServerError && w.chunks == [Compact(ErrToJson(m))]
              case Success(v) => StatusSent(w) == StatusOK && w.chunks == [Tabbed(v)]
  {
    match Etcd.BackendGet(s, EntryKey(rt, vars))
    case Failure(_) => WriteHeader(Fresh(), StatusNoContent)
    case Success(node) =>
      match colab.jsonIndent(node)
      case Failure(m) =>
        Http.Write(WriteHeader(SetHeader(Fresh(), ContentType, JsonUtf8), StatusInternalServerError),
                   Compact(ErrToJson(m)))
      case Success(v) =>
        Http.Write(WriteHeader(SetHeader(Fresh(), ContentType, JsonUtf8), StatusOK), Tabbed(v))
  }

  /** `createEntry`: a body that cannot be read or closed panics; a body
      that is not JSON, or a tree that cannot be written, is a 500 with an
      error body and plain "application/json"; otherwise the tree is stored
      under the entry's key and the body is echoed with 201. */
  function Create(colab: Collaborators, s: Etcd.Store, rt: Route, req: Server.Request): (r: (Etcd.Store, Reply))
    ensures req.readError.Some? || req.closeError.Some? ==> r.0 == s && r.1.Panicked?
    ensures r.1.Sent? ==> req.readError.None? && req.closeError.None?
    ensures r.1.Sent? && StatusSent(r.1.resp) == StatusCreated ==>
              var body := Server.LimitedBody(req.body);
              && colab.decode(body).Some?
              && r.0 == s.(docs := s.docs[EntryKey(rt, req.vars) := colab.dematerialise(colab.decode(body).value)])
              && r.1.resp.chunks == [RawBytes(body)]
    ensures r.1.Sent? ==> StatusSent(r.1.resp) in {StatusCreated, StatusInternalServerError}
    ensures r.1.Sent? && StatusSent(r.1.resp) == StatusInternalServerError ==>
              r.0 == s && r.1.resp.header == map[ContentType := "application/json"]
    ensures req.readError.None? && req.closeError.None? && colab.decode(Server.LimitedBody(req.body)).None? ==>
              && r.0 == s && r.1.Sent? && StatusSent(r.1.resp) == StatusInternalServerError
              && r.1.resp.chunks == [Compact(ErrToJson("invalid JSON"))]
    ensures req.readError.None? && req.closeError.None? && colab.decode(Server.LimitedBody(req.body)).Some? ==>
              var key := EntryKey(rt, req.vars);
              && (Etcd.Fault(Etcd.CreateOp, key) !in s.faults ==>
                    r.1.Sent? && StatusSent(r.1.resp) == StatusCreated)
              && (Etcd.Fault(Etcd.CreateOp, key) in s.faults ==>
                    && r.0 == s && r.1.Sent? && StatusSent(r.1.resp) == StatusInternalServerError
                    && r.1.resp.chunks == [Compact(ErrToJson(s.faults[Etcd.Fault(Etcd.CreateOp, key)].Text()))])
  {
    if req.readError.Some? then (s, Panicked(req.readError.value))
    else if req.closeError.Some? then (s, Panicked(req.closeError.value))
    else
      var body := Server.LimitedBody(req.body);
      var key := EntryKey(rt, req.vars);
      var failed := WriteHeader(SetHeader(Fresh(), ContentType, "application/json"), StatusInternalServerError);
      match colab.decode(body)
      case None => (s, Sent(Http.Write(failed, Compact(ErrToJson("invalid JSON")))))
      case Some(doc) =>
        match Etcd.BackendCreate(s, key, colab.dematerialise(doc))
        case Failure(e) => (s, Sent(Http.Write(failed, Compact(ErrToJson(e.Text())))))
        case Success(s') =>
          (s', Sent(Http.Write(WriteHeader(SetHeader(Fresh(), ContentType, JsonUtf8), StatusCreated), RawBytes(body))))
  }

  /** `deleteEntry`: a recursive delete of the entry's key; a failure (a
      missing key included) panics, success is a bare 204. */
  function Remove(s: Etcd.Store, rt: Route, vars: map<string, string>): (r: (Etcd.Store, Reply))
    ensures r.1.Panicked? <==> Etcd.BackendDelete(s, EntryKey(rt, vars)).Failure?
    ensures r.1.Panicked? ==> r.0 == s
    ensures r.1.Sent? ==>
              && r.1.resp.status == Some(StatusNoContent) && r.1.resp.chunks == []
              && (forall k :: k in r.0.docs <==> k in s.docs && !Etcd.Under(k, EntryKey(rt, vars)))
              && (forall k :: k in r.0.docs ==> r.0.docs[k] == s.docs[k])
              && r.0.faults == s.faults
              && r.0 == Etcd.Delete(s, EntryKey(rt, vars)).0
    ensures r.1.Sent? || r.1.Panicked?
  {
    match Etcd.BackendDelete(s, EntryKey(rt, vars))
    case Failure(e) => (s, Panicked(e.Text()))
    case Success(s') => (s', Sent(WriteHeader(SetHeader(Fresh(), ContentType, JsonUtf8), StatusNoContent)))
  }

  /** Serving one request through a registration. */
  function Handle(colab: Collaborators, s: Etcd.Store, h: Handler, req: Server.Request): (r: (Etcd.Store, Reply))
    ensures h.GetAllEntries? || h.GetEntry? ==> r.0 == s && r.1.Sent?
  {
    match h
    case GetAllEntries(rt) => (s, Sent(GetAll(colab, s, rt)))
    case GetEntry(rt) => (s, Sent(GetOne(colab, s, rt, req.vars)))
    case CreateEntry(rt) => Create(colab, s, rt, req)
    case DeleteEntry(rt) => Remove(s, rt, req.vars)
  }

  /** Each handler answers with its own fixed vocabulary: reads with 200,
      204 or 500; PUT with 201 or 500; DELETE with 204; and a successful PUT
      is the only way a document gets in. */
  lemma StatusVocabulary(colab: Collaborators, s: Etcd.Store, h: Handler, req: Server.Request)
    ensures var r := Handle(colab, s, h, req);
            r.1.Sent? ==>
              && (h.GetAllEntries? || h.GetEntry? ==>
                    StatusSent(r.1.resp) in {StatusOK, StatusNoContent, StatusInternalServerError})
              && (h.CreateEntry? ==> StatusSent(r.1.resp) in {StatusCreated, StatusInternalServerError})
              && (h.DeleteEntry? ==> StatusSent(r.1.resp) == StatusNoContent)
    ensures var r := Handle(colab, s, h, req);
            r.0.docs != s.docs && !h.DeleteEntry? ==>
              h.CreateEntry? && r.1.Sent? && StatusSent(r.1.resp) == StatusCreated
  {
  }
}
