/** The etcdrest dispatcher: the server configuration, the route table that
    `RouteEtcd` builds, schema validation of candidate documents, and the
    GET, PUT/PATCH and DELETE handlers.

    A handler is a pure function from the store and the request to the new
    store, the trace of the collaborator calls it made, and what it sent.
    Everything the server delegates to a library is a field of
    `Collaborators`, so nothing about those libraries is assumed beyond
    their signatures. */
module Server {
  import opened Wrappers
  import Json
  import opened Http
  import Strings
  import Etcd
  import Writer

  // ---- Configuration ----

  datatype Config = Config(templDir: string, schemaURI: string, bind: string, envelope: bool, indent: bool)

  /** `New`: templates from "templates", schemas from "file://schemas",
      listening on all interfaces at port 8080, no envelope, indentation on. */
  function New(): (c: Config)
    ensures c.templDir == "templates" && c.schemaURI == "file://schemas" && c.bind == "0.0.0.0:8080"
    ensures !c.envelope && c.indent
  {
    Config("templates", "file://schemas", "0.0.0.0:8080", false, true)
  }

  function WithTemplDir(c: Config, templDir: string): (r: Config)
    ensures r.templDir == templDir && r == c.(templDir := r.templDir)
  {
    c.(templDir := templDir)
  }

  function WithSchemaURI(c: Config, schemaURI: string): (r: Config)
    ensures r.schemaURI == schemaURI && r == c.(schemaURI := r.schemaURI)
  {
    c.(schemaURI := schemaURI)
  }

  function WithBind(c: Config, bind: string): (r: Config)
    ensures r.bind == bind && r == c.(bind := r.bind)
  {
    c.(bind := bind)
  }

  function WithEnvelope(c: Config, envelope: bool): (r: Config)
    ensures r.envelope == envelope && r == c.(envelope := r.envelope)
  {
    c.(envelope := envelope)
  }

  function WithIndent(c: Config, indent: bool): (r: Config)
    ensures r.indent == indent && r == c.(indent := r.indent)
  {
    c.(indent := indent)
  }

  // ---- Collaborators ----

  /** One schema violation as the validator reports it: where (its context
      rendered with "/" separators, rooted at "(root)") and what. */
  datatype Violation = Violation(context: string, description: string)

  /** The libraries the handlers call, as uninterpreted functions:
      `render` executes a path template with the route variables,
      `materialise` and `dematerialise` convert between etcd trees and
      documents, `marshal` and `unmarshal` are `encoding/json`,
      `applyPatch` decodes and applies an RFC 6902 JSON Patch, and
      `validate` checks a document against the schema at a reference. */
  datatype Collaborators = Collaborators(
    render: (string, map<string, string>) -> Result<string, string>,
    materialise: Etcd.Node -> Json.Value,
    dematerialise: Json.Value -> Etcd.Node,
    marshal: Json.Value -> Json.Bytes,
    unmarshal: Json.Bytes -> Option<Json.Value>,
    applyPatch: (Json.Bytes, Json.Bytes) -> Result<Json.Bytes, string>,
    validate: (string, Json.Bytes) -> Result<seq<Violation>, string>)

  // ---- Route table ----

  /** The handler a route is bound to, with the parameters its closure captures. */
  datatype Handler =
    | GetDoc(endpoint: string, dirName: string)
    | PutOrPatchDoc(endpoint: string, schema: string)
    | DeleteDoc(endpoint: string)

  datatype Route = Route(pattern: string, verb: Method, handler: Handler)

  /** The registered routes in registration order, and the path templates by
      name (the process-wide template set). */
  datatype Router = Router(routes: seq<Route>, templates: map<string, string>)

  /** The methods registered for a pattern. */
  function VerbsFor(routes: seq<Route>, pattern: string): set<Method> {
    set k | 0 <= k < |routes| && routes[k].pattern == pattern :: routes[k].verb
  }

  /** `RouteEtcd`: registers the collection and resource path templates under
      their endpoint names and adds five routes: GET on the collection, and
      GET, PUT, PATCH and DELETE on the resource. */
  function RouteEtcd(r: Router, collection: string, collectionPath: string, resource: string,
                     resourcePath: string, schema: string, dirName: string): (r': Router)
    ensures |r'.routes| == |r.routes| + 5 && r'.routes[..|r.routes|] == r.routes
    ensures collection != resource ==> VerbsFor(r'.routes[|r.routes|..], collection) == {GET}
    ensures collection != resource ==> VerbsFor(r'.routes[|r.routes|..], resource) == {GET, PUT, PATCH, DELETE}
    ensures POST !in VerbsFor(r'.routes[|r.routes|..], collection) + VerbsFor(r'.routes[|r.routes|..], resource)
    ensures forall k :: |r.routes| <= k < |r'.routes| ==> r'.routes[k].pattern in {collection, resource}
    ensures forall k :: |r.routes| <= k < |r'.routes| && r'.routes[k].verb in {PUT, PATCH} ==>
              r'.routes[k].handler == PutOrPatchDoc(resource, schema)
    ensures forall k :: |r.routes| <= k < |r'.routes| && r'.routes[k].verb == DELETE ==>
              r'.routes[k].handler == DeleteDoc(resource)
    ensures forall k :: |r.routes| <= k < |r'.routes| && r'.routes[k].pattern == collection != resource ==>
              r'.routes[k] == Route(collection, GET, GetDoc(collection, dirName))
    ensures r'.templates.Keys == r.templates.Keys + {collection, resource}
    ensures r'.templates[resource] == resourcePath
    ensures collection != resource ==> r'.templates[collection] == collectionPath
  {
    var added := [
      Route(collection, GET, GetDoc(collection, dirName)),
      Route(resource, GET, GetDoc(resource, dirName)),
      Route(resource, PUT, PutOrPatchDoc(resource, schema)),
      Route(resource, PATCH, PutOrPatchDoc(resource, schema)),
      Route(resource, DELETE, DeleteDoc(resource))
    ];
    var r' := Router(r.routes + added, r.templates[collection := collectionPath][resource := resourcePath]);
    assert r'.routes[|r.routes|..] == added;
    assert forall k :: |r.routes| <= k < |r'.routes| ==> r'.routes[k] == added[k - |r.routes|];
    assert collection != resource ==> VerbsFor(added, collection) == {GET} by {
      if collection != resource {
        assert added[0].pattern == collection;
      }
    }
    assert collection != resource ==> VerbsFor(added, resource) == {GET, PUT, PATCH, DELETE} by {
      if collection != resource {
        assert added[1].verb == GET && added[2].verb == PUT && added[3].verb == PATCH && added[4].verb == DELETE;
      }
    }
    r'
  }

  /** The route a request is served by once its path matched `pattern`: the
      first registered route for that pattern and method. */
  function Match(routes: seq<Route>, pattern: string, verb: Method): (m: Option<Route>)
    ensures m.Some? ==> m.value in routes && m.value.pattern == pattern && m.value.verb == verb
    ensures m.None? <==> verb !in VerbsFor(routes, pattern)
    ensures m.Some? ==> (exists k :: 0 <= k < |routes| && routes[k] == m.value &&
                           forall j :: 0 <= j < k ==> !(routes[j].pattern == pattern && routes[j].verb == verb))
  {
    if |routes| == 0 then None
    else if routes[0].pattern == pattern && routes[0].verb == verb then Some(routes[0])
    else
      var m := Match(routes[1..], pattern, verb);
      assert forall x :: x in routes[1..] ==> x in routes;
      assert verb in VerbsFor(routes, pattern) <==> verb in VerbsFor(routes[1..], pattern) by {
        if verb in VerbsFor(routes, pattern) {
          var k :| 0 <= k < |routes| && routes[k].pattern == pattern && routes[k].verb == verb;
          assert k > 0 && routes[1..][k - 1] == routes[k];
        }
        if verb in VerbsFor(routes[1..], pattern) {
          var k :| 0 <= k < |routes[1..]| && routes[1..][k].pattern == pattern && routes[1..][k].verb == verb;
          assert routes[k + 1] == routes[1..][k];
        }
      }
      m
  }

  /** On a fresh router the resource has no POST and its PUT and PATCH share
      one handler; the collection answers GET only. */
  lemma RouteEtcdTable(collection: string, collectionPath: string, resource: string,
                       resourcePath: string, schema: string, dirName: string)
    requires collection != resource
    ensures var r := RouteEtcd(Router([], map[]), collection, collectionPath, resource, resourcePath, schema, dirName);
            && Match(r.routes, resource, POST).None?
            && Match(r.routes, collection, POST).None?
            && Match(r.routes, collection, PUT).None?
            && Match(r.routes, collection, GET) == Some(Route(collection, GET, GetDoc(collection, dirName)))
            && Match(r.routes, resource, PUT).value.handler == PutOrPatchDoc(resource, schema)
            && Match(r.routes, resource, PATCH).value.handler == PutOrPatchDoc(resource, schema)
            && Match(r.routes, resource, DELETE).value.handler == DeleteDoc(resource)
  {
    var r := RouteEtcd(Router([], map[]), collection, collectionPath, resource, resourcePath, schema, dirName);
    var rs := r.routes;
    assert rs == [
      Route(collection, GET, GetDoc(collection, dirName)),
      Route(resource, GET, GetDoc(resource, dirName)),
      Route(resource, PUT, PutOrPatchDoc(resource, schema)),
      Route(resource, PATCH, PutOrPatchDoc(resource, schema)),
      Route(resource, DELETE, DeleteDoc(resource))
    ] by {
      assert rs == [] + rs;
    }
    MatchOnly(rs, resource, PUT, Route(resource, PUT, PutOrPatchDoc(resource, schema)));
    MatchOnly(rs, resource, PATCH, Route(resource, PATCH, PutOrPatchDoc(resource, schema)));
    MatchOnly(rs, resource, DELETE, Route(resource, DELETE, DeleteDoc(resource)));
    MatchOnly(rs, collection, GET, Route(collection, GET, GetDoc(collection, dirName)));
  }

  /** A route that is the only one registered for its pattern and method is
      the one that serves it. */
  lemma MatchOnly(routes: seq<Route>, pattern: string, verb: Method, rt: Route)
    requires rt in routes && rt.pattern == pattern && rt.verb == verb
    requires forall x :: x in routes && x.pattern == pattern && x.verb == verb ==> x == rt
    ensures Match(routes, pattern, verb) == Some(rt)
  {
    var k :| 0 <= k < |routes| && routes[k] == rt;
    assert verb in VerbsFor(routes, pattern);
  }

  // ---- The call trace ----

  /** A collaborator call a handler made, with its arguments; a validation
      records whether its verdict let the write go ahead. */
  datatype Call =
    | GetCall(path: string, table: bool, dirName: string)
    | PatchCall(doc: Json.Bytes, patch: Json.Bytes)
    | ValidateCall(schemaRef: string, candidate: Json.Bytes, passed: bool)
    | PutCall(path: string, data: Json.Value)
    | DeleteCall(path: string)

  /** What a call does to the store: only a successful Put or Delete changes it. */
  function Effect(s: Etcd.Store, c: Call, dematerialise: Json.Value -> Etcd.Node): Etcd.Store {
    match c
    case PutCall(p, d) =>
      (match Etcd.BackendCreate(s, p, dematerialise(d)) case Success(s') => s' case Failure(_) => s)
    case DeleteCall(p) =>
      (match Etcd.BackendDelete(s, p) case Success(s') => s' case Failure(_) => s)
    case _ => s
  }

  /** The store after the calls of a trace, in order. */
  function Replay(s: Etcd.Store, trace: seq<Call>, dematerialise: Json.Value -> Etcd.Node): Etcd.Store
    decreases |trace|
  {
    if |trace| == 0 then s else Replay(Effect(s, trace[0], dematerialise), trace[1..], dematerialise)
  }

  predicate Writes(c: Call) {
    c.PutCall? || c.DeleteCall?
  }

  /** A trace without Put or Delete leaves the store as it was. */
  lemma {:induction false} ReadOnlyTrace(s: Etcd.Store, trace: seq<Call>, dematerialise: Json.Value -> Etcd.Node)
    requires forall k :: 0 <= k < |trace| ==> !Writes(trace[k])
    ensures Replay(s, trace, dematerialise) == s
    decreases |trace|
  {
    if |trace| > 0 {
      ReadOnlyTrace(s, trace[1..], dematerialise);
    }
  }

  /** Every Put in the trace directly follows a validation that passed, of
      the very bytes the written document was decoded from. */
  predicate ValidatedBeforeWrite(trace: seq<Call>, unmarshal: Json.Bytes -> Option<Json.Value>) {
    forall k :: 0 <= k < |trace| && trace[k].PutCall? ==>
      0 < k && trace[k - 1].ValidateCall? && trace[k - 1].passed &&
      unmarshal(trace[k - 1].candidate) == Some(trace[k].data)
  }

  /** What a handler leaves behind. */
  datatype Outcome = Outcome(store: Etcd.Store, trace: seq<Call>, reply: Reply)

  /** A well-behaved handler: the store changed only through the calls it
      made, every write was validated, and any status sent is a real one. */
  predicate Consistent(s: Etcd.Store, o: Outcome, colab: Collaborators) {
    && o.store == Replay(s, o.trace, colab.dematerialise)
    && ValidatedBeforeWrite(o.trace, colab.unmarshal)
    && (o.reply.Sent? ==> o.reply.resp.status.Some? && ValidCode(o.reply.resp.status.value))
  }

  // ---- Validation ----

  /** Where the validator finds the schema: the configured base plus "/" plus
      the route's schema name. */
  function SchemaRef(c: Config, schema: string): string {
    c.schemaURI + "/" + schema
  }

  /** The message for one violation: its context with the first "(root)"
      turned into the store path, then ": " and the description. */
  function Message(path: string, v: Violation): string {
    Strings.Replace(v.context, "(root)", path, 1) + ": " + v.description
  }

  /** The message format spelled out: only the first "(root)" is replaced. */
  lemma MessageFormat(path: string, v: Violation)
    ensures var i := Strings.IndexOf(v.context, "(root)");
            && (i == -1 ==> Message(path, v) == v.context + ": " + v.description)
            && (i >= 0 ==>
                  Message(path, v) == v.context[..i] + path + v.context[i + 6..] + ": " + v.description)
  {
    Strings.ReplaceOnce(v.context, "(root)", path);
  }

  /** `validateDoc`: 500 with the single error when the validator itself
      fails, 400 with one message per violation in the validator's order
      when the document is invalid, and 200 with no errors otherwise. */
  function ValidateDoc(c: Config, colab: Collaborators, doc: Json.Bytes, path: string, schema: string)
    : (r: (int, seq<string>))
    ensures colab.validate(SchemaRef(c, schema), doc).Failure? ==>
              r == (StatusInternalServerError, [colab.validate(SchemaRef(c, schema), doc).error])
    ensures colab.validate(SchemaRef(c, schema), doc).Success? && |colab.validate(SchemaRef(c, schema), doc).value| > 0 ==>
              var vs := colab.validate(SchemaRef(c, schema), doc).value;
              r.0 == StatusBadRequest && |r.1| == |vs| &&
              forall k :: 0 <= k < |vs| ==> r.1[k] == Message(path, vs[k])
    ensures colab.validate(SchemaRef(c, schema), doc) == Success([]) ==> r == (StatusOK, [])
  {
    match colab.validate(SchemaRef(c, schema), doc)
    case Failure(e) => (StatusInternalServerError, [e])
    case Success(vs) =>
      if |vs| > 0 then (StatusBadRequest, seq(|vs|, k requires 0 <= k < |vs| => Message(path, vs[k])))
      else (StatusOK, [])
  }

  /** The validation verdict gates the write: errors come back exactly when
      the document is not a pass, and then with 400 or 500, never 200. */
  lemma ValidationVerdict(c: Config, colab: Collaborators, doc: Json.Bytes, path: string, schema: string)
    ensures var r := ValidateDoc(c, colab, doc, path, schema);
            && (|r.1| == 0 <==> colab.validate(SchemaRef(c, schema), doc) == Success([]))
            && (|r.1| == 0 <==> r.0 == StatusOK)
            && r.0 in {StatusOK, StatusBadRequest, StatusInternalServerError}
  {
  }

  // ---- Requests and the handlers ----

  /** The body limit of the write handlers: `io.LimitReader(r.Body, 1048576)`. */
  const MaxBody := 1048576

  /** A request as the handlers see it: the method, the route variables, the
      query, the body bytes, and the errors (if any) reading and closing the
      body report. */
  datatype Request = Request(verb: Method, vars: map<string, string>, query: Query, body: Json.Bytes,
                             readError: Option<string>, closeError: Option<string>)

  /** The body as read through the limit: anything past 1 MiB is dropped. */
  function LimitedBody(body: Json.Bytes): (b: Json.Bytes)
    ensures |b| <= MaxBody && b <= body
    ensures |body| <= MaxBody ==> b == body
    ensures |body| > MaxBody ==> b == body[..MaxBody]
  {
    if |body| <= MaxBody then body else body[..MaxBody]
  }

  /** Executes the template registered under the endpoint's name. */
  function StorePath(router: Router, colab: Collaborators, endpoint: string, vars: map<string, string>)
    : Result<string, string>
  {
    if endpoint in router.templates then colab.render(router.templates[endpoint], vars)
    else Failure("template: no template " + endpoint)
  }

  /** `writeError` of the server: the writer's, with the configured default. */
  function Fail(c: Config, req: Request, message: string, code: int): Reply
    requires ValidCode(code)
  {
    Sent(Writer.WriteError(c.envelope, req.query, message, code))
  }

  /** The validate-decode-write tail shared by PUT and PATCH. */
  function Commit(c: Config, colab: Collaborators, s: Etcd.Store, req: Request, path: string, schema: string,
                  done: seq<Call>, doc: Json.Bytes): (o: Outcome)
    requires s == Replay(s, done, colab.dematerialise)
    requires forall k :: 0 <= k < |done| ==> !Writes(done[k])
    ensures Consistent(s, o, colab)
    ensures |o.trace| > |done| && o.trace[..|done|] == done
    ensures o.trace[|done|] == ValidateCall(SchemaRef(c, schema), doc, ValidateDoc(c, colab, doc, path, schema).1 == [])
  {
    var (code, errors) := ValidateDoc(c, colab, doc, path, schema);
    ValidationVerdict(c, colab, doc, path, schema);
    var validated := done + [ValidateCall(SchemaRef(c, schema), doc, errors == [])];
    ReadOnlyTrace(s, validated, colab.dematerialise);
    if errors != [] then
      Outcome(s, validated, Sent(Writer.WriteErrors(c.envelope, req.query, errors, code)))
    else
      match colab.unmarshal(doc)
      case None => Outcome(s, validated, Fail(c, req, "invalid JSON document", StatusInternalServerError))
      case Some(data) =>
        var trace := validated + [PutCall(path, data)];
        ReplayAppend(s, validated, PutCall(path, data), colab.dematerialise);
        var (s', answer) := Etcd.PutDoc(s, path, data, colab.dematerialise);
        var reply := match answer
          case Err(code, message) => Fail(c, req, message, code)
          case Ok(_, _) => Sent(Writer.Write(c.envelope, req.query, data));
        Outcome(s', trace, reply)
  }

  /** Replaying one more call applies its effect last. */
  lemma {:induction false} ReplayAppend(s: Etcd.Store, trace: seq<Call>, c: Call, dematerialise: Json.Value -> Etcd.Node)
    ensures Replay(s, trace + [c], dematerialise) == Effect(Replay(s, trace, dematerialise), c, dematerialise)
    decreases |trace|
  {
    if |trace| > 0 {
      assert (trace + [c])[1..] == trace[1..] + [c];
      ReplayAppend(Effect(s, trace[0], dematerialise), trace[1..], c, dematerialise);
    }
  }

  /** `putOrPatchDoc`. PUT takes the body as the candidate document. PATCH
      reads the current document, marshals it and applies the body to it as
      a JSON Patch. Either way the candidate is validated, decoded and put. */
  function PutOrPatch(c: Config, colab: Collaborators, router: Router, s: Etcd.Store,
                      endpoint: string, schema: string, req: Request): (o: Outcome)
    ensures Consistent(s, o, colab)
  {
    match StorePath(router, colab, endpoint, req.vars)
    case Failure(e) => Outcome(s, [], Exited(e))
    case Success(path) =>
      if req.readError.Some? then Outcome(s, [], Fail(c, req, req.readError.value, StatusInternalServerError))
      else if req.closeError.Some? then Outcome(s, [], Fail(c, req, req.closeError.value, StatusInternalServerError))
      else
        var body := LimitedBody(req.body);
        if req.verb == PATCH then
          var read := GetCall(path, false, "");
          match Etcd.Get(s, path, colab.materialise)
          case Err(code, message) => Outcome(s, [read], Fail(c, req, message, code))
          case Ok(data, code) =>
            var original := colab.marshal(data);
            var patched := [read, PatchCall(original, body)];
            ReadOnlyTrace(s, patched, colab.dematerialise);
            match colab.applyPatch(original, body)
            case Failure(e) => Outcome(s, patched, Fail(c, req, e, code))
            case Success(doc) => Commit(c, colab, s, req, path, schema, patched, doc)
        else
          ReadOnlyTrace(s, [], colab.dematerialise);
          Commit(c, colab, s, req, path, schema, [], body)
  }

  /** `getDoc`: reads the document at the rendered path; `table` is on
      exactly when the query's `table` value lower-cases to "true". */
  function GetDocument(c: Config, colab: Collaborators, router: Router, s: Etcd.Store,
                       endpoint: string, dirName: string, req: Request): (o: Outcome)
    ensures Consistent(s, o, colab)
    ensures o.store == s
    ensures forall k :: 0 <= k < |o.trace| ==>
              o.trace[k].GetCall? && (o.trace[k].table <==> Strings.ToLower(QueryGet(req.query, "table")) == "true")
    ensures StorePath(router, colab, endpoint, req.vars).Failure? ==>
              o.trace == [] && o.reply == Exited(StorePath(router, colab, endpoint, req.vars).error)
    ensures StorePath(router, colab, endpoint, req.vars).Success? ==>
              var path := StorePath(router, colab, endpoint, req.vars).value;
              && |o.trace| == 1 && o.trace[0].path == path && o.trace[0].dirName == dirName
              && match Etcd.Get(s, path, colab.materialise)
                 case Ok(doc, _) => o.reply == Sent(Writer.Write(c.envelope, req.query, doc))
                 case Err(code, m) => o.reply == Sent(Writer.WriteError(c.envelope, req.query, m, code))
  {
    var table := Strings.ToLower(QueryGet(req.query, "table")) == "true";
    match StorePath(router, colab, endpoint, req.vars)
    case Failure(e) => Outcome(s, [], Exited(e))
    case Success(path) =>
      var trace := [GetCall(path, table, dirName)];
      ReadOnlyTrace(s, trace, colab.dematerialise);
      match Etcd.Get(s, path, colab.materialise)
      case Err(code, message) => Outcome(s, trace, Fail(c, req, message, code))
      case Ok(doc, _) => Outcome(s, trace, Sent(Writer.Write(c.envelope, req.query, doc)))
  }

  /** `deleteDoc`: reads the document, deletes it recursively, and answers
      with the document as it was before the delete. */
  function DeleteDocument(c: Config, colab: Collaborators, router: Router, s: Etcd.Store,
                          endpoint: string, req: Request): (o: Outcome)
    ensures Consistent(s, o, colab)
    ensures forall k :: 0 <= k < |o.trace| ==> !o.trace[k].ValidateCall? && !o.trace[k].PutCall?
  {
    match StorePath(router, colab, endpoint, req.vars)
    case Failure(e) => Outcome(s, [], Exited(e))
    case Success(path) =>
      var read := GetCall(path, false, "");
      ReadOnlyTrace(s, [read], colab.dematerialise);
      match Etcd.Get(s, path, colab.materialise)
      case Err(code, message) => Outcome(s, [read], Fail(c, req, message, code))
      case Ok(data, _) =>
        var trace := [read, DeleteCall(path)];
        ReplayAppend(s, [read], DeleteCall(path), colab.dematerialise);
        var (s', answer) := Etcd.Delete(s, path);
        match answer
        case Err(code, message) => Outcome(s', trace, Fail(c, req, message, code))
        case Ok(_, _) => Outcome(s', trace, Sent(Writer.Write(c.envelope, req.query, data)))
  }

  /** Serves a request with the handler of the route it matched. */
  function Handle(c: Config, colab: Collaborators, router: Router, s: Etcd.Store, route: Route, req: Request)
    : (o: Outcome)
    ensures Consistent(s, o, colab)
  {
    match route.handler
    case GetDoc(endpoint, dirName) => GetDocument(c, colab, router, s, endpoint, dirName, req)
    case PutOrPatchDoc(endpoint, schema) => PutOrPatch(c, colab, router, s, endpoint, schema, req)
    case DeleteDoc(endpoint) => DeleteDocument(c, colab, router, s, endpoint, req)
  }
}

/** Branch-by-branch properties of the etcdrest handlers. */
module ServerProperties {
  import opened Wrappers
  import Json
  import opened Http
  import Strings
  import Etcd
  import Writer
  import opened Server

  /** The request reached the store path `p` with its body read intact. */
  predicate Reached(router: Router, colab: Collaborators, endpoint: string, req: Request, p: string) {
    StorePath(router, colab, endpoint, req.vars) == Success(p) && req.readError.None? && req.closeError.None?
  }

  /** PUT validates the request body itself (cut at 1 MiB) against the
      route's schema, before anything else. */
  lemma PutValidatesBody(c: Config, colab: Collaborators, router: Router, s: Etcd.Store,
                         endpoint: string, schema: string, req: Request, p: string)
    requires Reached(router, colab, endpoint, req, p) && req.verb == PUT
    ensures var o := PutOrPatch(c, colab, router, s, endpoint, schema, req);
            |o.trace| >= 1 && o.trace[0].ValidateCall? &&
            o.trace[0].schemaRef == c.schemaURI + "/" + schema &&
            o.trace[0].candidate == LimitedBody(req.body) &&
            (|req.body| <= MaxBody ==> o.trace[0].candidate == req.body)
  {
  }

  /** A PATCH whose read fails answers with the read's status and error and
      goes no further: no patch, no validation, no write. */
  lemma PatchReadFailure(c: Config, colab: Collaborators, router: Router, s: Etcd.Store,
                         endpoint: string, schema: string, req: Request, p: string)
    requires Reached(router, colab, endpoint, req, p) && req.verb == PATCH
    requires Etcd.Get(s, p, colab.materialise).Err?
    ensures var o := PutOrPatch(c, colab, router, s, endpoint, schema, req);
            var read := Etcd.Get(s, p, colab.materialise);
            && o.trace == [GetCall(p, false, "")]
            && o.store == s
            && o.reply == Sent(Writer.WriteError(c.envelope, req.query, read.message, read.status))
            && StatusSent(o.reply.resp) == Etcd.StatusOf(Etcd.BackendGet(s, p).error)
  {
  }

  /** A patch that does not apply is answered with the status of the read
      before it, which is 200: the error list goes out under "200 OK", and
      neither validation nor the write happens. */
  lemma PatchFailureKeepsReadStatus(c: Config, colab: Collaborators, router: Router, s: Etcd.Store,
                                    endpoint: string, schema: string, req: Request, p: string)
    requires Reached(router, colab, endpoint, req, p) && req.verb == PATCH
    requires Etcd.Get(s, p, colab.materialise).Ok?
    requires colab.applyPatch(colab.marshal(Etcd.Get(s, p, colab.materialise).value), LimitedBody(req.body)).Failure?
    ensures var o := PutOrPatch(c, colab, router, s, endpoint, schema, req);
            var original := colab.marshal(Etcd.Get(s, p, colab.materialise).value);
            && o.trace == [GetCall(p, false, ""), PatchCall(original, LimitedBody(req.body))]
            && o.store == s
            && o.reply.Sent? && StatusSent(o.reply.resp) == StatusOK
            && o.reply.resp == Writer.WriteError(c.envelope, req.query,
                 colab.applyPatch(original, LimitedBody(req.body)).error, StatusOK)
  {
  }

  /** PATCH validates the patched document, not the patch. */
  lemma PatchValidatesResult(c: Config, colab: Collaborators, router: Router, s: Etcd.Store,
                             endpoint: string, schema: string, req: Request, p: string)
    requires Reached(router, colab, endpoint, req, p) && req.verb == PATCH
    requires Etcd.Get(s, p, colab.materialise).Ok?
    requires colab.applyPatch(colab.marshal(Etcd.Get(s, p, colab.materialise).value), LimitedBody(req.body)).Success?
    ensures var o := PutOrPatch(c, colab, router, s, endpoint, schema, req);
            var original := colab.marshal(Etcd.Get(s, p, colab.materialise).value);
            |o.trace| >= 3 && o.trace[..2] == [GetCall(p, false, ""), PatchCall(original, LimitedBody(req.body))] &&
            o.trace[2].ValidateCall? &&
            o.trace[2].candidate == colab.applyPatch(original, LimitedBody(req.body)).value
  {
  }

  /** The candidate a write handler validates: the body for PUT, the patched
      document for PATCH (when the read and the patch succeeded). */
  function Candidate(colab: Collaborators, s: Etcd.Store, req: Request, p: string): Option<Json.Bytes> {
    if req.verb != PATCH then Some(LimitedBody(req.body))
    else match Etcd.Get(s, p, colab.materialise)
      case Err(_, _) => None
      case Ok(data, _) =>
        match colab.applyPatch(colab.marshal(data), LimitedBody(req.body))
        case Failure(_) => None
        case Success(doc) => Some(doc)
  }

  /** A candidate that fails validation is never written: the store is
      unchanged, no Put is made, and the client gets the validator's
      messages with the validator's status (400, or 500 if the validator
      itself failed). */
  lemma InvalidDocumentIsNotWritten(c: Config, colab: Collaborators, router: Router, s: Etcd.Store,
                                    endpoint: string, schema: string, req: Request, p: string)
    requires Reached(router, colab, endpoint, req, p)
    requires Candidate(colab, s, req, p).Some?
    requires ValidateDoc(c, colab, Candidate(colab, s, req, p).value, p, schema).1 != []
    ensures var o := PutOrPatch(c, colab, router, s, endpoint, schema, req);
            var v := ValidateDoc(c, colab, Candidate(colab, s, req, p).value, p, schema);
            && o.store == s
            && (forall k :: 0 <= k < |o.trace| ==> !o.trace[k].PutCall?)
            && o.trace[|o.trace| - 1] == ValidateCall(SchemaRef(c, schema), Candidate(colab, s, req, p).value, false)
            && o.reply == Sent(Writer.WriteErrors(c.envelope, req.query, v.1, v.0))
            && StatusSent(o.reply.resp) in {StatusBadRequest, StatusInternalServerError}
  {
    ValidationVerdict(c, colab, Candidate(colab, s, req, p).value, p, schema);
  }

  /** A candidate that passes validation and decodes is put at the store
      path; if the backend accepts it, that path now holds its tree, nothing
      else in the store changed, and the client gets the document with 200. */
  lemma ValidDocumentIsWritten(c: Config, colab: Collaborators, router: Router, s: Etcd.Store,
                               endpoint: string, schema: string, req: Request, p: string)
    requires Reached(router, colab, endpoint, req, p)
    requires Candidate(colab, s, req, p).Some?
    requires colab.validate(SchemaRef(c, schema), Candidate(colab, s, req, p).value) == Success([])
    requires colab.unmarshal(Candidate(colab, s, req, p).value).Some?
    requires Etcd.Fault(Etcd.CreateOp, p) !in s.faults
    ensures var o := PutOrPatch(c, colab, router, s, endpoint, schema, req);
            var data := colab.unmarshal(Candidate(colab, s, req, p).value).value;
            && o.trace[|o.trace| - 1] == PutCall(p, data)
            && o.store.docs == s.docs[p := colab.dematerialise(data)]
            && o.store.faults == s.faults
            && o.reply == Sent(Writer.Write(c.envelope, req.query, data))
            && StatusSent(o.reply.resp) == StatusOK
  {
  }

  /** A body that cannot be read or closed is answered 500 with the read
      error (or else the close error), before any call is made. */
  lemma BodyErrorAnswers500(c: Config, colab: Collaborators, router: Router, s: Etcd.Store,
                            endpoint: string, schema: string, req: Request, p: string)
    requires StorePath(router, colab, endpoint, req.vars) == Success(p)
    requires req.readError.Some? || req.closeError.Some?
    ensures var o := PutOrPatch(c, colab, router, s, endpoint, schema, req);
            var m := if req.readError.Some? then req.readError.value else req.closeError.value;
            && o == Outcome(s, [], Sent(Writer.WriteError(c.envelope, req.query, m, StatusInternalServerError)))
            && StatusSent(o.reply.resp) == StatusInternalServerError
  {
  }

  /** A candidate that passes validation but does not decode is answered
      500; nothing is put and the store is unchanged. */
  lemma UndecodableCandidateAnswers500(c: Config, colab: Collaborators, router: Router, s: Etcd.Store,
                                       endpoint: string, schema: string, req: Request, p: string)
    requires Reached(router, colab, endpoint, req, p)
    requires Candidate(colab, s, req, p).Some?
    requires colab.validate(SchemaRef(c, schema), Candidate(colab, s, req, p).value) == Success([])
    requires colab.unmarshal(Candidate(colab, s, req, p).value).None?
    ensures var o := PutOrPatch(c, colab, router, s, endpoint, schema, req);
            && o.store == s
            && (forall k :: 0 <= k < |o.trace| ==> !o.trace[k].PutCall?)
            && o.trace[|o.trace| - 1] == ValidateCall(SchemaRef(c, schema), Candidate(colab, s, req, p).value, true)
            && o.reply.Sent? && StatusSent(o.reply.resp) == StatusInternalServerError
  {
  }

  /** A valid, decodable candidate the backend refuses to write is answered
      with the write's status, 500, and its error; the store is unchanged. */
  lemma PutFailureSendsItsStatus(c: Config, colab: Collaborators, router: Router, s: Etcd.Store,
                                 endpoint: string, schema: string, req: Request, p: string)
    requires Reached(router, colab, endpoint, req, p)
    requires Candidate(colab, s, req, p).Some?
    requires colab.validate(SchemaRef(c, schema), Candidate(colab, s, req, p).value) == Success([])
    requires colab.unmarshal(Candidate(colab, s, req, p).value).Some?
    requires Etcd.Fault(Etcd.CreateOp, p) in s.faults
    ensures var o := PutOrPatch(c, colab, router, s, endpoint, schema, req);
            var data := colab.unmarshal(Candidate(colab, s, req, p).value).value;
            var e := s.faults[Etcd.Fault(Etcd.CreateOp, p)];
            && o.trace[|o.trace| - 1] == PutCall(p, data)
            && o.store == s
            && o.reply == Sent(Writer.WriteError(c.envelope, req.query, e.Text(), StatusInternalServerError))
            && StatusSent(o.reply.resp) == StatusInternalServerError
  {
  }

  /** DELETE reads before it deletes: a failed read answers with the read's
      status and deletes nothing. */
  lemma DeleteReadFailure(c: Config, colab: Collaborators, router: Router, s: Etcd.Store,
                          endpoint: string, req: Request, p: string)
    requires StorePath(router, colab, endpoint, req.vars) == Success(p)
    requires Etcd.Get(s, p, colab.materialise).Err?
    ensures var o := DeleteDocument(c, colab, router, s, endpoint, req);
            && o.trace == [GetCall(p, false, "")]
            && o.store == s
            && o.reply.Sent? && StatusSent(o.reply.resp) == Etcd.Get(s, p, colab.materialise).status
  {
  }

  /** A successful DELETE answers 200 with the document as it was before the
      delete, and removes exactly the subtree at the path. */
  lemma DeleteEchoesOldDocument(c: Config, colab: Collaborators, router: Router, s: Etcd.Store,
                                endpoint: string, req: Request, p: string)
    requires StorePath(router, colab, endpoint, req.vars) == Success(p)
    requires Etcd.Get(s, p, colab.materialise).Ok?
    requires Etcd.Delete(s, p).1.Ok?
    ensures var o := DeleteDocument(c, colab, router, s, endpoint, req);
            && o.trace == [GetCall(p, false, ""), DeleteCall(p)]
            && o.reply == Sent(Writer.Write(c.envelope, req.query, colab.materialise(s.docs[p])))
            && StatusSent(o.reply.resp) == StatusOK
            && (forall k :: k in o.store.docs <==> k in s.docs && !Etcd.Under(k, p))
  {
    Etcd.DeleteRemovesSubtree(s, p);
  }

  /** A DELETE whose read succeeded but whose delete fails answers with the
      delete's own status and error; the store is unchanged. */
  lemma DeleteFailureSendsItsStatus(c: Config, colab: Collaborators, router: Router, s: Etcd.Store,
                                    endpoint: string, req: Request, p: string)
    requires StorePath(router, colab, endpoint, req.vars) == Success(p)
    requires Etcd.Get(s, p, colab.materialise).Ok?
    requires Etcd.Delete(s, p).1.Err?
    ensures var o := DeleteDocument(c, colab, router, s, endpoint, req);
            var del := Etcd.Delete(s, p).1;
            && o.trace == [GetCall(p, false, ""), DeleteCall(p)]
            && o.store == s
            && o.reply == Sent(Writer.WriteError(c.envelope, req.query, del.message, del.status))
            && StatusSent(o.reply.resp) == Etcd.StatusOf(Etcd.BackendDelete(s, p).error)
  {
  }

  /** A GET answers the document at the rendered path with 200, and a path
      that holds nothing with 404 and the read's error as the one error. */
  lemma GetAnswersReadOutcome(c: Config, colab: Collaborators, router: Router, s: Etcd.Store,
                              endpoint: string, dirName: string, req: Request, p: string)
    requires StorePath(router, colab, endpoint, req.vars) == Success(p)
    requires Etcd.Fault(Etcd.GetOp, p) !in s.faults
    ensures var o := GetDocument(c, colab, router, s, endpoint, dirName, req);
            var table := Strings.ToLower(QueryGet(req.query, "table")) == "true";
            && o.trace == [GetCall(p, table, dirName)]
            && o.store == s
            && (p in s.docs ==>
                  o.reply == Sent(Writer.Write(c.envelope, req.query, colab.materialise(s.docs[p]))) &&
                  StatusSent(o.reply.resp) == StatusOK)
            && (p !in s.docs ==>
                  o.reply == Sent(Writer.WriteError(c.envelope, req.query, Etcd.BackendGet(s, p).error.Text(),
                                                    StatusNotFound)) &&
                  StatusSent(o.reply.resp) == StatusNotFound)
  {
  }

  /** A path template that does not execute is fatal, whatever the method:
      the process exits before any call is made. */
  lemma TemplateFailureExits(c: Config, colab: Collaborators, router: Router, s: Etcd.Store,
                             endpoint: string, schema: string, dirName: string, req: Request)
    requires StorePath(router, colab, endpoint, req.vars).Failure?
    ensures var e := StorePath(router, colab, endpoint, req.vars).error;
            && GetDocument(c, colab, router, s, endpoint, dirName, req) == Outcome(s, [], Exited(e))
            && PutOrPatch(c, colab, router, s, endpoint, schema, req) == Outcome(s, [], Exited(e))
            && DeleteDocument(c, colab, router, s, endpoint, req) == Outcome(s, [], Exited(e))
  {
  }

  /** GET and DELETE never validate and never put. */
  lemma ReadsAndDeletesNeverValidate(c: Config, colab: Collaborators, router: Router, s: Etcd.Store,
                                     endpoint: string, dirName: string, req: Request)
    ensures var o := GetDocument(c, colab, router, s, endpoint, dirName, req);
            forall k :: 0 <= k < |o.trace| ==> !o.trace[k].ValidateCall? && !o.trace[k].PutCall?
    ensures var o := DeleteDocument(c, colab, router, s, endpoint, req);
            forall k :: 0 <= k < |o.trace| ==> !o.trace[k].ValidateCall? && !o.trace[k].PutCall?
  {
  }

  /** Two configurations the handlers cannot tell apart. */
  predicate SameServing(c1: Config, c2: Config) {
    c1.envelope == c2.envelope && c1.schemaURI == c2.schemaURI
  }

  lemma CommitSame(c1: Config, c2: Config, colab: Collaborators, s: Etcd.Store, req: Request, path: string,
                   schema: string, done: seq<Call>, doc: Json.Bytes)
    requires SameServing(c1, c2)
    requires s == Replay(s, done, colab.dematerialise)
    requires forall k :: 0 <= k < |done| ==> !Writes(done[k])
    ensures Commit(c1, colab, s, req, path, schema, done, doc) == Commit(c2, colab, s, req, path, schema, done, doc)
  {
    assert SchemaRef(c1, schema) == SchemaRef(c2, schema);
    assert ValidateDoc(c1, colab, doc, path, schema) == ValidateDoc(c2, colab, doc, path, schema);
  }

  lemma PutOrPatchSame(c1: Config, c2: Config, colab: Collaborators, router: Router, s: Etcd.Store,
                       endpoint: string, schema: string, req: Request)
    requires SameServing(c1, c2)
    ensures PutOrPatch(c1, colab, router, s, endpoint, schema, req) == PutOrPatch(c2, colab, router, s, endpoint, schema, req)
  {
    match StorePath(router, colab, endpoint, req.vars)
    case Failure(_) =>
    case Success(path) =>
      var body := LimitedBody(req.body);
      if req.readError.None? && req.closeError.None? {
        if req.verb == PATCH {
          match Etcd.Get(s, path, colab.materialise)
          case Err(_, _) =>
          case Ok(data, _) =>
            var patched := [GetCall(path, false, ""), PatchCall(colab.marshal(data), body)];
            ReadOnlyTrace(s, patched, colab.dematerialise);
            match colab.applyPatch(colab.marshal(data), body)
            case Failure(_) =>
            case Success(doc) => CommitSame(c1, c2, colab, s, req, path, schema, patched, doc);
        } else {
          ReadOnlyTrace(s, [], colab.dematerialise);
          CommitSame(c1, c2, colab, s, req, path, schema, [], body);
        }
      }
  }

  /** The indent setting is never consulted: every handler answers the same
      with indentation switched either way. */
  lemma IndentIgnored(c: Config, colab: Collaborators, router: Router, s: Etcd.Store, route: Route,
                      req: Request, indent: bool)
    ensures Handle(WithIndent(c, indent), colab, router, s, route, req) == Handle(c, colab, router, s, route, req)
  {
    var c' := WithIndent(c, indent);
    match route.handler
    case GetDoc(_, _) =>
    case PutOrPatchDoc(endpoint, schema) => PutOrPatchSame(c', c, colab, router, s, endpoint, schema, req);
    case DeleteDoc(_) =>
  }

  /** With the defaults of a fresh server and no `envelope` parameter, a
      successful read is answered with the bare document. */
  lemma FreshServerAnswersBare(q: Query, doc: Json.Value)
    requires "envelope" !in q
    ensures Writer.Write(New().envelope, q, doc).chunks[0].value == doc
  {
    Writer.EnvelopeSwitch(New().envelope, q);
  }
}
