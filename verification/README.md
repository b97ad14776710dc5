# etcdrest request pipeline, modelled in Dafny

etcdrest is a REST front end for an etcd key space. Each document is stored
as a tree of etcd keys under a store path. The path is rendered from a URL
template (`/hosts/{name}` for example). A request is handled in this order:

1. the dispatcher picks a handler by URL pattern and method;
2. for PATCH, the current document is read and an RFC 6902 JSON Patch is applied to it;
3. the candidate document is checked against a JSON Schema;
4. only a document that passes is written;
5. the response is written as indented JSON, either bare or wrapped in a `{code, data, errors}` envelope.

The model covers that pipeline (`etcdrest/server/server.go`), the status
mapping of its etcd adapter (`etcdrest/etcd/etcd.go`), the response writer
(`etcdrest/server/writer.go`), the string helpers offered to page templates
(`etcdrest/server/template.go`), and two earlier drafts of the program:

- `etcd-rest`: three copies of one `write`/`writeErrors`/`writeError`/`all` file;
- `etcd-drowsy`: a self-contained server whose routes are themselves stored in etcd.

Modules, one per file:

| module | what it holds |
|---|---|
| `Wrappers` | `Option` and `Result` |
| `Strings` | `strings.ToLower` (ASCII), `Index`, `Replace` with a count, `Repeat`, `Split` and `Join` on one character |
| `Json` | a closed JSON value type, object lookup, string lists |
| `Http` | the `ResponseWriter` as a value: headers, status line, body chunks, with net/http's rules (the first `WriteHeader` wins, `Write` implies 200, no body on 1xx/204/304, a silent handler is answered 200) |
| `Writer` | the envelope, the per-request envelope switch, `write`, `writeErrors`, `writeError` |
| `Etcd` | the store, the backend calls, the session's `Get`/`Put`/`Delete`, the connection settings |
| `Server` | server settings, the route table, schema validation, the call trace, the three handlers |
| `ServerProperties` | branch-by-branch lemmas about the handlers |
| `Templates` | `center`, `substr`, `lastval`, `lastvaln`, `replace` |
| `EtcdRestDraft` | the `etcd-rest` drafts' silent `writeError` and their `all` handler |
| `Drowsy` | `etcd-drowsy`: environment, error bodies, route records, router, handlers |

Handlers are pure functions from the store and the request to an `Outcome`:

- the new store;
- the trace of collaborator calls made (read, patch, validate, put, delete);
- the reply: a response that was sent, a panic, or a `log.Fatal` exit.

Every library the server calls is a field of a `Collaborators` record and is
otherwise uninterpreted. These are template rendering, tree/document
conversion, `encoding/json`, JSON Patch and JSON Schema validation.

The store is a map from store path to the tree last written there. A fault
table names the (operation, path) pairs on which the backend fails and the
etcd error it fails with. This stands in for timeouts, refused connections
and rejected writes.

Every outcome of the etcdrest server's handlers is proved `Consistent`:

- replaying its trace on the old store gives the new store;
- every Put in the trace directly follows a validation that passed, of the bytes the document was decoded from.

## Model

| member | source | states |
|---|---|---|
| Server.New | src/github.com/mickep76/etcdrest/server/server.go:51-61 | a fresh server reads templates from "templates" and schemas from "file://schemas", binds 0.0.0.0:8080, envelope off, indent on |
| Server.WithTemplDir | src/github.com/mickep76/etcdrest/server/server.go:63-66 | sets the template directory and changes no other setting |
| Server.WithSchemaURI | src/github.com/mickep76/etcdrest/server/server.go:68-71 | sets the schema base URI and changes no other setting |
| Server.WithBind | src/github.com/mickep76/etcdrest/server/server.go:73-76 | sets the bind address and changes no other setting |
| Server.WithEnvelope | src/github.com/mickep76/etcdrest/server/server.go:78-81 | sets the envelope default and changes no other setting |
| Server.WithIndent | src/github.com/mickep76/etcdrest/server/server.go:83-86 | sets the indent flag and changes no other setting |
| Server.RouteEtcd | src/github.com/mickep76/etcdrest/server/server.go:247-264 | appends exactly five routes, keeping the earlier ones: GET only on the collection; GET, PUT, PATCH and DELETE on the resource; never POST; PUT and PATCH share the put-or-patch handler; both path templates are registered under their pattern names |
| Server.RouteEtcdTable | src/github.com/mickep76/etcdrest/server/server.go:259-263 | on a fresh router, POST matches nothing, the collection answers GET only, and PUT, PATCH and DELETE on the resource reach their handlers |
| Server.Match | src/github.com/mickep76/etcdrest/server/server.go:259-263 | a request is served by the first route registered for its pattern and method, and by none exactly when that method was never registered for the pattern |
| Server.ValidateDoc | src/github.com/mickep76/etcdrest/server/server.go:99-121 | a validator error gives 500 with exactly that one error; an invalid document gives 400 with one message per violation, in the validator's order; a valid document gives 200 with no errors |
| Server.MessageFormat | src/github.com/mickep76/etcdrest/server/server.go:114 | a violation message is its context with only the first "(root)" replaced by the store path, then ": ", then the description |
| Server.ValidationVerdict | src/github.com/mickep76/etcdrest/server/server.go:106-120 | validation returns errors exactly when the validator does not return an empty list of violations, and exactly when the status is not 200; the status is always 200, 400 or 500 |
| Server.LimitedBody | src/github.com/mickep76/etcdrest/server/server.go:136 | the body read is the whole request body when it has at most 1048576 bytes, and exactly its first 1048576 bytes otherwise |
| Server.Commit | src/github.com/mickep76/etcdrest/server/server.go:170-188 | the candidate is validated first (schema URI + "/" + schema), and a Put happens only after a validation that passed, of the bytes the written document came from; the store changes only through that Put |
| Server.PutOrPatch | src/github.com/mickep76/etcdrest/server/server.go:124-190 | every PUT/PATCH outcome is consistent: the store equals the replay of the calls made, every write was validated first, and every status sent is a valid code |
| Server.GetDocument | src/github.com/mickep76/etcdrest/server/server.go:193-217 | GET never changes the store; once the path renders it makes exactly one read of that path with the route's directory name, its table flag on exactly when the lower-cased `table` query value is "true"; it answers the document with 200, or the read's status and error message; a path that does not render exits before any call |
| Server.DeleteDocument | src/github.com/mickep76/etcdrest/server/server.go:220-244 | DELETE's outcome is consistent, and it never validates and never puts |
| Server.Handle | src/github.com/mickep76/etcdrest/server/server.go:259-263 | whichever handler a route is bound to, the outcome is consistent with the store and every write was validated |
| ServerProperties.PutValidatesBody | src/github.com/mickep76/etcdrest/server/server.go:166-171 | PUT's first call validates the request body itself, unchanged when within the limit, against schema URI + "/" + schema |
| ServerProperties.PatchReadFailure | src/github.com/mickep76/etcdrest/server/server.go:148-153 | a PATCH whose read fails answers with the read's status and message; the read is its only call and the store is unchanged |
| ServerProperties.PatchFailureKeepsReadStatus | src/github.com/mickep76/etcdrest/server/server.go:161-164 | a patch that fails to apply is reported with the preceding read's status, 200; only the read and the patch happen, and the store is unchanged |
| ServerProperties.PatchValidatesResult | src/github.com/mickep76/etcdrest/server/server.go:161-171 | PATCH validates the patched document, not the patch |
| ServerProperties.InvalidDocumentIsNotWritten | src/github.com/mickep76/etcdrest/server/server.go:171-174 | a candidate with validation errors is never put: the store is unchanged, the last call is a failed validation, and the reply is the validator's messages under its status, 400 or 500 |
| ServerProperties.BodyErrorAnswers500 | src/github.com/mickep76/etcdrest/server/server.go:136-144 | a body that cannot be read or closed is answered 500 with the read error, or else the close error; no call is made and the store is unchanged |
| ServerProperties.UndecodableCandidateAnswers500 | src/github.com/mickep76/etcdrest/server/server.go:176-180 | a candidate that passed validation but does not decode is answered 500; the passing validation is the last call, nothing is put and the store is unchanged |
| ServerProperties.ValidDocumentIsWritten | src/github.com/mickep76/etcdrest/server/server.go:176-188 | a valid, decodable candidate that the backend accepts is put at the store path; only that path changes, and the client gets the document with 200 |
| ServerProperties.PutFailureSendsItsStatus | src/github.com/mickep76/etcdrest/server/server.go:182-186 | a valid, decodable candidate whose write fails is answered with the write's status, 500, and its error; the Put is the last call and the store is unchanged |
| ServerProperties.DeleteReadFailure | src/github.com/mickep76/etcdrest/server/server.go:231-235 | a DELETE whose read fails answers with the read's status and never calls Delete |
| ServerProperties.DeleteEchoesOldDocument | src/github.com/mickep76/etcdrest/server/server.go:231-242 | a successful DELETE reads and then deletes, answers 200 with the document as it was before, and removes exactly the subtree at the path |
| ServerProperties.DeleteFailureSendsItsStatus | src/github.com/mickep76/etcdrest/server/server.go:237-240 | a DELETE whose read succeeded but whose delete fails is answered with the delete's status (404 or 500) and its error; the store is unchanged |
| ServerProperties.GetAnswersReadOutcome | src/github.com/mickep76/etcdrest/server/server.go:209-215 | a GET of a path holding a document answers it with 200; a GET of a path holding nothing answers 404 with the read's error text as the one error; the one read is the only call |
| ServerProperties.TemplateFailureExits | src/github.com/mickep76/etcdrest/server/server.go:128-131 | a path template that fails to execute is `log.Fatal` in all three handlers (also server.go:202-205 and 224-227): the process exits, no call is made and the store is unchanged |
| ServerProperties.ReadsAndDeletesNeverValidate | src/github.com/mickep76/etcdrest/server/server.go:193-244 | GET and DELETE never validate and never put |
| ServerProperties.IndentIgnored | src/github.com/mickep76/etcdrest/server/server.go:83-86 | the indent setting is never consulted: every handler answers the same whichever way it is set |
| ServerProperties.FreshServerAnswersBare | src/github.com/mickep76/etcdrest/server/server.go:56 | with a fresh server's defaults and no `envelope` parameter, a document is sent bare |
| Writer.EnvelopeJson | src/github.com/mickep76/etcdrest/server/writer.go:11-16 | the envelope always has `code` first; `data` is present exactly when it is not null, and `errors` exactly when the list is not empty |
| Writer.EnvelopeRoundTrip | src/github.com/mickep76/etcdrest/server/writer.go:11-16 | every envelope reads back as itself, whatever was omitted from it |
| Writer.EffectiveEnvelope | src/github.com/mickep76/etcdrest/server/writer.go:22-28 | the `envelope` query value in any letter case turns enveloping on for "true", off for "false", and leaves the configured default otherwise |
| Writer.EnvelopeSwitch | src/github.com/mickep76/etcdrest/server/writer.go:49-55 | both directions of the switch: enveloping is on exactly when the parameter says "true", or says neither "true" nor "false" and the default is on; a missing parameter keeps the default |
| Writer.Write | src/github.com/mickep76/etcdrest/server/writer.go:18-43 | status 200, content type "application/json; charset=utf-8", one two-space-indented body: the bare data, or exactly the omitempty envelope object {code 200, data} (no `errors` member, no `data` member when the data is null), which reads back as that envelope; the `etcd-rest` drafts carry the same `write` at etcd-rest/server/server.go:28-53, etcd-rest/server.go:35-60 and etcd-rest/main.go:57-82 |
| Writer.WriteErrors | src/github.com/mickep76/etcdrest/server/writer.go:45-70 | the status is exactly the given code; the one two-space-indented body reads back as the bare list, or is exactly the omitempty envelope object {code, errors} with no `data` member, which reads back as that envelope; the drafts' copies are etcd-rest/server/server.go:55-80, etcd-rest/server.go:62-87 and etcd-rest/main.go:84-109 |
| Writer.WriteError | src/github.com/mickep76/etcdrest/server/writer.go:72-74 | one error is written exactly as `writeErrors` writes the one-element list |
| Writer.ErrorsOnlyDependOnSwitch | src/github.com/mickep76/etcdrest/server/writer.go:45-70 | two requests that agree on the envelope switch get the same error response, and an enveloped body carries the same code as the status line |
| Etcd.StatusOf | src/github.com/mickep76/etcdrest/etcd/etcd.go:150-157 | a backend failure maps to 404 exactly when it is an etcd client error with code 100, and to 500 otherwise |
| Etcd.Get | src/github.com/mickep76/etcdrest/etcd/etcd.go:148-161 | success gives the materialised subtree with 200; a failure gives 404 for "key not found" and 500 otherwise, with the backend's message |
| Etcd.PutDoc | src/github.com/mickep76/etcdrest/etcd/etcd.go:140-144 | a failed create gives 500 and leaves the store unchanged; success gives the document with 200 and changes only the written path |
| Etcd.Put | src/github.com/mickep76/etcdrest/etcd/etcd.go:134-145 | a body that does not decode gives 400 and no write is attempted; otherwise the decoded document is written as above |
| Etcd.Delete | src/github.com/mickep76/etcdrest/etcd/etcd.go:164-177 | success gives 200 with the subtree removed; a failure gives 404 or 500 and leaves the store unchanged |
| Etcd.DeleteRemovesSubtree | src/github.com/mickep76/etcdrest/etcd/etcd.go:165 | a recursive delete removes exactly the path and everything stored under it; every other stored path keeps the entry it had, and the fault table is unchanged |
| Etcd.StatusVocabulary | src/github.com/mickep76/etcdrest/etcd/etcd.go:134-177 | every status the adapter returns is 200, 400, 404 or 500, and 400 comes exactly from a Put body that does not decode |
| Etcd.New | src/github.com/mickep76/etcdrest/etcd/etcd.go:55-61 | the peers split into the two local endpoints, timeout one second, command timeout five times that, nothing else set |
| Etcd.WithPeers | src/github.com/mickep76/etcdrest/etcd/etcd.go:63-66 | sets the peers and changes no other setting |
| Etcd.WithCert | src/github.com/mickep76/etcdrest/etcd/etcd.go:68-71 | sets the certificate and changes no other setting |
| Etcd.WithKey | src/github.com/mickep76/etcdrest/etcd/etcd.go:73-76 | sets the key and changes no other setting |
| Etcd.WithCA | src/github.com/mickep76/etcdrest/etcd/etcd.go:78-81 | sets the CA and changes no other setting |
| Etcd.WithUser | src/github.com/mickep76/etcdrest/etcd/etcd.go:83-86 | sets the user and changes no other setting |
| Etcd.WithTimeout | src/github.com/mickep76/etcdrest/etcd/etcd.go:88-91 | sets the timeout and changes no other setting |
| Etcd.WithCmdTimeout | src/github.com/mickep76/etcdrest/etcd/etcd.go:93-96 | sets the command timeout and changes no other setting |
| Templates.Center | src/github.com/mickep76/etcdrest/server/template.go:52-62 | a string longer than the size comes back unchanged; otherwise it sits between left and right runs of `deco` that add up to the shortfall, the right run equal to the left or one longer |
| Templates.CenterLength | src/github.com/mickep76/etcdrest/server/template.go:57-61 | the result adds one `deco` per missing character; with a one-character `deco` its length is exactly the size, and the string sits at offset (size - length) / 2 |
| Templates.Substr | src/github.com/mickep76/etcdrest/server/template.go:64-66 | defined exactly when 0 <= b <= l <= length, and then the l - b characters starting at b: l is an end index, not a length |
| Templates.SubstrJoin | src/github.com/mickep76/etcdrest/server/template.go:64-66 | adjacent slices concatenate to the covering slice, and the full slice is the string |
| Templates.LastVal | src/github.com/mickep76/etcdrest/server/template.go:68-76 | "" exactly when every element is empty (or there are none); otherwise an element of the list after which every element is empty |
| Templates.LastValScan | src/github.com/mickep76/etcdrest/server/template.go:68-76 | the backwards scan returns the last non-empty element, or "" |
| Templates.LastValN | src/github.com/mickep76/etcdrest/server/template.go:78-80 | the variadic form agrees with `lastval` on the same elements |
| Templates.ReplaceAll | src/github.com/mickep76/etcdrest/server/template.go:102-104 | with a non-empty `old`, the text before the first occurrence is kept, that occurrence becomes `new`, and the rest is replaced the same way; no occurrence, or `old` equal to `new`, leaves the string unchanged |
| Strings.ReplaceStep | src/github.com/mickep76/etcdrest/server/template.go:103 | `strings.Replace` with a count not yet used up rewrites the first occurrence and continues after it with one fewer to go, or returns the string when there is no occurrence |
| Strings.ReplaceOnce | src/github.com/mickep76/etcdrest/server/server.go:114 | a count of one rewrites only the first occurrence, or nothing when there is none |
| EtcdRestDraft.WriteErrorAsWritten | src/github.com/mickep76/etcd-rest/server/server.go:82-84 | the drafts' `writeError` adds no header, no status and no body (also etcd-rest/server.go:89-91 and etcd-rest/main.go:111-113) |
| EtcdRestDraft.All | src/github.com/mickep76/etcd-rest/server/server.go:86-106 | a tree is sent with 200, bare or as exactly the omitempty envelope object {code 200, data}; "key not found" is a bare 404 with no body and no header; any other failure sends nothing at all; the copies at etcd-rest/server.go:93-113 and etcd-rest/main.go:115-135 are the same |
| EtcdRestDraft.AllHidesBackendFailure | src/github.com/mickep76/etcd-rest/server/server.go:98-100 | a read that times out reaches the client as 200 with an empty body |
| EtcdRestDraft.AllIntended | src/github.com/mickep76/etcd-rest/server/server.go:83 | with `writeError` calling `writeErrors`, a failure other than "key not found" is a 500 carrying the backend's message, as the bare list or as exactly the omitempty envelope object {code 500, errors} |
| EtcdRestDraft.IntendedAgreesElsewhere | src/github.com/mickep76/etcd-rest/server/server.go:86-106 | the correction changes only that failure branch: the intended handler answers 200 exactly when the read succeeds, and answers successes and not-found as the draft does |
| Drowsy.ApplyEntry | src/github.com/mickep76/etcd-drowsy/main.go:47-53 | an entry for ETCD_PEERS or ETCD_BIND sets that setting to the text between its first and second '=', and panics when it has no '='; any other key changes nothing |
| Drowsy.GetEnv | src/github.com/mickep76/etcd-drowsy/main.go:41-57 | with no entries the peers are the two local endpoints and the bind address is 127.0.0.1:8080 |
| Drowsy.GetEnvLastWins | src/github.com/mickep76/etcd-drowsy/main.go:46-54 | each setting is the value of the last entry naming it, or its default when none does |
| Drowsy.ValueTruncated | src/github.com/mickep76/etcd-drowsy/main.go:47-52 | "ETCD_BIND=a=b" sets the bind address to "a": a value is cut at its second '=' |
| Drowsy.MarshalStruct | src/github.com/mickep76/etcd-drowsy/main.go:65 | a struct marshals to an object whose members are exactly its exported fields |
| Drowsy.ErrToJsonAsWritten | src/github.com/mickep76/etcd-drowsy/main.go:60-71 | the error body is `{}` whatever the message |
| Drowsy.ErrToJsonLosesMessage | src/github.com/mickep76/etcd-drowsy/main.go:22-25 | two different messages marshal the same, and no `message` member is present |
| Drowsy.ErrToJson | src/github.com/mickep76/etcd-drowsy/main.go:22-25 | the intended error body has the single member `message` holding the error text |
| Drowsy.ExtractRoutes | src/github.com/mickep76/etcd-drowsy/main.go:215-231 | panics exactly when some map record with path, endpoint and schema has a field that is not a string; otherwise each such record becomes a route and every route comes from one; other records are skipped |
| Drowsy.Startup | src/github.com/mickep76/etcd-drowsy/main.go:209-237 | the server starts serving exactly when "/routes" can be read and yields at least one route; a failed read is fatal |
| Drowsy.Register | src/github.com/mickep76/etcd-drowsy/main.go:243-252 | four registrations per route in order: GET on its path, and GET, PUT and DELETE on its path + "/{name}"; no other method |
| Drowsy.GetAll | src/github.com/mickep76/etcd-drowsy/main.go:74-92 | a failed read answers 204, whose error body is dropped; a tree that cannot be rendered is a bare 500; otherwise the tab-indented tree with 200 |
| Drowsy.GetOne | src/github.com/mickep76/etcd-drowsy/main.go:95-115 | reads endpoint + "/" + name: a failed read is a bare 204; a render failure is 500 with an error body; otherwise 200 with the tree |
| Drowsy.Create | src/github.com/mickep76/etcd-drowsy/main.go:118-169 | a body that cannot be read or closed panics; a readable body that decodes and whose key has no write fault is stored under endpoint + "/" + name and echoed with 201; a body that does not decode, or a write that fails, is 500 with "application/json", the error body and the store unchanged; 201 only in the first case |
| Drowsy.Remove | src/github.com/mickep76/etcd-drowsy/main.go:171-183 | a failed recursive delete panics and changes nothing; success is a bodiless 204 and leaves the store `Etcd.Delete` leaves: the subtree is removed, every other stored path keeps its entry, and the fault table is unchanged |
| Drowsy.Handle | src/github.com/mickep76/etcd-drowsy/main.go:243-252 | the two read handlers always send a reply and never change the store |
| Drowsy.StatusVocabulary | src/github.com/mickep76/etcd-drowsy/main.go:77-80 | reads answer 200, 204 or 500, PUT 201 or 500, DELETE 204; only a DELETE or a successful PUT changes the store |

## Behaviour worth noting

- A PATCH whose patch fails is answered with the status of the read before it, 200 (`ServerProperties.PatchFailureKeepsReadStatus`).
- A validator that itself fails, for example because the schema cannot be loaded, gives 500 with that one error (`Server.ValidateDoc`).
- DELETE reads the document first; a successful delete answers 200 with the document as it was before (`ServerProperties.DeleteEchoesOldDocument`).
- GET of a path holding nothing answers 404 with the read's error as the one entry of the error list (`ServerProperties.GetAnswersReadOutcome`).
- PATCH applies an RFC 6902 JSON Patch, and only that (`ServerProperties.PatchValidatesResult`).
- Every reply is indented with two spaces whatever the `indent` setting (`ServerProperties.IndentIgnored`).
- The routes are GET on the collection and GET, PUT, PATCH and DELETE on the resource (`Server.RouteEtcd`).

## Left out

- Bootstrap is not modelled: command-line, environment and configuration-file loading, and YAML/TOML/JSON decoding of settings.
- Transport and credentials are not modelled: TLS, password prompts, `newTransport`, `newClient`, `Connect`.
- Concurrency is not modelled. Each handler runs alone, so the lost-update race between concurrent writes to one path is outside the model.
- The libraries behind the pipeline are uninterpreted functions. These are JSON Patch application, JSON Schema validation, tree/document materialisation, `encoding/json` and path-template execution.
- `gorilla/mux` URL matching is left out: a request arrives with its matched pattern and variables. Only method dispatch among the routes of one pattern (`Server.Match`) is modelled.
- PUT and PATCH are modelled as replacing the whole stored tree at the path: keys under the path that the new document lacks are assumed to be removed, and a tree written at one path never changes the tree stored at another path, even when one path lies under the other. A successful DELETE (`Etcd.Delete`, `Drowsy.Remove`) likewise leaves the tree stored at an ancestor path unchanged: in etcd the deleted keys also disappear from a later recursive read of the ancestor, which the model does not show. A failing `etcdmap.Create` is modelled as all-or-nothing, although the real one can leave a partial write.
- The table and dirName arguments of the GET read are recorded in the trace but do not change what is read. The adapter's `Get` that is modelled takes only a path.
- The branch where marshalling the read document fails (etcdrest server.go:155-158) is left out. Marshalling is a total function here, so that branch cannot be taken.
- `Strings.ToLower` folds ASCII letters only. No other character lower-cases onto a letter of "true" or "false", so the envelope and table switches are unaffected.
- Numbers are integers; floating point is left out.
- Lengths and indices in `center` and `substr` count characters, not UTF-8 bytes as Go's `len` and slicing do.
- The template-side helpers `get`, `getKeys`, `setjs`, `runjs` and `getsubnet` are left out: they are a global session, a JavaScript VM and Go's `net` parsing. So are `RouteTemplate`/`getTemplate` rendering and `RouteStatic`.
- The `template.Must` panics at route registration are left out.
- The `Pass` setter of the connection settings is left out: it is declared in the interface but never implemented, so the password stays empty.
- The order of the route records in `etcd-drowsy` is left open: they arrive in the order the Go map is iterated, which Go leaves unspecified, and the properties hold for every order.
- The schema check in `createEntry` is left out: it is commented out in the code.
- The `etcd-drowsy` test file is left out: it does not compile against its `main.go` and needs a live etcd.
- Drowsy.GetOne: its 500 body for a tree that cannot be rendered is the corrected `{"message": <error>}` (`Drowsy.ErrToJson`), not the `{}` that `errToJSON` sends as written (main.go:108); the as-written body is `Drowsy.ErrToJsonAsWritten`, see Findings.
- Drowsy.Create: its 500 bodies are likewise the corrected `{"message": <error>}`, not the `{}` sent as written (main.go:161); both the decode failure and the write failure of `etcdmap.CreateJSON` go through that line.
- Drowsy.GetAll: its 204 error body is built with the corrected `Drowsy.ErrToJson` too; net/http drops it, so the reply is the same either way.
- Error texts composed by libraries are placeholders. `Etcd.EtcdError.Text()` stands for the etcd client's `Error()`, which formats the code, message, cause and index. The fixed strings "Key not found", "invalid JSON" and "invalid JSON document" stand for the messages of the etcd client and `encoding/json`. The model promises which error's text is sent, not its wording.

## Findings

| source | as written | input that shows it | evidently intended | confidence | as-written member | corrected member |
|---|---|---|---|---|---|---|
| src/github.com/mickep76/etcd-rest/server/server.go:82-84 | the body of `writeError` is a comment, so `all` answers a backend failure other than "key not found" with 200 and an empty body; the same holds in the two copies | a recursive read of "/hosts" that times out (`EtcdRestDraft.AllHidesBackendFailure`) | a 500 carrying the error message, through `writeErrors` as in the etcdrest writer | not executed | EtcdRestDraft.All | EtcdRestDraft.AllIntended |
| src/github.com/mickep76/etcd-drowsy/main.go:22-25 | `JSONError`'s only field `message` is unexported, so `json.Marshal` drops it and every error body is `{}` | any error, e.g. "connection refused" (`Drowsy.ErrToJsonLosesMessage`) | `{"message": <error text>}`, as the field's JSON tag says | not executed | Drowsy.ErrToJsonAsWritten | Drowsy.ErrToJson |
