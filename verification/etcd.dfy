/** The etcd store adapter: its connection settings, and the Put, Get and
    Delete calls that turn backend outcomes into HTTP status codes.

    The backend is abstract. Each store path holds the node tree last written
    there; a separate fault table says which (operation, path) pairs fail and
    with which etcd error, standing in for the network and the cluster. */
module Etcd {
  import opened Wrappers
  import Json
  import Strings
  import opened Http

  /** A node of the etcd key space: a leaf value or a directory. */
  datatype Node = Leaf(value: string) | Dir(children: map<string, Node>)

  /** etcd's "key not found" error code. */
  const KeyNotFound := 100

  /** A client error carries etcd's numeric error code; a transport error
      (connection refused, timeout) has none. */
  datatype EtcdError = ClientError(code: int, message: string) | TransportError(message: string) {
    function Text(): string {
      match this
      case ClientError(_, m) => m
      case TransportError(m) => m
    }
  }

  datatype Op = GetOp | CreateOp | DeleteOp

  datatype Fault = Fault(op: Op, path: string)

  datatype Store = Store(docs: map<string, Node>, faults: map<Fault, EtcdError>)

  /** Path `k` lies in the subtree rooted at `p`. */
  predicate Under(k: string, p: string) {
    k == p || Strings.StartsWith(k, p + "/")
  }

  // ---- The backend round trips ----

  /** A recursive `keysAPI.Get`. */
  function BackendGet(s: Store, path: string): Result<Node, EtcdError> {
    if Fault(GetOp, path) in s.faults then Failure(s.faults[Fault(GetOp, path)])
    else if path in s.docs then Success(s.docs[path])
    else Failure(ClientError(KeyNotFound, "Key not found"))
  }

  /** `etcdmap.Create`: writes the tree of a document at `path`. */
  function BackendCreate(s: Store, path: string, node: Node): Result<Store, EtcdError> {
    if Fault(CreateOp, path) in s.faults then Failure(s.faults[Fault(CreateOp, path)])
    else Success(s.(docs := s.docs[path := node]))
  }

  /** A recursive `keysAPI.Delete`: removes `path` and everything below it. */
  function BackendDelete(s: Store, path: string): Result<Store, EtcdError> {
    if Fault(DeleteOp, path) in s.faults then Failure(s.faults[Fault(DeleteOp, path)])
    else if path !in s.docs then Failure(ClientError(KeyNotFound, "Key not found"))
    else Success(s.(docs := map k | k in s.docs && !Under(k, path) :: s.docs[k]))
  }

  // ---- The session ----

  /** What a session call hands back: Go's (value, code, err) triple. */
  datatype Answer<+T> = Ok(value: T, status: int) | Err(status: int, message: string)

  /** The status a failed backend call is reported with: "key not found" is
      404, every other failure is 500. */
  function StatusOf(e: EtcdError): (code: int)
    ensures code == StatusNotFound <==> e.ClientError? && e.code == KeyNotFound
    ensures code == StatusNotFound || code == StatusInternalServerError
  {
    if e.ClientError? && e.code == KeyNotFound then StatusNotFound else StatusInternalServerError
  }

  /** `session.Get`: the materialised subtree with 200, or the mapped error. */
  function Get(s: Store, path: string, materialise: Node -> Json.Value): (a: Answer<Json.Value>)
    ensures a.Ok? <==> BackendGet(s, path).Success?
    ensures a.Ok? ==> a.status == StatusOK && a.value == materialise(BackendGet(s, path).value)
    ensures a.Err? ==> a.status == StatusOf(BackendGet(s, path).error)
    ensures a.Err? ==> a.message == BackendGet(s, path).error.Text()
  {
    match BackendGet(s, path)
    case Success(node) => Ok(materialise(node), StatusOK)
    case Failure(e) => Err(StatusOf(e), e.Text())
  }

  /** The write half of `session.Put`, once the body is a document: 500 when
      the tree cannot be created, otherwise the document with 200. Only the
      written path changes, and only on success. */
  function PutDoc(s: Store, path: string, doc: Json.Value, dematerialise: Json.Value -> Node): (r: (Store, Answer<Json.Value>))
    ensures r.1.Ok? <==> Fault(CreateOp, path) !in s.faults
    ensures r.1.Ok? ==> r.1 == Ok(doc, StatusOK) && r.0 == s.(docs := s.docs[path := dematerialise(doc)])
    ensures r.1.Err? ==> r.1.status == StatusInternalServerError && r.0 == s
  {
    match BackendCreate(s, path, dematerialise(doc))
    case Success(s') => (s', Ok(doc, StatusOK))
    case Failure(e) => (s, Err(StatusInternalServerError, e.Text()))
  }

  /** `session.Put` on a raw body: 400 without touching the store when the
      body does not decode, otherwise `PutDoc` on the decoded document. */
  function Put(s: Store, path: string, body: Json.Bytes, decode: Json.Bytes -> Option<Json.Value>,
               dematerialise: Json.Value -> Node): (r: (Store, Answer<Json.Value>))
    ensures decode(body).None? ==> r.0 == s && r.1.Err? && r.1.status == StatusBadRequest
    ensures decode(body).Some? ==> r == PutDoc(s, path, decode(body).value, dematerialise)
  {
    match decode(body)
    case None => (s, Err(StatusBadRequest, "invalid JSON"))
    case Some(d) => PutDoc(s, path, d, dematerialise)
  }

  /** `session.Delete`, recursive: 200 on success, or the mapped error with
      the store unchanged. */
  function Delete(s: Store, path: string): (r: (Store, Answer<()>))
    ensures r.1.Ok? <==> BackendDelete(s, path).Success?
    ensures r.1.Ok? ==> r.1.status == StatusOK && r.0 == BackendDelete(s, path).value
    ensures r.1.Err? ==> r.1.status == StatusOf(BackendDelete(s, path).error) && r.0 == s
  {
    match BackendDelete(s, path)
    case Success(s') => (s', Ok((), StatusOK))
    case Failure(e) => (s, Err(StatusOf(e), e.Text()))
  }

  /** A successful recursive delete removes exactly the subtree: every path
      under the deleted one is gone, every other path keeps its tree, and the
      fault table is untouched. */
  lemma DeleteRemovesSubtree(s: Store, path: string)
    requires Delete(s, path).1.Ok?
    ensures path in s.docs
    ensures forall k :: k in Delete(s, path).0.docs <==> k in s.docs && !Under(k, path)
    ensures forall k :: k in Delete(s, path).0.docs ==> Delete(s, path).0.docs[k] == s.docs[k]
    ensures Delete(s, path).0.faults == s.faults
  {
  }

  /** The adapter's whole status vocabulary is {200, 400, 404, 500}, and 400
      comes only from a Put body that does not decode. */
  lemma StatusVocabulary(s: Store, path: string, body: Json.Bytes, materialise: Node -> Json.Value,
                         decode: Json.Bytes -> Option<Json.Value>, dematerialise: Json.Value -> Node)
    ensures Get(s, path, materialise).status in {StatusOK, StatusNotFound, StatusInternalServerError}
    ensures Put(s, path, body, decode, dematerialise).1.status in
              {StatusOK, StatusBadRequest, StatusInternalServerError}
    ensures Put(s, path, body, decode, dematerialise).1.status == StatusBadRequest <==> decode(body).None?
    ensures Delete(s, path).1.status in {StatusOK, StatusNotFound, StatusInternalServerError}
  {
  }

  // ---- Connection settings ----

  /** One second, in nanoseconds (`time.Duration`). */
  const Second := 1_000_000_000

  /** The connection settings. There is no setter for `pass`: the interface
      declares one but no implementation exists, so it stays empty. */
  datatype Config = Config(peers: string, cert: string, key: string, ca: string,
                           user: string, pass: string, timeout: int, cmdTimeout: int)

  /** `New`: the two local peers, a one-second request timeout and a
      five-second command timeout; nothing else set. */
  function New(): (c: Config)
    ensures Strings.Split(c.peers, ',') == ["http://127.0.0.1:4001", "http://127.0.0.1:2379"]
    ensures c.timeout == Second && c.cmdTimeout == 5 * c.timeout
    ensures c.cert == c.key == c.ca == c.user == c.pass == ""
  {
    var c := Config("http://127.0.0.1:4001,http://127.0.0.1:2379", "", "", "", "", "", Second, 5 * Second);
    assert Strings.Join(["http://127.0.0.1:4001", "http://127.0.0.1:2379"], ',') == c.peers;
    SplitJoin(["http://127.0.0.1:4001", "http://127.0.0.1:2379"], ',');
    c
  }

  /** Splitting a join of separator-free pieces gives the pieces back. */
  lemma {:induction false} SplitJoin(parts: seq<string>, sep: char)
    requires |parts| >= 1
    requires forall k :: 0 <= k < |parts| ==> sep !in parts[k]
    ensures Strings.Split(Strings.Join(parts, sep), sep) == parts
  {
    var s := Strings.Join(parts, sep);
    var split := Strings.Split(s, sep);
    Strings.SplitHead(s, sep);
    if |parts| == 1 {
      assert s == parts[0];
    } else {
      SplitJoin(parts[1..], sep);
      assert sep in s by {
        assert s[|parts[0]|] == sep;
      }
      SplitPrefix(parts[0], Strings.Join(parts[1..], sep), sep);
    }
  }

  /** Splitting `a + sep + b`, where `a` has no separator, yields `a` followed
      by the pieces of `b`. */
  lemma {:induction false} SplitPrefix(a: string, b: string, sep: char)
    requires sep !in a
    ensures Strings.Split(a + [sep] + b, sep) == [a] + Strings.Split(b, sep)
    decreases |a|
  {
    var s := a + [sep] + b;
    if |a| == 0 {
      assert s[1..] == b;
    } else {
      assert s[1..] == a[1..] + [sep] + b;
      SplitPrefix(a[1..], b, sep);
      assert [a[0]] + a[1..] == a;
    }
  }

  function WithPeers(c: Config, peers: string): (r: Config)
    ensures r.peers == peers && r == c.(peers := r.peers)
  {
    c.(peers := peers)
  }

  function WithCert(c: Config, cert: string): (r: Config)
    ensures r.cert == cert && r == c.(cert := r.cert)
  {
    c.(cert := cert)
  }

  function WithKey(c: Config, key: string): (r: Config)
    ensures r.key == key && r == c.(key := r.key)
  {
    c.(key := key)
  }

  function WithCA(c: Config, ca: string): (r: Config)
    ensures r.ca == ca && r == c.(ca := r.ca)
  {
    c.(ca := ca)
  }

  function WithUser(c: Config, user: string): (r: Config)
    ensures r.user == user && r == c.(user := r.user)
  {
    c.(user := user)
  }

  function WithTimeout(c: Config, timeout: int): (r: Config)
    ensures r.timeout == timeout && r == c.(timeout := r.timeout)
  {
    c.(timeout := timeout)
  }

  function WithCmdTimeout(c: Config, cmdTimeout: int): (r: Config)
    ensures r.cmdTimeout == cmdTimeout && r == c.(cmdTimeout := r.cmdTimeout)
  {
    c.(cmdTimeout := cmdTimeout)
  }
}
