/**
 * The request handler of the gateway (the closure `createServer` registers in server.go):
 * an authorization chain with early exits, then the choice of one content backend and the
 * conditional-response logic of that backend.
 *
 * `Handle` is the decision as a function of the settings, the oracles and the request;
 * `HandleRequest` is the handler itself, writing headers and a status into a `Response`
 * step by step, and proved to leave exactly the state `Handle` describes.
 */
module Server {
  import opened Wrappers
  import opened StrConv
  import opened X509
  import opened Validation
  import opened TextProto

  // ------------------------------------------------------------ wire vocabulary

  const HstsHeader: string := "Strict-Transport-Security"
  const HstsValue: string := "max-age=63072000; includeSubDomains"
  const ETagHeader: string := "ETag"
  const IfNoneMatchHeader: string := "If-None-Match"

  // The keys `Header.Set` and `Header.Get` use for those names.
  const HstsKey: string := CanonicalMIMEHeaderKey(HstsHeader)
  const ETagKey: string := CanonicalMIMEHeaderKey(ETagHeader)
  const IfNoneMatchKey: string := CanonicalMIMEHeaderKey(IfNoneMatchHeader)

  const StatusNotModified: int := 304
  const StatusBadRequest: int := 400
  const StatusForbidden: int := 403
  const StatusInternalServerError: int := 500
  const StatusServiceUnavailable: int := 503

  /**
   * The error-code catalog carried by the configurable error header. The two codes that
   * the source formats with arguments keep those arguments.
   */
  datatype ErrorCode =
    | RSP00001                                           // no TLS connection state
    | RSP00002                                           // certificate revoked in the CRL
    | RSP00003                                           // certificate cannot be validated with OCSP
    | RSP00004                                           // certificate revoked in OCSP
    | RSP00005(header: string)                           // identity header missing or not an int64
    | RSP00006                                           // Common Name is not an int64
    | RSP00007(certID: int, headerID: int, header: string) // header and certificate ids differ
    | RSP00008                                           // data file not published yet
    | RSP00009                                           // hash file missing or unreadable
    | RSP00010                                           // object not found in the store
    | RSP00011                                           // any other object-store failure

  /** A response header value: plain text, or an entry of the error-code catalog. */
  datatype HeaderValue = Text(text: string) | Code(code: ErrorCode)

  /** The three places content can come from. */
  datatype Backend = Filesystem | MainStore | CloudStore

  /** What the handler hands to the streaming library, if anything. */
  datatype Body =
    | NoBody
    | ObjectContent(backend: Backend, key: string)   // http.ServeContent of a fetched object
    | FileContent(path: string)                      // http.ServeFile of a data file

  /** Everything a handler leaves behind: headers, the status it wrote (if any), the body. */
  datatype Reply = Reply(headers: map<string, HeaderValue>, status: Option<int>, body: Body)

  /** The part of `http.ResponseWriter` the handler uses. */
  class Response {
    var headers: map<string, HeaderValue>
    var status: Option<int>
    var body: Body

    ghost function State(): Reply
      reads this
    {
      Reply(headers, status, body)
    }

    constructor ()
      ensures State() == Reply(map[], None, NoBody)
    {
      headers, status, body := map[], None, NoBody;
    }

    /**
     * `w.Header().Set(name, value)`: replaces any earlier value stored under the same
     * canonical key, so names that differ only in letter case overwrite each other.
     */
    method SetHeader(name: string, value: HeaderValue)
      modifies this
      ensures headers == old(headers)[CanonicalMIMEHeaderKey(name) := value]
      ensures status == old(status) && body == old(body)
    {
      headers := headers[CanonicalMIMEHeaderKey(name) := value];
    }

    /** `w.WriteHeader(code)`: only the first status written is sent. */
    method WriteHeader(code: int)
      modifies this
      ensures status == if old(status).None? then Some(code) else old(status)
      ensures headers == old(headers) && body == old(body)
    {
      if status.None? {
        status := Some(code);
      }
    }

    /** Hands the content to `http.ServeContent` / `http.ServeFile`. */
    method Serve(content: Body)
      modifies this
      ensures body == content
      ensures headers == old(headers) && status == old(status)
    {
      body := content;
    }
  }

  // ------------------------------------------------------------ inputs

  /**
   * A request as the handler sees it: the verified leaf (if TLS), and the request headers,
   * each under its canonical key with its first value.
   */
  datatype Request = Request(tls: Option<Certificate>, headers: map<string, string>)

  /** `r.Header.Get(name)`: looks up the canonical key; the empty string when it is absent. */
  function HeaderGet(headers: map<string, string>, name: string): (value: string)
  {
    var key := CanonicalMIMEHeaderKey(name);
    if key in headers then headers[key] else ""
  }

  /** The settings the handler reads; built once at start-up and never changed. */
  datatype Settings = Settings(
    errorHeader: string,          // API_RSP_ERROR_HEADER
    idHeader: string,             // API_ID_REQ_HEADER
    versionHeader: string,        // API_VERSION_REQ_HEADER
    crl: Option<RevocationList>,  // CRL, absent when none is configured
    ocspURL: string,              // OCSP_URL, empty when OCSP is off
    useS3: bool,                  // API_USE_S3
    useCloudS3: bool,             // UseCloudS3()
    cloudCustomerID: string,      // CLOUD_S3_CUSTOMER_ID
    tryLaterCode: int,            // API_RSP_TRY_LATER_HTTP_CODE
    s3DataFileTemplate: string,   // S3_DATA_FILE_TEMPLATE
    fileDir: string,              // API_FILE_DIR
    dataFileTemplate: string,     // API_DATA_FILE_TEMPLATE
    hashFileTemplate: string)     // API_HASH_FILE_TEMPLATE

  /** What `object.Stat()` reports: the store's error status code, or the object's ETag. */
  datatype StatOutcome = StatFailed(statusCode: int) | StatOk(etag: string)

  /** What `GetObjectWithContext` reports: an error, or an object to stat. */
  datatype GetOutcome = GetFailed | Opened(stat: StatOutcome)

  /** One object-store client: the outcome of fetching a key, given the `If-None-Match` option. */
  datatype ObjectStore = ObjectStore(getObject: (string, Option<string>) -> GetOutcome)

  /** The filesystem: whether `os.Stat` succeeds on a path, and what `os.ReadFile` returns. */
  datatype FileSystem = FileSystem(present: string -> bool, readFile: string -> Option<string>)

  /**
   * Everything outside the handler: the OCSP responder for this leaf, the two stores,
   * the filesystem, and `fmt.Sprintf` (left uninterpreted: a template and its arguments).
   */
  datatype Env = Env(
    ocsp: OcspResponder,
    s3Main: ObjectStore,
    s3Cloud: ObjectStore,
    fs: FileSystem,
    sprintf: (string, seq<string>) -> string)

  /** The handler indexes `Locality[0]` of any TLS leaf; a leaf without one makes it panic. */
  predicate LocalityPresent(req: Request) {
    req.tls.Some? ==> |req.tls.value.locality| > 0
  }

  // ------------------------------------------------------------ the decision

  function Hsts(): map<string, HeaderValue> {
    map[HstsKey := Text(HstsValue)]
  }

  /** An early exit: HSTS, then the error code, then the status. */
  function Deny(s: Settings, status: int, code: ErrorCode): (r: Reply) {
    Reply(Hsts()[CanonicalMIMEHeaderKey(s.errorHeader) := Code(code)], Some(status), NoBody)
  }

  datatype AuthResult = Authorized(leaf: Certificate, id: int) | Denied(status: int, code: ErrorCode)

  /**
   * The authorization chain, in the source's order: TLS, Common Name, CRL, OCSP (when a
   * responder URL is configured), identity header, header equal to certificate.
   */
  function Authorize(s: Settings, env: Env, req: Request): (r: AuthResult)
    ensures r.Authorized? ==> req.tls == Some(r.leaf) && ParseInt64(r.leaf.commonName) == Some(r.id)
  {
    match req.tls
    case None => Denied(StatusForbidden, RSP00001)
    case Some(leaf) =>
      var idFromCert := ParseInt64(leaf.commonName);
      if idFromCert.None? then Denied(StatusForbidden, RSP00006)
      else if s.crl.Some? && Listed(leaf, s.crl.value) then Denied(StatusForbidden, RSP00002)
      else if |s.ocspURL| > 0 && !OcspVerdict(env.ocsp).ok then
        Denied(StatusServiceUnavailable, RSP00003)
      else if |s.ocspURL| > 0 && OcspVerdict(env.ocsp).revoked then
        Denied(StatusForbidden, RSP00004)
      else
        var idFromHeader := ParseInt64(Trim(HeaderGet(req.headers, s.idHeader)));
        if idFromHeader.None? then Denied(StatusBadRequest, RSP00005(s.idHeader))
        else if idFromCert.value != idFromHeader.value then
          Denied(StatusForbidden, RSP00007(idFromCert.value, idFromHeader.value, s.idHeader))
        else Authorized(leaf, idFromCert.value)
  }

  /**
   * The version suffix: nothing when the version header is absent or blank, otherwise an
   * underscore and the header with its surrounding spaces removed.
   */
  function VersionSuffix(header: string): (suffix: string)
  {
    var version := Trim(header);
    if |version| > 0 then "_" + version else version
  }

  /**
   * Filesystem unless the object store is on; the cloud store only for the tenant whose
   * Locality equals the configured cloud customer, and only when the cloud store is on.
   */
  function SelectBackend(s: Settings, tenant: string): (b: Backend)
    ensures b == Filesystem <==> !s.useS3
    ensures b == CloudStore <==> (s.useS3 && s.useCloudS3 && s.cloudCustomerID == tenant)
    ensures b == MainStore <==> (s.useS3 && !(s.useCloudS3 && s.cloudCustomerID == tenant))
  {
    if !s.useS3 then Filesystem
    else if s.useCloudS3 && s.cloudCustomerID == tenant then CloudStore
    else MainStore
  }

  function ObjectKey(s: Settings, env: Env, idStr: string, version: string): string {
    env.sprintf(s.s3DataFileTemplate, [idStr, version])
  }

  function DataFilePath(s: Settings, env: Env, idStr: string, version: string): string {
    env.sprintf(s.dataFileTemplate, [s.fileDir, idStr, version])
  }

  /** The hash file's path takes the directory and the id only, not the version. */
  function HashFilePath(s: Settings, env: Env, idStr: string): string {
    env.sprintf(s.hashFileTemplate, [s.fileDir, idStr])
  }

  /** The fetch option: the client's `If-None-Match` value, passed on only when non-empty. */
  function IfNoneMatchOption(headers: map<string, string>): (option: Option<string>)
  {
    var etag := HeaderGet(headers, IfNoneMatchHeader);
    if etag != "" then Some(etag) else None
  }

  /** The hash file's content, in double quotes. */
  function QuotedETag(hash: string): (etag: string)
  {
    "\"" + hash + "\""
  }

  /** Classification of one object-store fetch. */
  function ObjectReply(s: Settings, outcome: GetOutcome, backend: Backend, key: string): (r: Reply) {
    match outcome
    case GetFailed => Deny(s, StatusInternalServerError, RSP00011)
    case Opened(StatFailed(code)) =>
      if code == 404 then Deny(s, s.tryLaterCode, RSP00010)
      else if code == 304 then Reply(Hsts(), Some(StatusNotModified), NoBody)
      else Deny(s, StatusInternalServerError, RSP00011)
    case Opened(StatOk(etag)) =>
      Reply(Hsts()[ETagKey := Text(etag)], None, ObjectContent(backend, key))
  }

  /** Classification of the filesystem lookups, and exact-match revalidation. */
  function FileReply(s: Settings, fs: FileSystem, dataPath: string, hashPath: string,
                     ifNoneMatch: string): (r: Reply) {
    if !fs.present(dataPath) then Deny(s, s.tryLaterCode, RSP00008)
    else match fs.readFile(hashPath)
      case None => Deny(s, s.tryLaterCode, RSP00009)
      case Some(hash) =>
        var etag := QuotedETag(hash);
        var headers := Hsts()[ETagKey := Text(etag)];
        if etag == ifNoneMatch then Reply(headers, Some(StatusNotModified), NoBody)
        else Reply(headers, None, FileContent(dataPath))
  }

  /** Content resolution for an authorized leaf. */
  function Resolve(s: Settings, env: Env, req: Request, leaf: Certificate): (r: Reply)
    requires |leaf.locality| > 0
  {
    var version := VersionSuffix(HeaderGet(req.headers, s.versionHeader));
    var backend := SelectBackend(s, leaf.locality[0]);
    match backend
    case Filesystem =>
      FileReply(s, env.fs, DataFilePath(s, env, leaf.commonName, version),
                HashFilePath(s, env, leaf.commonName), HeaderGet(req.headers, IfNoneMatchHeader))
    case MainStore =>
      var key := ObjectKey(s, env, leaf.commonName, version);
      ObjectReply(s, env.s3Main.getObject(key, IfNoneMatchOption(req.headers)), MainStore, key)
    case CloudStore =>
      var key := ObjectKey(s, env, leaf.commonName, version);
      ObjectReply(s, env.s3Cloud.getObject(key, IfNoneMatchOption(req.headers)), CloudStore, key)
  }

  /** The whole handler's effect. */
  function Handle(s: Settings, env: Env, req: Request): (r: Reply)
    requires LocalityPresent(req)
  {
    match Authorize(s, env, req)
    case Denied(status, code) => Deny(s, status, code)
    case Authorized(leaf, _) => Resolve(s, env, req, leaf)
  }

  // ------------------------------------------------------------ the handler

  /** An early exit after HSTS: set the error code, then write the status. */
  method Reject(s: Settings, w: Response, status: int, code: ErrorCode)
    requires w.State() == Reply(Hsts(), None, NoBody)
    modifies w
    ensures w.State() == Deny(s, status, code)
  {
    w.SetHeader(s.errorHeader, Code(code));
    w.WriteHeader(status);
  }

  /** The handler, one step at a time, with the source's early returns. */
  method HandleRequest(s: Settings, env: Env, req: Request, w: Response)
    requires LocalityPresent(req)
    requires w.State() == Reply(map[], None, NoBody)
    modifies w
    ensures w.State() == Handle(s, env, req)
  {
    w.SetHeader(HstsHeader, Text(HstsValue));
    if req.tls.None? {
      Reject(s, w, StatusForbidden, RSP00001);
      return;
    }
    var leaf := req.tls.value;
    var idFromCertStr := leaf.commonName;
    var idFromCert := ParseInt64(idFromCertStr);
    if idFromCert.None? {
      Reject(s, w, StatusForbidden, RSP00006);
      return;
    }
    if s.crl.Some? {
      var revoked := CertIsRevokedCRL(leaf, s.crl.value);
      if revoked {
        Reject(s, w, StatusForbidden, RSP00002);
        return;
      }
    }
    if |s.ocspURL| > 0 {
      var revoked, ok := CertIsRevokedOCSP(env.ocsp);
      if !ok {
        Reject(s, w, StatusServiceUnavailable, RSP00003);
        return;
      } else if revoked {
        Reject(s, w, StatusForbidden, RSP00004);
        return;
      }
    }
    var idFromHeader := ParseInt64(Trim(HeaderGet(req.headers, s.idHeader)));
    if idFromHeader.None? {
      Reject(s, w, StatusBadRequest, RSP00005(s.idHeader));
      return;
    }
    if idFromCert.value != idFromHeader.value {
      Reject(s, w, StatusForbidden, RSP00007(idFromCert.value, idFromHeader.value, s.idHeader));
      return;
    }
    assert Authorize(s, env, req) == Authorized(leaf, idFromCert.value);

    ServeContent(s, env, req, leaf, w);
  }

  /**
   * What follows the checks: the version suffix, then the object store (the cloud store for
   * its tenant) or the filesystem, for the leaf the checks accepted.
   */
  method ServeContent(s: Settings, env: Env, req: Request, leaf: Certificate, w: Response)
    requires |leaf.locality| > 0
    requires w.State() == Reply(Hsts(), None, NoBody)
    modifies w
    ensures w.State() == Resolve(s, env, req, leaf)
  {
    var idFromCertStr := leaf.commonName;
    var clientIDFromCert := leaf.locality[0];
    var version := VersionSuffix(HeaderGet(req.headers, s.versionHeader));
    if s.useS3 {
      var objectName := ObjectKey(s, env, idFromCertStr, version);
      var opts := IfNoneMatchOption(req.headers);
      var cloudCustomer := s.cloudCustomerID == clientIDFromCert;
      if s.useCloudS3 && cloudCustomer {
        ServeFromStore(s, env.s3Cloud, CloudStore, objectName, opts, w);
      } else {
        ServeFromStore(s, env.s3Main, MainStore, objectName, opts, w);
      }
    } else {
      var pathToDataFile := DataFilePath(s, env, idFromCertStr, version);
      var pathToHashFile := HashFilePath(s, env, idFromCertStr);
      ServeFromFilesystem(s, env.fs, pathToDataFile, pathToHashFile,
                          HeaderGet(req.headers, IfNoneMatchHeader), w);
    }
  }

  /** The object-store branch: fetch, stat, classify, and serve with the store's ETag. */
  method ServeFromStore(s: Settings, store: ObjectStore, backend: Backend, objectName: string,
                        opts: Option<string>, w: Response)
    requires w.State() == Reply(Hsts(), None, NoBody)
    modifies w
    ensures w.State() == ObjectReply(s, store.getObject(objectName, opts), backend, objectName)
  {
    var outcome := store.getObject(objectName, opts);
    if outcome.GetFailed? {
      Reject(s, w, StatusInternalServerError, RSP00011);
      return;
    }
    match outcome.stat
    case StatFailed(code) =>
      if code == 404 {
        Reject(s, w, s.tryLaterCode, RSP00010);
      } else if code == 304 {
        w.WriteHeader(StatusNotModified);
      } else {
        Reject(s, w, StatusInternalServerError, RSP00011);
      }
    case StatOk(etag) =>
      w.SetHeader(ETagHeader, Text(etag));
      w.Serve(ObjectContent(backend, objectName));
  }

  /** The filesystem branch: data file, hash file, ETag, exact-match revalidation, serve. */
  method ServeFromFilesystem(s: Settings, fs: FileSystem, pathToDataFile: string,
                             pathToHashFile: string, ifNoneMatch: string, w: Response)
    requires w.State() == Reply(Hsts(), None, NoBody)
    modifies w
    ensures w.State() == FileReply(s, fs, pathToDataFile, pathToHashFile, ifNoneMatch)
  {
    if !fs.present(pathToDataFile) {
      Reject(s, w, s.tryLaterCode, RSP00008);
      return;
    }
    var hash := fs.readFile(pathToHashFile);
    if hash.None? {
      Reject(s, w, s.tryLaterCode, RSP00009);
      return;
    }
    var etag := QuotedETag(hash.value);
    w.SetHeader(ETagHeader, Text(etag));
    if etag == ifNoneMatch {
      w.WriteHeader(StatusNotModified);
      return;
    }
    w.Serve(FileContent(pathToDataFile));
  }
}
