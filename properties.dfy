/**
 * What the handler promises, stated about `Server.Handle` (and so, through
 * `Server.HandleRequest`'s postcondition, about the handler itself).
 */
module ServerProperties {
  import opened Wrappers
  import opened StrConv
  import opened X509
  import opened Validation
  import opened Server
  import opened TextProto

  /** Every check of the authorization chain passed for this request. */
  predicate Cleared(s: Settings, env: Env, req: Request) {
    && req.tls.Some?
    && ParseInt64(req.tls.value.commonName).Some?
    && !(s.crl.Some? && Listed(req.tls.value, s.crl.value))
    && (|s.ocspURL| > 0 ==> OcspVerdict(env.ocsp) == OcspAnswer(false, true))
    && ParseInt64(Trim(HeaderGet(req.headers, s.idHeader))) == ParseInt64(req.tls.value.commonName)
  }

  /** The observable shape of an early exit. */
  predicate IsDenial(s: Settings, r: Reply, status: int, code: ErrorCode) {
    && r.status == Some(status)
    && r.body == NoBody
    && CanonicalMIMEHeaderKey(s.errorHeader) in r.headers && r.headers[CanonicalMIMEHeaderKey(s.errorHeader)] == Code(code)
    && r.headers.Keys == {HstsKey, CanonicalMIMEHeaderKey(s.errorHeader)}
  }

  // ------------------------------------------------------------ the gate

  /** Every reply carries HSTS (with its value unless the error header shares its name). */
  lemma HstsOnEveryReply(s: Settings, env: Env, req: Request)
    requires LocalityPresent(req)
    ensures HstsKey in Handle(s, env, req).headers
    ensures CanonicalMIMEHeaderKey(s.errorHeader) != HstsKey ==> Handle(s, env, req).headers[HstsKey] == Text(HstsValue)
  {
    AuthorizedIffCleared(s, env, req);
    if Authorize(s, env, req).Denied? {
      HandleDenied(s, env, req);
    } else if s.useS3 {
      HandleObjectStore(s, env, req);
      var b := BackendOf(s, req);
      ReplyHsts(s, StoreOf(env, b).getObject(KeyOf(s, env, req), IfNoneMatchOption(req.headers)), b,
                KeyOf(s, env, req), env.fs, "", "", "");
    } else {
      HandleFilesystem(s, env, req);
      ReplyHsts(s, GetFailed, Filesystem, "", env.fs, DataPathOf(s, env, req), HashPathOf(s, env, req),
                HeaderGet(req.headers, IfNoneMatchHeader));
    }
  }

  /** Both lookups keep the HSTS header they start from. */
  lemma ReplyHsts(s: Settings, outcome: GetOutcome, backend: Backend, key: string,
                  fs: FileSystem, data: string, hash: string, ifNoneMatch: string)
    ensures var r := ObjectReply(s, outcome, backend, key);
      HstsKey in r.headers && (CanonicalMIMEHeaderKey(s.errorHeader) != HstsKey ==> r.headers[HstsKey] == Text(HstsValue))
    ensures var r := FileReply(s, fs, data, hash, ifNoneMatch);
      HstsKey in r.headers && (CanonicalMIMEHeaderKey(s.errorHeader) != HstsKey ==> r.headers[HstsKey] == Text(HstsValue))
  {
    ObjectReplyHsts(s, outcome, backend, key);
    FileReplyHsts(s, fs, data, hash, ifNoneMatch);
  }

  lemma ObjectReplyHsts(s: Settings, outcome: GetOutcome, backend: Backend, key: string)
    ensures var r := ObjectReply(s, outcome, backend, key);
      HstsKey in r.headers && (CanonicalMIMEHeaderKey(s.errorHeader) != HstsKey ==> r.headers[HstsKey] == Text(HstsValue))
  {
    match outcome
    case GetFailed =>
      DenyKeepsHsts(s, StatusInternalServerError, RSP00011);
    case Opened(StatFailed(code)) =>
      DenyKeepsHsts(s, s.tryLaterCode, RSP00010);
      DenyKeepsHsts(s, StatusInternalServerError, RSP00011);
    case Opened(StatOk(etag)) =>
      ETagKeepsHsts(etag);
  }

  lemma FileReplyHsts(s: Settings, fs: FileSystem, data: string, hash: string, ifNoneMatch: string)
    ensures var r := FileReply(s, fs, data, hash, ifNoneMatch);
      HstsKey in r.headers && (CanonicalMIMEHeaderKey(s.errorHeader) != HstsKey ==> r.headers[HstsKey] == Text(HstsValue))
  {
    if !fs.present(data) {
      DenyKeepsHsts(s, s.tryLaterCode, RSP00008);
    } else if fs.readFile(hash).None? {
      DenyKeepsHsts(s, s.tryLaterCode, RSP00009);
    } else {
      ETagKeepsHsts(QuotedETag(fs.readFile(hash).value));
    }
  }

  /** An early exit keeps the HSTS header unless the error header overwrites it. */
  lemma DenyKeepsHsts(s: Settings, status: int, code: ErrorCode)
    ensures var r := Deny(s, status, code);
      HstsKey in r.headers && (CanonicalMIMEHeaderKey(s.errorHeader) != HstsKey ==> r.headers[HstsKey] == Text(HstsValue))
  {
  }

  /** The ETag a served reply adds never replaces the HSTS header. */
  lemma ETagKeepsHsts(etag: string)
    ensures var m := Hsts()[ETagKey := Text(etag)];
      HstsKey in m && m[HstsKey] == Text(HstsValue)
  {
    HstsKeyNotETag();
  }

  /** The two keys differ in length. */
  lemma HstsKeyNotETag()
    ensures HstsKey != ETagKey
  {
    assert |HstsKey| == |HstsHeader| && |ETagKey| == |ETagHeader|;
  }

  /** Without TLS: 403 with RSP00001, and nothing else is consulted. */
  lemma NoTlsForbidden(s: Settings, env: Env, env2: Env, req: Request, headers2: map<string, string>)
    requires req.tls.None?
    ensures IsDenial(s, Handle(s, env, req), StatusForbidden, RSP00001)
    ensures Handle(s, env, req) == Handle(s, env2, req.(headers := headers2))
  {
  }

  /** A Common Name that is not an int64 gives 403 with RSP00006, whatever follows. */
  lemma BadCommonNameForbidden(s: Settings, env: Env, env2: Env, req: Request, headers2: map<string, string>)
    requires LocalityPresent(req) && req.tls.Some?
    requires ParseInt64(req.tls.value.commonName).None?
    ensures IsDenial(s, Handle(s, env, req), StatusForbidden, RSP00006)
    ensures Handle(s, env, req) == Handle(s, env2, req.(headers := headers2))
  {
  }

  /** The certificate "5x5x5", and a Common Name with a space around it: the CN is not trimmed. */
  lemma GarbageCommonNames(s: Settings, env: Env, req: Request)
    requires LocalityPresent(req) && req.tls.Some?
    requires req.tls.value.commonName in {"5x5x5", " 555", "555 "}
    ensures IsDenial(s, Handle(s, env, req), StatusForbidden, RSP00006)
  {
    var cn := req.tls.value.commonName;
    assert ParseInt64(cn).None? by {
      if cn == "5x5x5" {
        ParseRejectsGarbage();
      } else if cn == " 555" {
        ParseRejectsSpace(cn, 0);
      } else {
        ParseRejectsSpace(cn, 3);
      }
    }
    BadCommonNameForbidden(s, env, env, req, req.headers);
  }

  /** A CRL hit gives 403 with RSP00002: the OCSP responder and the headers play no part. */
  lemma CrlHitForbidden(s: Settings, env: Env, env2: Env, req: Request, headers2: map<string, string>)
    requires LocalityPresent(req) && req.tls.Some?
    requires ParseInt64(req.tls.value.commonName).Some?
    requires s.crl.Some? && Listed(req.tls.value, s.crl.value)
    ensures IsDenial(s, Handle(s, env, req), StatusForbidden, RSP00002)
    ensures Handle(s, env, req) == Handle(s, env2, req.(headers := headers2))
  {
  }

  /** The gate up to the identity header has passed the CRL. */
  predicate PassesCrl(s: Settings, req: Request) {
    req.tls.Some? && ParseInt64(req.tls.value.commonName).Some?
    && !(s.crl.Some? && Listed(req.tls.value, s.crl.value))
  }

  /** An OCSP check that cannot conclude gives 503 with RSP00003, before any header is read. */
  lemma OcspIndeterminateUnavailable(s: Settings, env: Env, req: Request, headers2: map<string, string>)
    requires LocalityPresent(req) && PassesCrl(s, req)
    requires |s.ocspURL| > 0 && !OcspVerdict(env.ocsp).ok
    ensures IsDenial(s, Handle(s, env, req), StatusServiceUnavailable, RSP00003)
    ensures Handle(s, env, req) == Handle(s, env, req.(headers := headers2))
  {
  }

  /** A verified OCSP status other than Good gives 403 with RSP00004, before any header is read. */
  lemma OcspRevokedForbidden(s: Settings, env: Env, req: Request, headers2: map<string, string>)
    requires LocalityPresent(req) && PassesCrl(s, req)
    requires |s.ocspURL| > 0 && OcspVerdict(env.ocsp).revoked
    ensures IsDenial(s, Handle(s, env, req), StatusForbidden, RSP00004)
    ensures Handle(s, env, req) == Handle(s, env, req.(headers := headers2))
  {
  }

  /** A responder that answers with an unsuccessful-response body is indeterminate (503), not revoked. */
  lemma OcspErrorBodyUnavailable(s: Settings, env: Env, req: Request)
    requires LocalityPresent(req) && PassesCrl(s, req) && |s.ocspURL| > 0
    requires env.ocsp.createRequest.Some?
    requires env.ocsp.post(env.ocsp.createRequest.value).HttpResponse?
    requires env.ocsp.post(env.ocsp.createRequest.value).body.Some?
    requires IsErrorResponse(env.ocsp.post(env.ocsp.createRequest.value).body.value)
    ensures IsDenial(s, Handle(s, env, req), StatusServiceUnavailable, RSP00003)
  {
    ErrorResponseIsIndeterminate(env.ocsp);
  }

  /** With no responder URL the responder is never consulted. */
  lemma OcspOffIgnoresResponder(s: Settings, env: Env, req: Request, responder: OcspResponder)
    requires LocalityPresent(req) && |s.ocspURL| == 0
    ensures Handle(s, env, req) == Handle(s, env.(ocsp := responder), req)
  {
    assert Authorize(s, env, req) == Authorize(s, env.(ocsp := responder), req);
  }

  /** The revocation checks passed (or OCSP is off). */
  predicate PassesRevocation(s: Settings, env: Env, req: Request) {
    PassesCrl(s, req) && (|s.ocspURL| > 0 ==> OcspVerdict(env.ocsp) == OcspAnswer(false, true))
  }

  /** The last two links of the chain: the identity header is parsed, then compared. */
  lemma AuthorizeIdHeader(s: Settings, env: Env, req: Request)
    requires PassesRevocation(s, env, req)
    ensures var header := ParseInt64(Trim(HeaderGet(req.headers, s.idHeader)));
      var cn := ParseInt64(req.tls.value.commonName);
      && (header.None? ==> Authorize(s, env, req) == Denied(StatusBadRequest, RSP00005(s.idHeader)))
      && (header.Some? && header != cn ==>
            Authorize(s, env, req) == Denied(StatusForbidden, RSP00007(cn.value, header.value, s.idHeader)))
  {
    var leaf := req.tls.value;
    var cn := ParseInt64(leaf.commonName);
    var header := ParseInt64(Trim(HeaderGet(req.headers, s.idHeader)));
    assert cn.Some? && !(s.crl.Some? && Listed(leaf, s.crl.value));
    assert |s.ocspURL| > 0 ==> OcspVerdict(env.ocsp).ok && !OcspVerdict(env.ocsp).revoked;
    assert Authorize(s, env, req)
        == if header.None? then Denied(StatusBadRequest, RSP00005(s.idHeader))
           else if cn.value != header.value then Denied(StatusForbidden, RSP00007(cn.value, header.value, s.idHeader))
           else Authorized(leaf, cn.value);
  }

  /** An identity header that is not an int64 after trimming spaces gives 400 with RSP00005. */
  lemma InvalidIdHeaderBadRequest(s: Settings, env: Env, req: Request)
    requires LocalityPresent(req) && PassesRevocation(s, env, req)
    requires ParseInt64(Trim(HeaderGet(req.headers, s.idHeader))).None?
    ensures IsDenial(s, Handle(s, env, req), StatusBadRequest, RSP00005(s.idHeader))
  {
    assert Authorize(s, env, req) == Denied(StatusBadRequest, RSP00005(s.idHeader)) by {
      AuthorizeIdHeader(s, env, req);
    }
    DeniedReply(s, env, req, StatusBadRequest, RSP00005(s.idHeader));
  }

  /** A request the gate denies with a given status and code gets exactly that early exit. */
  lemma DeniedReply(s: Settings, env: Env, req: Request, status: int, code: ErrorCode)
    requires LocalityPresent(req) && Authorize(s, env, req) == Denied(status, code)
    ensures Handle(s, env, req) == Deny(s, status, code)
    ensures IsDenial(s, Handle(s, env, req), status, code)
  {
    assert Handle(s, env, req) == Deny(s, status, code);
    DenyShape(s, status, code);
  }

  /** An early exit is a denial: its status, no body, and exactly HSTS and the error code. */
  lemma DenyShape(s: Settings, status: int, code: ErrorCode)
    ensures IsDenial(s, Deny(s, status, code), status, code)
  {
    assert Deny(s, status, code).headers.Keys == {HstsKey} + {CanonicalMIMEHeaderKey(s.errorHeader)};
  }

  /** In particular a missing identity header. */
  lemma MissingIdHeaderBadRequest(s: Settings, env: Env, req: Request)
    requires LocalityPresent(req) && PassesRevocation(s, env, req)
    requires CanonicalMIMEHeaderKey(s.idHeader) !in req.headers
    ensures IsDenial(s, Handle(s, env, req), StatusBadRequest, RSP00005(s.idHeader))
  {
    assert HeaderGet(req.headers, s.idHeader) == "";
    assert Trim("") == "";
    ParseRejectsGarbage();
    InvalidIdHeaderBadRequest(s, env, req);
  }

  /** Header and certificate values that differ give 403 with RSP00007 carrying both. */
  lemma IdMismatchForbidden(s: Settings, env: Env, req: Request)
    requires LocalityPresent(req) && PassesRevocation(s, env, req)
    requires ParseInt64(Trim(HeaderGet(req.headers, s.idHeader))).Some?
    requires ParseInt64(Trim(HeaderGet(req.headers, s.idHeader))) != ParseInt64(req.tls.value.commonName)
    ensures IsDenial(s, Handle(s, env, req), StatusForbidden,
                     RSP00007(ParseInt64(req.tls.value.commonName).value,
                              ParseInt64(Trim(HeaderGet(req.headers, s.idHeader))).value, s.idHeader))
  {
    AuthorizeIdHeader(s, env, req);
    HandleDenied(s, env, req);
  }

  /** The certificate "9" presented with the header value "999". */
  lemma IdMismatchExample(s: Settings, env: Env, req: Request)
    requires LocalityPresent(req) && PassesRevocation(s, env, req)
    requires req.tls.value.commonName == "9" && HeaderGet(req.headers, s.idHeader) == "999"
    ensures IsDenial(s, Handle(s, env, req), StatusForbidden, RSP00007(9, 999, s.idHeader))
  {
    MismatchHeaderValue(s, req);
    ParseSmallExamples();
    IdMismatchForbidden(s, env, req);
  }

  /** The identity header value "999" of the mismatch scenario reads as 999. */
  lemma MismatchHeaderValue(s: Settings, req: Request)
    requires HeaderGet(req.headers, s.idHeader) == "999"
    ensures ParseInt64(Trim(HeaderGet(req.headers, s.idHeader))) == Some(999)
  {
    TrimLeavesUnspaced();
    ParseSmallExamples();
  }

  /** The gate lets a request through exactly when every check passed. */
  lemma AuthorizedIffCleared(s: Settings, env: Env, req: Request)
    ensures Authorize(s, env, req).Authorized? <==> Cleared(s, env, req)
    ensures Authorize(s, env, req).Authorized? ==>
      Authorize(s, env, req) == Authorized(req.tls.value, ParseInt64(req.tls.value.commonName).value)
  {
  }

  /** Content is handed to the streaming library only for a request that cleared the gate. */
  lemma ServedOnlyWhenCleared(s: Settings, env: Env, req: Request)
    requires LocalityPresent(req)
    requires Handle(s, env, req).body != NoBody
    ensures Cleared(s, env, req)
  {
    AuthorizedIffCleared(s, env, req);
  }

  /** Whether a request clears the gate depends on its headers only through the identity header. */
  lemma ClearedReadsOnlyIdHeader(s: Settings, env: Env, req: Request, req2: Request)
    requires req2.tls == req.tls
    requires HeaderGet(req2.headers, s.idHeader) == HeaderGet(req.headers, s.idHeader)
    ensures Cleared(s, env, req) == Cleared(s, env, req2)
  {
  }

  /** A denied request gets the denial's status and code and nothing else. */
  lemma HandleDenied(s: Settings, env: Env, req: Request)
    requires LocalityPresent(req) && Authorize(s, env, req).Denied?
    ensures IsDenial(s, Handle(s, env, req), Authorize(s, env, req).status, Authorize(s, env, req).code)
  {
  }

  // ------------------------------------------------------------ content resolution

  /** The backend Handle uses for a request that presents a leaf. */
  function BackendOf(s: Settings, req: Request): Backend
    requires LocalityPresent(req) && req.tls.Some?
  {
    SelectBackend(s, req.tls.value.locality[0])
  }

  /** Only the selected backend is read: the other two could be anything. */
  lemma OnlySelectedBackendQueried(s: Settings, env: Env, req: Request,
                                   main2: ObjectStore, cloud2: ObjectStore, fs2: FileSystem)
    requires LocalityPresent(req) && req.tls.Some?
    ensures BackendOf(s, req) != MainStore ==> Handle(s, env, req) == Handle(s, env.(s3Main := main2), req)
    ensures BackendOf(s, req) != CloudStore ==> Handle(s, env, req) == Handle(s, env.(s3Cloud := cloud2), req)
    ensures BackendOf(s, req) != Filesystem ==> Handle(s, env, req) == Handle(s, env.(fs := fs2), req)
  {
    var envMain, envCloud, envFs := env.(s3Main := main2), env.(s3Cloud := cloud2), env.(fs := fs2);
    if Authorize(s, env, req).Denied? {
      DeniedIgnoresContent(s, env, envMain, req);
      DeniedIgnoresContent(s, env, envCloud, req);
      DeniedIgnoresContent(s, env, envFs, req);
    } else {
      GateIgnoresContent(s, env, envMain, req);
      GateIgnoresContent(s, env, envCloud, req);
      GateIgnoresContent(s, env, envFs, req);
      HandleAuthorized(s, env, req);
      HandleAuthorized(s, envMain, req);
      HandleAuthorized(s, envCloud, req);
      HandleAuthorized(s, envFs, req);
      ResolveReadsSelectedBackend(s, env, req, req.tls.value, main2, cloud2, fs2);
    }
  }

  /** The gate consults only the OCSP responder among the oracles. */
  lemma GateIgnoresContent(s: Settings, env: Env, env2: Env, req: Request)
    requires env2.ocsp == env.ocsp
    ensures Authorize(s, env2, req) == Authorize(s, env, req)
  {
  }

  /** A denied request is answered before any content oracle is read. */
  lemma DeniedIgnoresContent(s: Settings, env: Env, env2: Env, req: Request)
    requires LocalityPresent(req) && env2.ocsp == env.ocsp && Authorize(s, env, req).Denied?
    ensures Handle(s, env2, req) == Handle(s, env, req)
  {
    GateIgnoresContent(s, env, env2, req);
  }

  /** An authorized request is answered by content resolution for its own leaf. */
  lemma HandleAuthorized(s: Settings, env: Env, req: Request)
    requires LocalityPresent(req) && Authorize(s, env, req).Authorized?
    ensures req.tls.Some? && Authorize(s, env, req).leaf == req.tls.value
    ensures Handle(s, env, req) == Resolve(s, env, req, req.tls.value)
  {
  }

  lemma ResolveReadsSelectedBackend(s: Settings, env: Env, req: Request, leaf: Certificate,
                                    main2: ObjectStore, cloud2: ObjectStore, fs2: FileSystem)
    requires |leaf.locality| > 0
    ensures var b := SelectBackend(s, leaf.locality[0]);
      && (b != MainStore ==> Resolve(s, env, req, leaf) == Resolve(s, env.(s3Main := main2), req, leaf))
      && (b != CloudStore ==> Resolve(s, env, req, leaf) == Resolve(s, env.(s3Cloud := cloud2), req, leaf))
      && (b != Filesystem ==> Resolve(s, env, req, leaf) == Resolve(s, env.(fs := fs2), req, leaf))
  {
  }

  /** The object key a cleared request asks the store for. */
  function KeyOf(s: Settings, env: Env, req: Request): string
    requires req.tls.Some?
  {
    ObjectKey(s, env, req.tls.value.commonName, VersionSuffix(HeaderGet(req.headers, s.versionHeader)))
  }

  /** The store the backend names. */
  function StoreOf(env: Env, b: Backend): ObjectStore {
    if b == CloudStore then env.s3Cloud else env.s3Main
  }

  /** A cleared request in object-store mode is one fetch from the selected store, classified. */
  lemma HandleObjectStore(s: Settings, env: Env, req: Request)
    requires LocalityPresent(req) && Cleared(s, env, req) && s.useS3
    ensures Handle(s, env, req)
         == ObjectReply(s, StoreOf(env, BackendOf(s, req)).getObject(KeyOf(s, env, req), IfNoneMatchOption(req.headers)),
                        BackendOf(s, req), KeyOf(s, env, req))
  {
    AuthorizedIffCleared(s, env, req);
  }

  /** Object-store outcomes, end to end, for a request that cleared the gate. */
  lemma ObjectStoreOutcomes(s: Settings, env: Env, req: Request)
    requires LocalityPresent(req) && Cleared(s, env, req) && s.useS3
    ensures var outcome := StoreOf(env, BackendOf(s, req)).getObject(KeyOf(s, env, req), IfNoneMatchOption(req.headers));
      var r := Handle(s, env, req);
      && (outcome.GetFailed? ==> IsDenial(s, r, StatusInternalServerError, RSP00011))
      && (outcome == Opened(StatFailed(404)) ==> IsDenial(s, r, s.tryLaterCode, RSP00010))
      && (outcome == Opened(StatFailed(304)) ==>
            r.status == Some(StatusNotModified) && r.body == NoBody && r.headers.Keys == {HstsKey})
      && (outcome.Opened? && outcome.stat.StatFailed? && outcome.stat.statusCode !in {404, 304} ==>
            IsDenial(s, r, StatusInternalServerError, RSP00011))
      && (outcome.Opened? && outcome.stat.StatOk? ==>
            r.status == None && r.body == ObjectContent(BackendOf(s, req), KeyOf(s, env, req))
            && r.headers == map[HstsKey := Text(HstsValue), ETagKey := Text(outcome.stat.etag)])
  {
    HandleObjectStore(s, env, req);
    var outcome := StoreOf(env, BackendOf(s, req)).getObject(KeyOf(s, env, req), IfNoneMatchOption(req.headers));
    ObjectReplyOutcomes(s, outcome, BackendOf(s, req), KeyOf(s, env, req));
  }

  /** The object-store classification, on `ObjectReply` itself. */
  lemma ObjectReplyOutcomes(s: Settings, outcome: GetOutcome, backend: Backend, key: string)
    ensures var r := ObjectReply(s, outcome, backend, key);
      && (outcome.GetFailed? ==> IsDenial(s, r, StatusInternalServerError, RSP00011))
      && (outcome == Opened(StatFailed(404)) ==> IsDenial(s, r, s.tryLaterCode, RSP00010))
      && (outcome == Opened(StatFailed(304)) ==>
            r.status == Some(StatusNotModified) && r.body == NoBody && r.headers.Keys == {HstsKey})
      && (outcome.Opened? && outcome.stat.StatFailed? && outcome.stat.statusCode !in {404, 304} ==>
            IsDenial(s, r, StatusInternalServerError, RSP00011))
      && (outcome.Opened? && outcome.stat.StatOk? ==>
            r.status == None && r.body == ObjectContent(backend, key)
            && r.headers == map[HstsKey := Text(HstsValue), ETagKey := Text(outcome.stat.etag)])
  {
    match outcome
    case GetFailed =>
      DenyShape(s, StatusInternalServerError, RSP00011);
    case Opened(StatFailed(code)) =>
      if code == 404 {
        DenyShape(s, s.tryLaterCode, RSP00010);
      } else if code != 304 {
        DenyShape(s, StatusInternalServerError, RSP00011);
      }
    case Opened(StatOk(etag)) =>
  }

  /** The two filesystem paths of a cleared request. */
  function DataPathOf(s: Settings, env: Env, req: Request): string
    requires req.tls.Some?
  {
    DataFilePath(s, env, req.tls.value.commonName, VersionSuffix(HeaderGet(req.headers, s.versionHeader)))
  }

  function HashPathOf(s: Settings, env: Env, req: Request): string
    requires req.tls.Some?
  {
    HashFilePath(s, env, req.tls.value.commonName)
  }

  /** A cleared request in filesystem mode is the lookup of its data and hash files. */
  lemma HandleFilesystem(s: Settings, env: Env, req: Request)
    requires LocalityPresent(req) && Cleared(s, env, req) && !s.useS3
    ensures Handle(s, env, req)
         == FileReply(s, env.fs, DataPathOf(s, env, req), HashPathOf(s, env, req),
                      HeaderGet(req.headers, IfNoneMatchHeader))
  {
    AuthorizedIffCleared(s, env, req);
  }

  /** Filesystem outcomes, end to end, for a request that cleared the gate. */
  lemma FilesystemOutcomes(s: Settings, env: Env, req: Request)
    requires LocalityPresent(req) && Cleared(s, env, req) && !s.useS3
    ensures var r := Handle(s, env, req);
      var hash := env.fs.readFile(HashPathOf(s, env, req));
      && (!env.fs.present(DataPathOf(s, env, req)) ==> IsDenial(s, r, s.tryLaterCode, RSP00008))
      && (env.fs.present(DataPathOf(s, env, req)) && hash.None? ==>
            IsDenial(s, r, s.tryLaterCode, RSP00009))
      && (env.fs.present(DataPathOf(s, env, req)) && hash.Some? ==>
            && r.headers == map[HstsKey := Text(HstsValue), ETagKey := Text("\"" + hash.value + "\"")]
            && (r.status == Some(StatusNotModified) <==>
                  "\"" + hash.value + "\"" == HeaderGet(req.headers, IfNoneMatchHeader))
            && (r.status.None? <==> r.body == FileContent(DataPathOf(s, env, req)))
            && (r.status == Some(StatusNotModified) || r.status.None?))
  {
    HandleFilesystem(s, env, req);
    FileReplyOutcomes(s, env.fs, DataPathOf(s, env, req), HashPathOf(s, env, req),
                      HeaderGet(req.headers, IfNoneMatchHeader));
  }

  /** The filesystem classification, on `FileReply` itself. */
  lemma FileReplyOutcomes(s: Settings, fs: FileSystem, data: string, hash: string, ifNoneMatch: string)
    ensures var r := FileReply(s, fs, data, hash, ifNoneMatch);
      var h := fs.readFile(hash);
      && (!fs.present(data) ==> IsDenial(s, r, s.tryLaterCode, RSP00008))
      && (fs.present(data) && h.None? ==> IsDenial(s, r, s.tryLaterCode, RSP00009))
      && (fs.present(data) && h.Some? ==>
            && r.headers == map[HstsKey := Text(HstsValue), ETagKey := Text("\"" + h.value + "\"")]
            && (r.status == Some(StatusNotModified) <==> "\"" + h.value + "\"" == ifNoneMatch)
            && (r.status.None? <==> r.body == FileContent(data))
            && (r.status == Some(StatusNotModified) || r.status.None?))
  {
    if fs.present(data) && fs.readFile(hash).Some? {
      assert QuotedETag(fs.readFile(hash).value) == "\"" + fs.readFile(hash).value + "\"";
    }
  }

  /**
   * On the filesystem backend a missing artifact and a missing hash file give the same
   * try-later status but different error codes, so a client can tell them apart.
   */
  lemma MissingDataVersusMissingHash(s: Settings, env1: Env, env2: Env, req: Request)
    requires LocalityPresent(req) && !s.useS3 && Cleared(s, env1, req)
    requires env2.ocsp == env1.ocsp && env2.sprintf == env1.sprintf
    requires !env1.fs.present(DataPathOf(s, env1, req))
    requires env2.fs.present(DataPathOf(s, env1, req)) && env2.fs.readFile(HashPathOf(s, env1, req)).None?
    ensures var r1, r2 := Handle(s, env1, req), Handle(s, env2, req);
      && r1.status == r2.status == Some(s.tryLaterCode)
      && IsDenial(s, r1, s.tryLaterCode, RSP00008) && IsDenial(s, r2, s.tryLaterCode, RSP00009)
      && r1.headers[CanonicalMIMEHeaderKey(s.errorHeader)] != r2.headers[CanonicalMIMEHeaderKey(s.errorHeader)]
  {
    assert Cleared(s, env2, req);
    FilesystemOutcomes(s, env1, req);
    FilesystemOutcomes(s, env2, req);
  }

  /**
   * On an object-store backend "not found" (try later, RSP00010) is told apart from every
   * other store failure (500, RSP00011) by its error code.
   */
  lemma NotFoundVersusStoreFailure(s: Settings, env1: Env, env2: Env, req: Request)
    requires LocalityPresent(req) && s.useS3 && Cleared(s, env1, req)
    requires env2.ocsp == env1.ocsp && env2.sprintf == env1.sprintf
    requires StoreOf(env1, BackendOf(s, req)).getObject(KeyOf(s, env1, req), IfNoneMatchOption(req.headers))
          == Opened(StatFailed(404))
    requires var outcome := StoreOf(env2, BackendOf(s, req)).getObject(KeyOf(s, env1, req), IfNoneMatchOption(req.headers));
      outcome.GetFailed? || (outcome.stat.StatFailed? && outcome.stat.statusCode !in {404, 304})
    ensures var r1, r2 := Handle(s, env1, req), Handle(s, env2, req);
      && IsDenial(s, r1, s.tryLaterCode, RSP00010) && IsDenial(s, r2, StatusInternalServerError, RSP00011)
      && r1.headers[CanonicalMIMEHeaderKey(s.errorHeader)] != r2.headers[CanonicalMIMEHeaderKey(s.errorHeader)]
  {
    StoreDenial(s, env1, req);
    SameGateAndKey(s, env1, env2, req);
    StoreDenial(s, env2, req);
  }

  /** The gate and the object key read only the OCSP responder and the formatter. */
  lemma SameGateAndKey(s: Settings, env1: Env, env2: Env, req: Request)
    requires req.tls.Some? && env2.ocsp == env1.ocsp && env2.sprintf == env1.sprintf
    ensures Cleared(s, env2, req) == Cleared(s, env1, req)
    ensures KeyOf(s, env2, req) == KeyOf(s, env1, req)
  {
  }

  /** The two denials of the object-store path, picked out of `ObjectStoreOutcomes`. */
  lemma StoreDenial(s: Settings, env: Env, req: Request)
    requires LocalityPresent(req) && s.useS3 && Cleared(s, env, req)
    ensures var outcome := StoreOf(env, BackendOf(s, req)).getObject(KeyOf(s, env, req), IfNoneMatchOption(req.headers));
      var r := Handle(s, env, req);
      && (outcome == Opened(StatFailed(404)) ==> IsDenial(s, r, s.tryLaterCode, RSP00010))
      && (outcome.GetFailed? || (outcome.stat.StatFailed? && outcome.stat.statusCode !in {404, 304}) ==>
            IsDenial(s, r, StatusInternalServerError, RSP00011))
  {
    ObjectStoreOutcomes(s, env, req);
  }

  /**
   * An OCSP check that cannot conclude (503, RSP00003) never looks like a confirmed
   * revocation (403, RSP00004): status and error code both differ.
   */
  lemma IndeterminateVersusRevoked(s: Settings, env1: Env, env2: Env, req: Request)
    requires LocalityPresent(req) && PassesCrl(s, req) && |s.ocspURL| > 0
    requires !OcspVerdict(env1.ocsp).ok && OcspVerdict(env2.ocsp).revoked
    ensures var r1, r2 := Handle(s, env1, req), Handle(s, env2, req);
      && IsDenial(s, r1, StatusServiceUnavailable, RSP00003) && IsDenial(s, r2, StatusForbidden, RSP00004)
      && r1.headers[CanonicalMIMEHeaderKey(s.errorHeader)] != r2.headers[CanonicalMIMEHeaderKey(s.errorHeader)]
  {
    OcspIndeterminateUnavailable(s, env1, req, req.headers);
    OcspRevokedForbidden(s, env2, req, req.headers);
  }

  /**
   * Header names are compared after canonicalisation: an error header configured as
   * "etag" is stored under the ETag's key, so a denial then carries its error code there.
   */
  lemma ErrorHeaderNamedETag(s: Settings, env: Env, req: Request)
    requires LocalityPresent(req) && s.errorHeader == "etag" && !Cleared(s, env, req)
    ensures Authorize(s, env, req).Denied? && ETagKey in Handle(s, env, req).headers
    ensures Handle(s, env, req).headers[ETagKey] == Code(Authorize(s, env, req).code)
  {
    CanonicalETag();
    CanonicalLowerETag();
    AuthorizedIffCleared(s, env, req);
    HandleDenied(s, env, req);
  }

  /** Whatever is served carries an ETag; a served file's ETag is the quoted hash, never empty. */
  lemma ServedCarriesETag(s: Settings, env: Env, req: Request)
    requires LocalityPresent(req)
    requires Handle(s, env, req).body != NoBody
    ensures ETagKey in Handle(s, env, req).headers
    ensures Handle(s, env, req).body.FileContent? ==>
      Handle(s, env, req).headers[ETagKey].Text? && |Handle(s, env, req).headers[ETagKey].text| >= 2
  {
    ServedOnlyWhenCleared(s, env, req);
    if s.useS3 {
      HandleObjectStore(s, env, req);
      var outcome := StoreOf(env, BackendOf(s, req)).getObject(KeyOf(s, env, req), IfNoneMatchOption(req.headers));
      ObjectReplyOutcomes(s, outcome, BackendOf(s, req), KeyOf(s, env, req));
    } else {
      HandleFilesystem(s, env, req);
      FileReplyOutcomes(s, env.fs, DataPathOf(s, env, req), HashPathOf(s, env, req),
                        HeaderGet(req.headers, IfNoneMatchHeader));
    }
  }

  /** Sending back the ETag of a served file turns the same lookup into a 304. */
  lemma FileReplyRevalidation(s: Settings, fs: FileSystem, data: string, hash: string,
                              ifNoneMatch: string, etag: string)
    requires FileReply(s, fs, data, hash, ifNoneMatch).body.FileContent?
    requires ETagKey in FileReply(s, fs, data, hash, ifNoneMatch).headers
    requires FileReply(s, fs, data, hash, ifNoneMatch).headers[ETagKey] == Text(etag)
    ensures FileReply(s, fs, data, hash, etag).status == Some(StatusNotModified)
    ensures ETagKey in FileReply(s, fs, data, hash, etag).headers
    ensures FileReply(s, fs, data, hash, etag).headers[ETagKey] == Text(etag)
    ensures FileReply(s, fs, data, hash, etag).body == NoBody
  {
  }

  /** Setting `If-None-Match` on a cleared request changes neither the gate nor the paths. */
  lemma HandleFilesystemWithIfNoneMatch(s: Settings, env: Env, req: Request, etag: string)
    requires LocalityPresent(req) && !s.useS3 && Cleared(s, env, req)
    requires IfNoneMatchKey != CanonicalMIMEHeaderKey(s.idHeader) && IfNoneMatchKey != CanonicalMIMEHeaderKey(s.versionHeader)
    ensures Handle(s, env, req.(headers := req.headers[IfNoneMatchKey := etag]))
         == FileReply(s, env.fs, DataPathOf(s, env, req), HashPathOf(s, env, req), etag)
  {
    IfNoneMatchKeepsGateAndPaths(s, env, req, etag);
    HandleFilesystem(s, env, req.(headers := req.headers[IfNoneMatchKey := etag]));
  }

  lemma IfNoneMatchKeepsGateAndPaths(s: Settings, env: Env, req: Request, etag: string)
    requires req.tls.Some?
    requires IfNoneMatchKey != CanonicalMIMEHeaderKey(s.idHeader) && IfNoneMatchKey != CanonicalMIMEHeaderKey(s.versionHeader)
    ensures var req2 := req.(headers := req.headers[IfNoneMatchKey := etag]);
      && Cleared(s, env, req2) == Cleared(s, env, req)
      && DataPathOf(s, env, req2) == DataPathOf(s, env, req)
      && HashPathOf(s, env, req2) == HashPathOf(s, env, req)
      && KeyOf(s, env, req2) == KeyOf(s, env, req)
      && HeaderGet(req2.headers, IfNoneMatchHeader) == etag
  {
    var req2 := req.(headers := req.headers[IfNoneMatchKey := etag]);
    assert HeaderGet(req2.headers, s.idHeader) == HeaderGet(req.headers, s.idHeader);
    assert HeaderGet(req2.headers, s.versionHeader) == HeaderGet(req.headers, s.versionHeader);
    ClearedReadsOnlyIdHeader(s, env, req, req2);
  }

  /**
   * Revalidation on the filesystem backend: repeating a request that was served, with
   * the ETag it got as `If-None-Match`, gives 304 with the same ETag.
   */
  lemma FilesystemRevalidation(s: Settings, env: Env, req: Request, etag: string)
    requires LocalityPresent(req) && !s.useS3
    requires IfNoneMatchKey != CanonicalMIMEHeaderKey(s.idHeader) && IfNoneMatchKey != CanonicalMIMEHeaderKey(s.versionHeader)
    requires Handle(s, env, req).body.FileContent?
    requires ETagKey in Handle(s, env, req).headers && Handle(s, env, req).headers[ETagKey] == Text(etag)
    ensures var again := Handle(s, env, req.(headers := req.headers[IfNoneMatchKey := etag]));
      again.status == Some(StatusNotModified) && again.body == NoBody
      && ETagKey in again.headers && again.headers[ETagKey] == Text(etag)
  {
    assert Cleared(s, env, req) by { ServedOnlyWhenCleared(s, env, req); }
    var data, hash := DataPathOf(s, env, req), HashPathOf(s, env, req);
    var r := FileReply(s, env.fs, data, hash, HeaderGet(req.headers, IfNoneMatchHeader));
    assert r.body.FileContent? && r.headers[ETagKey] == Text(etag) by { HandleFilesystem(s, env, req); }
    FileReplyRevalidation(s, env.fs, data, hash, HeaderGet(req.headers, IfNoneMatchHeader), etag);
    HandleFilesystemWithIfNoneMatch(s, env, req, etag);
  }

  /**
   * A store that answers 304 to `If-None-Match` equal to the object's current ETag: once
   * any fetch of a key reports an ETag, a fetch with that ETag as `If-None-Match` gets 304.
   */
  ghost predicate HonoursIfNoneMatch(store: ObjectStore) {
    forall key: string, option: Option<string>, etag: string
      {:trigger store.getObject(key, option), store.getObject(key, Some(etag))} ::
      store.getObject(key, option) == Opened(StatOk(etag)) ==> store.getObject(key, Some(etag)) == Opened(StatFailed(304))
  }

  /**
   * Revalidation on an object-store backend that honours `If-None-Match`: repeating a
   * served request with its (non-empty) ETag gives 304, which carries no ETag header.
   */
  lemma ObjectStoreRevalidation(s: Settings, env: Env, req: Request, etag: string)
    requires LocalityPresent(req) && s.useS3
    requires IfNoneMatchKey != CanonicalMIMEHeaderKey(s.idHeader) && IfNoneMatchKey != CanonicalMIMEHeaderKey(s.versionHeader)
    requires HonoursIfNoneMatch(env.s3Main) && HonoursIfNoneMatch(env.s3Cloud)
    requires Handle(s, env, req).body.ObjectContent?
    requires ETagKey in Handle(s, env, req).headers
    requires Handle(s, env, req).headers[ETagKey] == Text(etag) && etag != ""
    ensures var again := Handle(s, env, req.(headers := req.headers[IfNoneMatchKey := etag]));
      again.status == Some(StatusNotModified) && ETagKey !in again.headers && again.body == NoBody
  {
    var req2 := req.(headers := req.headers[IfNoneMatchKey := etag]);
    ObjectServedFromStat(s, env, req, etag);
    IfNoneMatchKeepsGateAndPaths(s, env, req, etag);
    var store := StoreOf(env, BackendOf(s, req));
    var key := KeyOf(s, env, req);
    assert store.getObject(key, IfNoneMatchOption(req.headers)) == Opened(StatOk(etag));
    assert store.getObject(key, Some(etag)) == Opened(StatFailed(304));
    assert IfNoneMatchOption(req2.headers) == Some(etag);
    HandleObjectStore(s, env, req2);
    ObjectReplyNotModified(s, Opened(StatFailed(304)), BackendOf(s, req), key);
  }

  /** A served object comes from a cleared request whose fetch reported that ETag. */
  lemma ObjectServedFromStat(s: Settings, env: Env, req: Request, etag: string)
    requires LocalityPresent(req) && s.useS3
    requires Handle(s, env, req).body.ObjectContent?
    requires ETagKey in Handle(s, env, req).headers && Handle(s, env, req).headers[ETagKey] == Text(etag)
    ensures Cleared(s, env, req)
    ensures StoreOf(env, BackendOf(s, req)).getObject(KeyOf(s, env, req), IfNoneMatchOption(req.headers))
         == Opened(StatOk(etag))
  {
    ServedOnlyWhenCleared(s, env, req);
    var outcome := StoreOf(env, BackendOf(s, req)).getObject(KeyOf(s, env, req), IfNoneMatchOption(req.headers));
    HandleObjectStore(s, env, req);
    ObjectReplyServed(s, outcome, BackendOf(s, req), KeyOf(s, env, req));
  }

  /** An object is streamed only after a successful stat, under the ETag the stat reported. */
  lemma ObjectReplyServed(s: Settings, outcome: GetOutcome, backend: Backend, key: string)
    ensures var r := ObjectReply(s, outcome, backend, key);
      r.body.ObjectContent? ==>
        outcome.Opened? && outcome.stat.StatOk? && r.headers[ETagKey] == Text(outcome.stat.etag)
  {
  }

  /** A 304 from the store is passed on without an ETag and without a body. */
  lemma ObjectReplyNotModified(s: Settings, outcome: GetOutcome, backend: Backend, key: string)
    requires outcome == Opened(StatFailed(304))
    ensures var r := ObjectReply(s, outcome, backend, key);
      r.status == Some(StatusNotModified) && ETagKey !in r.headers && r.body == NoBody
  {
  }

  /**
   * The hash file's path has no version in it, so on the filesystem backend two requests
   * that differ only in their version header get the same ETag.
   */
  lemma FileETagIgnoresVersion(s: Settings, env: Env, req: Request, version: string)
    requires LocalityPresent(req) && !s.useS3 && CanonicalMIMEHeaderKey(s.errorHeader) != ETagKey
    requires ETagKey in Handle(s, env, req).headers
    requires ETagKey in Handle(s, env, req.(headers := req.headers[CanonicalMIMEHeaderKey(s.versionHeader) := version])).headers
    ensures Handle(s, env, req).headers[ETagKey]
         == Handle(s, env, req.(headers := req.headers[CanonicalMIMEHeaderKey(s.versionHeader) := version])).headers[ETagKey]
  {
    var req2 := req.(headers := req.headers[CanonicalMIMEHeaderKey(s.versionHeader) := version]);
    assert HashPathOf(s, env, req2) == HashPathOf(s, env, req);
    FileETagIsHash(s, env, req);
    FileETagIsHash(s, env, req2);
  }

  /** On the filesystem backend an ETag on the reply is the quoted hash file of the request. */
  lemma FileETagIsHash(s: Settings, env: Env, req: Request)
    requires LocalityPresent(req) && !s.useS3 && CanonicalMIMEHeaderKey(s.errorHeader) != ETagKey
    requires ETagKey in Handle(s, env, req).headers
    ensures req.tls.Some? && env.fs.readFile(HashPathOf(s, env, req)).Some?
    ensures Handle(s, env, req).headers[ETagKey] == Text(QuotedETag(env.fs.readFile(HashPathOf(s, env, req)).value))
  {
    DeniedHasNoETag(s, env, req);
    var inm := HeaderGet(req.headers, IfNoneMatchHeader);
    HandleFilesystem(s, env, req);
    FileReplyETag(s, env.fs, DataPathOf(s, env, req), HashPathOf(s, env, req), inm);
  }

  /** A denial carries no ETag (unless the error header is itself called ETag). */
  lemma DeniedHasNoETag(s: Settings, env: Env, req: Request)
    requires LocalityPresent(req) && CanonicalMIMEHeaderKey(s.errorHeader) != ETagKey
    ensures !Cleared(s, env, req) ==> ETagKey !in Handle(s, env, req).headers
  {
    AuthorizedIffCleared(s, env, req);
    if !Cleared(s, env, req) {
      HandleDenied(s, env, req);
    }
  }

  /** Whenever the filesystem lookup yields an ETag, it is the quoted content of the hash file. */
  lemma FileReplyETag(s: Settings, fs: FileSystem, data: string, hash: string, ifNoneMatch: string)
    requires CanonicalMIMEHeaderKey(s.errorHeader) != ETagKey
    ensures var r := FileReply(s, fs, data, hash, ifNoneMatch);
      ETagKey in r.headers ==>
        fs.present(data) && fs.readFile(hash).Some? && r.headers[ETagKey] == Text(QuotedETag(fs.readFile(hash).value))
  {
  }

  /**
   * The version suffix is empty exactly when the version header is absent or blank;
   * otherwise it is an underscore and the header's text without surrounding spaces.
   */
  lemma VersionSuffixShape(header: string)
    ensures VersionSuffix(header) == [] <==> forall k :: 0 <= k < |header| ==> header[k] == ' '
    ensures VersionSuffix(header) != [] ==>
      var v := VersionSuffix(header);
      v[0] == '_' && v[1..] == Trim(header) && v[1] != ' ' && v[|v| - 1] != ' '
  {
    TrimEmptyIffBlank(header);
    TrimSlice(header);
    TrimShape(header);
    var t := Trim(header);
    if |t| > 0 {
      assert VersionSuffix(header) == "_" + t;
      assert ("_" + t)[1..] == t;
    }
  }

  /** A served file's ETag is its hash in double quotes. */
  lemma QuotedETagShape(hash: string)
    ensures var e := QuotedETag(hash);
      |e| == |hash| + 2 && e[0] == '"' && e[|e| - 1] == '"' && e[1..|e| - 1] == hash
  {
  }

  /** The version header: absent or blank adds nothing. */
  lemma VersionSuffixBlank()
    ensures VersionSuffix("") == ""
    ensures VersionSuffix("   ") == ""
  {
  }

  /** A version header with a space either side adds "_" and the version itself. */
  lemma VersionSuffixPadded(v: string)
    requires |v| > 0 && v[0] != ' ' && v[|v| - 1] != ' '
    ensures VersionSuffix(" " + v + " ") == "_" + v
  {
    var h := " " + v + " ";
    assert h[1..] == v + " ";
    assert TrimLeft(h) == v + " ";
    assert (v + " ")[..|v|] == v;
    assert TrimRight(v + " ") == v;
  }
}
