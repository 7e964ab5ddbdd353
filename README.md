# serve-file: the per-request decision chain

serve-file is a mutually authenticated content gateway. A client device presents an
X.509 certificate over TLS. The request handler decides whether the client may fetch its
per-client artifact, and from where. The artifact comes from a local directory, from the
main S3 bucket, or from a dedicated "cloud" bucket for one tenant. Every request ends in
exactly one response: an HTTP status, an error code in a configurable header and, when
content is served, an ETag.

This project models that handler (the closure registered with `mux.HandleFunc` in
`server.go`) and the revocation checks it calls (`validation/validation.go`):

- `textproto.dfy`: module `TextProto`. It models `textproto.CanonicalMIMEHeaderKey`, the
  key under which `http.Header.Set` stores a header and `http.Header.Get` looks one up. Names
  that differ only in letter case share a key.
- `x509.dfy`: module `X509`. It holds the certificate fields the handler reads (Common
  Name, Locality, serial number) and a CRL as its ordered list of revoked serials.
- `strconv.dfy`: module `StrConv`. It models `strconv.ParseInt(s, 10, 64)` as a small
  parser: an optional single sign, one or more ASCII digits, and a value in
  −2^63..2^63−1. There are no underscores and no surrounding spaces. The parser is proved
  against decimal rendering: it returns `n` exactly for the spellings of `n` (a fitting
  sign, leading zeros, then the digits `FormatNat` renders). The module also models
  `strings.Trim(s, " ")`.
- `validation.dfy`: module `Validation`. It holds:
  - `CertIsRevokedCRL`, a loop proved equal to CRL membership;
  - `SendOCSPRequest`'s classification of the responder's HTTP status and body, including
    the five unsuccessful `OCSPResponseStatus` bodies of section 4.2.1 of RFC 6960;
  - `CertIsRevokedOCSP`, a method that assigns its named results `revoked` and `ok` step
    by step, proved against the pure verdict `OcspVerdict`.
- `server.dfy`: module `Server`. It holds:
  - the response object, whose header map the handler updates in place;
  - the pure decision `Handle` (authorization chain `Authorize`, then content resolution
    `Resolve`: version suffix, backend choice, key and path derivation, and the S3 and
    filesystem outcome classification);
  - the imperative handler `HandleRequest`, which writes headers and a status step by
    step with the source's early returns, and hands an accepted leaf to `ServeContent` for
    the lookup. It is proved to leave exactly the state `Handle` describes.
- `properties.dfy`: module `ServerProperties`. It holds what the handler promises, stated
  as lemmas about `Handle`. These are the fixed order of the checks, the status and code
  of every exit, and that exactly one backend is read. They also cover the ETag rules and
  revalidation (a repeated request carrying the ETag it got back receives 304).

The outside world is passed in as oracles in `Server.Env`:
- the OCSP responder: request creation, the HTTP round trip and the response parser;
- the two object stores, each a function from key and `If-None-Match` option to a
  get/stat outcome;
- the filesystem (`os.Stat`, `os.ReadFile`);
- `fmt.Sprintf` on the path and key templates, an uninterpreted function of the template
  and its arguments.

The settings are an immutable record.

Points where the model deliberately differs from the code, or from the intent the code
documents:
- `server.go:53` indexes `Locality[0]` before the Common Name is parsed. A leaf without a
  Locality would make the handler panic, so `Handle` and `HandleRequest` require one
  (`LocalityPresent`).
- `server.go:127` logs `err.Error()`, where `err` is the earlier header-parse error. That
  error is nil at this point. The model gives the intended 500 response with `RSP00011`
  for a failed get.
- The comments in `server.go` cite sections 2.3 and 3.2 of RFC 7232. The handler's own
  test (`server.go:202-205`) compares the quoted hash with `If-None-Match` by exact string
  equality, and so does the model. A request that fails this test is then handed, with the
  ETag already set, to `http.ServeFile` (`server.go:211`); on S3, a served object goes to
  `http.ServeContent` (`server.go:166`). Those library calls apply RFC 7232's own
  `If-None-Match` rules (`*`, tag lists, weak tags) and, for files, `If-Modified-Since`.
  So a request that the model hands over for serving may still be answered 304 by the
  library. That part is under Streaming in "Left out".
- On the S3 backend, a 304 reported by the store is passed on without an ETag header.
  This is what the code does (`ObjectReplyNotModified`). So a not-modified response does
  not always carry an ETag.
- An OCSP status of `Unknown` (or any status other than `Good`) counts as revoked: 403
  with `RSP00004`.

## Model

| member | source | states |
|---|---|---|
| StrConv.ParseInt64Exactly | server.go:52-61 | The CN parser returns `n` exactly when `n` is within int64 and the text is a spelling of `n`: an optional sign that fits (`-` for n ≤ 0, none or `+` for n ≥ 0), leading zeros, then the decimal digits of abs(n). |
| StrConv.ParseSpelling | server.go:55 | Every spelling of an int64 parses to that number. |
| StrConv.ParseSignPrefix | server.go:55 | For text that does not itself start with a sign, a leading `+` parses to the same result. A leading `-` gives the negation of whatever the unsigned text parses to, never a positive value, and its only extra success is the least int64. |
| StrConv.SpellingOfParse | server.go:55 | Whatever the parser accepts is a spelling of the value it returns, and that value is within int64. |
| StrConv.DigitsSpelling | server.go:55 | A run of digits is some leading zeros followed by the decimal rendering of its value. |
| StrConv.LeadingZerosValue | server.go:55 | Leading zeros do not change the value of a run of digits. |
| StrConv.CanonicalDigits | server.go:55 | Digits without a leading zero are the decimal rendering of their value. |
| StrConv.ParseFormatRoundTrip | server.go:91-94 | Parsing the decimal rendering of any int64 gives that number back. |
| StrConv.ParseRejectsSpace | server.go:52-55 | Text with a space anywhere is rejected: the parser does no trimming of its own, so a CN with a space around it fails. |
| StrConv.ParseLeadingZeros | server.go:55 | Leading zeros, an explicit `+` and `-0` are accepted. |
| StrConv.ParseRejectsGarbage | server.go:55 | The empty string, a lone sign, "5x5x5" and "1_000" (underscores are refused with an explicit base 10) are rejected. |
| StrConv.ParseRejectsOutOfRange | server.go:55 | One past 2^63−1 and one below −2^63 are rejected. |
| StrConv.ParseSmallExamples | server_test.go:373-375 | "9" parses to 9 and "999" to 999. |
| StrConv.TrimLeft | server.go:83 | The result is a suffix of the input that does not start with a space. |
| StrConv.TrimRight | server.go:83 | The result is a prefix of the input that does not end with a space. |
| StrConv.TrimLeftCutsSpaces | server.go:83 | Everything `TrimLeft` removes is a space. |
| StrConv.TrimRightCutsSpaces | server.go:83 | Everything `TrimRight` removes is a space. |
| StrConv.TrimSlice | server.go:83 | The trimmed text is the contiguous slice of the input that starts where the leading spaces end. |
| StrConv.TrimShape | server.go:82-83 | Everything cut off on either side of that slice is a space, and the trimmed text has no space at either end. |
| StrConv.TrimEmptyIffBlank | server.go:99-100 | Trimming gives the empty string exactly when the input is all spaces. |
| StrConv.TrimIdempotent | server.go:99 | Trimming twice is the same as trimming once. |
| StrConv.TrimOuterSpaces | server.go:99 | " v3 " trims to "v3". |
| StrConv.TrimKeepsInnerSpaces | server.go:83 | Spaces inside the text are kept: " 4 0 3 " trims to "4 0 3". |
| StrConv.TrimLeavesUnspaced | server.go:83 | Only `' '` is trimmed: "999" and "\t1" are unchanged. |
| Validation.CertIsRevokedCRL | validation/validation.go:36-43 | The scan returns true iff some CRL entry's serial equals the certificate's serial. |
| Validation.ListedIffRevokedSerial | validation/validation.go:36-43 | Being listed is the same as membership of the serial in the set of revoked serials of section 5.1.2.6 of RFC 5280. |
| Validation.ListedIgnoresOrder | validation/validation.go:37-41 | Two lists holding the same entries in any order give the same answer. |
| Validation.EmptyListRevokesNothing | validation/validation.go:37-42 | An empty list revokes no certificate. |
| Validation.SendOCSPRequest | validation/validation.go:64-93 | The error comes from the response parser exactly when the POST returned 200 with a readable body that is none of the five unsuccessful responses, and the parser rejected it. |
| Validation.CertIsRevokedOCSP | validation/validation.go:45-61 | `ok` holds iff a request was built and a verified response came back. `revoked` holds iff, in addition, the status is not Good. Both results equal `OcspVerdict`. |
| Validation.OcspAnswerMeaning | validation/validation.go:56-60 | For the verdict, `revoked` implies `ok`. `ok` means the request was built and sent successfully, and `revoked` means `ok` with a status other than Good. |
| Validation.NoRequestNoAnswer | validation/validation.go:46-50 | If building the request fails, both results keep their zero values (false, false). |
| Validation.SendSucceedsOnlyWhenParsed | validation/validation.go:64-93 | Success requires a 200 response with a readable body that is none of the error responses and that the parser accepts. The status returned is the parser's. |
| Validation.NotOkIgnoresBody | validation/validation.go:72-74 | A status other than 200 fails whatever the body and the parser. |
| Validation.ErrorResponseSkipsParser | validation/validation.go:80-91 | A body byte-equal to one of the five unsuccessful responses fails, and any two parsers give the same failure (the parser is not consulted). |
| Validation.OtherBodyPassesThrough | validation/validation.go:93 | Any other body returns the parser's status, or its error, unchanged. |
| Validation.ErrorResponseIsIndeterminate | validation/validation.go:51-55 | An error-coded responder body makes the check indeterminate (false, false), never revoked. |
| TextProto.CanonicalMIMEHeaderKey | server.go:45-48 | A header name keeps its length under canonicalisation. A name that is not a token is returned unchanged. |
| TextProto.CanonicalKeyAt | server.go:45-48 | For a token name, position `i` of the canonical key is upper case when `i` is the first position or follows a `-`, and lower case otherwise. |
| TextProto.CanonicalAt | server.go:45-48 | The letter-case rewriting position by position: upper case at the start (when asked) and after each `-`, lower case elsewhere. |
| TextProto.CanonicalKeepsTokens | server.go:45-48 | Canonicalisation only changes letter case: the result is still a token, equal to the name up to case, with `-` in the same places. |
| TextProto.CanonicalIgnoresCase | server.go:45-48 | Two token names that differ only in letter case are rewritten to the same text. |
| TextProto.CanonicalKeyIgnoresCase | server.go:83 | `Header.Get` finds what `Header.Set` stored under any spelling of the same name: token names equal up to case share a key. |
| TextProto.CanonicalKeyIdempotent | server.go:159 | A canonical key is its own canonical form. |
| TextProto.CanonicalETag | server.go:159 | `Set("ETag", …)` stores the ETag under "Etag". |
| TextProto.CanonicalLowerETag | server.go:48 | The name "etag" has the same key as "ETag". |
| TextProto.CanonicalKeepsNonToken | server.go:48 | A name with a space is not a token and keeps its spelling. |
| Server.Authorize | server.go:45-97 | The checks in order (TLS, Common Name, CRL, OCSP, identity header, header equal to certificate). An authorization names the presented leaf and the id its Common Name parses to. |
| Server.SelectBackend | server.go:104-124 | Exactly one backend is chosen. It is the filesystem iff S3 is off; the cloud store iff S3 is on, the cloud store is on and the cloud customer id equals the tenant; the main store otherwise. |
| Server.Response.SetHeader | server.go:45 | Setting a header replaces the value under the name's canonical key (so names equal up to case overwrite each other) and leaves the status and the body alone. |
| Server.Response.WriteHeader | server.go:49 | Only the first status written counts. Headers and body are unchanged. |
| Server.Response.Serve | server.go:166 | Handing content to the streaming library records that content and changes nothing else. |
| Server.Reject | server.go:48-50 | An early exit sets the error code header, then writes the status. The state afterwards is `Deny`. |
| Server.HandleRequest | server.go:44-217 | The handler, with its early returns, leaves the response in exactly the state `Handle` describes. |
| Server.ServeContent | server.go:99-215 | After the checks, the version suffix, backend choice and lookup leave exactly the reply `Resolve` gives for the accepted leaf. |
| Server.ServeFromStore | server.go:117-166 | The object-store branch leaves exactly the reply the outcome classification gives for the store's get/stat outcome. |
| Server.ServeFromFilesystem | server.go:171-211 | The filesystem branch leaves exactly the reply the data-file, hash-file and ETag classification gives. |
| ServerProperties.HstsOnEveryReply | server.go:45 | Every reply carries `Strict-Transport-Security`. It holds its fixed value whenever the error header's canonical key differs from it. |
| ServerProperties.ReplyHsts | server.go:126-205 | Both content branches keep the HSTS header they start from. |
| ServerProperties.NoTlsForbidden | server.go:46-51 | Without TLS: 403 with `RSP00001` and nothing else. The result does not depend on the headers or on any oracle. |
| ServerProperties.BadCommonNameForbidden | server.go:52-61 | A CN that does not parse as an int64 gives 403 with `RSP00006`, independent of the headers and of every oracle. |
| ServerProperties.GarbageCommonNames | server_test.go:350-361 | The CNs "5x5x5", " 555" and "555 " give 403 with `RSP00006` (the CN is not trimmed). |
| ServerProperties.CrlHitForbidden | server.go:62-67 | A CRL hit gives 403 with `RSP00002`. Neither the OCSP responder nor the headers can change that. |
| ServerProperties.OcspIndeterminateUnavailable | server.go:68-73 | With OCSP configured and `!ok`: 503 with `RSP00003`, whatever the headers (a missing identity header included). |
| ServerProperties.OcspRevokedForbidden | server.go:74-79 | With OCSP configured and `ok && revoked`: 403 with `RSP00004`, whatever the headers. |
| ServerProperties.OcspErrorBodyUnavailable | server.go:68-73 | A responder answering with an error-coded body gives 503 with `RSP00003`, not the 403 of a revocation. |
| ServerProperties.OcspOffIgnoresResponder | server.go:68 | With no OCSP URL the responder is never consulted: replacing it changes nothing. |
| ServerProperties.AuthorizeIdHeader | server.go:81-97 | After the revocation checks, the header is trimmed and parsed. A parse failure denies with 400 `RSP00005`; a different value denies with 403 `RSP00007` carrying both ids and the header name. |
| ServerProperties.InvalidIdHeaderBadRequest | server.go:81-90 | An identity header that is not an int64 after trimming spaces gives 400 with `RSP00005` naming the header. |
| ServerProperties.MissingIdHeaderBadRequest | server_test.go:378-388 | A missing identity header gives 400 with `RSP00005`. |
| ServerProperties.IdMismatchForbidden | server.go:91-97 | Different header and certificate values give 403 with `RSP00007(certId, headerId, header name)`. |
| ServerProperties.IdMismatchExample | server_test.go:364-376 | Certificate "9" with header "999" gives 403 with `RSP00007(9, 999, header)`. |
| ServerProperties.MismatchHeaderValue | server.go:82-83 | The header value "999" reads as 999. |
| ServerProperties.AuthorizedIffCleared | server.go:45-97 | The gate authorizes exactly when every check passed: TLS, CN, CRL, OCSP (if configured) and header equal to the CN. It then carries the leaf and the parsed id. |
| ServerProperties.ServedOnlyWhenCleared | server.go:46-97 | Content is handed to the streaming library only for a request that cleared every check. |
| ServerProperties.ClearedReadsOnlyIdHeader | server.go:81-83 | Of the request headers, the gate reads only the identity header. |
| ServerProperties.HandleDenied | server.go:45-97 | A denied request gets exactly HSTS plus the error code, the denial's status and no body. |
| ServerProperties.OnlySelectedBackendQueried | server.go:119-124 | Only the selected backend is read: replacing either of the other two changes nothing (no fallback). |
| ServerProperties.ResolveReadsSelectedBackend | server.go:104-124 | Content resolution depends only on the backend that `SelectBackend` picks. |
| ServerProperties.HandleObjectStore | server.go:104-124 | A cleared request in S3 mode is one get of the derived key, with the `If-None-Match` option, from the selected store, then classified. |
| ServerProperties.ObjectStoreOutcomes | server.go:126-159 | A get error or a stat status other than 404/304 gives 500 `RSP00011`. Stat 404 gives the try-later status with `RSP00010`. Stat 304 gives 304 with no ETag and no error header. On success the store's ETag is set and the object served. |
| ServerProperties.ObjectReplyOutcomes | server.go:127-159 | The same classification stated for the fetch result alone, whatever the request was. |
| ServerProperties.HandleFilesystem | server.go:170-191 | A cleared request in filesystem mode is the lookup of its data file and hash file. |
| ServerProperties.FilesystemOutcomes | server.go:178-205 | A missing data file gives try-later `RSP00008`. A missing hash file gives try-later `RSP00009`. Otherwise the ETag is the quoted hash: the handler writes 304 iff it equals `If-None-Match`, and otherwise hands the file to `http.ServeFile` (which may itself still answer 304). |
| ServerProperties.FileReplyOutcomes | server.go:178-205 | The same classification stated for the two file lookups alone, whatever the request was. |
| ServerProperties.MissingDataVersusMissingHash | server.go:178-197 | For the same request, a missing artifact and a missing hash file give the same try-later status but different error-header values. |
| ServerProperties.NotFoundVersusStoreFailure | server.go:134-156 | For the same request, a store "not found" gives the try-later status and any other store failure gives 500, with different error-header values. |
| ServerProperties.IndeterminateVersusRevoked | server.go:68-79 | An OCSP check that cannot conclude gives 503, a confirmed revocation gives 403, and their error-header values differ. |
| ServerProperties.ErrorHeaderNamedETag | server.go:48 | With the error header configured as "etag", a request that does not clear the gate is denied, and the denial stores its error code under the ETag's key. |
| ServerProperties.ServedCarriesETag | server.go:158-211 | Whatever is served carries an ETag. A served file's ETag is at least the two quotes. |
| ServerProperties.FileReplyRevalidation | server.go:198-205 | Sending back the ETag of a served file turns the same lookup into 304 with the same ETag and no body. |
| ServerProperties.IfNoneMatchKeepsGateAndPaths | server.go:171-202 | Setting `If-None-Match` changes neither the gate's verdict nor the object key nor the data and hash paths. |
| ServerProperties.FilesystemRevalidation | server_test.go:304-320 | A request that was served, repeated with its ETag as `If-None-Match`, gets 304 with the same ETag. |
| ServerProperties.ObjectStoreRevalidation | server.go:110-142 | With a store that honours `If-None-Match`, a served request (with or without an `If-None-Match` of its own) repeated with its ETag gets 304, with no ETag header. |
| ServerProperties.ObjectReplyServed | server.go:133-166 | An object is streamed only after a successful stat, under the ETag that stat reported. |
| ServerProperties.ObjectServedFromStat | server.go:127-166 | A served object comes from a request that cleared the gate and whose fetch reported that ETag. |
| ServerProperties.ObjectReplyNotModified | server.go:141-143 | A store's 304 is passed on with no ETag and no body. |
| ServerProperties.FileETagIgnoresVersion | server.go:185-200 | The hash path has no version in it, so two requests that differ only in the version header get the same filesystem ETag. |
| ServerProperties.DeniedHasNoETag | server.go:45-97 | A denied request carries no ETag, when the error header's canonical key is not the ETag's. |
| ServerProperties.FileETagIsHash | server.go:185-200 | On the filesystem backend, when the error header's canonical key is not the ETag's, an ETag on the reply means the hash file exists, and the ETag is its content in quotes. |
| ServerProperties.VersionSuffixShape | server.go:99-102 | The suffix is empty iff the version header is absent or all spaces. Otherwise it is `_` followed by the trimmed header, which neither starts nor ends with a space. |
| ServerProperties.QuotedETagShape | server.go:198 | The filesystem ETag is the hash between two double quotes. |
| ServerProperties.VersionSuffixBlank | server.go:99-102 | An absent or blank version header adds nothing. |
| ServerProperties.VersionSuffixPadded | server.go:99-102 | A version header holding any version `v` (one that neither starts nor ends with a space) with one space either side adds `_` followed by exactly `v`. |

## Left out

- TLS listener, cipher and curve configuration, and `http.Server` timeouts (`server.go:218-241`): library configuration with no behaviour to state.
- `main()` (`server.go:245-308`): signal handling, goroutines, shutdown and the profiling listener are concurrency and lifecycle concerns.
- Route matching on `API_URL`: the model is the handler that the route invokes.
- `s3client/s3client.go`, the minio-go wrapper: each store is an oracle from (key, `If-None-Match` option) to a get/stat outcome. The per-request timeout context is left out; an expired timeout shows up only as the failed get or stat it causes.
- OCSP internals: `ocsp.CreateRequest`, SHA-1 certificate-id hashing, DER encoding, `http.Post`, reading the body and `ocsp.ParseResponseForCert` with its signature check are foreign crypto and I/O. They are oracles in `OcspResponder`. Only the five fixed error bodies are spelled out as bytes.
- Streaming: `http.ServeContent` and `http.ServeFile` are library I/O. This covers Range requests, Content-Length, and the library's own conditional-request handling: RFC 7232 `If-None-Match` with `*`, tag lists and weak tags, and `If-Modified-Since` for files. That handling can still answer 304 after the handler's exact-match test has failed. When content is served, the model records what was handed over (`ObjectContent`, `FileContent`) and leaves the status to the library (`status == None`).
- Audit logging and all `log.Printf` calls: they are side effects and depend on timestamps. The audit lines also read the certificate's `Organization[0]`, which the model does not carry.
- The error-code texts: the config package is not part of this model. The codes are a closed datatype. `RSP00005` and `RSP00007` carry the arguments that the source formats into their text.
- `settings.UseCloudS3()`: its body is not part of this model, so its answer is a boolean settings field. Settings loading from the environment is out of scope; settings are an immutable record.
- Multi-valued request headers: request headers are a map from canonical key to the first value, which is what `r.Header.Get` returns; an absent header reads as the empty string. `CanonicalMIMEHeaderKey` is modelled by its token rule: a name holding any character outside the token characters is used as it is.
- The possible data race on the shared OCSP body reader (`validation/validation.go:63`): concurrency is not modelled.
- Server.HandleRequest: requires a Locality value on the leaf; the source panics on a leaf without one (`server.go:53`).
- Server.ServeFromStore: a failed get gives the intended 500 with `RSP00011`. The nil error dereference in the source's log call at `server.go:127` is not modelled.
