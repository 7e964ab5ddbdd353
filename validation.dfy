/**
 * Revocation checks for the client's leaf certificate (validation/validation.go):
 * membership in a CRL, and one OCSP round trip whose transport, body and parser are
 * oracles handed in by the caller.
 */
module Validation {
  import opened Wrappers
  import opened X509

  newtype byte = b: int | 0 <= b < 256

  // ---------------------------------------------------------------- CRL

  /** Some entry of the list carries the certificate's serial number. */
  predicate Listed(cert: Certificate, crl: RevocationList) {
    exists i :: 0 <= i < |crl.entries| && crl.entries[i].serialNumber == cert.serialNumber
  }

  /** The set of serial numbers a CRL revokes. */
  ghost function RevokedSerials(crl: RevocationList): set<int> {
    set i | 0 <= i < |crl.entries| :: crl.entries[i].serialNumber
  }

  /** `CertIsRevokedCRL`: a linear scan that stops at the first entry with a matching serial. */
  method CertIsRevokedCRL(cert: Certificate, crl: RevocationList) returns (revoked: bool)
    ensures revoked == Listed(cert, crl)
  {
    var i := 0;
    while i < |crl.entries|
      invariant 0 <= i <= |crl.entries|
      invariant forall k :: 0 <= k < i ==> crl.entries[k].serialNumber != cert.serialNumber
    {
      if crl.entries[i].serialNumber == cert.serialNumber {
        return true;
      }
      i := i + 1;
    }
    return false;
  }

  /** Being listed is membership in the set of revoked serials. */
  lemma ListedIffRevokedSerial(cert: Certificate, crl: RevocationList)
    ensures Listed(cert, crl) <==> cert.serialNumber in RevokedSerials(crl)
  {
  }

  /** The answer depends only on which entries the list holds, not on their order. */
  lemma {:induction false} ListedIgnoresOrder(cert: Certificate, a: RevocationList, b: RevocationList)
    requires multiset(a.entries) == multiset(b.entries)
    ensures Listed(cert, a) == Listed(cert, b)
  {
    if Listed(cert, a) {
      var i :| 0 <= i < |a.entries| && a.entries[i].serialNumber == cert.serialNumber;
      assert a.entries[i] in multiset(b.entries);
      var j :| 0 <= j < |b.entries| && b.entries[j] == a.entries[i];
    }
    if Listed(cert, b) {
      var j :| 0 <= j < |b.entries| && b.entries[j].serialNumber == cert.serialNumber;
      assert b.entries[j] in multiset(a.entries);
      var i :| 0 <= i < |a.entries| && a.entries[i] == b.entries[j];
    }
  }

  /** An empty list revokes nothing. */
  lemma EmptyListRevokesNothing(cert: Certificate)
    ensures !Listed(cert, RevocationList([]))
  {
  }

  // --------------------------------------------------------------- OCSP

  /** The certificate status an OCSP response carries (golang.org/x/crypto/ocsp). */
  datatype OcspStatus = Good | Revoked | Unknown | ServerFailed

  /** What `http.Post` to the responder produced: an error, or a status code and the body read. */
  datatype HttpOutcome =
    | PostFailed
    | HttpResponse(statusCode: int, body: Option<seq<byte>>)  // None: reading the body failed

  /**
   * The responder as seen from one check of one leaf against one issuer:
   * the result of `ocsp.CreateRequest` (None on error), the round trip for a request,
   * and `ocsp.ParseResponseForCert` on a body (its error as a message).
   */
  datatype OcspResponder = OcspResponder(
    createRequest: Option<seq<byte>>,
    post: seq<byte> -> HttpOutcome,
    parse: seq<byte> -> Result<OcspStatus, string>)

  /** Why `SendOCSPRequest` failed. */
  datatype OcspError =
    | TransportFailed
    | NotOk(statusCode: int)
    | BodyUnreadable
    | SignatureRequired
    | Unauthorized
    | TryLater
    | MalformedRequest
    | InternalError
    | ParserRejected(message: string)

  // The five unsuccessful OCSPResponse values of section 4.2.1 of RFC 6960, DER-encoded:
  // SEQUENCE (30 03) holding only responseStatus, ENUMERATED (0A 01) with the status.
  const MalformedRequestResponse: seq<byte> := [0x30, 0x03, 0x0A, 0x01, 0x01]
  const InternalErrorResponse: seq<byte> := [0x30, 0x03, 0x0A, 0x01, 0x02]
  const TryLaterResponse: seq<byte> := [0x30, 0x03, 0x0A, 0x01, 0x03]
  const SigRequiredResponse: seq<byte> := [0x30, 0x03, 0x0A, 0x01, 0x05]
  const UnauthorizedResponse: seq<byte> := [0x30, 0x03, 0x0A, 0x01, 0x06]

  /** The body is byte-equal to one of the five unsuccessful responses. */
  predicate IsErrorResponse(body: seq<byte>) {
    body == SigRequiredResponse || body == UnauthorizedResponse || body == TryLaterResponse
    || body == MalformedRequestResponse || body == InternalErrorResponse
  }

  /**
   * The classification `SendOCSPRequest` applies to the round trip: a transport error or
   * a status other than 200 fails before the body is looked at; an unreadable body fails;
   * a body equal to one of the five unsuccessful responses fails without the parser;
   * any other body goes to the parser, whose answer is returned as it is.
   */
  function SendOCSPRequest(outcome: HttpOutcome, parse: seq<byte> -> Result<OcspStatus, string>)
    : (r: Result<OcspStatus, OcspError>)
    ensures r.Failure? && r.error.ParserRejected? <==>
      (outcome.HttpResponse? && outcome.statusCode == 200 && outcome.body.Some?
       && !IsErrorResponse(outcome.body.value) && parse(outcome.body.value).Failure?)
  {
    match outcome
    case PostFailed => Failure(TransportFailed)
    case HttpResponse(code, body) =>
      if code != 200 then Failure(NotOk(code))
      else if body.None? then Failure(BodyUnreadable)
      else
        var b := body.value;
        if b == SigRequiredResponse then Failure(SignatureRequired)
        else if b == UnauthorizedResponse then Failure(Unauthorized)
        else if b == TryLaterResponse then Failure(TryLater)
        else if b == MalformedRequestResponse then Failure(MalformedRequest)
        else if b == InternalErrorResponse then Failure(InternalError)
        else
          match parse(b)
          case Success(status) => Success(status)
          case Failure(message) => Failure(ParserRejected(message))
  }

  /** `CertIsRevokedOCSP`'s named results. */
  datatype OcspAnswer = OcspAnswer(revoked: bool, ok: bool)

  /**
   * The verdict `CertIsRevokedOCSP` reaches: both results stay false unless a request was
   * built and a verified response came back; then `ok` holds, and `revoked` holds when the
   * status is not Good.
   */
  function OcspVerdict(responder: OcspResponder): (answer: OcspAnswer)
  {
    match responder.createRequest
    case None => OcspAnswer(false, false)
    case Some(request) =>
      match SendOCSPRequest(responder.post(request), responder.parse)
      case Failure(_) => OcspAnswer(false, false)
      case Success(status) => OcspAnswer(status != Good, true)
  }

  /**
   * `CertIsRevokedOCSP`: the named results start at their zero values; an error while
   * building or sending the request returns them as they are; otherwise `ok` is set, and
   * `revoked` is set when the verified status is not Good.
   */
  method CertIsRevokedOCSP(responder: OcspResponder) returns (revoked: bool, ok: bool)
    ensures ok <==> (responder.createRequest.Some?
                     && SendOCSPRequest(responder.post(responder.createRequest.value), responder.parse).Success?)
    ensures revoked <==> (ok && SendOCSPRequest(responder.post(responder.createRequest.value), responder.parse).value != Good)
    ensures OcspAnswer(revoked, ok) == OcspVerdict(responder)
  {
    revoked, ok := false, false;
    if responder.createRequest.None? {
      return;
    }
    var resp := SendOCSPRequest(responder.post(responder.createRequest.value), responder.parse);
    if resp.Failure? {
      return;
    }
    ok := true;
    if resp.value != Good {
      revoked := true;
    }
  }

  /** Success only for a 200 response whose readable body is not an error response and parses. */
  lemma SendSucceedsOnlyWhenParsed(outcome: HttpOutcome, parse: seq<byte> -> Result<OcspStatus, string>)
    ensures SendOCSPRequest(outcome, parse).Success? ==>
      (outcome.HttpResponse? && outcome.statusCode == 200
       && outcome.body.Some? && !IsErrorResponse(outcome.body.value)
       && parse(outcome.body.value) == Success(SendOCSPRequest(outcome, parse).value))
  {
  }

  /**
   * The meaning of the two results: `ok` exactly when a request was built and a verified
   * response came back; `revoked` exactly when, on top of that, the status is not Good.
   * So `revoked` implies `ok`.
   */
  lemma OcspAnswerMeaning(responder: OcspResponder)
    ensures OcspVerdict(responder).revoked ==> OcspVerdict(responder).ok
    ensures OcspVerdict(responder).ok <==>
      (responder.createRequest.Some?
       && SendOCSPRequest(responder.post(responder.createRequest.value), responder.parse).Success?)
    ensures OcspVerdict(responder).revoked <==>
      (OcspVerdict(responder).ok
       && SendOCSPRequest(responder.post(responder.createRequest.value), responder.parse).value != Good)
  {
  }

  /** A status code other than 200 fails whatever the body and the parser. */
  lemma NotOkIgnoresBody(code: int, body: Option<seq<byte>>,
                         p: seq<byte> -> Result<OcspStatus, string>)
    requires code != 200
    ensures SendOCSPRequest(HttpResponse(code, body), p) == Failure(NotOk(code))
  {
  }

  /** An unsuccessful-response body fails without consulting the parser:
      any two parsers give the same failure. */
  lemma ErrorResponseSkipsParser(body: seq<byte>,
                                 p: seq<byte> -> Result<OcspStatus, string>,
                                 q: seq<byte> -> Result<OcspStatus, string>)
    requires IsErrorResponse(body)
    ensures SendOCSPRequest(HttpResponse(200, Some(body)), p).Failure?
    ensures SendOCSPRequest(HttpResponse(200, Some(body)), p)
         == SendOCSPRequest(HttpResponse(200, Some(body)), q)
  {
  }

  /** Any other body is decided by the parser alone, success and failure alike. */
  lemma OtherBodyPassesThrough(body: seq<byte>, p: seq<byte> -> Result<OcspStatus, string>)
    requires !IsErrorResponse(body)
    ensures p(body).Success? ==> SendOCSPRequest(HttpResponse(200, Some(body)), p) == Success(p(body).value)
    ensures p(body).Failure? ==> SendOCSPRequest(HttpResponse(200, Some(body)), p) == Failure(ParserRejected(p(body).error))
  {
  }

  /** A failure to build the request leaves both results at their zero values. */
  lemma NoRequestNoAnswer(responder: OcspResponder)
    requires responder.createRequest.None?
    ensures OcspVerdict(responder) == OcspAnswer(false, false)
  {
  }

  /** Whatever the responder's error body says, the check is indeterminate, never "revoked". */
  lemma ErrorResponseIsIndeterminate(responder: OcspResponder)
    requires responder.createRequest.Some?
    requires responder.post(responder.createRequest.value).HttpResponse?
    requires responder.post(responder.createRequest.value).body.Some?
    requires IsErrorResponse(responder.post(responder.createRequest.value).body.value)
    ensures OcspVerdict(responder) == OcspAnswer(false, false)
  {
  }
}
