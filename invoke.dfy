/** `Client::call_action` and `Client::chat_completions` of src/client.rs:
    the signed request (one timestamp for headers and signature, canonical
    headers that agree with the sent headers, the Authorization value), the
    masked Authorization log, and the mapping of a response's status and
    body to a result. Serialisation, transport and JSON decoding are
    parameters. */
module Invoke {
  import opened Wrappers
  import opened Bytes
  import opened Crypto
  import opened Decimal
  import opened Calendar
  import opened Tc3
  import opened Headers
  import opened Diagnostics
  import Config

  const PostMethod: string := "POST"
  const CanonicalUri: string := "/"
  const CanonicalQuery: string := ""
  const SignedHeaderNames: string := "content-type;host"
  /** The SignedHeaders field of the Authorization value, with its separators. */
  const SignedHeadersField: string := ", SignedHeaders=" + SignedHeaderNames + ", "
  const ChatCompletionsAction: string := "ChatCompletions"

  /** A transport failure of the HTTP client (sending, or reading the body). */
  datatype HttpError = HttpError(reason: string)
  /** A JSON encoding or decoding failure. */
  datatype SerdeError = SerdeError(reason: string)

  /** `SdkError`. */
  datatype SdkError =
    | Http(httpError: HttpError)
    | Serde(serdeError: SerdeError)
    | Service(code: string, message: string, requestId: Option<string>)

  /** `ErrorContent` and `TencentCloudErrorResponse` of src/models.rs. */
  datatype ErrorContent = ErrorContent(code: string, message: string)
  datatype ErrorResponse = ErrorResponse(requestId: Option<string>, error: Option<ErrorContent>)

  /** The status codes an HTTP response can carry. */
  type StatusCode = s: int | 100 <= s <= 999 witness 200

  /** `StatusCode::is_success`. */
  predicate IsSuccess(status: StatusCode) {
    200 <= status <= 299
  }

  /** The canonical-headers block: the content type and the host, each
      name lower-case and each line ended by a newline. */
  function CanonicalHeaders(endpoint: string): (r: string)
    ensures |r| == |endpoint| + 51 && r[50..|r| - 1] == endpoint && r[|r| - 1] == '\n'
  {
    "content-type:" + "application/json; charset=utf-8" + "\nhost:" + endpoint + "\n"
  }

  /** The canonical request of a JSON body POSTed to "/" with no query. */
  function RequestParts(c: Crypto, endpoint: string, body: string): CanonicalParts {
    CanonicalParts(PostMethod, CanonicalUri, CanonicalQuery, CanonicalHeaders(endpoint), SignedHeaderNames, Sha256Hex(c, body))
  }

  /** The text of the Authorization header before the signature. */
  function AuthorizationPrefix(secretId: string, scope: string): string {
    "TC3-HMAC-SHA256 Credential=" + secretId + "/" + scope + SignedHeadersField
  }

  /** The Authorization value: the secret id and the signature sit at fixed
      distances from its two ends. */
  function AuthorizationValue(secretId: string, scope: string, signature: string): (r: string)
    ensures |r| == |secretId| + |scope| + |signature| + 73
    ensures r[27..27 + |secretId|] == secretId && r[|r| - |signature|..] == signature
  {
    AuthorizationPrefix(secretId, scope) + "Signature=" + signature
  }

  /** The Authorization value spelled out: the credential (secret id and
      scope), the signed header names and the signature. */
  lemma AuthorizationLayout(secretId: string, scope: string, signature: string)
    ensures AuthorizationValue(secretId, scope, signature) ==
      "TC3-HMAC-SHA256 Credential=" + secretId + "/" + scope + ", SignedHeaders=content-type;host, Signature=" + signature
  {
    SignedHeadersFieldLiteral();
  }

  /** What the HTTP client is handed: URL, headers and body. */
  datatype HttpRequest = HttpRequest(httpMethod: string, url: string, headers: map<string, string>, body: string)

  /** The request `call_action` sends for a JSON body at timestamp `ts`. */
  function SignedRequest(client: Config.Client, c: Crypto, action: string, body: string, ts: int): (r: HttpRequest)
    requires InDateRange(ts)
    ensures r.httpMethod == RequestParts(c, client.endpoint, body).httpMethod
    ensures r.url == "https://" + client.endpoint + "/" && r.body == body
    ensures forall name :: name in RequestHeaders(client, action, ts) ==>
      name in r.headers && r.headers[name] == RequestHeaders(client, action, ts)[name]
    ensures r.headers.Keys == RequestHeaders(client, action, ts).Keys + {"authorization"}
  {
    var signed := SignParts(c, client.credential.secretKey, RequestParts(c, client.endpoint, body), ts);
    var authorization := AuthorizationValue(client.credential.secretId, signed.1, signed.0);
    HttpRequest(PostMethod, "https://" + client.endpoint + "/", RequestHeaders(client, action, ts)["authorization" := authorization], body)
  }

  lemma ValidConcat(a: string, b: string)
    requires ValidHeaderValue(a) && ValidHeaderValue(b)
    ensures ValidHeaderValue(a + b)
  {
    var s := a + b;
    forall i | 0 <= i < |s|
      ensures s[i] == '\t' || (' ' <= s[i] && s[i] as int != 127)
    {
      if i >= |a| {
        assert s[i] == b[i - |a|];
      }
    }
  }

  lemma VisibleConcat(a: string, b: string)
    requires IsVisibleAscii(a) && IsVisibleAscii(b)
    ensures IsVisibleAscii(a + b)
  {
    var s := a + b;
    forall i | 0 <= i < |s|
      ensures s[i] == '\t' || (32 <= s[i] as int < 127)
    {
      if i >= |a| {
        assert s[i] == b[i - |a|];
      }
    }
  }

  lemma SignedHeadersFieldLiteral()
    ensures SignedHeadersField == ", SignedHeaders=content-type;host, "
  {
  }

  /** The literal pieces of the Authorization value are visible ASCII. */
  lemma CredentialLiteralsVisible()
    ensures IsVisibleAscii("TC3-HMAC-SHA256 Credential=")
    ensures IsVisibleAscii("/")
  {
  }

  lemma SignatureLiteralsVisible()
    ensures IsVisibleAscii(", SignedHeaders=content-type;host, ")
    ensures IsVisibleAscii("Signature=")
  {
  }

  lemma VisibleIsValid(s: string)
    requires IsVisibleAscii(s)
    ensures ValidHeaderValue(s)
  {
  }

  lemma HexIsVisible(s: string)
    requires forall i :: 0 <= i < |s| ==> IsLowerHex(s[i])
    ensures IsVisibleAscii(s)
  {
  }

  /** Everything in the Authorization value after the secret id is
      visible ASCII. */
  lemma AuthorizationTailVisible(scope: string, signature: string)
    requires IsVisibleAscii(scope)
    requires forall i :: 0 <= i < |signature| ==> IsLowerHex(signature[i])
    ensures IsVisibleAscii("/" + scope + ", SignedHeaders=content-type;host, " + "Signature=" + signature)
  {
    CredentialLiteralsVisible();
    SignatureLiteralsVisible();
    HexIsVisible(signature);
    VisibleConcat("/", scope);
    VisibleConcat("/" + scope, ", SignedHeaders=content-type;host, ");
    VisibleConcat("/" + scope + ", SignedHeaders=content-type;host, ", "Signature=");
    VisibleConcat("/" + scope + ", SignedHeaders=content-type;host, " + "Signature=", signature);
  }

  /** With a scope of visible ASCII (as every credential scope is) and a hex
      signature, the Authorization value is a valid header value whenever
      the secret id is, and visible ASCII whenever the secret id is. */
  lemma AuthorizationChars(secretId: string, scope: string, signature: string)
    requires IsVisibleAscii(scope)
    requires forall i :: 0 <= i < |signature| ==> IsLowerHex(signature[i])
    ensures ValidHeaderValue(secretId) ==> ValidHeaderValue(AuthorizationValue(secretId, scope, signature))
    ensures IsVisibleAscii(secretId) ==> IsVisibleAscii(AuthorizationValue(secretId, scope, signature))
  {
    var a := "TC3-HMAC-SHA256 Credential=";
    var b := "/" + scope + ", SignedHeaders=content-type;host, " + "Signature=" + signature;
    AuthorizationTailVisible(scope, signature);
    CredentialLiteralsVisible();
    SignatureLiteralsVisible();
    SignedHeadersFieldLiteral();
    assert AuthorizationValue(secretId, scope, signature) == a + secretId + b;
    if ValidHeaderValue(secretId) {
      VisibleIsValid(a);
      VisibleIsValid(b);
      ValidConcat(a, secretId);
      ValidConcat(a + secretId, b);
    }
    if IsVisibleAscii(secretId) {
      VisibleConcat(a, secretId);
      VisibleConcat(a + secretId, b);
    }
  }

  lemma ScopeVisible(ts: int)
    requires InDateRange(ts)
    ensures IsVisibleAscii(CredentialScope(DateStamp(ts)))
  {
    ScopeChars(ts);
  }

  /** The first part of the signing step, as `call_action` sees it. */
  lemma SignedScope(c: Crypto, secretKey: string, p: CanonicalParts, ts: int)
    requires InDateRange(ts)
    ensures SignParts(c, secretKey, p, ts).1 == CredentialScope(DateStamp(ts))
    ensures forall i :: 0 <= i < |SignParts(c, secretKey, p, ts).0| ==> IsLowerHex(SignParts(c, secretKey, p, ts).0[i])
  {
    SignatureSteps(c, secretKey, p, ts);
  }

  /** The request-building half of `call_action`: headers from
      `build_headers`, the canonical headers, the payload hash, `tc3_sign`
      at the same timestamp, and the Authorization header added last. */
  method PrepareRequest(client: Config.Client, c: Crypto, action: string, body: string, ts: int) returns (req: HttpRequest)
    requires HeaderInputsValid(client, action) && ValidHeaderValue(client.credential.secretId) && InDateRange(ts)
    ensures req == SignedRequest(client, c, action, body, ts)
  {
    var headers := BuildHeaders(client, action, body, ts);
    var canonicalHeaders := CanonicalHeaders(client.endpoint);
    var hashedPayload := Sha256Hex(c, body);
    var signed := Tc3Sign(c, client.credential.secretKey, PostMethod, CanonicalUri, CanonicalQuery,
                          canonicalHeaders, SignedHeaderNames, hashedPayload, ts);
    var signature, scope := signed.0, signed.1;
    SignedScope(c, client.credential.secretKey, RequestParts(c, client.endpoint, body), ts);
    ScopeVisible(ts);
    AuthorizationChars(client.credential.secretId, scope, signature);
    var authorization := AuthorizationValue(client.credential.secretId, scope, signature);
    headers.Insert("Authorization", authorization);
    TokenAndAuthorizationNames();
    req := HttpRequest(PostMethod, "https://" + client.endpoint + "/", headers.entries, body);
  }

  /** The sent headers are the `build_headers` set with Authorization added. */
  lemma SentHeaders(client: Config.Client, c: Crypto, action: string, body: string, ts: int)
    requires InDateRange(ts)
    ensures var signed := SignParts(c, client.credential.secretKey, RequestParts(c, client.endpoint, body), ts);
      SignedRequest(client, c, action, body, ts).headers ==
        RequestHeaders(client, action, ts)["authorization" := AuthorizationValue(client.credential.secretId, signed.1, signed.0)]
  {
  }

  /** The canonical headers that are signed list exactly the Content-Type
      and Host values that are sent, and the signed header names are the
      normalised names of those two sent headers. */
  lemma CanonicalHeadersAgree(client: Config.Client, c: Crypto, action: string, body: string, ts: int)
    requires InDateRange(ts)
    ensures var h := SignedRequest(client, c, action, body, ts).headers;
      var parts := RequestParts(c, client.endpoint, body);
      && Lookup(h, "Content-Type").Some? && Lookup(h, "Host").Some?
      && parts.canonicalHeaders ==
         "content-type:" + Lookup(h, "Content-Type").value + "\nhost:" + Lookup(h, "Host").value + "\n"
      && parts.signedHeaders == ToLowerAscii("Content-Type") + ";" + ToLowerAscii("Host")
  {
    SentTypeAndHost(client, c, action, body, ts);
    SignedNamesNormalised();
  }

  /** "content-type;host" lists the normalised names of Content-Type and Host. */
  lemma SignedNamesNormalised()
    ensures SignedHeaderNames == ToLowerAscii("Content-Type") + ";" + ToLowerAscii("Host")
  {
    HostAndTypeNames();
  }

  lemma SentTypeAndHost(client: Config.Client, c: Crypto, action: string, body: string, ts: int)
    requires InDateRange(ts)
    ensures var h := SignedRequest(client, c, action, body, ts).headers;
      Lookup(h, "Content-Type") == Some(ContentTypeJson) && Lookup(h, "Host") == Some(client.endpoint)
  {
    var signed := SignParts(c, client.credential.secretKey, RequestParts(c, client.endpoint, body), ts);
    var auth := AuthorizationValue(client.credential.secretId, signed.1, signed.0);
    var m := RequestHeaders(client, action, ts);
    SentHeaders(client, c, action, body, ts);
    RequestHeadersContents(client, action, ts);
    HostAndTypeNames();
    TokenAndAuthorizationNames();
    LookupAfterInsert(m, "Authorization", auth, "Content-Type");
    LookupAfterInsert(m, "Authorization", auth, "Host");
  }

  /** One timestamp serves the whole request: the X-TC-Timestamp header
      reads back as `ts`, and the Authorization header carries the scope of
      the UTC date of that same `ts` and the signature computed at `ts`. */
  lemma OneTimestamp(client: Config.Client, c: Crypto, action: string, body: string, ts: int)
    requires InDateRange(ts)
    ensures var h := SignedRequest(client, c, action, body, ts).headers;
      var scope := CredentialScope(DateStamp(ts));
      && Lookup(h, "X-TC-Timestamp").Some?
      && ParseInt(Lookup(h, "X-TC-Timestamp").value) == Some(ts)
      && Lookup(h, "Authorization") == Some(AuthorizationValue(client.credential.secretId, scope,
           SignParts(c, client.credential.secretKey, RequestParts(c, client.endpoint, body), ts).0))
      && ParseDate(scope[..10]) == Some(UtcDate(ts))
  {
    RequestHeadersContents(client, action, ts);
    RegionAndTimestampNames();
    TokenAndAuthorizationNames();
    SignedScope(c, client.credential.secretKey, RequestParts(c, client.endpoint, body), ts);
    DateScopeFormat(ts);
  }

  /** The sent headers are those of `build_headers` plus Authorization:
      X-TC-Token is sent exactly when the credential has a token. */
  lemma SentHeaderNames(client: Config.Client, c: Crypto, action: string, body: string, ts: int)
    requires InDateRange(ts)
    ensures var h := SignedRequest(client, c, action, body, ts).headers;
      && Lookup(h, "X-TC-Token") == client.credential.token
      && h.Keys == {"host", "content-type", "x-tc-action", "x-tc-version", "x-tc-region", "x-tc-timestamp", "authorization"}
                   + (if client.credential.token.Some? then {"x-tc-token"} else {})
  {
    RequestHeadersContents(client, action, ts);
    TokenAndAuthorizationNames();
  }

  lemma CanonicalHeadersInjective(e1: string, e2: string)
    requires CanonicalHeaders(e1) == CanonicalHeaders(e2)
    ensures e1 == e2
  {
    assert |e1| == |e2|;
  }

  /** The canonical request `call_action` signs: a POST to "/" with no
      query, the two canonical header lines, the signed names
      "content-type;host" and the SHA-256 hex of the body. */
  lemma SignedCanonicalRequest(c: Crypto, endpoint: string, body: string)
    ensures CanonicalRequest(RequestParts(c, endpoint, body)) ==
      "POST\n/\n\n" + "content-type:application/json; charset=utf-8\nhost:" + endpoint + "\n\ncontent-type;host\n" + Sha256Hex(c, body)
  {
    var h := Sha256Hex(c, body);
    RequestLineLiteral();
    HeaderLinesLiteral();
    SignedNamesLineLiteral();
    assert CanonicalRequest(RequestParts(c, endpoint, body)) ==
      (PostMethod + "\n" + CanonicalUri + "\n" + CanonicalQuery + "\n")
      + ("content-type:" + "application/json; charset=utf-8" + "\nhost:") + endpoint
      + ("\n" + "\n" + SignedHeaderNames + "\n") + h;
  }

  lemma RequestLineLiteral()
    ensures PostMethod + "\n" + CanonicalUri + "\n" + CanonicalQuery + "\n" == "POST\n/\n\n"
  {
  }

  lemma HeaderLinesLiteral()
    ensures "content-type:" + "application/json; charset=utf-8" + "\nhost:" == "content-type:application/json; charset=utf-8\nhost:"
  {
  }

  lemma SignedNamesLineLiteral()
    ensures "\n" + "\n" + SignedHeaderNames + "\n" == "\n\ncontent-type;host\n"
  {
  }

  lemma RequestPartsSingleLine(c: Crypto, endpoint: string, body: string)
    ensures SingleLineParts(RequestParts(c, endpoint, body))
  {
    HexHasNoNewline(Sha256Hex(c, body));
  }

  /** Under collision-free primitives, the signature of a request pins down
      the endpoint it is addressed to, the body it carries and the
      timestamp it was made at. */
  lemma SignatureBindsEndpointBodyAndTime(c: Crypto, key1: string, endpoint1: string, body1: string, ts1: int,
                                          key2: string, endpoint2: string, body2: string, ts2: int)
    requires CollisionFree(c)
    requires InDateRange(ts1) && InDateRange(ts2)
    requires SignParts(c, key1, RequestParts(c, endpoint1, body1), ts1).0 == SignParts(c, key2, RequestParts(c, endpoint2, body2), ts2).0
    ensures endpoint1 == endpoint2 && body1 == body2 && ts1 == ts2
  {
    RequestPartsSingleLine(c, endpoint1, body1);
    RequestPartsSingleLine(c, endpoint2, body2);
    SignatureBindsRequest(c, key1, RequestParts(c, endpoint1, body1), ts1, key2, RequestParts(c, endpoint2, body2), ts2);
    CanonicalHeadersInjective(endpoint1, endpoint2);
    Sha256HexInjective(c, body1, body2);
  }

  lemma NoMarkerExtend(a: string, b: string)
    requires NoMarkerIn(a)
    requires forall i :: 0 <= i < |b| ==> b[i] != '='
    ensures NoMarkerIn(a + b)
  {
    var s := a + b;
    forall j | 9 <= j < |s|
      ensures s[j] == '=' ==> s[j - 9..j + 1] != SignatureMarker
    {
      if j >= |a| {
        assert s[j] == b[j - |a|];
      } else {
        assert s[j] == a[j];
        assert s[j - 9..j + 1] == a[j - 9..j + 1];
      }
    }
  }

  lemma NoMarkerBeforeCredential()
    ensures NoMarkerIn("TC3-HMAC-SHA256 Credential=")
  {
    var a := "TC3-HMAC-SHA256 Credential=";
    forall j | 9 <= j < |a|
      ensures a[j] == '=' ==> a[j - 9..j + 1] != SignatureMarker
    {
      if j == 26 {
        assert a[j - 9..j + 1][0] == 'r';
      }
    }
  }

  lemma SignedHeadersFieldChars()
    ensures var b := ", SignedHeaders=content-type;host, ";
      && |b| == 35 && b[6] == 'e'
      && forall k :: 0 <= k < |b| && k != 15 ==> b[k] != '='
  {
  }

  lemma NoMarkerAfterScope(a: string)
    requires NoMarkerIn(a)
    ensures NoMarkerIn(a + ", SignedHeaders=content-type;host, ")
  {
    var b := ", SignedHeaders=content-type;host, ";
    SignedHeadersFieldChars();
    var s := a + b;
    forall j | 9 <= j < |s|
      ensures s[j] == '=' ==> s[j - 9..j + 1] != SignatureMarker
    {
      if j - |a| == 15 {
        assert s[j - 9] == b[6];
        assert s[j - 9..j + 1][0] != SignatureMarker[0];
      } else if j >= |a| {
        assert s[j] == b[j - |a|];
      } else {
        assert s[j] == a[j];
        assert s[j - 9..j + 1] == a[j - 9..j + 1];
      }
    }
  }

  /** With a secret id of visible ASCII and no '=', the debug log shows the
      Authorization header with only the signature masked: the credential,
      scope and signed headers appear as sent, and a 64-digit signature is
      cut to 19 characters. */
  lemma AuthorizationLogMasksSignature(client: Config.Client, c: Crypto, action: string, body: string, ts: int)
    requires InDateRange(ts)
    requires IsVisibleAscii(client.credential.secretId)
    requires forall i :: 0 <= i < |client.credential.secretId| ==> client.credential.secretId[i] != '='
    ensures var signature := SignParts(c, client.credential.secretKey, RequestParts(c, client.endpoint, body), ts).0;
      var prefix := AuthorizationPrefix(client.credential.secretId, CredentialScope(DateStamp(ts)));
      && IsAscii(signature)
      && AuthorizationForLog(SignedRequest(client, c, action, body, ts).headers) == prefix + "Signature=" + Mask(signature)
      && (DigestSized(c) ==> |Mask(signature)| == 19 && Mask(signature) != signature)
  {
    var secretId := client.credential.secretId;
    var scope := CredentialScope(DateStamp(ts));
    var p := RequestParts(c, client.endpoint, body);
    var signature := SignParts(c, client.credential.secretKey, p, ts).0;
    SignedScope(c, client.credential.secretKey, p, ts);
    ScopeChars(ts);
    ScopeVisible(ts);
    AuthorizationChars(secretId, scope, signature);
    var auth := AuthorizationValue(secretId, scope, signature);
    var h := SignedRequest(client, c, action, body, ts).headers;
    TokenAndAuthorizationNames();
    assert Lookup(h, "Authorization") == Some(auth);
    NoMarkerBeforeCredential();
    NoMarkerExtend("TC3-HMAC-SHA256 Credential=", secretId);
    NoMarkerExtend("TC3-HMAC-SHA256 Credential=" + secretId, "/");
    NoMarkerExtend("TC3-HMAC-SHA256 Credential=" + secretId + "/", scope);
    NoMarkerAfterScope("TC3-HMAC-SHA256 Credential=" + secretId + "/" + scope);
    SignedHeadersFieldLiteral();
    var prefix := AuthorizationPrefix(secretId, scope);
    FirstMarkerAfter(prefix, signature);
    HexIsVisible(signature);
    VisibleIsAscii(signature);
    if DigestSized(c) {
      SignatureLength(c, client.credential.secretKey, p, ts);
      MaskedSignature(signature);
    }
  }

  /** The status and body of a response mapped to the call's result: a 2xx
      body is decoded into the response type; any other status is a
      `Service` error, taken from the error envelope when the body parses
      as one whose `Error` is present, and otherwise coded "HTTP_<status>"
      with the raw body as message and no request id. */
  function MapResponse<T>(status: StatusCode, text: string,
                          parseError: string -> Option<ErrorResponse>,
                          decodeBody: string -> Result<T, SerdeError>): (r: Result<T, SdkError>)
    ensures !IsSuccess(status) ==> r.Failure? && r.error.Service?
    ensures IsSuccess(status) ==> (r.Success? <==> decodeBody(text).Success?)
    ensures IsSuccess(status) && r.Success? ==> r.value == decodeBody(text).value
    ensures IsSuccess(status) && r.Failure? ==> r.error == Serde(decodeBody(text).error)
    ensures r.Failure? ==> !r.error.Http?
  {
    if !IsSuccess(status) then
      var envelope := parseError(text);
      if envelope.Some? && envelope.value.error.Some? then
        Failure(Service(envelope.value.error.value.code, envelope.value.error.value.message, envelope.value.requestId))
      else
        Failure(Service("HTTP_" + NatToString(status), text, None))
    else
      match decodeBody(text)
      case Success(v) => Success(v)
      case Failure(e) => Failure(Serde(e))
  }

  /** A non-2xx response whose body is an error envelope with its `Error`
      present reports that code, message and request id. */
  lemma EnvelopeErrorReported<T>(status: StatusCode, text: string,
                                 parseError: string -> Option<ErrorResponse>,
                                 decodeBody: string -> Result<T, SerdeError>)
    requires !IsSuccess(status)
    requires parseError(text).Some? && parseError(text).value.error.Some?
    ensures var e := parseError(text).value;
      MapResponse(status, text, parseError, decodeBody) == Failure(Service(e.error.value.code, e.error.value.message, e.requestId))
  {
  }

  /** Any other non-2xx response reports "HTTP_" followed by the status,
      which reads back as the status, with the raw body as message. */
  lemma FallbackErrorCarriesStatus<T>(status: StatusCode, text: string,
                                      parseError: string -> Option<ErrorResponse>,
                                      decodeBody: string -> Result<T, SerdeError>)
    requires !IsSuccess(status)
    requires parseError(text).None? || parseError(text).value.error.None?
    ensures var r := MapResponse(status, text, parseError, decodeBody);
      && r.Failure? && r.error.Service?
      && |r.error.code| > 5 && r.error.code[..5] == "HTTP_"
      && AllDigits(r.error.code[5..]) && ParseNat(r.error.code[5..]) == status
      && r.error.message == text && r.error.requestId == None
  {
    var code := "HTTP_" + NatToString(status);
    assert code[5..] == NatToString(status);
    ParseNatToString(status);
  }

  /** Two non-2xx responses reported through the fallback path with the same
      code had the same status. */
  lemma FallbackCodeDistinguishesStatus<T>(s1: StatusCode, s2: StatusCode, text: string,
                                          parseError: string -> Option<ErrorResponse>,
                                          decodeBody: string -> Result<T, SerdeError>)
    requires !IsSuccess(s1) && !IsSuccess(s2)
    requires parseError(text).None? || parseError(text).value.error.None?
    requires MapResponse(s1, text, parseError, decodeBody) == MapResponse(s2, text, parseError, decodeBody)
    ensures s1 == s2
  {
    FallbackErrorCarriesStatus(s1, text, parseError, decodeBody);
    FallbackErrorCarriesStatus(s2, text, parseError, decodeBody);
  }

  /** `call_action`: serialise the request, sign and send it at the one
      timestamp `now`, and map the response. A serialisation failure is a
      `Serde` error before anything is sent; a transport failure is an
      `Http` error; otherwise the response is mapped as above. */
  method CallAction<Req, Resp>(client: Config.Client, c: Crypto, action: string, req: Req, now: int,
                               encode: Req -> Result<string, SerdeError>,
                               send: HttpRequest -> Result<(StatusCode, string), HttpError>,
                               parseError: string -> Option<ErrorResponse>,
                               decodeBody: string -> Result<Resp, SerdeError>)
    returns (r: Result<Resp, SdkError>)
    requires HeaderInputsValid(client, action) && ValidHeaderValue(client.credential.secretId) && InDateRange(now)
    ensures encode(req).Failure? ==> r == Failure(Serde(encode(req).error))
    ensures encode(req).Success? ==>
      var sent := SignedRequest(client, c, action, encode(req).value, now);
      && (send(sent).Failure? ==> r == Failure(Http(send(sent).error)))
      && (send(sent).Success? ==> r == MapResponse(send(sent).value.0, send(sent).value.1, parseError, decodeBody))
  {
    var encoded := encode(req);
    if encoded.Failure? {
      return Failure(Serde(encoded.error));
    }
    var body := encoded.value;
    var request := PrepareRequest(client, c, action, body, now);
    var response := send(request);
    if response.Failure? {
      return Failure(Http(response.error));
    }
    var status, text := response.value.0, response.value.1;
    r := MapResponse(status, text, parseError, decodeBody);
  }

  /** `chat_completions`: `call_action` with the "ChatCompletions" action. */
  method ChatCompletions<Req, Resp>(client: Config.Client, c: Crypto, req: Req, now: int,
                                    encode: Req -> Result<string, SerdeError>,
                                    send: HttpRequest -> Result<(StatusCode, string), HttpError>,
                                    parseError: string -> Option<ErrorResponse>,
                                    decodeBody: string -> Result<Resp, SerdeError>)
    returns (r: Result<Resp, SdkError>)
    requires HeaderInputsValid(client, ChatCompletionsAction) && ValidHeaderValue(client.credential.secretId) && InDateRange(now)
    ensures encode(req).Success? ==>
      var sent := SignedRequest(client, c, "ChatCompletions", encode(req).value, now);
      && Lookup(sent.headers, "X-TC-Action") == Some("ChatCompletions")
      && (send(sent).Failure? ==> r == Failure(Http(send(sent).error)))
      && (send(sent).Success? ==> r == MapResponse(send(sent).value.0, send(sent).value.1, parseError, decodeBody))
    ensures encode(req).Failure? ==> r == Failure(Serde(encode(req).error))
  {
    r := CallAction(client, c, ChatCompletionsAction, req, now, encode, send, parseError, decodeBody);
    if encode(req).Success? {
      RequestHeadersContents(client, ChatCompletionsAction, now);
      ActionAndVersionNames();
    }
  }
}
