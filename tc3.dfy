/** The TC3-HMAC-SHA256 signing engine of `Client::tc3_sign`
    (src/client.rs): canonical request, credential scope, string to sign and
    the four-step HMAC key derivation. */
module Tc3 {
  import opened Wrappers
  import opened Bytes
  import opened Crypto
  import opened Decimal
  import opened Calendar
  import opened Text
  import Config

  const Algorithm: string := "TC3-HMAC-SHA256"
  const RequestType: string := "tc3_request"

  /** The six inputs of a canonical request. */
  datatype CanonicalParts = CanonicalParts(
    httpMethod: string, uri: string, query: string,
    canonicalHeaders: string, signedHeaders: string, hashedPayload: string)

  /** The parts joined by newlines, in order, with nothing added or removed. */
  function CanonicalRequest(p: CanonicalParts): (r: string)
    ensures |r| == |p.httpMethod| + |p.uri| + |p.query| + |p.canonicalHeaders| + |p.signedHeaders| + |p.hashedPayload| + 5
  {
    p.httpMethod + "\n" + p.uri + "\n" + p.query + "\n" + p.canonicalHeaders + "\n" + p.signedHeaders + "\n" + p.hashedPayload
  }

  /** Every part but the canonical headers (which end in a newline) is a single line. */
  predicate SingleLineParts(p: CanonicalParts) {
    NoNewline(p.httpMethod) && NoNewline(p.uri) && NoNewline(p.query) && NoNewline(p.signedHeaders) && NoNewline(p.hashedPayload)
  }

  /** The canonical request determines its parts: the first three lines give
      method, uri and query, the last two the signed headers and the payload
      hash, and what lies between is the canonical headers block. */
  lemma CanonicalRequestInjective(p1: CanonicalParts, p2: CanonicalParts)
    requires SingleLineParts(p1) && SingleLineParts(p2)
    requires CanonicalRequest(p1) == CanonicalRequest(p2)
    ensures p1 == p2
  {
    var tail1 := p1.canonicalHeaders + "\n" + p1.signedHeaders + "\n" + p1.hashedPayload;
    var tail2 := p2.canonicalHeaders + "\n" + p2.signedHeaders + "\n" + p2.hashedPayload;
    assert CanonicalRequest(p1) == p1.httpMethod + "\n" + (p1.uri + "\n" + (p1.query + "\n" + tail1));
    assert CanonicalRequest(p2) == p2.httpMethod + "\n" + (p2.uri + "\n" + (p2.query + "\n" + tail2));
    SplitFirstLine(p1.httpMethod, p1.uri + "\n" + (p1.query + "\n" + tail1), p2.httpMethod, p2.uri + "\n" + (p2.query + "\n" + tail2));
    SplitFirstLine(p1.uri, p1.query + "\n" + tail1, p2.uri, p2.query + "\n" + tail2);
    SplitFirstLine(p1.query, tail1, p2.query, tail2);
    SplitLastLine(p1.canonicalHeaders + "\n" + p1.signedHeaders, p1.hashedPayload, p2.canonicalHeaders + "\n" + p2.signedHeaders, p2.hashedPayload);
    SplitLastLine(p1.canonicalHeaders, p1.signedHeaders, p2.canonicalHeaders, p2.signedHeaders);
  }

  /** The `YYYY-MM-DD` UTC date of the timestamp. */
  function DateStamp(ts: int): (date: string)
    requires InDateRange(ts)
    ensures |date| == 10 && ParseDate(date) == Some(UtcDate(ts))
  {
    ParseFormatDate(UtcDate(ts));
    FormatDate(UtcDate(ts))
  }

  /** The date, then "/hunyuan/tc3_request". */
  function CredentialScope(date: string): (r: string)
    ensures |r| == |date| + 20 && r[..|date|] == date && r[|date|..] == "/hunyuan/tc3_request"
  {
    var tail := "/" + Config.Service + "/" + RequestType;
    assert tail == "/hunyuan/tc3_request";
    date + tail
  }

  /** Four lines: the algorithm, the timestamp, the scope and the hash of the
      canonical request, which is the last line. */
  function StringToSign(ts: int, scope: string, hashedCanonicalRequest: string): (r: string)
    ensures |r| == |IntToString(ts)| + |scope| + |hashedCanonicalRequest| + 18
    ensures r[..16] == "TC3-HMAC-SHA256\n" && r[|r| - |hashedCanonicalRequest|..] == hashedCanonicalRequest
  {
    Algorithm + "\n" + IntToString(ts) + "\n" + scope + "\n" + hashedCanonicalRequest
  }

  /** The derived signing key: the secret (prefixed with "TC3") keys a MAC of
      the date, whose result keys a MAC of the service, whose result keys a
      MAC of "tc3_request". */
  function SigningKey(c: Crypto, secretKey: string, date: string): (key: seq<byte>)
    ensures DigestSized(c) ==> |key| == 32
  {
    var secretDate := HmacSha256(c, Utf8("TC3" + secretKey), date);
    var secretService := HmacSha256(c, secretDate, Config.Service);
    HmacSha256(c, secretService, RequestType)
  }

  /** The signature of a canonical request at a timestamp: lowercase hex,
      64 digits with SHA-256 sized output. */
  function Signature(c: Crypto, secretKey: string, p: CanonicalParts, ts: int): (sig: string)
    requires InDateRange(ts)
    ensures forall i :: 0 <= i < |sig| ==> IsLowerHex(sig[i])
    ensures DigestSized(c) ==> |sig| == 64
  {
    var date := DateStamp(ts);
    var stringToSign := StringToSign(ts, CredentialScope(date), Sha256Hex(c, CanonicalRequest(p)));
    HmacSha256Hex(c, SigningKey(c, secretKey, date), stringToSign)
  }

  /** The credential scope is a ten-character `YYYY-MM-DD` date, which reads
      back as the UTC date of the timestamp, followed by
      "/hunyuan/tc3_request". */
  lemma DateScopeFormat(ts: int)
    requires InDateRange(ts)
    ensures var scope := CredentialScope(DateStamp(ts));
      |scope| == 30 && ParseDate(scope[..10]) == Some(UtcDate(ts)) && scope[10..] == "/hunyuan/tc3_request"
  {
    ParseFormatDate(UtcDate(ts));
  }

  /** `tc3_sign`: returns the signature and the credential scope. */
  function Tc3Sign(c: Crypto, secretKey: string, httpMethod: string, uri: string, query: string,
                   canonicalHeaders: string, signedHeaders: string, hashedPayload: string, ts: int): (r: (string, string))
    requires InDateRange(ts)
    ensures forall i :: 0 <= i < |r.0| ==> IsLowerHex(r.0[i])
    ensures |r.1| == 30 && ParseDate(r.1[..10]) == Some(UtcDate(ts)) && r.1[10..] == "/hunyuan/tc3_request"
  {
    DateScopeFormat(ts);
    var parts := CanonicalParts(httpMethod, uri, query, canonicalHeaders, signedHeaders, hashedPayload);
    (Signature(c, secretKey, parts, ts), CredentialScope(DateStamp(ts)))
  }

  function SignParts(c: Crypto, secretKey: string, p: CanonicalParts, ts: int): (string, string)
    requires InDateRange(ts)
  {
    Tc3Sign(c, secretKey, p.httpMethod, p.uri, p.query, p.canonicalHeaders, p.signedHeaders, p.hashedPayload, ts)
  }

  /** `tc3_sign`'s signature component, spelled out through the named steps. */
  lemma SignatureSteps(c: Crypto, secretKey: string, p: CanonicalParts, ts: int)
    requires InDateRange(ts)
    ensures SignParts(c, secretKey, p, ts).0 ==
      HmacSha256Hex(c, SigningKey(c, secretKey, DateStamp(ts)), StringToSign(ts, CredentialScope(DateStamp(ts)), Sha256Hex(c, CanonicalRequest(p))))
  {
  }

  lemma ScopeLiteral(date: string)
    ensures CredentialScope(date) == date + "/hunyuan/tc3_request"
  {
    var tail := "/" + Config.Service + "/" + RequestType;
    assert tail == "/hunyuan/tc3_request";
    assert CredentialScope(date) == date + tail;
  }

  lemma JoinShape(a: string, t: string, d: string, s: string, h: string)
    ensures a + "\n" + t + "\n" + (d + s) + "\n" + h == (a + "\n") + t + "\n" + d + (s + "\n") + h
  {
  }

  lemma StringToSignLayout(ts: int, date: string, hashed: string)
    ensures StringToSign(ts, CredentialScope(date), hashed) ==
      "TC3-HMAC-SHA256\n" + IntToString(ts) + "\n" + date + "/hunyuan/tc3_request\n" + hashed
  {
    ScopeLiteral(date);
    JoinShape(Algorithm, IntToString(ts), date, "/hunyuan/tc3_request", hashed);
    assert Algorithm + "\n" == "TC3-HMAC-SHA256\n";
    assert "/hunyuan/tc3_request" + "\n" == "/hunyuan/tc3_request\n";
  }

  lemma FirstKeyBytes(secretKey: string)
    ensures Utf8("TC3" + secretKey) == [84, 67, 51] + Utf8(secretKey)
  {
    Utf8Append("TC3", secretKey);
    Utf8OfAscii("TC3");
    assert Utf8("TC3") == [84, 67, 51];
  }

  /** The signature is the hex form of the final MAC, keyed by the four-step
      derivation whose first key is the bytes "TC3" followed by the UTF-8
      bytes of the secret key. */
  lemma SignatureChain(c: Crypto, secretKey: string, p: CanonicalParts, ts: int)
    requires InDateRange(ts)
    ensures var date := FormatDate(UtcDate(ts));
      var k1 := c.hmacSha256([84, 67, 51] + Utf8(secretKey), date);
      var k2 := c.hmacSha256(k1, "hunyuan");
      var k3 := c.hmacSha256(k2, "tc3_request");
      var sts := "TC3-HMAC-SHA256\n" + IntToString(ts) + "\n" + date + "/hunyuan/tc3_request\n" + Sha256Hex(c, CanonicalRequest(p));
      SignParts(c, secretKey, p, ts).0 == HexEncode(c.hmacSha256(k3, sts))
  {
    SignatureSteps(c, secretKey, p, ts);
    StringToSignLayout(ts, DateStamp(ts), Sha256Hex(c, CanonicalRequest(p)));
    FirstKeyBytes(secretKey);
  }

  /** With SHA-256 output sized as it is, the signature is 64 lowercase hex digits. */
  lemma SignatureLength(c: Crypto, secretKey: string, p: CanonicalParts, ts: int)
    requires InDateRange(ts) && DigestSized(c)
    ensures |SignParts(c, secretKey, p, ts).0| == 64
    ensures forall i :: 0 <= i < 64 ==> IsLowerHex(SignParts(c, secretKey, p, ts).0[i])
  {
    SignatureSteps(c, secretKey, p, ts);
  }

  lemma HexHasNoNewline(s: string)
    requires forall i :: 0 <= i < |s| ==> IsLowerHex(s[i])
    ensures NoNewline(s)
  {
  }

  /** A scope built from a date of digits and dashes is one line of visible
      ASCII with no '='. */
  lemma ScopeOfDateChars(date: string)
    requires forall i :: 0 <= i < |date| ==> IsDigit(date[i]) || date[i] == '-'
    ensures NoNewline(CredentialScope(date))
    ensures forall i :: 0 <= i < |CredentialScope(date)| ==>
      32 <= CredentialScope(date)[i] as int < 127 && CredentialScope(date)[i] != '='
  {
    var scope := CredentialScope(date);
    forall i | 0 <= i < |scope|
      ensures scope[i] != '\n' && 32 <= scope[i] as int < 127 && scope[i] != '='
    {
      if i < |date| {
        assert scope[i] == date[i];
      }
    }
  }

  lemma ScopeChars(ts: int)
    requires InDateRange(ts)
    ensures NoNewline(CredentialScope(DateStamp(ts)))
    ensures forall i :: 0 <= i < |CredentialScope(DateStamp(ts))| ==>
      32 <= CredentialScope(DateStamp(ts))[i] as int < 127 && CredentialScope(DateStamp(ts))[i] != '='
  {
    ScopeOfDateChars(DateStamp(ts));
  }

  /** The string to sign determines its timestamp, scope and request hash. */
  lemma StringToSignInjective(ts1: int, s1: string, h1: string, ts2: int, s2: string, h2: string)
    requires NoNewline(s1) && NoNewline(s2) && NoNewline(h1) && NoNewline(h2)
    requires StringToSign(ts1, s1, h1) == StringToSign(ts2, s2, h2)
    ensures ts1 == ts2 && s1 == s2 && h1 == h2
  {
    var t1, t2 := IntToString(ts1), IntToString(ts2);
    SplitLastLine(Algorithm + "\n" + t1 + "\n" + s1, h1, Algorithm + "\n" + t2 + "\n" + s2, h2);
    SplitLastLine(Algorithm + "\n" + t1, s1, Algorithm + "\n" + t2, s2);
    SplitFirstLine(Algorithm, t1, Algorithm, t2);
    IntToStringInjective(ts1, ts2);
  }

  /** Under collision-free primitives a signature can only be reproduced from
      the same canonical request and the same timestamp: changing any part of
      the request, or the time, changes the signature. */
  lemma SignatureBindsRequest(c: Crypto, k1: string, p1: CanonicalParts, ts1: int, k2: string, p2: CanonicalParts, ts2: int)
    requires CollisionFree(c)
    requires InDateRange(ts1) && InDateRange(ts2)
    requires SingleLineParts(p1) && SingleLineParts(p2)
    requires SignParts(c, k1, p1, ts1).0 == SignParts(c, k2, p2, ts2).0
    ensures p1 == p2 && ts1 == ts2
  {
    var s1, s2 := CredentialScope(DateStamp(ts1)), CredentialScope(DateStamp(ts2));
    var h1, h2 := Sha256Hex(c, CanonicalRequest(p1)), Sha256Hex(c, CanonicalRequest(p2));
    SignatureSteps(c, k1, p1, ts1);
    SignatureSteps(c, k2, p2, ts2);
    HmacSha256HexInjective(c, SigningKey(c, k1, DateStamp(ts1)), StringToSign(ts1, s1, h1), SigningKey(c, k2, DateStamp(ts2)), StringToSign(ts2, s2, h2));
    HexHasNoNewline(h1);
    HexHasNoNewline(h2);
    ScopeChars(ts1);
    ScopeChars(ts2);
    StringToSignInjective(ts1, s1, h1, ts2, s2, h2);
    Sha256HexInjective(c, CanonicalRequest(p1), CanonicalRequest(p2));
    CanonicalRequestInjective(p1, p2);
  }
}
