/** Request headers from src/client.rs: the `HeaderMap` that `build_headers`
    fills and `call_action` extends. Header names are case-insensitive; the
    map keeps them in their ASCII lower-case form, so `Insert("Host", v)` and
    a lookup of "host" meet. */
module Headers {
  import opened Wrappers
  import opened Decimal
  import Config

  const ContentTypeJson: string := "application/json; charset=utf-8"
  const ApiVersion: string := "2023-09-01"

  function LowerChar(c: char): char {
    if 'A' <= c <= 'Z' then (c as int + 32) as char else c
  }

  predicate IsLowerName(s: string) {
    forall i :: 0 <= i < |s| ==> !('A' <= s[i] <= 'Z')
  }

  /** The normalised form of a header name: ASCII capitals lowered, every
      other character kept. */
  function ToLowerAscii(s: string): (r: string)
    ensures |r| == |s| && IsLowerName(r)
    ensures forall i :: 0 <= i < |s| ==> r[i] == s[i] || ('A' <= s[i] <= 'Z' && r[i] as int == s[i] as int + 32)
  {
    seq(|s|, i requires 0 <= i < |s| => LowerChar(s[i]))
  }

  /** A name is already normalised exactly when it has no ASCII capital. */
  lemma LowerNameFixed(s: string)
    ensures IsLowerName(s) <==> ToLowerAscii(s) == s
  {
    if ToLowerAscii(s) == s {
      assert IsLowerName(ToLowerAscii(s));
    }
  }

  /** What `HeaderValue::from_str` accepts: tab, or any character from space
      upwards other than DEL. */
  predicate ValidHeaderValue(s: string) {
    forall i :: 0 <= i < |s| ==> s[i] == '\t' || (' ' <= s[i] && s[i] as int != 127)
  }

  /** What `HeaderValue::to_str` accepts: tab or visible ASCII. */
  predicate IsVisibleAscii(s: string) {
    forall i :: 0 <= i < |s| ==> s[i] == '\t' || (32 <= s[i] as int < 127)
  }

  /** `HeaderMap::get`: the value stored under the name's normalised form. */
  function Lookup(m: map<string, string>, name: string): (r: Option<string>)
    ensures r.Some? <==> ToLowerAscii(name) in m
    ensures r.Some? ==> r.value == m[ToLowerAscii(name)]
  {
    var key := ToLowerAscii(name);
    if key in m then Some(m[key]) else None
  }

  /** An insert replaces the value of names equal up to case and leaves every
      other name as it was. */
  lemma LookupAfterInsert(m: map<string, string>, name: string, value: string, query: string)
    ensures Lookup(m[ToLowerAscii(name) := value], query) ==
      if ToLowerAscii(query) == ToLowerAscii(name) then Some(value) else Lookup(m, query)
  {
  }

  /** A header map as `http::HeaderMap` holds it: one value per name. */
  class HeaderMap {
    var entries: map<string, string>

    /** Every key is a normalised name and every value passed `from_str`. */
    ghost predicate Valid()
      reads this
    {
      forall name :: name in entries ==> IsLowerName(name) && ValidHeaderValue(entries[name])
    }

    /** `HeaderMap::new`. */
    constructor ()
      ensures Valid() && entries == map[]
    {
      entries := map[];
    }

    /** `HeaderMap::insert`: the value replaces any earlier one under the
        same name, whatever its case. */
    method Insert(name: string, value: string)
      requires Valid() && ValidHeaderValue(value)
      modifies this
      ensures Valid()
      ensures entries == old(entries)[ToLowerAscii(name) := value]
    {
      entries := entries[ToLowerAscii(name) := value];
    }
  }

  /** The values `build_headers` converts with `from_str(..).unwrap()`, each
      of which must be a valid header value for the call not to panic. */
  predicate HeaderInputsValid(client: Config.Client, action: string) {
    && ValidHeaderValue(client.endpoint)
    && ValidHeaderValue(action)
    && ValidHeaderValue(Config.AsStr(client.region))
    && (client.credential.token.Some? ==> ValidHeaderValue(client.credential.token.value))
  }

  /** The header set of a request for `action` at timestamp `ts`, keyed by
      normalised names; Authorization is not among them. */
  function RequestHeaders(client: Config.Client, action: string, ts: int): (r: map<string, string>)
    ensures forall name :: name in r ==> IsLowerName(name)
    ensures "authorization" !in r
  {
    HeaderKeysLower();
    var fixed := map[
      "host" := client.endpoint,
      "content-type" := ContentTypeJson,
      "x-tc-action" := action,
      "x-tc-version" := ApiVersion,
      "x-tc-region" := Config.AsStr(client.region),
      "x-tc-timestamp" := IntToString(ts)];
    match client.credential.token
    case Some(token) => fixed["x-tc-token" := token]
    case None => fixed
  }

  lemma HeaderKeysLower()
    ensures IsLowerName("host") && IsLowerName("content-type") && IsLowerName("x-tc-action") && IsLowerName("x-tc-version")
    ensures IsLowerName("x-tc-region") && IsLowerName("x-tc-timestamp") && IsLowerName("x-tc-token")
  {
  }

  lemma ConstantValuesValid()
    ensures ValidHeaderValue(ContentTypeJson) && ValidHeaderValue(ApiVersion)
  {
  }

  /** The normalised forms of the header names the source uses. */
  lemma HostAndTypeNames()
    ensures ToLowerAscii("Host") == "host"
    ensures ToLowerAscii("Content-Type") == "content-type"
  {
  }

  lemma ActionAndVersionNames()
    ensures ToLowerAscii("X-TC-Action") == "x-tc-action"
    ensures ToLowerAscii("X-TC-Version") == "x-tc-version"
  {
  }

  lemma RegionAndTimestampNames()
    ensures ToLowerAscii("X-TC-Region") == "x-tc-region"
    ensures ToLowerAscii("X-TC-Timestamp") == "x-tc-timestamp"
  {
  }

  lemma TokenAndAuthorizationNames()
    ensures ToLowerAscii("X-TC-Token") == "x-tc-token"
    ensures ToLowerAscii("Authorization") == "authorization"
  {
  }

  /** Looked up by the names the source uses, the header set holds the
      endpoint as Host, the JSON content type, the action, the API version,
      the region string and the decimal timestamp (which reads back as
      `ts`); X-TC-Token is there exactly when the credential has a token and
      then holds it; no other header is present. */
  lemma RequestHeadersContents(client: Config.Client, action: string, ts: int)
    ensures var h := RequestHeaders(client, action, ts);
      && Lookup(h, "Host") == Some(client.endpoint)
      && Lookup(h, "Content-Type") == Some("application/json; charset=utf-8")
      && Lookup(h, "X-TC-Action") == Some(action)
      && Lookup(h, "X-TC-Version") == Some("2023-09-01")
      && Lookup(h, "X-TC-Region") == Some(Config.AsStr(client.region))
      && Lookup(h, "X-TC-Timestamp") == Some(IntToString(ts))
      && ParseInt(h["x-tc-timestamp"]) == Some(ts)
      && Lookup(h, "X-TC-Token") == client.credential.token
      && h.Keys == {"host", "content-type", "x-tc-action", "x-tc-version", "x-tc-region", "x-tc-timestamp"}
                   + (if client.credential.token.Some? then {"x-tc-token"} else {})
  {
    HostAndTypeNames();
    ActionAndVersionNames();
    RegionAndTimestampNames();
    TokenAndAuthorizationNames();
    ParseIntToString(ts);
  }

  /** The decimal form of any timestamp is a valid header value. */
  lemma TimestampValueValid(ts: int)
    ensures ValidHeaderValue(IntToString(ts))
  {
    var s := IntToString(ts);
    forall i | 0 <= i < |s|
      ensures s[i] == '\t' || (' ' <= s[i] && s[i] as int != 127)
    {
      if i > 0 {
        assert s[i] in s[1..];
      }
    }
  }

  /** `build_headers`: a fresh, well-formed map holding exactly the header
      set above; the JSON body is not consulted. */
  method BuildHeaders(client: Config.Client, action: string, jsonBody: string, ts: int) returns (headers: HeaderMap)
    requires HeaderInputsValid(client, action)
    ensures fresh(headers) && headers.Valid()
    ensures headers.entries == RequestHeaders(client, action, ts)
  {
    HostAndTypeNames();
    ActionAndVersionNames();
    RegionAndTimestampNames();
    TokenAndAuthorizationNames();
    ConstantValuesValid();
    TimestampValueValid(ts);
    headers := new HeaderMap();
    headers.Insert("Host", client.endpoint);
    headers.Insert("Content-Type", ContentTypeJson);
    headers.Insert("X-TC-Action", action);
    headers.Insert("X-TC-Version", ApiVersion);
    headers.Insert("X-TC-Region", Config.AsStr(client.region));
    headers.Insert("X-TC-Timestamp", IntToString(ts));
    if client.credential.token.Some? {
      headers.Insert("X-TC-Token", client.credential.token.value);
    }
  }
}
