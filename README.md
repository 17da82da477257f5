# Hunyuan SDK request signing and envelope, in Dafny

This project models the core of the Rust Tencent Cloud Hunyuan SDK client (`src/client.rs`, with the hashing wrappers of
`src/signing.rs`) and proves properties of that model. The modelled parts are:

- the client configuration: `Region::as_str`, and the `ClientBuilder` with its setters and `build`;
- the TC3-HMAC-SHA256 signer `tc3_sign`: canonical request, UTC date, credential scope, string to sign, the four-step
  HMAC key derivation and the hex signature;
- `build_headers` and the `HeaderMap` it fills;
- the glue of `call_action`: one timestamp, the canonical headers, the `Authorization` value, the masked debug form
  of that value, and the mapping of a response status and body to a result.

SHA-256 and HMAC-SHA256 are not implemented. A `Crypto` value carries them as arbitrary functions, so every theorem
holds for whatever functions are plugged in. Two properties of those functions appear as assumptions, never together:

- `DigestSized` (32-byte outputs, as SHA-256 has) is assumed only for the length results, such as the 64-digit
  signature.
- `CollisionFree` (no two inputs share a digest or a MAC) is assumed by the binding theorems
  `Tc3.SignatureBindsRequest` and `Invoke.SignatureBindsEndpointBodyAndTime`. It is an idealisation that no 32-byte
  digest meets, since there are more strings than digests; real SHA-256 is only collision resistant. What those
  theorems establish is that the encodings the signer hashes (the canonical request, the string to sign, the
  canonical headers) are injective, so that any collision of the signature would have to come from the primitives.
  They do not show that real SHA-256 binds the request.

Hex encoding, UTF-8 encoding, decimal formatting and the proleptic Gregorian calendar are modelled exactly.

`tc3_sign` is modelled as a Dafny function of its arguments and the secret key. That makes it deterministic by
construction: the same inputs always give the same signature and scope.

Modules, by file:

- `wrappers.dfy`: the `Option` and `Result` types.
- `decimal.dfy`: decimal and zero-padded integer formatting, and reading those forms back.
- `bytes.dfy`: lowercase hex and UTF-8 encoding.
- `crypto.dfy`: `sha256_hex`, `hmac_sha256` and `hmac_sha256_hex` over the abstract primitives.
- `calendar.dfy`: Unix seconds to a UTC civil date, and `[Year]-[Month]-[Day]` formatting.
- `text.dfy`: `split_once` and line splitting.
- `config.dfy`: credentials, regions, the `Client` record and the `ClientBuilder` class.
- `tc3.dfy`: `tc3_sign`.
- `headers.dfy`: the `HeaderMap` class and `build_headers`.
- `diagnostics.dfy`: `mask` and the logged form of the `Authorization` header.
- `invoke.dfy`: `call_action` and `chat_completions`.

## Model

| member | source | states |
|---|---|---|
| Config.AsStr | src/client.rs:36-42 | ApBeijing gives "ap-beijing", ApGuangzhou gives "ap-guangzhou", Custom(s) gives s itself |
| Config.AsStrEmptyIff | src/client.rs:36-42 | the region string is empty exactly for Custom("") |
| Config.AsStrRoundTrip | src/client.rs:36-42 | reading a region string back gives the same string; the region itself comes back unless a Custom name spells a named region |
| Config.EnvDebug | src/client.rs:148-151 | the environment switches debug on exactly for "1", "true", "TRUE", "on" or "ON" |
| Config.ClientBuilder.constructor | src/client.rs:92-108 | a new builder has every slot empty |
| Config.ClientBuilder.SetHttp | src/client.rs:111-114 | sets the HTTP client slot and no other |
| Config.ClientBuilder.SetCredential | src/client.rs:116-119 | sets the credential slot and no other |
| Config.ClientBuilder.SetRegion | src/client.rs:121-124 | sets the region slot and no other |
| Config.ClientBuilder.SetEndpoint | src/client.rs:126-129 | sets the endpoint slot and no other |
| Config.ClientBuilder.SetDebug | src/client.rs:133-136 | sets the debug slot and no other |
| Config.ClientBuilder.Build | src/client.rs:139-160 | fails exactly when no credential was set; keeps each set slot; otherwise uses the default client, ApGuangzhou and "hunyuan.tencentcloudapi.com"; an explicit debug flag wins over the environment |
| Config.BuildWithCredentialOnly | src/client.rs:139-160 | a builder given only a credential yields ap-guangzhou at the default endpoint with the default HTTP client |
| Config.ExplicitDebugWins | src/client.rs:148-152 | debug(false) yields a client with debug off, whatever the environment says |
| Decimal.NatToString | src/client.rs:397 | the decimal form of a status is non-empty digits without a leading zero |
| Decimal.ParseNatToString | src/client.rs:397 | the decimal form of a natural number reads back as that number |
| Decimal.IntToString | src/client.rs:245 | the decimal form of a timestamp is non-empty, starts with '-' exactly for negatives, is otherwise digits, and has no leading zero |
| Decimal.ParseIntToString | src/client.rs:245 | the decimal form of a timestamp reads back as the timestamp |
| Decimal.IntToStringInjective | src/client.rs:198 | different timestamps have different decimal forms |
| Decimal.ZeroPadFits | src/client.rs:194 | a year below 10000, or a month or day below 100, zero-pads to exactly 4 or 2 digits that read back as the number |
| Bytes.HexEncode | src/signing.rs:9 | two lowercase hex digits per byte |
| Bytes.HexRoundTrip | src/signing.rs:9 | decoding the hex form gives back the bytes |
| Bytes.HexInjective | src/signing.rs:19 | different byte strings have different hex forms |
| Bytes.Utf8OfAscii | src/client.rs:203-204 | an ASCII string's UTF-8 bytes are its character codes, one per character |
| Bytes.Utf8Append | src/client.rs:203-204 | the UTF-8 bytes of a concatenation are the concatenation of the UTF-8 bytes |
| Crypto.Sha256Hex | src/signing.rs:5-10 | the digest as lowercase hex, two digits per digest byte |
| Crypto.HmacSha256 | src/signing.rs:12-16 | with SHA-256 sized output the MAC is 32 bytes |
| Crypto.HmacSha256Hex | src/signing.rs:18-20 | the MAC as lowercase hex, two digits per MAC byte |
| Crypto.Sha256HexInjective | src/signing.rs:5-10 | with a collision-free digest, equal hex digests mean equal inputs |
| Crypto.HmacSha256HexInjective | src/signing.rs:18-20 | with a collision-free MAC, equal hex MACs mean equal keys and messages |
| Calendar.MonthsFillYear | src/client.rs:192-193 | the twelve months add up to the length of the year |
| Calendar.DaysBeforeYearClosedForm | src/client.rs:192-193 | the days before a year are 365 per year plus the Gregorian leap days (every 4th year, except every 100th, except every 400th) |
| Calendar.YearOf | src/client.rs:192-193 | finds the year whose days contain the given day number, and the offset into that year |
| Calendar.MonthOf | src/client.rs:192-193 | finds the month whose days contain the given day of the year, and the day within it |
| Calendar.DateOfDayNumber | src/client.rs:192-193 | gives a valid date whose day number is the given one |
| Calendar.DayNumberInjective | src/client.rs:192-193 | different valid dates have different day numbers |
| Calendar.DateOfDayNumberInverse | src/client.rs:192-193 | turning a valid date into a day number and back gives the same date |
| Calendar.UnixEpochNumber | src/client.rs:192-193 | 1970-01-01 is day 719162 counted from 0001-01-01 |
| Calendar.UtcDate | src/client.rs:192-193 | a valid date in years 1 to 9999 whose day number is the epoch's plus the timestamp floor-divided by 86400 |
| Calendar.UtcDateCharacterization | src/client.rs:192-193 | a date is the UTC date of a timestamp exactly when the timestamp lies in that date's 86400-second window |
| Calendar.FormatDate | src/client.rs:194 | ten characters: four digits, '-', two digits, '-', two digits |
| Calendar.ParseFormatDate | src/client.rs:194 | the formatted date reads back as the date |
| Text.SplitOnce | src/client.rs:309 | finds a split exactly when the pattern occurs; the parts rebuild the input around the pattern at its first occurrence |
| Tc3.CanonicalRequest | src/client.rs:180-188 | the six parts joined with five newlines, nothing else added |
| Tc3.CanonicalRequestInjective | src/client.rs:180-188 | the newline-joined canonical request determines all six parts, given single-line parts other than the headers block |
| Tc3.DateStamp | src/client.rs:192-195 | ten characters that read back as the UTC date of the timestamp |
| Tc3.CredentialScope | src/client.rs:196 | the date followed by "/hunyuan/tc3_request", the service name resolved |
| Tc3.StringToSign | src/client.rs:197-200 | starts with the line "TC3-HMAC-SHA256" and ends with the canonical request hash, with three newlines and nothing else added |
| Tc3.SigningKey | src/client.rs:203-206 | with 32-byte MACs the derived signing key is 32 bytes |
| Tc3.Signature | src/client.rs:180-207 | lowercase hex, and 64 digits with 32-byte MACs |
| Tc3.DateScopeFormat | src/client.rs:192-196 | the scope is 30 characters: a date that reads back as the UTC date of the timestamp, then "/hunyuan/tc3_request" |
| Tc3.Tc3Sign | src/client.rs:169-228 | returns a lowercase hex signature and a scope whose date reads back as the UTC date of the timestamp, followed by "/hunyuan/tc3_request" |
| Tc3.StringToSignLayout | src/client.rs:197-200 | the string to sign is "TC3-HMAC-SHA256", the decimal timestamp, the scope and the request hash, separated by newlines |
| Tc3.FirstKeyBytes | src/client.rs:203-204 | the first MAC key is the bytes of "TC3" followed by the UTF-8 bytes of the secret key |
| Tc3.SignatureChain | src/client.rs:180-207 | the signature is hex(HMAC(HMAC(HMAC(HMAC("TC3"+key, date), "hunyuan"), "tc3_request"), string to sign)) with the string to sign spelled out |
| Tc3.SignatureLength | src/client.rs:207 | with 32-byte digests the signature is 64 lowercase hex digits |
| Tc3.ScopeChars | src/client.rs:196 | the scope is one line of visible ASCII without '=' |
| Tc3.StringToSignInjective | src/client.rs:197-200 | the string to sign determines its timestamp, scope and request hash |
| Tc3.SignatureBindsRequest | src/client.rs:180-207 | with collision-free primitives, equal signatures mean the same canonical request and the same timestamp |
| Headers.ToLowerAscii | src/client.rs:232-248 | a header name is normalised by lowering ASCII capitals only, keeping its length |
| Headers.LowerNameFixed | src/client.rs:232-248 | a name is already normalised exactly when it has no ASCII capital |
| Headers.Lookup | src/client.rs:306-345 | a lookup finds a value exactly when the normalised name is a key, and then returns that key's value |
| Headers.LookupAfterInsert | src/client.rs:291-294 | after an insert, names equal up to case give the new value and every other name is unchanged |
| Headers.HeaderMap.constructor | src/client.rs:231 | a new map is empty and well formed |
| Headers.HeaderMap.Insert | src/client.rs:232-248 | stores the value under the normalised name, replacing any earlier value, and keeps the map well formed |
| Headers.TimestampValueValid | src/client.rs:243-246 | the decimal timestamp is always a valid header value |
| Headers.RequestHeaders | src/client.rs:230-251 | every key is a normalised name, and Authorization is not among them |
| Headers.RequestHeadersContents | src/client.rs:230-251 | looked up by the source's names: Host, Content-Type, X-TC-Action, X-TC-Version, X-TC-Region and X-TC-Timestamp (which reads back as ts); X-TC-Token present exactly with a token; no other header |
| Headers.BuildHeaders | src/client.rs:230-251 | returns a fresh, well-formed map equal to that header set, independent of the body |
| Diagnostics.Mask | src/client.rs:210-216 | at most 16 characters give "***"; longer values keep their first 8 and last 8 characters around "..." (19 characters) |
| Diagnostics.MaskRevealsAtMost16 | src/client.rs:210-216 | every character of the masked form other than '.' and '*' is one of the first 8 or last 8 of the value, in place |
| Diagnostics.MaskFixedPoints | src/client.rs:299-305 | masking leaves a value unchanged exactly when it is "***" or 19 characters with "..." in the middle |
| Diagnostics.MaskedSignature | src/client.rs:209-224 | a 64-digit signature is logged as 19 characters, never as itself |
| Diagnostics.AuthorizationForLog | src/client.rs:306-313 | gives "<missing>" when there is no Authorization header |
| Diagnostics.FirstMarkerAfter | src/client.rs:309-311 | when no '=' in the prefix completes a "Signature=", the split happens after the prefix |
| Invoke.CanonicalHeaders | src/client.rs:271-274 | 51 characters besides the endpoint, which sits between the fixed "content-type:...host:" prefix and the final newline |
| Invoke.SignedCanonicalRequest | src/client.rs:260-285 | the canonical request call_action signs is "POST", "/", an empty query, the content-type and host lines, "content-type;host" and the SHA-256 hex of the body, joined by newlines |
| Invoke.CanonicalHeadersInjective | src/client.rs:271-274 | different endpoints give different canonical headers |
| Invoke.AuthorizationValue | src/client.rs:287-290 | 73 characters besides the secret id, scope and signature; the secret id starts at character 27 and the signature ends the value |
| Invoke.AuthorizationLayout | src/client.rs:287-290 | the value is "TC3-HMAC-SHA256 Credential=" + secret id + "/" + scope + ", SignedHeaders=content-type;host, Signature=" + signature |
| Invoke.SignedRequest | src/client.rs:260-296 | uses the method that was signed and is addressed to "https://" + endpoint + "/" with the body unchanged; every build_headers header is sent unchanged, and Authorization is the one header added |
| Invoke.AuthorizationChars | src/client.rs:287-294 | the Authorization value is a valid header value (visible ASCII) whenever the secret id is |
| Invoke.PrepareRequest | src/client.rs:260-296 | builds the headers, signs at the same timestamp and adds Authorization; the result is the signed request |
| Invoke.CanonicalHeadersAgree | src/client.rs:232-275 | the signed canonical headers carry exactly the Content-Type and Host values sent, and the signed header names are the normalised names of those two headers |
| Invoke.OneTimestamp | src/client.rs:265-290 | the X-TC-Timestamp header reads back as ts; the Authorization header carries the scope of ts's UTC date and the signature made at ts |
| Invoke.SentHeaderNames | src/client.rs:247-294 | the sent headers are the build_headers set plus Authorization; X-TC-Token is sent exactly when there is a token |
| Invoke.SignatureBindsEndpointBodyAndTime | src/client.rs:270-285 | with collision-free primitives, the signature determines the endpoint, the body and the timestamp |
| Invoke.AuthorizationLogMasksSignature | src/client.rs:287-313 | for a visible-ASCII secret id without '=', the log shows the Authorization value with only the signature masked (19 characters instead of 64) |
| Invoke.MapResponse | src/client.rs:371-404 | any non-2xx status is a Service error; a 2xx status decodes the body, and a decode failure is a Serde error; the result is never an Http error |
| Invoke.EnvelopeErrorReported | src/client.rs:373-387 | a non-2xx error envelope with Error present reports its code, message and request id |
| Invoke.FallbackErrorCarriesStatus | src/client.rs:396-400 | any other non-2xx response gives code "HTTP_" plus digits that read back as the status, the raw body as message, and no request id |
| Invoke.FallbackCodeDistinguishesStatus | src/client.rs:396-400 | two fallback errors from the same body are equal only for the same status |
| Invoke.CallAction | src/client.rs:255-405 | a serialisation failure is a Serde error; otherwise the signed request is sent, a transport failure is an Http error, and the response is mapped |
| Invoke.ChatCompletions | src/client.rs:408-413 | call_action with X-TC-Action "ChatCompletions": a serialisation failure is a Serde error, a transport failure an Http error, and otherwise the response is mapped |

## Left out

- Transport and async: the `reqwest` client, `send().await` and `text().await` become one `send` function parameter of `Invoke.CallAction`. The model does not parse the URL.
- The environment variable and the wall clock: `TENCENTCLOUD_SDK_DEBUG` is passed to `Build` as `env`, and `now_utc()` to `CallAction` as `now`.
- Debug logging: the `eprintln!` lines are not modelled. The model keeps the two values they compute, `mask` and the masked Authorization header.
- SHA-256 and HMAC-SHA256 internals: a `Crypto` parameter supplies them. Results that need 32-byte digests (`DigestSized`) or collision-freedom (`CollisionFree`) state that assumption as a requires or an implication. `CollisionFree` is an idealisation that no 32-byte digest meets, so the binding theorems prove the signed encodings injective, not that real SHA-256 binds the request.
- JSON: serde encoding and decoding are function parameters. The model does not capture the request and response shapes of `src/models.rs`, including the `f32` sampling fields. The error envelope's field layout (top-level `Error` and `RequestId`) is taken as given.
- `Tc3.Tc3Sign`: requires a timestamp from year 1 to year 9999. The source's date library also formats years down to -9999, with a sign, and panics beyond that range. Years 0 and below are not modelled.
- `Calendar.UtcDate`: limited to years 1 to 9999, for the same reason.
- `Diagnostics.Mask`: requires ASCII input. The source slices by bytes and would panic in the middle of a multi-byte character. Neither caller reaches that case: both pass hex digits or a value that `to_str` accepted.
- `Diagnostics.AuthorizationForLog`: the contract states only the missing-header case. The masked cases are stated for the actual Authorization value by `Invoke.AuthorizationLogMasksSignature`.
- `Headers.BuildHeaders`: the `from_str(..).unwrap()` panics become a requires. Endpoint, action, region string and token must be valid header values.
- `Invoke.PrepareRequest`: likewise, and the secret id must be a valid header value, for the Authorization header.
- `Invoke.CallAction`: the same requires as `Invoke.PrepareRequest`.
- `Invoke.ChatCompletions`: the same requires as `Invoke.PrepareRequest`.
- `Config.ClientBuilder.Build`: the source panics without a credential; the model returns a `MissingCredential` failure. The possible panic of the default `reqwest` client builder is not modelled: an HTTP client is only an identity.
- `Config.AsStr`: returns "" for `Custom("")`, as the code does.
- `HeaderMap`: the map keeps one value per name and no insertion order, since the code only uses `insert` and `get`.
- `Client::builder()`: it is `ClientBuilder::new()`, which the constructor covers.
- The unit tests in `src/lib.rs` use accessors that `src/client.rs` does not define. They are not modelled.
