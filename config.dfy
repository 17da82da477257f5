/** Client configuration from src/client.rs: credentials, regions, the
    immutable `Client` and the `ClientBuilder` that fills in its defaults. */
module Config {
  import opened Wrappers

  const Service: string := "hunyuan"
  const DefaultEndpoint: string := "hunyuan.tencentcloudapi.com"

  /** `secret_id` and `secret_key` sign requests; a session `token` is sent as `X-TC-Token`. */
  datatype Credential = Credential(secretId: string, secretKey: string, token: Option<string>)

  datatype Region = ApBeijing | ApGuangzhou | Custom(name: string)

  /** `Region::as_str`. */
  function AsStr(r: Region): (s: string)
    ensures r == ApBeijing ==> s == "ap-beijing"
    ensures r == ApGuangzhou ==> s == "ap-guangzhou"
    ensures r.Custom? ==> s == r.name
  {
    match r
    case ApBeijing => "ap-beijing"
    case ApGuangzhou => "ap-guangzhou"
    case Custom(name) => name
  }

  /** The region string is empty only for an empty custom name: the two
      named regions always resolve to a non-empty string. */
  lemma AsStrEmptyIff(r: Region)
    ensures AsStr(r) == "" <==> r == Custom("")
  {
  }

  /** A region name read back: the named regions map to their variant, any
      other string to `Custom`. `as_str` is inverted on every region except
      a `Custom` that spells a named region's string. */
  function RegionOf(s: string): Region {
    if s == "ap-beijing" then ApBeijing
    else if s == "ap-guangzhou" then ApGuangzhou
    else Custom(s)
  }

  lemma AsStrRoundTrip(r: Region)
    ensures AsStr(RegionOf(AsStr(r))) == AsStr(r)
    ensures RegionOf(AsStr(r)) == r <==> !(r.Custom? && r.name in {"ap-beijing", "ap-guangzhou"})
  {
  }

  /** The transport a client sends through: the default `reqwest` client or
      one supplied to the builder (told apart by an identity). */
  datatype HttpClient = DefaultHttpClient | SuppliedHttpClient(id: nat)

  datatype Client = Client(http: HttpClient, credential: Credential, region: Region, endpoint: string, debug: bool)

  datatype ConfigError = MissingCredential

  /** Values of `TENCENTCLOUD_SDK_DEBUG` that switch debug logging on. */
  const DebugOnValues: set<string> := {"1", "true", "TRUE", "on", "ON"}

  /** The debug flag read from the environment variable's value (`None`
      when it is unset or not Unicode). */
  function EnvDebug(value: Option<string>): (on: bool)
    ensures on <==> value.Some? && value.value in DebugOnValues
  {
    match value
    case Some("1") => true
    case Some("true") => true
    case Some("TRUE") => true
    case Some("on") => true
    case Some("ON") => true
    case _ => false
  }

  /** The default endpoint is the service name under "tencentcloudapi.com". */
  lemma DefaultEndpointIsServiceHost()
    ensures Service + ".tencentcloudapi.com" == DefaultEndpoint
  {
  }

  /** `ClientBuilder`: each setter fills one slot, `Build` applies the defaults. */
  class ClientBuilder {
    var http: Option<HttpClient>
    var credential: Option<Credential>
    var region: Option<Region>
    var endpoint: Option<string>
    var debug: Option<bool>

    /** `ClientBuilder::new` and `Client::builder`: every slot empty. */
    constructor ()
      ensures http == None && credential == None && region == None && endpoint == None && debug == None
    {
      http, credential, region, endpoint, debug := None, None, None, None, None;
    }

    method SetHttp(h: HttpClient)
      modifies this
      ensures http == Some(h)
      ensures credential == old(credential) && region == old(region) && endpoint == old(endpoint) && debug == old(debug)
    {
      http := Some(h);
    }

    method SetCredential(c: Credential)
      modifies this
      ensures credential == Some(c)
      ensures http == old(http) && region == old(region) && endpoint == old(endpoint) && debug == old(debug)
    {
      credential := Some(c);
    }

    method SetRegion(r: Region)
      modifies this
      ensures region == Some(r)
      ensures http == old(http) && credential == old(credential) && endpoint == old(endpoint) && debug == old(debug)
    {
      region := Some(r);
    }

    method SetEndpoint(e: string)
      modifies this
      ensures endpoint == Some(e)
      ensures http == old(http) && credential == old(credential) && region == old(region) && debug == old(debug)
    {
      endpoint := Some(e);
    }

    method SetDebug(b: bool)
      modifies this
      ensures debug == Some(b)
      ensures http == old(http) && credential == old(credential) && region == old(region) && endpoint == old(endpoint)
    {
      debug := Some(b);
    }

    /** `build`: fails exactly when no credential was set; otherwise every
        slot that was set is kept and every empty one takes its default, the
        debug flag falling back to the environment variable's value `env`. */
    method Build(env: Option<string>) returns (r: Result<Client, ConfigError>)
      ensures r.Failure? <==> credential.None?
      ensures r.Success? ==> r.value.credential == credential.value
      ensures r.Success? ==> r.value.http == (if http.Some? then http.value else DefaultHttpClient)
      ensures r.Success? ==> r.value.region == (if region.Some? then region.value else ApGuangzhou)
      ensures r.Success? ==> r.value.endpoint == (if endpoint.Some? then endpoint.value else DefaultEndpoint)
      ensures r.Success? ==> (r.value.debug <==> if debug.Some? then debug.value else env.Some? && env.value in DebugOnValues)
    {
      var h := http.GetOr(DefaultHttpClient);
      var reg := region.GetOr(ApGuangzhou);
      DefaultEndpointIsServiceHost();
      var ep := endpoint.GetOr(Service + ".tencentcloudapi.com");
      if credential.None? {
        return Failure(MissingCredential);
      }
      var envDebug := EnvDebug(env);
      var dbg := debug.GetOr(envDebug);
      r := Success(Client(h, credential.value, reg, ep, dbg));
    }
  }

  /** A builder given only a credential builds a client for ap-guangzhou at
      the default endpoint. */
  method BuildWithCredentialOnly(c: Credential, env: Option<string>) returns (client: Client)
    ensures client.credential == c && client.region == ApGuangzhou && client.endpoint == DefaultEndpoint
    ensures client.http == DefaultHttpClient
  {
    var b := new ClientBuilder();
    b.SetCredential(c);
    var r := b.Build(env);
    client := r.value;
  }

  /** An explicit `debug(false)` wins over the environment switching logging on. */
  method ExplicitDebugWins(c: Credential, env: Option<string>) returns (client: Client)
    ensures !client.debug
  {
    var b := new ClientBuilder();
    b.SetCredential(c);
    b.SetDebug(false);
    var r := b.Build(env);
    client := r.value;
  }
}
