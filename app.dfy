/**
 * How the agent turns its command-line flags into the option list it hands
 * to the OTLP/HTTP metric exporter: the target comes from `--endpoint` when
 * that is given and from `--host`/`--port` otherwise, and is followed by a
 * fixed request timeout and the request headers (database selector and,
 * when both credentials are given, HTTP Basic authentication).
 */
module App {
  import opened Wrappers
  import opened Bytes
  import Base64
  import opened OtlpOptions

  /** The flags `--host`, `--port`, `--db`, `--username`, `--password`, `--endpoint`. */
  datatype Flags = Flags(
    host: GoString,
    port: GoString,
    db: GoString,
    username: GoString,
    password: GoString,
    endpoint: GoString)

  /** The flags' values when none is given on the command line. */
  const DefaultFlags: Flags := Flags(Ascii("localhost"), [], Ascii("public"), [], [], [])

  /** The parts of a parsed `net/url.URL` the agent reads. */
  datatype Url = Url(scheme: GoString, host: GoString, path: GoString)

  /**
   * `url.Parse`, whose internals this model does not see: any total
   * function from the text to a URL or to the text of its error.
   */
  type UrlParser = GoString -> Result<Url, GoString>

  /** The two ways configuration fails; the agent panics with either. */
  datatype ConfigError =
    | InvalidEndpoint(cause: GoString)  // the error `url.Parse` returned
    | HostRequired                      // "endpoint url or host is required"

  const DefaultUrlPath: GoString := Ascii("/v1/otlp/v1/metrics")
  const HttpScheme: GoString := Ascii("http")
  const DbNameHeader: GoString := Ascii("x-greptime-db-name")
  const AuthorizationHeader: GoString := Ascii("Authorization")
  const BasicPrefix: GoString := Ascii("Basic ")
  const ExportTimeout: Duration := 5 * Second

  /**
   * `generateOtlpHttpOptionsFromEndpoint`. The empty endpoint gives no
   * options (Go's nil slice) and no error, so that the caller falls back to
   * the host flags.
   */
  function OptionsFromEndpoint(endpoint: GoString, parse: UrlParser): (r: Result<seq<ExporterOption>, ConfigError>)
    ensures endpoint == [] ==> r == Success([])
    ensures endpoint != [] && parse(endpoint).Failure? ==> r == Failure(InvalidEndpoint(parse(endpoint).error))
    ensures endpoint != [] && parse(endpoint).Success? ==>
      var u := parse(endpoint).value;
      && r.Success? && 2 <= |r.value| <= 3
      && r.value[0] == WithEndpoint(u.host) && r.value[1] == WithURLPath(u.path)
      && (WithInsecure in r.value <==> u.scheme == HttpScheme)
      && r.value[2..] == (if u.scheme == HttpScheme then [WithInsecure] else [])
    ensures r.Success? ==> (r.value == [] <==> endpoint == [])
  {
    if endpoint == [] then Success([])
    else
      match parse(endpoint)
      case Failure(e) => Failure(InvalidEndpoint(e))
      case Success(u) =>
        var opts := [WithEndpoint(u.host), WithURLPath(u.path)];
        if u.scheme == HttpScheme then Success(opts + [WithInsecure]) else Success(opts)
  }

  /** `host` alone, or `fmt.Sprintf("%s:%s", host, port)` when a port is given. */
  function HostPort(host: GoString, port: GoString): GoString
  {
    if port == [] then host else JoinColon(host, port)
  }

  /** The host and port can be read back from the endpoint built from them. */
  lemma HostPortSplits(host: GoString, port: GoString)
    requires Colon !in host
    ensures port == [] ==> HostPort(host, port) == host && SplitAtColon(host).None?
    ensures port != [] ==> SplitAtColon(HostPort(host, port)) == Some((host, port))
  {
    if port != [] { SplitJoinColon(host, port); }
  }

  /** `generateOtlpHttpOptionsFromHost`: the fixed ingestion path, then `host[:port]`. */
  function OptionsFromHost(host: GoString, port: GoString): (r: Result<seq<ExporterOption>, ConfigError>)
    ensures host == [] ==> r == Failure(HostRequired)
    ensures host != [] ==> r == Success([WithURLPath(DefaultUrlPath), WithEndpoint(HostPort(host, port))])
    ensures r.Success? ==> WithInsecure !in r.value
  {
    if host == [] then Failure(HostRequired)
    else Success([WithURLPath(DefaultUrlPath), WithEndpoint(HostPort(host, port))])
  }

  /** The value of the `Authorization` header: section 2 of RFC 7617. */
  function BasicCredentials(username: GoString, password: GoString): GoString
  {
    BasicPrefix + Base64.Encode(JoinColon(username, password))
  }

  /** `generateOtlpHttpHeaders`. */
  function Headers(db: GoString, username: GoString, password: GoString): (h: map<GoString, GoString>)
    ensures DbNameHeader in h && h[DbNameHeader] == db
    ensures AuthorizationHeader in h <==> username != [] && password != []
    ensures AuthorizationHeader in h ==> h[AuthorizationHeader] == BasicCredentials(username, password)
    ensures h.Keys <= {DbNameHeader, AuthorizationHeader}
  {
    var h := map[DbNameHeader := db];
    if username != [] && password != [] then h[AuthorizationHeader := BasicCredentials(username, password)]
    else h
  }

  /**
   * The `Authorization` header carries exactly `username:password`: its
   * suffix after `Basic ` decodes to those bytes, and when the user-id has
   * no colon, as RFC 7617 requires, the server recovers both parts.
   */
  lemma AuthorizationDecodes(db: GoString, username: GoString, password: GoString)
    requires username != [] && password != []
    ensures var v := Headers(db, username, password)[AuthorizationHeader];
      && |v| >= |BasicPrefix| && v[..|BasicPrefix|] == BasicPrefix
      && Base64.Decode(v[|BasicPrefix|..]) == Some(JoinColon(username, password))
      && (Colon !in username ==> SplitAtColon(Base64.Decode(v[|BasicPrefix|..]).value) == Some((username, password)))
  {
    var v := Headers(db, username, password)[AuthorizationHeader];
    assert v[|BasicPrefix|..] == Base64.Encode(JoinColon(username, password));
    Base64.DecodeEncode(JoinColon(username, password));
    if Colon !in username { SplitJoinColon(username, password); }
  }

  /** `main`, lines 35-46: the endpoint strategy, or the host strategy when it gives nothing. */
  function TargetOptions(flags: Flags, parse: UrlParser): (r: Result<seq<ExporterOption>, ConfigError>)
  {
    match OptionsFromEndpoint(flags.endpoint, parse)
    case Failure(e) => Failure(e)
    case Success(opts) =>
      if opts == [] then OptionsFromHost(flags.host, flags.port) else Success(opts)
  }

  /** `main`, lines 35-50: the options `otlpmetrichttp.New` receives, or the error the agent panics with. */
  function ExporterOptions(flags: Flags, parse: UrlParser): (r: Result<seq<ExporterOption>, ConfigError>)
    ensures flags.endpoint != [] && parse(flags.endpoint).Failure? ==>
      r == Failure(InvalidEndpoint(parse(flags.endpoint).error))
    ensures flags.endpoint == [] ==> (r.Failure? <==> flags.host == [])
    ensures flags.endpoint == [] && flags.host == [] ==> r == Failure(HostRequired)
    ensures r.Success? ==>
      && |r.value| >= 4
      && r.value[|r.value| - 2] == WithTimeout(ExportTimeout)
      && r.value[|r.value| - 1] == WithHeaders(Headers(flags.db, flags.username, flags.password))
  {
    match TargetOptions(flags, parse)
    case Failure(e) => Failure(e)
    case Success(target) =>
      Success(target + [WithTimeout(ExportTimeout), WithHeaders(Headers(flags.db, flags.username, flags.password))])
  }

  /** A non-empty endpoint is authoritative: the host and port flags then change nothing. */
  lemma EndpointOverridesHost(flags: Flags, host: GoString, port: GoString, parse: UrlParser)
    requires flags.endpoint != []
    ensures ExporterOptions(flags.(host := host, port := port), parse) == ExporterOptions(flags, parse)
  {
  }

  /**
   * With an endpoint that parses, the exporter's configuration holds the
   * URL's authority and path, has TLS disabled exactly for the `http` scheme
   * (or when it already was), and holds the fixed timeout and the headers.
   */
  lemma EndpointConfiguresExporter(flags: Flags, parse: UrlParser, base: ExporterConfig)
    requires flags.endpoint != [] && parse(flags.endpoint).Success?
    ensures var u := parse(flags.endpoint).value;
      var r := ExporterOptions(flags, parse);
      && r.Success?
      && var c := ApplyAll(base, r.value);
      && c.endpoint == u.host && c.urlPath == u.path
      && c.insecure == (base.insecure || u.scheme == HttpScheme)
      && c.timeout == ExportTimeout
      && c.headers == Headers(flags.db, flags.username, flags.password)
  {
    var u := parse(flags.endpoint).value;
    var target := OptionsFromEndpoint(flags.endpoint, parse).value;
    var tail := [WithTimeout(ExportTimeout), WithHeaders(Headers(flags.db, flags.username, flags.password))];
    var opts := [WithEndpoint(u.host), WithURLPath(u.path)];
    ApplyAllAppend(base, target, tail);
    ApplyAllPair(base, opts[0], opts[1]);
    if u.scheme == HttpScheme {
      ApplyAllAppend(base, opts, [WithInsecure]);
      assert [WithInsecure][1..] == [];
    }
    ApplyAllPair(ApplyAll(base, target), tail[0], tail[1]);
  }

  /**
   * Without an endpoint and with a host, the exporter's configuration holds
   * `host[:port]` and the fixed ingestion path; the host strategy never
   * disables TLS.
   */
  lemma HostConfiguresExporter(flags: Flags, parse: UrlParser, base: ExporterConfig)
    requires flags.endpoint == [] && flags.host != []
    ensures var r := ExporterOptions(flags, parse);
      && r.Success?
      && var c := ApplyAll(base, r.value);
      && c.endpoint == HostPort(flags.host, flags.port) && c.urlPath == DefaultUrlPath
      && c.insecure == base.insecure
      && c.timeout == ExportTimeout
      && c.headers == Headers(flags.db, flags.username, flags.password)
  {
    var target := [WithURLPath(DefaultUrlPath), WithEndpoint(HostPort(flags.host, flags.port))];
    var tail := [WithTimeout(ExportTimeout), WithHeaders(Headers(flags.db, flags.username, flags.password))];
    ApplyAllAppend(base, target, tail);
    ApplyAllPair(base, target[0], target[1]);
    ApplyAllPair(ApplyAll(base, target), tail[0], tail[1]);
  }

  /** Run with no flags: `localhost`, the default path, and only the database header. */
  lemma DefaultFlagsScenario(parse: UrlParser)
    ensures ExporterOptions(DefaultFlags, parse) == Success([
      WithURLPath(DefaultUrlPath), WithEndpoint(Ascii("localhost")),
      WithTimeout(ExportTimeout), WithHeaders(map[DbNameHeader := Ascii("public")])])
  {
    var target := [WithURLPath(DefaultUrlPath), WithEndpoint(Ascii("localhost"))];
    assert TargetOptions(DefaultFlags, parse) == Success(target);
    var tail := [WithTimeout(ExportTimeout), WithHeaders(map[DbNameHeader := Ascii("public")])];
    assert Headers(Ascii("public"), [], []) == map[DbNameHeader := Ascii("public")];
    assert target + tail == [target[0], target[1], tail[0], tail[1]];
  }

  /** The credentials `a`/`b` are sent as `Basic YTpi`. */
  lemma CredentialsScenario()
    ensures BasicCredentials([0x61], [0x62]) == BasicPrefix + [0x59, 0x54, 0x70, 0x69]
  {
    assert JoinColon([0x61], [0x62]) == [0x61, 0x3A, 0x62];
    assert [0x61, 0x3A, 0x62][3..] == [];
  }

  /** An `http` endpoint with credentials `a`/`b`: TLS off, and `Basic YTpi` sent. */
  lemma HttpEndpointScenario(parse: UrlParser)
    requires parse(Ascii("http://1.2.3.4:4000/v1/otlp/v1/metrics"))
      == Success(Url(Ascii("http"), Ascii("1.2.3.4:4000"), Ascii("/v1/otlp/v1/metrics")))
    ensures var flags := DefaultFlags.(endpoint := Ascii("http://1.2.3.4:4000/v1/otlp/v1/metrics"),
                                      username := [0x61], password := [0x62]);
      ExporterOptions(flags, parse) == Success([
        WithEndpoint(Ascii("1.2.3.4:4000")), WithURLPath(DefaultUrlPath), WithInsecure,
        WithTimeout(ExportTimeout),
        WithHeaders(map[DbNameHeader := Ascii("public"),
                        AuthorizationHeader := BasicPrefix + [0x59, 0x54, 0x70, 0x69]])])
  {
    var flags := DefaultFlags.(endpoint := Ascii("http://1.2.3.4:4000/v1/otlp/v1/metrics"),
                               username := [0x61], password := [0x62]);
    var target := [WithEndpoint(Ascii("1.2.3.4:4000")), WithURLPath(DefaultUrlPath), WithInsecure];
    assert Ascii("http") == HttpScheme;
    assert flags.endpoint != [];
    assert [WithEndpoint(Ascii("1.2.3.4:4000")), WithURLPath(DefaultUrlPath)] + [WithInsecure] == target;
    assert TargetOptions(flags, parse) == Success(target);
    CredentialsScenario();
    var h := map[DbNameHeader := Ascii("public"), AuthorizationHeader := BasicPrefix + [0x59, 0x54, 0x70, 0x69]];
    assert Headers(flags.db, flags.username, flags.password) == h;
    var tail := [WithTimeout(ExportTimeout), WithHeaders(h)];
    assert target + tail == [target[0], target[1], target[2], tail[0], tail[1]];
  }
}
