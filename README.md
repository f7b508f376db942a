# quick-start-go: exporter configuration resolution, in Dafny

This project models how the GreptimeDB quick-start agent (`app.go`) turns its
command-line flags into the option list it hands to the OTLP/HTTP metric
exporter, and proves what that list means:

- `generateOtlpHttpOptionsFromEndpoint`: no options for an empty `--endpoint`;
  otherwise the parsed URL's authority and path, plus `WithInsecure` exactly
  when the scheme is `http`; a parse error is returned as an error.
- `generateOtlpHttpOptionsFromHost`: an empty `--host` is an error; otherwise
  the fixed path `/v1/otlp/v1/metrics` and `host` or `host:port`, never
  `WithInsecure`.
- `generateOtlpHttpHeaders`: the `x-greptime-db-name` header always, and
  `Authorization: Basic base64(user:pass)` (section 2 of RFC 7617, with the
  base64 alphabet of section 4 of RFC 4648) only when both credentials are
  non-empty.
- `main`, lines 35-50: the endpoint strategy wins when it yields options, an
  endpoint error aborts without falling back, and the target options are
  followed by a 5-second timeout and the headers.

Modules:

- `Wrappers` (`wrappers.dfy`): `Option` and `Result`.
- `Bytes` (`bytes.dfy`): Go strings as byte sequences, ASCII literals,
  `fmt.Sprintf("%s:%s", a, b)` and its inverse (split at the first colon).
- `Base64` (`base64.dfy`): `base64.StdEncoding.EncodeToString` and a strict
  decoder, proved to be inverse bijections.
- `OtlpOptions` (`otlp.dfy`): the five exporter options the agent uses and
  what each sets in the exporter's configuration, applied left to right.
- `App` (`app.dfy`): the flags, the three `generate*` functions, the assembly
  in `main`, and the end-to-end properties.

`url.Parse` belongs to Go's standard library and is not part of this model:
every operation that needs it takes it as a parameter `parse` (any total
function from the text to a URL or an error), and every property is stated
relative to its result. Go's `panic(err)` on a configuration error is the
`Failure` result.

## Model

| member | source | states |
|---|---|---|
| `App.OptionsFromEndpoint` | app.go:92-109 | empty endpoint gives no options and no error; a parse failure gives `InvalidEndpoint` with the parser's error; otherwise 2 or 3 options, first the URL's host, second its path (verbatim, even empty), then exactly `WithInsecure` when the scheme is exactly `http` and nothing else otherwise; a successful result is empty exactly when the endpoint is empty |
| `App.OptionsFromHost` | app.go:111-122 | empty host gives `HostRequired`; otherwise exactly the default path `/v1/otlp/v1/metrics` then `host[:port]`; `WithInsecure` never appears |
| `App.HostPortSplits` | app.go:116-119 | for a host without a colon, the endpoint is the host when the port is empty and otherwise splits at its first colon back into exactly the host and the port |
| `App.Headers` | app.go:124-131 | the database header always maps to `db` verbatim (empty included); `Authorization` is present if and only if both username and password are non-empty, and then equals `"Basic " + base64(user ":" pass)`; no other key appears |
| `App.AuthorizationDecodes` | app.go:126-129 | the `Authorization` value starts with `Basic `, its remainder decodes to exactly `username:password`, and when the username has no colon that splits back into the username and password |
| `App.ExporterOptions` | app.go:35-50 | an endpoint that fails to parse aborts with its error whatever the host flags say; without an endpoint the result fails exactly when the host is empty (with `HostRequired`); every successful list ends with the 5-second timeout and then the headers of `Headers(db, username, password)` |
| `App.EndpointOverridesHost` | app.go:35-46 | with a non-empty endpoint, changing the host and port flags leaves the result unchanged |
| `App.EndpointConfiguresExporter` | app.go:35-55 | with an endpoint that parses, the exporter is configured with the URL's host and path, TLS is disabled exactly when the scheme is `http` (or it already was), and timeout and headers are the fixed 5 s and the built headers |
| `App.HostConfiguresExporter` | app.go:35-55 | without an endpoint and with a host, the exporter is configured with `host[:port]`, the default path, TLS left as it was, the 5 s timeout and the headers |
| `App.DefaultFlagsScenario` | app.go:25-50 | with every flag at its default the options are exactly the default path, `localhost`, the timeout and `{x-greptime-db-name: public}` |
| `App.CredentialsScenario` | app.go:127-128 | username `a` and password `b` give `Basic YTpi` (written as bytes) |
| `App.HttpEndpointScenario` | app.go:35-50 | endpoint `http://1.2.3.4:4000/v1/otlp/v1/metrics` (parsed as such) with credentials `a`/`b` gives exactly host `1.2.3.4:4000`, the path, `WithInsecure`, the timeout, and both headers |
| `OtlpOptions.ApplyAll` | app.go:52-55 | the configuration reached by an option list has TLS disabled if `WithInsecure` is in the list, and keeps the starting TLS setting otherwise |
| `OtlpOptions.ApplyAllAppend` | app.go:48-50 | appending options to a list applies them after the list's own options |
| `Bytes.JoinColon` | app.go:118 | `"%s:%s"` yields the first string, one colon, then the second |
| `Bytes.SplitAtColon` | app.go:118 | splitting fails exactly when there is no colon, and otherwise yields a colon-free first part that joins back to the input |
| `Bytes.SplitJoinColon` | app.go:118 | splitting a joined pair whose first part has no colon yields that pair |
| `Base64.CharOf` | app.go:127 | each of the 64 alphabet characters differs from the padding `=` and decodes back to its value |
| `Base64.EncodeLength` | app.go:127 | the encoding of `n` bytes has `4 * ceil(n / 3)` characters |
| `Base64.DecodeEncode` | app.go:127 | decoding the encoding of any bytes gives those bytes back |
| `Base64.EncodeDecode` | app.go:127 | any text the strict decoder accepts is the encoding of what it decodes to |
| `Base64.DecodeIsInverse` | app.go:127 | `Decode(t) == Some(s)` if and only if `t == Encode(s)` |
| `Base64.StandardTestVectors` | app.go:127 | `f`, `fo`, `foo` encode to `Zg==`, `Zm8=`, `Zm9v` (section 10 of RFC 4648) |

## Left out

- Exporter, periodic reader, resource and meter-provider construction (app.go:52-71): calls into the OpenTelemetry SDK. `OtlpOptions.ApplyAll` states only what each option sets, not how `otlpmetrichttp.New` uses it; its starting configuration is a parameter because the library's defaults are not part of this model.
- Host-metrics collection (app.go:83-87): an external instrumentation library.
- Signal handling, the wait for an interrupt and the deferred provider shutdown (app.go:73-89): process lifecycle and concurrency.
- Flag parsing into package-level variables (app.go:25-33): modelled as the immutable record `App.Flags` with the same defaults (`App.DefaultFlags`).
- The internals of `url.Parse`: Go's standard library; it is the parameter `parse`.
- `panic` versus `log.Fatal`: both are a `Failure` result; exit codes are not modelled.
- Go's nil slice: the model returns the empty sequence. Every non-nil result has at least two options, so `main`'s `opts == nil` test is the empty-sequence test.
- Non-ASCII text: strings are byte sequences throughout, so `[]byte(s)` is the identity; only literals are converted, and they are ASCII.
- A TLS-disabling flag, a loopback-implies-insecure rule and an always-send-credentials policy are described for other variants of the program but do not exist in `app.go`; the model follows the code and has none of them.
- Resolving the same flags twice giving the same result holds because every operation here is a function.
