/**
 * The options of the OTLP/HTTP metric exporter that the agent passes to
 * `otlpmetrichttp.New`, and what each one sets in the exporter's
 * configuration. Options are applied left to right; a later option of the
 * same kind replaces what an earlier one set.
 */
module OtlpOptions {
  import opened Bytes

  /** Go's `time.Duration`: a count of nanoseconds. */
  type Duration = int

  const Second: Duration := 1_000_000_000

  datatype ExporterOption =
    | WithEndpoint(hostPort: GoString)
    | WithURLPath(path: GoString)
    | WithInsecure
    | WithTimeout(timeout: Duration)
    | WithHeaders(headers: map<GoString, GoString>)

  /** The part of the exporter's configuration the options above set. */
  datatype ExporterConfig = ExporterConfig(
    endpoint: GoString,
    urlPath: GoString,
    insecure: bool,
    timeout: Duration,
    headers: map<GoString, GoString>)

  /** The configuration after one option. */
  function Apply(c: ExporterConfig, o: ExporterOption): (r: ExporterConfig)
  {
    match o
    case WithEndpoint(e) => c.(endpoint := e)
    case WithURLPath(p) => c.(urlPath := p)
    case WithInsecure => c.(insecure := true)
    case WithTimeout(t) => c.(timeout := t)
    case WithHeaders(h) => c.(headers := h)
  }

  /** The configuration after a whole option list, starting from `base`. */
  function ApplyAll(base: ExporterConfig, opts: seq<ExporterOption>): (r: ExporterConfig)
    ensures WithInsecure !in opts ==> r.insecure == base.insecure
    ensures WithInsecure in opts ==> r.insecure
    decreases |opts|
  {
    if opts == [] then base else ApplyAll(Apply(base, opts[0]), opts[1..])
  }

  /** Applying a concatenation applies its parts one after the other. */
  lemma {:induction false} ApplyAllAppend(base: ExporterConfig, a: seq<ExporterOption>, b: seq<ExporterOption>)
    ensures ApplyAll(base, a + b) == ApplyAll(ApplyAll(base, a), b)
    decreases |a|
  {
    if a == [] {
      assert a + b == b;
    } else {
      assert (a + b)[1..] == a[1..] + b;
      ApplyAllAppend(Apply(base, a[0]), a[1..], b);
    }
  }

  /** A two-option list applies its options in order. */
  lemma ApplyAllPair(base: ExporterConfig, a: ExporterOption, b: ExporterOption)
    ensures ApplyAll(base, [a, b]) == Apply(Apply(base, a), b)
  {
    assert [a, b][1..] == [b];
    assert [b][1..] == [];
    assert ApplyAll(Apply(base, a), [b]) == ApplyAll(Apply(Apply(base, a), b), []);
  }
}
