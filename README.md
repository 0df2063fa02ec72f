# dbpedia_filter: bounded SPARQL result collection

This project models `generate_embryo_list` from `src/main.rs` in the `dbpedia_filter` service, an Emergence filter. The function takes a search request, builds a SPARQL 1.1 `SELECT DISTINCT` query for DBpedia, sends it once, and turns the returned bindings into "embryos" (a `url` paired with a `resume`, which is the abstract text). It stops as soon as the time budget is spent. The model has three parts, proved in Dafny:

- **Request decoding** (`Request.DecodeParams`). The request is a string-to-string map with three keys: `value` defaults to `""`, `timeout` to 10 seconds and `dbo` to `"Company"`. A `timeout` that Rust's `u64` parser refuses aborts the request. That parser is modelled in `Decimal.ParseU64`: an optional `+`, at least one ASCII digit, a value below 2^64, and no `-` or whitespace. It is proved against decimal rendering as its inverse.
- **Query building** (`Query.Build`). The fixed template is split into three literals, `Head`, `Middle` and `Tail`, with the search term and the ontology class spliced in between them. Nothing is escaped. `Query.Parse` recovers both inputs from a query. The round trip holds whenever the term has no double quote, and a lemma shows that without escaping two different requests can produce the same query.
- **Deadline-bounded collection** (`Collector.WalkBindings` and `Collector.GenerateEmbryoList`). `WalkBindings` holds the loop. Like the Rust `for` loop pushing onto the `Vec`, it pushes onto a local list. It is proved equal to the branch of the specification `Collector.Collect` for a JSON reply that has a bindings array. `GenerateEmbryoList` follows the function's steps and calls `WalkBindings`; it is proved equal to the full specification `Collector.Generate`. Both specifications are stated through `Collector.Embryos` (all bindings mapped in order, stopping at the first one that aborts) and `Collector.Cutoff` (the first deadline check that fires).

Things the model abstracts:
- Panics (`expect`, `unwrap`) become `Failure` values of the datatype `Wrappers.Abort`.
- The network round trip becomes a parameter `upstream: string -> Upstream`, which gives the endpoint's answer to the query text.
- `start_time.elapsed()` becomes a parameter `clock: nat -> nat`: the elapsed nanoseconds at the i-th deadline check. It is compared with `timeout_secs * 10^9`, which is how `Duration` values are ordered.
- The JSON reply is a `Json.Value`. Only indexing by key, `as_array` and `as_str` are modelled, with serde_json's rule that indexing a missing key gives `Null`.

Behaviour of the code worth noting:
- A binding without a string `url.value` or `abstract.value` aborts the whole request. The model does not skip the binding.
- The reply must carry a `results.bindings` array, or the request aborts.
- A timeout of 0 always yields an empty list whenever that array is present. This is because elapsed ≥ 0 holds at the first check.
- `timeout` accepts a leading `+` and leading zeros. It refuses values of 2^64 and above.

## Model

| member | source | states |
|---|---|---|
| `Decimal.ParseU64` | src/main.rs:25-28 | `timeout.parse::<u64>()` succeeds exactly on an optional `+` followed by one or more digits denoting a value below 2^64, and then yields that value |
| `Decimal.AccumulateCorrect` | src/main.rs:26 | reading digits left to right with a checked multiply-and-add fails exactly on a non-digit or an overflow of 2^64, and otherwise yields the digits' value |
| `Decimal.Render` | src/main.rs:26 | the decimal text of a number is a non-empty digit string whose value is that number (the inverse used for the round trip) |
| `Decimal.ParseRender` | src/main.rs:26 | parsing the decimal text of n, with or without `+`, gives n for every n below 2^64 and fails (no wrap-around) for larger n |
| `Decimal.ParseRejectsSignAndSpace` | src/main.rs:26 | a leading `-` (even on zero) and leading or trailing whitespace make the timeout unparsable |
| `Request.DecodeParams` | src/main.rs:21-32 | an absent `value`/`timeout`/`dbo` resolves to `""`/10/`"Company"` and a present one is used verbatim; the result fails, with the timeout abort, exactly when `timeout` is present and not a u64 literal, so it never falls back to 10 |
| `Request.OtherKeysIgnored` | src/main.rs:21-32 | keys other than `value`, `timeout` and `dbo` do not affect the decoded parameters |
| `Request.EmptyRequestDefaults` | src/main.rs:21-32 | the empty request `{}` decodes to value `""`, timeout 10 and category `Company` |
| `Query.Build` | src/main.rs:34-48 | the query is the fixed template with `value` verbatim inside the `contains(?label, "…")` literal and `dbo` verbatim after `http://dbpedia.org/ontology/`, at fixed offsets, for any inputs including an empty `value` |
| `Query.Parse` | src/main.rs:34-48 | any pair recovered from a query rebuilds exactly that query, and its term contains no double quote |
| `Query.RoundTrip` | src/main.rs:44-45 | for a term without a double quote and any category, parsing the built query returns both unchanged |
| `Query.SubstitutionIsAmbiguous` | src/main.rs:44-45 | because nothing is escaped, a term that closes the literal yields the same query as a different term and category |
| `Collector.ToEmbryo` | src/main.rs:71-75 | a binding becomes an Embryo whose properties are exactly `url` and `resume`, taken from `url.value` and `abstract.value`; a missing `url` string aborts first, then a missing `abstract` string |
| `Collector.EmbryosInOrder` | src/main.rs:66-77 | a successful mapping has one Embryo per binding, the j-th made from the j-th binding |
| `Collector.EmbryosFailure` | src/main.rs:71-72 | the mapping aborts exactly when some binding lacks a string, and then with the abort of the first such binding |
| `Collector.EmbryosAppend` | src/main.rs:66-77 | mapping a concatenation maps the first part and then the second, with the first abort winning |
| `Collector.Cutoff` | src/main.rs:66-69 | the cutoff is the first check whose elapsed reading reaches the deadline, or the number of bindings when none does |
| `Collector.WalkBindings` | src/main.rs:66-77 | the loop returns the bindings before the cutoff, mapped in order, or the abort of the first malformed binding among them |
| `Collector.GenerateEmbryoList` | src/main.rs:18-94 | the step-by-step function returns exactly the specification `Generate`: request decoding, the query sent upstream, then the bounded collection |
| `Collector.UpstreamFailureIsEmpty` | src/main.rs:60-94 | a transport error, a non-2xx status, an unreadable body or a non-JSON body each yields an empty list rather than an abort |
| `Collector.MissingBindingsAborts` | src/main.rs:65 | a JSON reply without a `results.bindings` array aborts |
| `Collector.CollectedIsMappedPrefix` | src/main.rs:65-77 | on a JSON reply the list has exactly cutoff-many Embryos, never more than the bindings, each from the binding at its position and with keys exactly `url` and `resume`; it aborts exactly when a binding before the cutoff is malformed |
| `Collector.CutoffSplitsAtDeadline` | src/main.rs:66-69 | with a non-decreasing clock, a binding is before the cutoff if and only if its check is under the deadline, so every later binding is excluded too |
| `Collector.NoDeadlineMeansFullList` | src/main.rs:66-94 | when no check reaches the deadline, the whole binding list is mapped |
| `Collector.ZeroTimeoutIsEmpty` | src/main.rs:50-51 | with a timeout of 0 the result is the empty list, or the missing-bindings abort |
| `Collector.BadTimeoutAborts` | src/main.rs:25-28 | a present `timeout` that is not a u64 literal makes the whole call abort with the timeout error, whatever the endpoint answers and the clock reads |
| `Collector.EmptyRequestSearchesCompanies` | src/main.rs:21-51 | the request `{}` sends the query built from `""` and `Company`, and collects its reply with a 10-second budget |
| `Collector.LongerTimeoutExtends` | src/main.rs:66-69 | over the same clock, a shorter timeout collects a prefix of what a longer timeout collects |

## Left out

- The outbound POST to `https://dbpedia.org/sparql` is not modelled: the `Accept: application/sparql-results+json` header, the form encoding of the `query` field and `reqwest` itself. It is network I/O, so its outcome is the `upstream` parameter.
- `Instant::now` and `elapsed` are not modelled. The wall clock is injected as `clock`, one reading per deadline check.
- serde_json's parsing of the request body and of the reply text is not modelled, because it is a foreign library. The request arrives already decoded as an optional string map. The reply arrives as `Text(None)` when it is not JSON, or as a `Json.Value`. JSON numbers are kept as integers and are never read.
- `query_handler` and the `Embryo`/`EmbryoList` types of the `embryo` crate are not modelled. They are actix-web response glue; `Collector.Embryo` only stands in for the property map.
- `main` is not modelled. It covers `em_filter::find_port`, `register_filter` and the server bootstrap, which are external discovery and server I/O.
- The `println!` logging on the error branches is not modelled.
- Concurrent requests served by the runtime are not modelled. Each call is independent and shares no state.
