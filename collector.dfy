/** `generate_embryo_list`: decode the request, build the query, send it once,
    and walk the returned bindings until the time budget is spent. */
module Collector {
  import opened Wrappers
  import opened Decimal
  import Request
  import Query
  import Json

  /** A result record: a property map that always holds exactly `url` and `resume`. */
  datatype Embryo = Embryo(properties: map<string, string>)

  /** What reading the reply's body gave: unreadable, or text that does or does
      not parse as JSON. */
  datatype Body = Unreadable | Text(parsed: Option<Json.Value>)

  /** The outcome of the one POST to the SPARQL endpoint. */
  datatype Upstream = TransportError | Reply(status: int, body: Body)

  /** `start_time.elapsed()` in nanoseconds at the i-th deadline check (one check
      per binding visited, counted from 0). */
  type Clock = nat -> nat

  const NanosPerSecond: nat := 1_000_000_000

  /** `Duration::from_secs(timeout_secs)` in nanoseconds. */
  function DeadlineNanos(secs: u64): nat
  {
    secs as nat * NanosPerSecond
  }

  /** `StatusCode::is_success`: the 2xx range. */
  predicate IsSuccess(status: int)
  {
    200 <= status <= 299
  }

  ghost predicate NonDecreasing(clock: Clock)
  {
    forall i, j :: i <= j ==> clock(i) <= clock(j)
  }

  /** `json["results"]["bindings"].as_array()`. */
  function ResultBindings(doc: Json.Value): Option<seq<Json.Value>>
  {
    Json.AsArray(Json.Get(Json.Get(doc, "results"), "bindings"))
  }

  /** `binding[name]["value"].as_str()`. */
  function Field(binding: Json.Value, name: string): Option<string>
  {
    Json.AsStr(Json.Get(Json.Get(binding, name), "value"))
  }

  /** One binding turned into an Embryo; the `url` field is read first, so a
      binding lacking both aborts on `url`. */
  function ToEmbryo(binding: Json.Value): (r: Result<Embryo, Abort>)
    ensures r.Success? <==> Field(binding, "url").Some? && Field(binding, "abstract").Some?
    ensures Field(binding, "url").None? ==> r == Failure(NoUrlValue)
    ensures Field(binding, "url").Some? && Field(binding, "abstract").None? ==> r == Failure(NoAbstractValue)
    ensures r.Success? ==> r.value.properties.Keys == {"url", "resume"}
    ensures r.Success? ==> r.value.properties["url"] == Field(binding, "url").value
    ensures r.Success? ==> r.value.properties["resume"] == Field(binding, "abstract").value
  {
    match Field(binding, "url")
    case None => Failure(NoUrlValue)
    case Some(url) =>
      match Field(binding, "abstract")
      case None => Failure(NoAbstractValue)
      case Some(resume) => Success(Embryo(map["url" := url, "resume" := resume]))
  }

  /** All bindings mapped in order, stopping at the first that aborts. */
  function Embryos(bindings: seq<Json.Value>): Result<seq<Embryo>, Abort>
  {
    if bindings == [] then Success([])
    else
      match ToEmbryo(bindings[0])
      case Failure(e) => Failure(e)
      case Success(embryo) =>
        match Embryos(bindings[1..])
        case Failure(e) => Failure(e)
        case Success(rest) => Success([embryo] + rest)
  }

  /** A successful mapping has one Embryo per binding, the j-th made from the j-th binding. */
  lemma {:induction false} EmbryosInOrder(bindings: seq<Json.Value>)
    requires Embryos(bindings).Success?
    ensures |Embryos(bindings).value| == |bindings|
    ensures forall j :: 0 <= j < |bindings| ==> ToEmbryo(bindings[j]) == Success(Embryos(bindings).value[j])
  {
    if bindings != [] {
      EmbryosInOrder(bindings[1..]);
      assert forall j :: 1 <= j < |bindings| ==> bindings[j] == bindings[1..][j - 1];
    }
  }

  /** The mapping aborts exactly when some binding lacks one of its two strings,
      and then with the abort of the first such binding. */
  lemma {:induction false} EmbryosFailure(bindings: seq<Json.Value>)
    ensures Embryos(bindings).Failure? <==> exists j :: 0 <= j < |bindings| && ToEmbryo(bindings[j]).Failure?
    ensures Embryos(bindings).Failure? ==>
              exists j :: 0 <= j < |bindings| && ToEmbryo(bindings[j]) == Failure(Embryos(bindings).error) &&
                          forall i :: 0 <= i < j ==> ToEmbryo(bindings[i]).Success?
  {
    if bindings != [] {
      EmbryosFailure(bindings[1..]);
      assert forall j :: 1 <= j < |bindings| ==> bindings[j] == bindings[1..][j - 1];
      if ToEmbryo(bindings[0]).Success? && Embryos(bindings[1..]).Failure? {
        var j :| 0 <= j < |bindings[1..]| && ToEmbryo(bindings[1..][j]) == Failure(Embryos(bindings[1..]).error) &&
                 forall i :: 0 <= i < j ==> ToEmbryo(bindings[1..][i]).Success?;
        assert ToEmbryo(bindings[j + 1]) == Failure(Embryos(bindings).error);
        assert forall i :: 1 <= i < j + 1 ==> ToEmbryo(bindings[i]).Success?;
      }
      if exists j :: 0 <= j < |bindings| && ToEmbryo(bindings[j]).Failure? {
        var j :| 0 <= j < |bindings| && ToEmbryo(bindings[j]).Failure?;
        if j > 0 {
          assert ToEmbryo(bindings[1..][j - 1]).Failure?;
        }
      }
    }
  }

  /** Index of the first deadline check at or past `deadline` among checks
      `i .. n-1`, or `n` when every check comes in under it. */
  function Cutoff(clock: Clock, deadline: nat, n: nat, i: nat): (k: nat)
    requires i <= n
    ensures i <= k <= n
    ensures forall j :: i <= j < k ==> clock(j) < deadline
    ensures k < n ==> clock(k) >= deadline
    decreases n - i
  {
    if i == n || clock(i) >= deadline then i else Cutoff(clock, deadline, n, i + 1)
  }

  /** What the walk over the reply yields for a timeout of `secs` seconds. */
  function Collect(reply: Upstream, secs: u64, clock: Clock): Result<seq<Embryo>, Abort>
  {
    match reply
    case TransportError => Success([])
    case Reply(status, body) =>
      if !IsSuccess(status) then Success([])
      else
        match body
        case Unreadable => Success([])
        case Text(None) => Success([])
        case Text(Some(doc)) =>
          match ResultBindings(doc)
          case None => Failure(NoBindingsArray)
          case Some(bindings) =>
            Embryos(bindings[..Cutoff(clock, DeadlineNanos(secs), |bindings|, 0)])
  }

  /** The whole of `generate_embryo_list`. `request` is the body as decoded into
      a string map (`None` when it is not one); `upstream` answers the query. */
  function Generate(request: Option<map<string, string>>, upstream: string -> Upstream, clock: Clock)
    : Result<seq<Embryo>, Abort>
  {
    match request
    case None => Failure(UnparsableRequest)
    case Some(search) =>
      match Request.DecodeParams(search)
      case Failure(e) => Failure(e)
      case Success(p) => Collect(upstream(Query.Build(p.value, p.dbo)), p.timeoutSecs, clock)
  }

  lemma EmbryosSingle(binding: Json.Value)
    requires ToEmbryo(binding).Success?
    ensures Embryos([binding]) == Success([ToEmbryo(binding).value])
  {
    assert [binding][1..] == [];
    assert [ToEmbryo(binding).value] + [] == [ToEmbryo(binding).value];
  }

  /** Mapping a concatenation maps the first part, then the second. */
  lemma {:induction false} EmbryosAppend(p: seq<Json.Value>, q: seq<Json.Value>)
    ensures Embryos(p + q) ==
            match Embryos(p)
            case Failure(e) => Failure(e)
            case Success(l) =>
              match Embryos(q)
              case Failure(e) => Failure(e)
              case Success(m) => Success(l + m)
    decreases |p|
  {
    if p == [] {
      assert p + q == q;
      match Embryos(q)
      case Failure(e) =>
      case Success(m) => assert [] + m == m;
    } else {
      assert (p + q)[0] == p[0];
      assert (p + q)[1..] == p[1..] + q;
      EmbryosAppend(p[1..], q);
      match ToEmbryo(p[0])
      case Failure(e) =>
      case Success(embryo) =>
        match Embryos(p[1..])
        case Failure(e) =>
        case Success(l) =>
          match Embryos(q)
          case Failure(e) =>
          case Success(m) =>
            assert [embryo] + l + m == [embryo] + (l + m);
    }
  }

  /** A transport error, a non-2xx status, an unreadable body or a body that
      is not JSON each gives an empty list, never an abort. */
  lemma UpstreamFailureIsEmpty(reply: Upstream, secs: u64, clock: Clock)
    requires || reply.TransportError?
             || (reply.Reply? && !IsSuccess(reply.status))
             || (reply.Reply? && reply.body.Unreadable?)
             || (reply.Reply? && reply.body.Text? && reply.body.parsed.None?)
    ensures Collect(reply, secs, clock) == Success([])
  {
  }

  /** A JSON reply whose `results.bindings` is not an array aborts, whatever the clock says. */
  lemma MissingBindingsAborts(reply: Upstream, secs: u64, clock: Clock)
    requires reply.Reply? && IsSuccess(reply.status) && reply.body.Text? && reply.body.parsed.Some?
    requires ResultBindings(reply.body.parsed.value).None?
    ensures Collect(reply, secs, clock) == Failure(NoBindingsArray)
  {
  }

  /** On a JSON reply with a bindings array, the list is the bindings before the
      first deadline check that fires, mapped in order: never reordered, never
      skipped, never longer than the bindings; each Embryo carries exactly `url`
      and `resume`. It aborts exactly when one of those bindings lacks a string. */
  lemma {:induction false} CollectedIsMappedPrefix(reply: Upstream, secs: u64, clock: Clock)
    requires reply.Reply? && IsSuccess(reply.status) && reply.body.Text? && reply.body.parsed.Some?
    requires ResultBindings(reply.body.parsed.value).Some?
    ensures var bindings := ResultBindings(reply.body.parsed.value).value;
            var k := Cutoff(clock, DeadlineNanos(secs), |bindings|, 0);
            var r := Collect(reply, secs, clock);
            && (r.Success? ==> |r.value| == k <= |bindings|)
            && (r.Success? ==> forall j :: 0 <= j < k ==> ToEmbryo(bindings[j]) == Success(r.value[j]))
            && (r.Success? ==> forall j :: 0 <= j < k ==> r.value[j].properties.Keys == {"url", "resume"})
            && (r.Failure? <==> exists j :: 0 <= j < k && ToEmbryo(bindings[j]).Failure?)
  {
    var bindings := ResultBindings(reply.body.parsed.value).value;
    var k := Cutoff(clock, DeadlineNanos(secs), |bindings|, 0);
    var prefix := bindings[..k];
    EmbryosFailure(prefix);
    assert forall j :: 0 <= j < k ==> prefix[j] == bindings[j];
    if Embryos(prefix).Success? {
      EmbryosInOrder(prefix);
    }
  }

  /** With a clock that never runs backwards, the deadline splits the bindings
      in two: every check before the cutoff is under the deadline and every
      check from the cutoff on is at or past it. */
  lemma CutoffSplitsAtDeadline(clock: Clock, deadline: nat, n: nat)
    requires NonDecreasing(clock)
    ensures forall j :: 0 <= j < n ==> (j < Cutoff(clock, deadline, n, 0) <==> clock(j) < deadline)
  {
  }

  /** When no check reaches the deadline, the whole binding list is mapped. */
  lemma NoDeadlineMeansFullList(bindings: seq<Json.Value>, deadline: nat, clock: Clock)
    requires forall j :: 0 <= j < |bindings| ==> clock(j) < deadline
    ensures Embryos(bindings[..Cutoff(clock, deadline, |bindings|, 0)]) == Embryos(bindings)
  {
    assert bindings[..|bindings|] == bindings;
  }

  /** A timeout of 0 seconds fires at the first check, so nothing is collected:
      the reply either yields an empty list or has no bindings array. */
  lemma ZeroTimeoutIsEmpty(reply: Upstream, clock: Clock)
    ensures Collect(reply, 0, clock) in {Success([]), Failure(NoBindingsArray)}
  {
  }

  /** A longer timeout can only extend the list: what a shorter one collects is
      a prefix of what a longer one collects over the same clock. */
  lemma {:induction false} LongerTimeoutExtends(bindings: seq<Json.Value>, clock: Clock, short: nat, long: nat)
    requires short <= long
    requires Embryos(bindings[..Cutoff(clock, long, |bindings|, 0)]).Success?
    ensures Cutoff(clock, short, |bindings|, 0) <= Cutoff(clock, long, |bindings|, 0)
    ensures var r := Embryos(bindings[..Cutoff(clock, short, |bindings|, 0)]);
            && r.Success?
            && r.value <= Embryos(bindings[..Cutoff(clock, long, |bindings|, 0)]).value
  {
    var n := |bindings|;
    var ks, kl := Cutoff(clock, short, n, 0), Cutoff(clock, long, n, 0);
    assert bindings[..kl] == bindings[..ks] + bindings[ks..kl];
    EmbryosAppend(bindings[..ks], bindings[ks..kl]);
  }

  /** A `timeout` that does not parse aborts the call before anything is sent. */
  lemma BadTimeoutAborts(search: map<string, string>, upstream: string -> Upstream, clock: Clock)
    requires "timeout" in search && !IsU64Literal(search["timeout"])
    ensures Generate(Some(search), upstream, clock) == Failure(UnparsableTimeout)
  {
  }

  /** The empty request searches `Company` entities for "" with a 10-second budget. */
  lemma EmptyRequestSearchesCompanies(upstream: string -> Upstream, clock: Clock)
    ensures Generate(Some(map[]), upstream, clock) == Collect(upstream(Query.Build("", "Company")), 10, clock)
  {
    Request.EmptyRequestDefaults();
  }

  /** The `for` loop of lines 66-77: visits the bindings in order, returns what
      it has pushed so far once a deadline check fires, and aborts on a binding
      without its two strings. Its result is the mapped deadline prefix. */
  method WalkBindings(bindings: seq<Json.Value>, deadline: nat, clock: Clock)
    returns (r: Result<seq<Embryo>, Abort>)
    ensures r == Embryos(bindings[..Cutoff(clock, deadline, |bindings|, 0)])
  {
    var embryoList: seq<Embryo> := [];
    ghost var k := Cutoff(clock, deadline, |bindings|, 0);
    var i := 0;
    while i < |bindings|
      invariant 0 <= i <= k
      invariant Embryos(bindings[..i]) == Success(embryoList)
    {
      if clock(i) >= deadline {
        return Success(embryoList);
      }
      var embryo := ToEmbryo(bindings[i]);
      assert bindings[..i + 1] == bindings[..i] + [bindings[i]];
      EmbryosAppend(bindings[..i], [bindings[i]]);
      if embryo.Failure? {
        assert bindings[..k] == bindings[..i + 1] + bindings[i + 1..k];
        EmbryosAppend(bindings[..i + 1], bindings[i + 1..k]);
        return Failure(embryo.error);
      }
      EmbryosSingle(bindings[i]);
      embryoList := embryoList + [embryo.value];
      i := i + 1;
    }
    return Success(embryoList);
  }

  /** Lines 18-94 step by step; the result is exactly what `Generate` specifies. */
  method GenerateEmbryoList(request: Option<map<string, string>>, upstream: string -> Upstream, clock: Clock)
    returns (r: Result<seq<Embryo>, Abort>)
    ensures r == Generate(request, upstream, clock)
  {
    if request.None? {
      return Failure(UnparsableRequest);
    }
    var params := Request.DecodeParams(request.value);
    if params.Failure? {
      return Failure(params.error);
    }
    var query := Query.Build(params.value.value, params.value.dbo);
    var response := upstream(query);
    if response.Reply? && IsSuccess(response.status) && response.body.Text? && response.body.parsed.Some? {
      var found := ResultBindings(response.body.parsed.value);
      if found.None? {
        return Failure(NoBindingsArray);
      }
      r := WalkBindings(found.value, DeadlineNanos(params.value.timeoutSecs), clock);
    } else {
      r := Success([]);
    }
  }
}
