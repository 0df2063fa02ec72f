/** Decoding of the search request into its three parameters, with their defaults. */
module Request {
  import opened Wrappers
  import opened Decimal

  datatype Params = Params(value: string, timeoutSecs: u64, dbo: string)

  const DefaultValue: string := ""
  const DefaultTimeoutSecs: u64 := 10
  const DefaultDbo: string := "Company"

  /** Reads `value`, `timeout` and `dbo` from the decoded request object. An absent
      key takes its default; a present key is used as given, except that a
      `timeout` that is not a u64 aborts the request instead of falling back. */
  function DecodeParams(search: map<string, string>): (r: Result<Params, Abort>)
    ensures r.Failure? <==> "timeout" in search && !IsU64Literal(search["timeout"])
    ensures r.Failure? ==> r.error == UnparsableTimeout
    ensures r.Success? && "value" !in search ==> r.value.value == ""
    ensures r.Success? && "value" in search ==> r.value.value == search["value"]
    ensures r.Success? && "timeout" !in search ==> r.value.timeoutSecs == 10
    ensures r.Success? && "timeout" in search ==>
              r.value.timeoutSecs as int == DigitsValue(Unsigned(search["timeout"]))
    ensures r.Success? && "dbo" !in search ==> r.value.dbo == "Company"
    ensures r.Success? && "dbo" in search ==> r.value.dbo == search["dbo"]
  {
    var value := if "value" in search then search["value"] else DefaultValue;
    var timeout := if "timeout" in search then ParseU64(search["timeout"]) else Some(DefaultTimeoutSecs);
    var dbo := if "dbo" in search then search["dbo"] else DefaultDbo;
    match timeout
    case None => Failure(UnparsableTimeout)
    case Some(t) => Success(Params(value, t, dbo))
  }

  /** Keys other than the three recognised ones are ignored. */
  lemma OtherKeysIgnored(search: map<string, string>, k: string, v: string)
    requires k != "value" && k != "timeout" && k != "dbo"
    ensures DecodeParams(search[k := v]) == DecodeParams(search)
  {
  }

  /** The empty request `{}` searches for "" in the `Company` category for 10 seconds. */
  lemma EmptyRequestDefaults()
    ensures DecodeParams(map[]) == Success(Params("", 10, "Company"))
  {
  }
}
