/** The column type that stores a `CvssSeverity` as its integer value. */
module DbTypes {
  import opened Wrappers
  import opened Cvss

  /** `process_bind_param`: the value written to the integer column. */
  function ProcessBindParam(v: Option<CvssSeverity>): (r: Option<int>)
    ensures r.None? <==> v.None?
    ensures r.Some? ==> 0 <= r.value <= 5
  {
    match v
    case None => None
    case Some(s) => Some(Value(s))
  }

  /** `process_result_value`: NULL stays NULL, an integer becomes the member with that value. */
  function ProcessResultValue(v: Option<int>): (r: Result<Option<CvssSeverity>>)
    ensures r.Err? <==> v.Some? && !(0 <= v.value <= 5)
    ensures r.Ok? ==> (r.value.None? <==> v.None?)
    ensures r.Ok? && r.value.Some? ==> Value(r.value.value) == v.value
  {
    match v
    case None => Ok(None)
    case Some(i) =>
      match FromValue(i)
      case Ok(s) => Ok(Some(s))
      case Err(e) => Err(e)
  }

  /** Reading back what was written gives the value that was written. */
  lemma BindResultRoundTrip(v: Option<CvssSeverity>)
    ensures ProcessResultValue(ProcessBindParam(v)) == Ok(v)
  {
    if v.Some? { ValueRoundTrip(v.value); }
  }
}
