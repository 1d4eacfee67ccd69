/**
 * The NVD-compatible endpoint `/rest/json/cves/2.0+deb`: the NVD record
 * of one CVE, extended by one configuration block over its Debian
 * matches, in the NVD API's response envelope.
 */
module WebNvd {
  import opened Wrappers
  import opened Json
  import opened Database
  import opened CombineAll
  import opened WebV1Cves

  /**
   * The rows the statement streams for `cve`: its NVD document with the
   * match blobs of its `deb_cve` rows, or nothing for an unknown CVE.
   */
  function Rows(nvd: map<string, NvdCveRow>, debcve: map<CveKey, DebCveRow>, order: seq<CveKey>, cve: string): seq<(Json, seq<Json>)> {
    if cve in nvd then [(nvd[cve].data, Matches(debcve, order, cve))] else []
  }

  /** One streamed row as a result: the block is added only when there are matches; the document goes under `cve`. */
  function Wrapped(data: Json, matches: seq<Json>): Result<Json> {
    if matches == [] then Ok(JObj(map["cve" := data]))
    else
      match SetDefaultAppend(data, "configurations", ConfigBlock(matches))
      case Err(e) => Err(e)
      case Ok(d) => Ok(JObj(map["cve" := d]))
  }

  /** The results of the rows in order; the first failing row ends the request. */
  function Results(rows: seq<(Json, seq<Json>)>): Result<seq<Json>>
    decreases |rows|
  {
    if rows == [] then Ok([])
    else
      match Results(rows[..|rows| - 1])
      case Err(e) => Err(e)
      case Ok(rs) =>
        var last := rows[|rows| - 1];
        match Wrapped(last.0, last.1)
        case Err(e) => Err(e)
        case Ok(w) => Ok(rs + [w])
  }

  /** The response envelope. */
  function Envelope(results: seq<Json>): Json {
    JObj(map["format" := JStr("NVD_CVE"), "version" := JStr("2.0+deb"), "vulnerabilities" := JArr(results)])
  }

  /**
   * `nvd_cve_deb`, with `order` the order in which the aggregation reads
   * every `deb_cve` row once. Without a `cveId` no statement is bound
   * (`UnboundLocalError`). An unknown CVE gives no vulnerabilities. A CVE
   * without `deb_cve` rows comes back as stored; with matches its document is
   * the one `combine_all` stores for it.
   */
  method NvdCveDeb(cveId: Option<string>, nvd: map<string, NvdCveRow>, debcve: map<CveKey, DebCveRow>, order: seq<CveKey>)
    returns (r: Result<Reply>)
    requires Enumerates(order, debcve.Keys)
    ensures !Given(cveId) ==> r == Err(UnboundLocalError)
    ensures Given(cveId) && cveId.value !in nvd ==> r == Ok(Reply(Document(Envelope([])), 200))
    ensures Given(cveId) && cveId.value in nvd && !HasRows(debcve, cveId.value) ==>
              r == Ok(Reply(Document(Envelope([JObj(map["cve" := nvd[cveId.value].data])])), 200))
    ensures Given(cveId) && cveId.value in nvd && HasRows(debcve, cveId.value) ==>
              (var d := NewData(nvd, debcve, order, cveId.value);
               && (d.Err? ==> r == Err(d.error))
               && (d.Ok? ==> r == Ok(Reply(Document(Envelope([JObj(map["cve" := d.value])])), 200))))
  {
    if !Given(cveId) {
      return Err(UnboundLocalError);
    }
    var rows := Rows(nvd, debcve, order, cveId.value);
    RowsResults(nvd, debcve, order, cveId.value);
    MatchesEmpty(debcve, order, cveId.value);
    var results: seq<Json> := [];
    for i := 0 to |rows|
      invariant Results(rows[..i]) == Ok(results)
    {
      assert rows[..i + 1][..i] == rows[..i];
      var (data, matches) := rows[i];
      var item := Wrapped(data, matches);
      if item.Err? {
        assert rows[..i + 1] == rows;
        return Err(item.error);
      }
      results := results + [item.value];
    }
    assert rows[..|rows|] == rows;
    r := Ok(Reply(Document(Envelope(results)), 200));
  }

  /** Zero or one result: the wrapped document of a known CVE. */
  lemma RowsResults(nvd: map<string, NvdCveRow>, debcve: map<CveKey, DebCveRow>, order: seq<CveKey>, cve: string)
    ensures |Rows(nvd, debcve, order, cve)| <= 1
    ensures cve !in nvd ==> Results(Rows(nvd, debcve, order, cve)) == Ok([])
    ensures cve in nvd ==> var w := Wrapped(nvd[cve].data, Matches(debcve, order, cve));
      Results(Rows(nvd, debcve, order, cve)) == if w.Err? then Err(w.error) else Ok([w.value])
  {
    if cve in nvd {
      var rows := Rows(nvd, debcve, order, cve);
      assert rows[..|rows| - 1] == [];
      assert Results(rows[..|rows| - 1]) == Ok([]);
      var w := Wrapped(nvd[cve].data, Matches(debcve, order, cve));
      assert rows[|rows| - 1] == (nvd[cve].data, Matches(debcve, order, cve));
      if w.Ok? {
        assert Results(rows) == Ok([] + [w.value]);
        assert [] + [w.value] == [w.value];
      }
    }
  }

  /** The added block lists the match blob of every `deb_cve` row of the CVE and nothing else. */
  lemma BlockLists(nvd: map<string, NvdCveRow>, debcve: map<CveKey, DebCveRow>, order: seq<CveKey>, cve: string)
    requires Enumerates(order, debcve.Keys)
    ensures forall m :: m in ConfigBlock(Matches(debcve, order, cve)).fields["nodes"].items[0].fields["cpeMatch"].items <==>
      exists k :: k in debcve && k.1 == cve && debcve[k].dataCpeMatch == m
  {
    MatchesExact(debcve, order, cve);
  }
}
