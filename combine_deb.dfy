/**
 * The `combine-deb` pass: for every concrete distribution, join its
 * source packages with the Debian advisories of the distribution and of
 * its fallback distributions and with the NVD records, derive whether the
 * installed version is vulnerable and how severe the CVE is, synthesise a
 * CPE match blob, and reconcile the `deb_cve` rows of the distribution.
 */
module DataCombineDeb {
  import opened Wrappers
  import opened Json
  import opened Cvss
  import opened Text
  import opened CpeNames
  import opened Database
  import opened Sets

  // ---------------------------------------------------------------- severity of an NVD record

  /** `i.get('type', None) == 'Primary'` on one metric entry. */
  predicate IsPrimary(x: Json)
    requires x.JObj?
  {
    "type" in x.fields && x.fields["type"] == JStr("Primary")
  }

  /**
   * `[i for i in items if i.get('type', None) == 'Primary']`: the primary
   * entries in order; an entry that is not an object has no `get`.
   */
  function Primary(items: seq<Json>): (r: Result<seq<Json>>)
    ensures r.Ok? <==> forall k :: 0 <= k < |items| ==> items[k].JObj?
    ensures r.Err? ==> r.error == AttributeError
    ensures r.Ok? ==> forall k :: 0 <= k < |r.value| ==> r.value[k].JObj? && IsPrimary(r.value[k])
    ensures r.Ok? ==> (r.value == [] <==> forall k :: 0 <= k < |items| ==> !IsPrimary(items[k]))
    decreases |items|
  {
    if items == [] then Ok([])
    else if !items[0].JObj? then Err(AttributeError)
    else
      match Primary(items[1..])
      case Err(e) => Err(e)
      case Ok(rest) =>
        assert forall k :: 1 <= k < |items| ==> items[k] == items[1..][k - 1];
        Ok(if IsPrimary(items[0]) then [items[0]] + rest else rest)
  }

  /** The first entry of the primary list is the first primary entry of the metrics. */
  lemma {:induction false} PrimaryFirst(items: seq<Json>, k: nat)
    requires k < |items| && forall j :: 0 <= j < |items| ==> items[j].JObj?
    requires IsPrimary(items[k]) && forall j :: 0 <= j < k ==> !IsPrimary(items[j])
    ensures Primary(items).Ok? && Primary(items).value != [] && Primary(items).value[0] == items[k]
    decreases k
  {
    if k > 0 {
      PrimaryFirst(items[1..], k - 1);
    }
  }

  /** `metrics_primary[0].get('cvssData', {}).get('baseSeverity')`; `None` when either key is missing. */
  function BaseSeverity(x: Json): Result<Option<Json>>
    requires x.JObj?
  {
    var data := if "cvssData" in x.fields then x.fields["cvssData"] else JObj(map[]);
    if !data.JObj? then Err(AttributeError) else Ok(Get(data, "baseSeverity"))
  }

  /** `CvssSeverity[severity]` with its `KeyError` caught; a list or an object is not hashable. */
  function ByName(sev: Json): (r: Result<Option<CvssSeverity>>)
    ensures r.Ok? && r.value.Some? <==> sev.JStr? && FromName(sev.s).Ok?
    ensures r.Ok? && r.value.Some? ==> Name(r.value.value) == sev.s
    ensures r.Err? <==> sev.JArr? || sev.JObj?
  {
    match sev
    case JStr(s) => (match FromName(s) case Ok(v) => Ok(Some(v)) case Err(_) => Ok(None))
    case JArr(_) => Err(TypeError)
    case JObj(_) => Err(TypeError)
    case _ => Ok(None)
  }

  /** The metric versions in the order they are tried. */
  const MetricVersions: seq<string> := ["cvssMetricV31", "cvssMetricV30"]

  /**
   * One round of the loop over the metric versions: `None` when the round
   * falls through to the next version, otherwise what it returns or raises.
   * A round falls through when the version is missing or empty, has no
   * primary entry, or its first primary entry has no (or an empty)
   * `baseSeverity`.
   */
  function Round(metrics: map<string, Json>, v: string): Option<Result<Option<CvssSeverity>>> {
    if v !in metrics || !Truthy(metrics[v]) then None
    else
      match metrics[v]
      case JArr(items) =>
        (match Primary(items)
         case Err(e) => Some(Err(e))
         case Ok(p) =>
           if p == [] then None
           else
             match BaseSeverity(p[0])
             case Err(e) => Some(Err(e))
             case Ok(s) => if s.None? || !Truthy(s.value) then None else Some(ByName(s.value)))
      case JNum(_) => Some(Err(TypeError))
      case JBool(_) => Some(Err(TypeError))
      case _ => Some(Err(AttributeError))
  }

  /** The rounds over `vs` in order: the first round that does not fall through decides. */
  function SeverityOver(metrics: map<string, Json>, vs: seq<string>): Result<Option<CvssSeverity>>
    decreases |vs|
  {
    if vs == [] then Ok(None)
    else
      match Round(metrics, vs[0])
      case Some(r) => r
      case None => SeverityOver(metrics, vs[1..])
  }

  /** What `extract_cvss_severity` returns or raises for an NVD record. */
  function Severity(entry: Json): Result<Option<CvssSeverity>> {
    if !entry.JObj? then Err(AttributeError)
    else
      var m := Get(entry, "metrics");
      if m.None? || !Truthy(m.value) then Ok(None)
      else if !m.value.JObj? then Err(AttributeError)
      else SeverityOver(m.value.fields, MetricVersions)
  }

  /** `extract_cvss_severity`: the loop over the metric versions with its early returns. */
  method ExtractCvssSeverity(entry: Json) returns (r: Result<Option<CvssSeverity>>)
    ensures r == Severity(entry)
  {
    if !entry.JObj? {
      return Err(AttributeError);
    }
    var m := Get(entry, "metrics");
    if m.None? || !Truthy(m.value) {
      return Ok(None);
    }
    if !m.value.JObj? {
      return Err(AttributeError);
    }
    var metrics := m.value.fields;
    for i := 0 to |MetricVersions|
      invariant SeverityOver(metrics, MetricVersions[i..]) == SeverityOver(metrics, MetricVersions)
    {
      var round := Round(metrics, MetricVersions[i]);
      if round.Some? {
        return round.value;
      }
      assert MetricVersions[i..][1..] == MetricVersions[i + 1..];
    }
    return Ok(None);
  }

  /** Version `v` of the metrics names severity `s` in the `baseSeverity` of its first primary entry. */
  predicate NamedBy(metrics: map<string, Json>, v: string, s: CvssSeverity) {
    && v in metrics && metrics[v].JArr?
    && Primary(metrics[v].items).Ok? && Primary(metrics[v].items).value != []
    && BaseSeverity(Primary(metrics[v].items).value[0]) == Ok(Some(JStr(Name(s))))
  }

  /** The metrics object of an NVD record, when it has a non-empty one. */
  function MetricsOf(entry: Json): Option<map<string, Json>> {
    if entry.JObj? && "metrics" in entry.fields && entry.fields["metrics"].JObj? && entry.fields["metrics"].fields != map[]
    then Some(entry.fields["metrics"].fields) else None
  }

  /** Every severity found is the name in the first primary entry of the V3.1 or the V3.0 metrics. */
  lemma SeverityNamed(entry: Json, s: CvssSeverity)
    requires Severity(entry) == Ok(Some(s))
    ensures MetricsOf(entry).Some?
    ensures NamedBy(MetricsOf(entry).value, "cvssMetricV31", s) || NamedBy(MetricsOf(entry).value, "cvssMetricV30", s)
  {
    var m := entry.fields["metrics"].fields;
    if Round(m, "cvssMetricV31").None? {
      assert MetricVersions[1..] == ["cvssMetricV30"];
      assert Round(m, "cvssMetricV30").Some?;
    }
  }

  /** A V3.1 primary entry naming a severity decides, whatever V3.0 says. */
  lemma V31Decides(entry: Json, s: CvssSeverity)
    requires MetricsOf(entry).Some? && NamedBy(MetricsOf(entry).value, "cvssMetricV31", s)
    ensures Severity(entry) == Ok(Some(s))
  {
    NameRoundTrip(s);
  }

  /**
   * A V3.1 primary entry with an unknown severity name gives no severity:
   * the `KeyError` returns `None` before V3.0 is looked at.
   */
  lemma UnknownNameStops(entry: Json, n: string)
    requires MetricsOf(entry).Some? && var m := MetricsOf(entry).value;
      && "cvssMetricV31" in m && m["cvssMetricV31"].JArr?
      && Primary(m["cvssMetricV31"].items).Ok? && Primary(m["cvssMetricV31"].items).value != []
      && BaseSeverity(Primary(m["cvssMetricV31"].items).value[0]) == Ok(Some(JStr(n)))
    requires n != "" && FromName(n).Err?
    ensures Severity(entry) == Ok(None)
  {
  }

  /** Without usable V3.1 metrics the V3.0 metrics alone decide. */
  lemma V30Fallback(entry: Json)
    requires MetricsOf(entry).Some? && Round(MetricsOf(entry).value, "cvssMetricV31").None?
    ensures Severity(entry) == SeverityOver(MetricsOf(entry).value, ["cvssMetricV30"])
  {
    assert MetricVersions[1..] == ["cvssMetricV30"];
  }

  /** A record without metrics, or with empty metrics, has no severity. */
  lemma NoMetrics(entry: Json)
    requires entry.JObj? && ("metrics" !in entry.fields || !Truthy(entry.fields["metrics"]))
    ensures Severity(entry) == Ok(None)
  {
  }

  // ---------------------------------------------------------------- one joined row

  /** One row of the join query: the advisory's CVE and NVD document, the source, and the advisory's verdict. */
  datatype JoinRow = JoinRow(
    cveId: string, data: Json, debSource: string, debVersion: string,
    debVersionFixed: Option<string>, vulnerable: bool, debsecNote: Option<string>)

  /** `[i.strip() for i in debsec_note.split(';')]` for a set, non-empty note, `[]` otherwise. */
  function Notes(note: Option<string>): seq<string> {
    if note.None? || note.value == "" then []
    else
      var parts := Split(note.value, ';');
      seq(|parts|, k requires 0 <= k < |parts| => Strip(parts[k]))
  }

  /** A note written as `;`-separated tokens reads back as those tokens, stripped. */
  lemma NotesTokens(note: string, parts: seq<string>)
    requires note != "" && |parts| >= 1 && note == Join(parts, ";")
    requires forall k :: 0 <= k < |parts| ==> ';' !in parts[k]
    ensures |Notes(Some(note))| == |parts|
    ensures forall k :: 0 <= k < |parts| ==> Notes(Some(note))[k] == Strip(parts[k])
  {
    JoinSplit(parts, ';');
  }

  /** The OS CPE of the distribution with the source in its `other` field. */
  function CpeOf(d: DistCpe, src: string): Cpe {
    Cpe(Concrete(OS), Concrete(d.cpeVendor), Concrete(d.cpeProduct), Concrete(d.cpeVersion),
        Any, Any, Any, Any, Any, Concrete("deb_source=" + src))
  }

  /**
   * The `data_cpe_match` blob: the CPE criteria, the `deb` object with the
   * latest version, the severity name when there is a severity and the
   * fixed version when it is non-empty, and the vulnerable flag.
   */
  function MatchBlob(d: DistCpe, row: JoinRow, sev: Option<CvssSeverity>): Json {
    var deb := map["versionLatest" := JStr(row.debVersion)];
    var deb1 := if sev.Some? then deb["cvssSeverity" := JStr(Name(sev.value))] else deb;
    var fixed := row.debVersionFixed;
    var deb2 := if fixed.Some? && fixed.value != "" then deb1["versionEndExcluding" := JStr(fixed.value)] else deb1;
    JObj(map["criteria" := JStr(Format(CpeOf(d, row.debSource))), "deb" := JObj(deb2), "vulnerable" := JBool(row.vulnerable)])
  }

  /** The severity of the row: a token `unimportant` in the note overrides the NVD severity. */
  function RowSeverity(row: JoinRow, nvd: Option<CvssSeverity>): Option<CvssSeverity> {
    if "unimportant" in Notes(row.debsecNote) then Some(UNIMPORTANT) else nvd
  }

  /** The keyword arguments `combine` passes to `DebCve(...)`. */
  const EntryArgs: set<string> :=
    {"dist", "cve_id", "cvss_severity", "deb_source", "deb_version", "deb_version_fixed", "debsec_vulnerable", "data_cpe_match"}

  /** Every required keyword is given and no other, so the constructor call itself cannot fail. */
  lemma EntryArgsAccepted(e: DebCveRow)
    ensures DebCveRequired <= EntryArgs <= DebCveArgs
    ensures NewDebCve(EntryArgs, e) == Ok(e)
  {
  }

  /** The new `DebCve` entity for a joined row of distribution `id`, or the error the severity extraction raises. */
  function MakeEntry(d: DistCpe, id: int, row: JoinRow): Result<DebCveRow> {
    match Severity(row.data)
    case Err(e) => Err(e)
    case Ok(s) => NewDebCve(EntryArgs, EntryFor(d, id, row, s))
  }

  /** The entity built once the NVD severity `s` of the row is known. */
  function EntryFor(d: DistCpe, id: int, row: JoinRow, s: Option<CvssSeverity>): DebCveRow {
    var sev := RowSeverity(row, s);
    DebCveRow(Some(id), row.cveId, None, sev, row.debSource, row.debVersion, row.debVersionFixed,
              row.vulnerable, MatchBlob(d, row, sev))
  }

  /**
   * The entry for a row: keyed by the distribution, CVE and source; it
   * carries the row's versions and vulnerable flag; its severity is
   * UNIMPORTANT when the note has that token and the NVD severity
   * otherwise; and its blob holds exactly the criteria, `deb` and
   * `vulnerable` members, `deb` holding `versionLatest` always,
   * `cvssSeverity` just with a severity and `versionEndExcluding` just
   * with a non-empty fixed version.
   */
  lemma EntryShape(d: DistCpe, id: int, row: JoinRow)
    requires Severity(row.data).Ok?
    ensures var e := MakeEntry(d, id, row).value; var b := e.dataCpeMatch;
      && e.Key() == (Some(id), row.cveId, row.debSource)
      && e.debVersion == row.debVersion && e.debVersionFixed == row.debVersionFixed && e.debsecVulnerable == row.vulnerable
      && e.cvssSeverity == (if "unimportant" in Notes(row.debsecNote) then Some(UNIMPORTANT) else Severity(row.data).value)
      && b.JObj? && b.fields.Keys == {"criteria", "deb", "vulnerable"}
      && b.fields["criteria"] == JStr(Format(CpeOf(d, row.debSource)))
      && b.fields["vulnerable"] == JBool(row.vulnerable)
      && b.fields["deb"].JObj?
      && b.fields["deb"].fields.Keys
         == {"versionLatest"}
            + (if e.cvssSeverity.Some? then {"cvssSeverity"} else {})
            + (if row.debVersionFixed.Some? && row.debVersionFixed.value != "" then {"versionEndExcluding"} else {})
      && b.fields["deb"].fields["versionLatest"] == JStr(row.debVersion)
      && (e.cvssSeverity.Some? ==> b.fields["deb"].fields["cvssSeverity"] == JStr(Name(e.cvssSeverity.value)))
      && (row.debVersionFixed.Some? && row.debVersionFixed.value != "" ==>
            b.fields["deb"].fields["versionEndExcluding"] == JStr(row.debVersionFixed.value))
  {
  }

  /** The criteria parses back to the distribution's OS CPE with the source in `other`. */
  lemma CriteriaParses(d: DistCpe, src: string)
    requires FieldValueOk(Concrete(d.cpeVendor)) && FieldValueOk(Concrete(d.cpeProduct)) && FieldValueOk(Concrete(d.cpeVersion))
    requires '\n' !in src && (src == [] || src[|src| - 1] != '\\')
    ensures Parse(Format(CpeOf(d, src))) == Ok(CpeOf(d, src))
  {
    var o := "deb_source=" + src;
    assert o[|o| - 1] == (if src == [] then '=' else src[|src| - 1]);
    assert '\n' !in o by {
      assert forall k :: 0 <= k < |o| ==> o[k] == (if k < 11 then "deb_source="[k] else src[k - 11]);
    }
    ParseFormat(CpeOf(d, src));
  }

  /** A note token `unimportant` makes the entry UNIMPORTANT, whatever the NVD record says. */
  lemma UnimportantForces(d: DistCpe, id: int, row: JoinRow, parts: seq<string>, k: nat)
    requires Severity(row.data).Ok?
    requires row.debsecNote.Some? && row.debsecNote.value != "" && row.debsecNote.value == Join(parts, ";")
    requires |parts| >= 1 && forall j :: 0 <= j < |parts| ==> ';' !in parts[j]
    requires k < |parts| && Strip(parts[k]) == "unimportant"
    ensures MakeEntry(d, id, row).Ok? && MakeEntry(d, id, row).value.cvssSeverity == Some(UNIMPORTANT)
  {
    NotesTokens(row.debsecNote.value, parts);
    assert Notes(row.debsecNote)[k] == "unimportant";
    EntryArgsAccepted(EntryFor(d, id, row, Severity(row.data).value));
  }

  // ---------------------------------------------------------------- distribution stream

  /** Where the query's ORDER BY puts a distribution: Debian vendor rows first, then, in each group, empty-version rows. */
  function Rank(d: DistCpe): int {
    (if d.cpeVendor == "debian" then 0 else 2) + (if d.cpeVersion == "" then 0 else 1)
  }

  /** The distribution stream, (id, row) pairs, in the query's order. */
  predicate Ordered(stream: seq<(int, DistCpe)>) {
    forall i, j :: 0 <= i < j < |stream| ==> Rank(stream[i].1) <= Rank(stream[j].1)
  }

  /** An empty-version row of vendor/product `pair`: a fallback. */
  predicate FallbackOf(e: (int, DistCpe), pair: (string, string)) {
    e.1.cpeVersion == "" && (e.1.cpeVendor, e.1.cpeProduct) == pair
  }

  /** The id of the last fallback of `pair` among the first `n` rows of the stream. */
  function LastFallback(stream: seq<(int, DistCpe)>, n: nat, pair: (string, string)): Option<int>
    requires n <= |stream|
    decreases n
  {
    if n == 0 then None
    else if FallbackOf(stream[n - 1], pair) then Some(stream[n - 1].0)
    else LastFallback(stream, n - 1, pair)
  }

  function Opt(o: Option<int>): seq<int> {
    if o.Some? then [o.value] else []
  }

  const DebianPair: (string, string) := ("debian", "debian_linux")

  /**
   * The chain for row `i`: the distribution itself, then the last earlier
   * fallback of its vendor/product, then, for `gardenlinux`, the last
   * earlier Debian fallback.
   */
  function ChainAt(stream: seq<(int, DistCpe)>, i: nat): seq<int>
    requires i < |stream|
  {
    var d := stream[i].1;
    [stream[i].0] + Opt(LastFallback(stream, i, (d.cpeVendor, d.cpeProduct)))
    + (if d.cpeProduct == "gardenlinux" then Opt(LastFallback(stream, i, DebianPair)) else [])
  }

  /** A concrete distribution with its fallback chain of ids. */
  datatype Yield = Yield(id: int, dist: DistCpe, chain: seq<int>)

  /** The generator's output for the first `n` rows: one yield per concrete row, in stream order. */
  function Yields(stream: seq<(int, DistCpe)>, n: nat): seq<Yield>
    requires n <= |stream|
    decreases n
  {
    if n == 0 then []
    else
      Yields(stream, n - 1)
      + (if stream[n - 1].1.cpeVersion != "" then [Yield(stream[n - 1].0, stream[n - 1].1, ChainAt(stream, n - 1))] else [])
  }

  function MapGet(m: map<(string, string), int>, key: (string, string)): Option<int> {
    if key in m then Some(m[key]) else None
  }

  /**
   * `combine_dists`: stream the distributions, recording each
   * empty-version row as the fallback of its vendor/product and yielding
   * every other row with its chain.
   */
  method CombineDists(stream: seq<(int, DistCpe)>) returns (ys: seq<Yield>)
    ensures ys == Yields(stream, |stream|)
  {
    var fallbacks: map<(string, string), int> := map[];
    ys := [];
    for i := 0 to |stream|
      invariant ys == Yields(stream, i)
      invariant forall pair :: MapGet(fallbacks, pair) == LastFallback(stream, i, pair)
    {
      var (id, d) := stream[i];
      var pair := (d.cpeVendor, d.cpeProduct);
      if d.cpeVersion == "" {
        fallbacks := fallbacks[pair := id];
      } else {
        var chain := [id];
        var f := MapGet(fallbacks, pair);
        if f.Some? {
          chain := chain + [f.value];
        }
        if d.cpeProduct == "gardenlinux" {
          var g := MapGet(fallbacks, DebianPair);
          if g.Some? {
            chain := chain + [g.value];
          }
        }
        assert chain == ChainAt(stream, i);
        ys := ys + [Yield(id, d, chain)];
      }
    }
  }

  /** Fallback rows are never yielded; every yield starts its chain with itself. */
  lemma {:induction false} YieldsConcrete(stream: seq<(int, DistCpe)>, n: nat)
    requires n <= |stream|
    ensures forall j :: 0 <= j < |Yields(stream, n)| ==>
      && Yields(stream, n)[j].dist.cpeVersion != ""
      && Yields(stream, n)[j].chain != [] && Yields(stream, n)[j].chain[0] == Yields(stream, n)[j].id
    decreases n
  {
    if n > 0 {
      YieldsConcrete(stream, n - 1);
    }
  }

  /** Every concrete row is yielded, with its chain. */
  lemma {:induction false} YieldsComplete(stream: seq<(int, DistCpe)>, n: nat, i: nat)
    requires i < n <= |stream| && stream[i].1.cpeVersion != ""
    ensures Yield(stream[i].0, stream[i].1, ChainAt(stream, i)) in Yields(stream, n)
    decreases n
  {
    if i < n - 1 {
      YieldsComplete(stream, n - 1, i);
    }
  }

  /** Every yield is a concrete row of the stream with its chain. */
  lemma {:induction false} YieldsSound(stream: seq<(int, DistCpe)>, n: nat, y: Yield)
    requires n <= |stream| && y in Yields(stream, n)
    ensures exists i :: 0 <= i < n && stream[i].1.cpeVersion != "" && y == Yield(stream[i].0, stream[i].1, ChainAt(stream, i))
    decreases n
  {
    if y !in Yields(stream, n - 1) {
      assert y == Yield(stream[n - 1].0, stream[n - 1].1, ChainAt(stream, n - 1));
    } else {
      YieldsSound(stream, n - 1, y);
    }
  }

  /** Rows after the first `i` that are no fallback of `pair` do not change the last fallback. */
  lemma {:induction false} LastFallbackTail(stream: seq<(int, DistCpe)>, i: nat, n: nat, pair: (string, string))
    requires i <= n <= |stream|
    requires forall k :: i <= k < n ==> !FallbackOf(stream[k], pair)
    ensures LastFallback(stream, n, pair) == LastFallback(stream, i, pair)
    decreases n
  {
    if n > i {
      LastFallbackTail(stream, i, n - 1, pair);
    }
  }

  /** The only fallback of `pair` in the first `n` rows is the last one. */
  lemma {:induction false} LastFallbackUnique(stream: seq<(int, DistCpe)>, n: nat, f: nat, pair: (string, string))
    requires f < n <= |stream| && FallbackOf(stream[f], pair)
    requires forall k :: 0 <= k < n && k != f ==> !FallbackOf(stream[k], pair)
    ensures LastFallback(stream, n, pair) == Some(stream[f].0)
    decreases n
  {
    if n - 1 != f {
      LastFallbackUnique(stream, n - 1, f, pair);
    }
  }

  /**
   * In the query's order every fallback of a concrete row's vendor/product,
   * and the Debian fallbacks, come before it, so its chain holds the last
   * fallback of the whole stream.
   */
  lemma OrderedChain(stream: seq<(int, DistCpe)>, i: nat)
    requires Ordered(stream) && i < |stream| && stream[i].1.cpeVersion != ""
    ensures var d := stream[i].1;
      && LastFallback(stream, i, (d.cpeVendor, d.cpeProduct)) == LastFallback(stream, |stream|, (d.cpeVendor, d.cpeProduct))
      && LastFallback(stream, i, DebianPair) == LastFallback(stream, |stream|, DebianPair)
  {
    var d := stream[i].1;
    forall k | i <= k < |stream| ensures !FallbackOf(stream[k], (d.cpeVendor, d.cpeProduct)) && !FallbackOf(stream[k], DebianPair) {
      if k > i {
        assert Rank(stream[i].1) <= Rank(stream[k].1);
      }
    }
    LastFallbackTail(stream, i, |stream|, (d.cpeVendor, d.cpeProduct));
    LastFallbackTail(stream, i, |stream|, DebianPair);
  }

  // ---------------------------------------------------------------- the join

  /** `COALESCE(debsrc.deb_version < debsec_cve.deb_version_fixed, TRUE)` under the Debian version order `lt`. */
  function Vulnerable(version: string, fixed: Option<string>, lt: (string, string) -> bool): bool {
    fixed.None? || lt(version, fixed.value)
  }

  /**
   * The join for distribution `id` with fallback chain `chain`: every
   * source package of the distribution, with every advisory about that
   * source in a distribution of the chain whose CVE has an NVD record.
   */
  function JoinRows(debsrc: map<DebsrcKey, DebsrcRow>, debsec: map<CveKey, DebsecCveRow>, nvd: map<string, NvdCveRow>,
                    id: int, chain: seq<int>, lt: (string, string) -> bool): set<JoinRow>
  {
    set s, a | s in debsrc && a in debsec && s.0 == id && a.2 == s.1 && a.0 in chain && a.1 in nvd
      :: JoinRow(a.1, nvd[a.1].data, s.1, debsrc[s].debVersion, debsec[a].debVersionFixed,
                 Vulnerable(debsrc[s].debVersion, debsec[a].debVersionFixed, lt), debsec[a].debsecNote)
  }

  /** The join rows of a yielded distribution in the current store. */
  function Rows(store: Store, y: Yield, lt: (string, string) -> bool): set<JoinRow>
    reads store
  {
    JoinRows(store.debsrc, store.debsec, store.nvd, y.id, y.chain, lt)
  }

  /** An advisory about a source of the distribution, in a chain distribution, with an NVD record, is joined. */
  lemma JoinHas(debsrc: map<DebsrcKey, DebsrcRow>, debsec: map<CveKey, DebsecCveRow>, nvd: map<string, NvdCveRow>,
                id: int, chain: seq<int>, lt: (string, string) -> bool, src: string, a: CveKey)
    requires (id, src) in debsrc && a in debsec && a.2 == src && a.0 in chain && a.1 in nvd
    ensures var v := debsrc[(id, src)].debVersion; var fixed := debsec[a].debVersionFixed;
      JoinRow(a.1, nvd[a.1].data, src, v, fixed, Vulnerable(v, fixed, lt), debsec[a].debsecNote) in JoinRows(debsrc, debsec, nvd, id, chain, lt)
  {
    var s := (id, src);
    assert s in debsrc && s.1 == src;
  }

  // ---------------------------------------------------------------- new entries

  /** New entries are keyed by (cve_id, deb_source). */
  type EntryKey = (string, string)

  function RowKey(row: JoinRow): EntryKey {
    (row.cveId, row.debSource)
  }

  function RowKeys(rows: set<JoinRow>): set<EntryKey> {
    set row | row in rows :: RowKey(row)
  }

  /**
   * `new_entries` after the loop over the join rows `rows`: one entry per
   * key of the rows, each built from some row with that key. Which row
   * wins when several share a key depends on the row order, which the
   * query does not fix.
   */
  ghost predicate Built(m: map<EntryKey, DebCveRow>, rows: set<JoinRow>, d: DistCpe, id: int) {
    && m.Keys == RowKeys(rows)
    && forall key :: key in m ==> BuiltFrom(m[key], rows, d, id, key)
  }

  /** `e` is the entity built from some row of `rows` with key `key`. */
  ghost predicate BuiltFrom(e: DebCveRow, rows: set<JoinRow>, d: DistCpe, id: int, key: EntryKey) {
    exists row :: row in rows && RowKey(row) == key && MakeEntry(d, id, row) == Ok(e)
  }

  lemma BuiltStep(m: map<EntryKey, DebCveRow>, done: set<JoinRow>, row: JoinRow, d: DistCpe, id: int, e: DebCveRow)
    requires Built(m, done, d, id) && MakeEntry(d, id, row) == Ok(e)
    ensures Built(m[RowKey(row) := e], done + {row}, d, id)
  {
    var m', all := m[RowKey(row) := e], done + {row};
    assert RowKeys(all) == RowKeys(done) + {RowKey(row)};
    forall key | key in m' ensures BuiltFrom(m'[key], all, d, id, key) {
      if key == RowKey(row) {
        assert row in all;
      } else {
        assert BuiltFrom(m[key], done, d, id, key);
        var r :| r in done && RowKey(r) == key && MakeEntry(d, id, r) == Ok(m[key]);
        assert r in all;
      }
    }
  }

  /** Every new entry sits under its own key, in distribution `id`. */
  lemma BuiltKeyed(m: map<EntryKey, DebCveRow>, rows: set<JoinRow>, d: DistCpe, id: int)
    requires Built(m, rows, d, id)
    ensures forall key :: key in m ==> m[key].Key() == (Some(id), key.0, key.1)
  {
    forall key | key in m ensures m[key].Key() == (Some(id), key.0, key.1) {
      assert BuiltFrom(m[key], rows, d, id, key);
      var row :| row in rows && RowKey(row) == key && MakeEntry(d, id, row) == Ok(m[key]);
    }
  }

  /**
   * The loop of `combine` over the join rows of one distribution: each
   * row's entry replaces any earlier one with its key; the first row
   * whose NVD record raises in the severity extraction ends the pass.
   */
  method BuildEntries(d: DistCpe, id: int, rows: set<JoinRow>) returns (r: Result<map<EntryKey, DebCveRow>>)
    ensures r.Err? <==> exists row :: row in rows && MakeEntry(d, id, row).Err?
    ensures r.Ok? ==> Built(r.value, rows, d, id)
  {
    var m: map<EntryKey, DebCveRow> := map[];
    var todo := rows;
    while todo != {}
      invariant todo <= rows
      invariant forall row :: row in rows && row !in todo ==> MakeEntry(d, id, row).Ok?
      invariant Built(m, rows - todo, d, id)
      decreases |todo|
    {
      NonEmptyHas(todo);
      var row :| row in todo;
      var sev := ExtractCvssSeverity(row.data);
      if sev.Err? {
        return Err(sev.error);
      }
      var e := EntryFor(d, id, row, sev.value);
      BuiltStep(m, rows - todo, row, d, id, e);
      assert (rows - todo) + {row} == rows - (todo - {row});
      m := m[RowKey(row) := e];
      todo := todo - {row};
    }
    assert rows - todo == rows;
    return Ok(m);
  }

  // ---------------------------------------------------------------- update and insert

  /** Stored `deb_cve` rows sit under their own (dist_id, cve_id, deb_source) key. */
  predicate KeyedCve(t: map<CveKey, DebCveRow>) {
    forall k :: k in t ==> t[k].cveId == k.1 && t[k].debSource == k.2
  }

  /** The new entries whose key no stored row of distribution `id` has. */
  function Leftover(t: map<CveKey, DebCveRow>, id: int, m: map<EntryKey, DebCveRow>): map<EntryKey, DebCveRow> {
    map key | key in m && (id, key.0, key.1) !in t :: m[key]
  }

  /**
   * `combine_update`: every stored row of distribution `id` whose key has
   * a new entry takes that entry's payload; a stored row without one is
   * kept as it is (the source leaves its deletion undone). What is left of
   * the new entries is returned.
   */
  method CombineUpdate(t: map<CveKey, DebCveRow>, id: int, m: map<EntryKey, DebCveRow>) returns (u: map<CveKey, DebCveRow>, left: map<EntryKey, DebCveRow>)
    requires KeyedCve(t)
    ensures u.Keys == t.Keys
    ensures forall k :: k in t ==> u[k] == if k.0 == id && (k.1, k.2) in m then t[k].MergedWith(m[(k.1, k.2)]) else t[k]
    ensures left == Leftover(t, id, m)
  {
    u, left := t, m;
    var todo := set k | k in t && k.0 == id;
    while todo != {}
      invariant todo <= t.Keys && forall k :: k in todo ==> k.0 == id
      invariant UpdatedExcept(u, t, id, m, todo) && LeftExcept(left, t, id, m, todo)
      decreases |todo|
    {
      NonEmptyHas(todo);
      var k :| k in todo;
      UpdateStep(u, left, t, id, m, todo, k);
      var key := (u[k].cveId, u[k].debSource);
      if key in left {
        u := u[k := u[k].MergedWith(left[key])];
        left := left - {key};
      }
      todo := todo - {k};
    }
    LeftoverIs(left, t, id, m);
  }

  /** The update loop's state once the rows outside `todo` are done. */
  ghost predicate UpdatedExcept(u: map<CveKey, DebCveRow>, t: map<CveKey, DebCveRow>, id: int, m: map<EntryKey, DebCveRow>, todo: set<CveKey>) {
    && u.Keys == t.Keys
    && forall k :: k in t ==> u[k] == if k !in todo && k.0 == id && (k.1, k.2) in m then t[k].MergedWith(m[(k.1, k.2)]) else t[k]
  }

  ghost predicate LeftExcept(left: map<EntryKey, DebCveRow>, t: map<CveKey, DebCveRow>, id: int, m: map<EntryKey, DebCveRow>, todo: set<CveKey>) {
    && (forall key :: key in left <==> key in m && (id, key.0, key.1) !in t - todo)
    && forall key :: key in left ==> left[key] == m[key]
  }

  lemma UpdateStep(u: map<CveKey, DebCveRow>, left: map<EntryKey, DebCveRow>, t: map<CveKey, DebCveRow>, id: int,
                   m: map<EntryKey, DebCveRow>, todo: set<CveKey>, k: CveKey)
    requires KeyedCve(t) && k in todo && todo <= t.Keys && k.0 == id
    requires UpdatedExcept(u, t, id, m, todo) && LeftExcept(left, t, id, m, todo)
    ensures k in u && (u[k].cveId, u[k].debSource) == (k.1, k.2)
    ensures var key := (k.1, k.2);
      if key in left
      then UpdatedExcept(u[k := u[k].MergedWith(left[key])], t, id, m, todo - {k}) && LeftExcept(left - {key}, t, id, m, todo - {k})
      else UpdatedExcept(u, t, id, m, todo - {k}) && LeftExcept(left, t, id, m, todo - {k})
  {
    UpdatedStep(u, left, t, id, m, todo, k);
    LeftStep(left, t, id, m, todo, k);
  }

  lemma UpdatedStep(u: map<CveKey, DebCveRow>, left: map<EntryKey, DebCveRow>, t: map<CveKey, DebCveRow>, id: int,
                    m: map<EntryKey, DebCveRow>, todo: set<CveKey>, k: CveKey)
    requires k in todo && todo <= t.Keys && k.0 == id
    requires UpdatedExcept(u, t, id, m, todo) && LeftExcept(left, t, id, m, todo)
    ensures var key := (k.1, k.2);
      if key in left then UpdatedExcept(u[k := u[k].MergedWith(left[key])], t, id, m, todo - {k})
      else UpdatedExcept(u, t, id, m, todo - {k})
  {
  }

  lemma LeftStep(left: map<EntryKey, DebCveRow>, t: map<CveKey, DebCveRow>, id: int,
                 m: map<EntryKey, DebCveRow>, todo: set<CveKey>, k: CveKey)
    requires k in todo && todo <= t.Keys && k.0 == id
    requires LeftExcept(left, t, id, m, todo)
    ensures var key := (k.1, k.2);
      if key in left then LeftExcept(left - {key}, t, id, m, todo - {k}) else LeftExcept(left, t, id, m, todo - {k})
  {
  }

  lemma LeftoverIs(left: map<EntryKey, DebCveRow>, t: map<CveKey, DebCveRow>, id: int, m: map<EntryKey, DebCveRow>)
    requires forall key :: key in left <==> key in m && (id, key.0, key.1) !in t
    requires forall key :: key in left ==> left[key] == m[key]
    ensures left == Leftover(t, id, m)
  {
  }

  /** `combine_insert`: every leftover entry is added under its key in distribution `id`. */
  method CombineInsert(u: map<CveKey, DebCveRow>, id: int, left: map<EntryKey, DebCveRow>) returns (w: map<CveKey, DebCveRow>)
    requires forall key :: key in left ==> (id, key.0, key.1) !in u
    ensures forall k :: k in w <==> k in u || (k.0 == id && (k.1, k.2) in left)
    ensures forall k :: k in u ==> w[k] == u[k]
    ensures forall k :: k in w && k !in u ==> w[k] == left[(k.1, k.2)]
  {
    w := u;
    var todo := left.Keys;
    while todo != {}
      invariant todo <= left.Keys
      invariant forall k :: k in w <==> k in u || (k.0 == id && (k.1, k.2) in left && (k.1, k.2) !in todo)
      invariant forall k :: k in u ==> w[k] == u[k]
      invariant forall k :: k in w && k !in u ==> w[k] == left[(k.1, k.2)]
      decreases |todo|
    {
      NonEmptyHas(todo);
      var key :| key in todo;
      w := w[(id, key.0, key.1) := left[key]];
      todo := todo - {key};
    }
  }

  /** The keys the new entries of distribution `id` take in `deb_cve`. */
  function AddedKeys(id: int, m: map<EntryKey, DebCveRow>): set<CveKey> {
    set key | key in m :: (id, key.0, key.1)
  }

  /**
   * `deb_cve` after both passes for distribution `id`: a stored row with a
   * new entry takes its payload, a new entry without a stored row is
   * added, and every other row stays.
   */
  function Applied(t: map<CveKey, DebCveRow>, id: int, m: map<EntryKey, DebCveRow>): map<CveKey, DebCveRow> {
    map k | k in t.Keys + AddedKeys(id, m) ::
      if k in t then (if k.0 == id && (k.1, k.2) in m then t[k].MergedWith(m[(k.1, k.2)]) else t[k])
      else m[(k.1, k.2)]
  }

  lemma AppliedIs(t: map<CveKey, DebCveRow>, id: int, m: map<EntryKey, DebCveRow>, w: map<CveKey, DebCveRow>)
    requires forall k :: k in w <==> k in t || (k.0 == id && (k.1, k.2) in m)
    requires forall k :: k in t ==> w[k] == if k.0 == id && (k.1, k.2) in m then t[k].MergedWith(m[(k.1, k.2)]) else t[k]
    requires forall k :: k in w && k !in t ==> w[k] == m[(k.1, k.2)]
    ensures w == Applied(t, id, m)
  {
    var a := Applied(t, id, m);
    forall k ensures k in w <==> k in a {
      if k.0 == id && (k.1, k.2) in m {
        assert k in AddedKeys(id, m);
      }
    }
  }

  /** Both passes keep the table keyed and its foreign keys resolving. */
  lemma AppliedTable(t: map<CveKey, DebCveRow>, dists: map<int, DistCpe>, id: int, m: map<EntryKey, DebCveRow>)
    requires DebCveTable(t, dists) && id in dists
    requires forall key :: key in m ==> m[key].Key() == (Some(id), key.0, key.1)
    ensures DebCveTable(Applied(t, id, m), dists)
  {
  }

  /** `combine_update` followed by `combine_insert`. */
  method Reconcile(t: map<CveKey, DebCveRow>, id: int, m: map<EntryKey, DebCveRow>) returns (w: map<CveKey, DebCveRow>)
    requires KeyedCve(t)
    ensures w == Applied(t, id, m)
  {
    var u, left := CombineUpdate(t, id, m);
    w := CombineInsert(u, id, left);
    AppliedIs(t, id, m, w);
  }

  lemma TableKeyed(t: map<CveKey, DebCveRow>, dists: map<int, DistCpe>)
    requires DebCveTable(t, dists)
    ensures KeyedCve(t)
  {
  }

  /** The join of distribution `y` has a row whose NVD record fails the severity extraction. */
  ghost predicate Fails(store: Store, y: Yield, lt: (string, string) -> bool)
    reads store`debsrc, store`debsec, store`nvd
  {
    exists row :: row in JoinRows(store.debsrc, store.debsec, store.nvd, y.id, y.chain, lt) && MakeEntry(y.dist, y.id, row).Err?
  }

  /**
   * One iteration of `combine`: build the new entries of the yielded
   * distribution from its join, then run the update and insert passes.
   */
  method CombineDist(store: Store, y: Yield, lt: (string, string) -> bool) returns (r: Result<map<EntryKey, DebCveRow>>)
    requires store.Valid() && y.id in store.dists
    modifies store`debcve
    ensures store.Valid()
    ensures r.Err? <==> Fails(store, y, lt)
    ensures r.Err? ==> store.debcve == old(store.debcve)
    ensures r.Ok? ==> && Built(r.value, JoinRows(store.debsrc, store.debsec, store.nvd, y.id, y.chain, lt), y.dist, y.id)
                      && store.debcve == Applied(old(store.debcve), y.id, r.value)
  {
    var rows := JoinRows(store.debsrc, store.debsec, store.nvd, y.id, y.chain, lt);
    r := BuildEntries(y.dist, y.id, rows);
    if r.Err? {
      return;
    }
    var t := store.debcve;
    TableKeyed(t, store.dists);
    var w := Reconcile(t, y.id, r.value);
    BuiltKeyed(r.value, rows, y.dist, y.id);
    AppliedTable(t, store.dists, y.id, r.value);
    store.SetDebcve(w);
  }

  // ---------------------------------------------------------------- the whole pass

  /**
   * `deb_cve` after the passes for the yields `ys` in turn, `ms[j]` being
   * the new entries of `ys[j]`.
   */
  function Combined(t: map<CveKey, DebCveRow>, ys: seq<Yield>, ms: seq<map<EntryKey, DebCveRow>>): map<CveKey, DebCveRow>
    requires |ys| == |ms|
    decreases |ys|
  {
    if ys == [] then t
    else Applied(Combined(t, ys[..|ys| - 1], ms[..|ms| - 1]), ys[|ys| - 1].id, ms[|ms| - 1])
  }

  /** Every yield is a distribution of the store. */
  lemma {:induction false} YieldsIn(stream: seq<(int, DistCpe)>, n: nat, dists: map<int, DistCpe>)
    requires n <= |stream|
    requires forall i :: 0 <= i < |stream| ==> stream[i].0 in dists
    ensures forall j :: 0 <= j < |Yields(stream, n)| ==> Yields(stream, n)[j].id in dists
    decreases n
  {
    if n > 0 {
      YieldsIn(stream, n - 1, dists);
    }
  }

  /** Distinct stream ids give distinct yield ids. */
  lemma {:induction false} YieldsDistinct(stream: seq<(int, DistCpe)>, n: nat)
    requires n <= |stream|
    requires forall i, j :: 0 <= i < j < |stream| ==> stream[i].0 != stream[j].0
    ensures forall j, j' :: 0 <= j < j' < |Yields(stream, n)| ==> Yields(stream, n)[j].id != Yields(stream, n)[j'].id
    decreases n
  {
    if n > 0 {
      YieldsDistinct(stream, n - 1);
      var ys := Yields(stream, n - 1);
      forall j | 0 <= j < |ys| ensures ys[j].id != stream[n - 1].0 {
        assert ys[j] in ys;
        YieldsSound(stream, n - 1, ys[j]);
      }
    }
  }

  /** The first `|ms|` yields were done: none failed, and `ms[j]` holds the entries built from the join of `ys[j]`. */
  ghost predicate Passed(store: Store, ys: seq<Yield>, ms: seq<map<EntryKey, DebCveRow>>, lt: (string, string) -> bool)
    reads store`debsrc, store`debsec, store`nvd
  {
    && |ms| <= |ys|
    && forall j :: 0 <= j < |ms| ==>
         && !Fails(store, ys[j], lt)
         && Built(ms[j], JoinRows(store.debsrc, store.debsec, store.nvd, ys[j].id, ys[j].chain, lt), ys[j].dist, ys[j].id)
  }

  lemma PassedStep(store: Store, ys: seq<Yield>, ms: seq<map<EntryKey, DebCveRow>>, lt: (string, string) -> bool, m: map<EntryKey, DebCveRow>)
    requires Passed(store, ys, ms, lt) && |ms| < |ys|
    requires !Fails(store, ys[|ms|], lt)
    requires Built(m, JoinRows(store.debsrc, store.debsec, store.nvd, ys[|ms|].id, ys[|ms|].chain, lt), ys[|ms|].dist, ys[|ms|].id)
    ensures Passed(store, ys, ms + [m], lt)
  {
  }

  /** One more yield done: its entries are recorded and the table is reconciled with them. */
  lemma CombineStep(store: Store, ys: seq<Yield>, ms: seq<map<EntryKey, DebCveRow>>, lt: (string, string) -> bool,
                    m: map<EntryKey, DebCveRow>, t0: map<CveKey, DebCveRow>, t: map<CveKey, DebCveRow>)
    requires Passed(store, ys, ms, lt) && |ms| < |ys|
    requires var y := ys[|ms|];
      && !Fails(store, y, lt)
      && Built(m, JoinRows(store.debsrc, store.debsec, store.nvd, y.id, y.chain, lt), y.dist, y.id)
      && t == Applied(Combined(t0, ys[..|ms|], ms), y.id, m)
    ensures Passed(store, ys, ms + [m], lt) && t == Combined(t0, ys[..|ms| + 1], ms + [m])
  {
    PassedStep(store, ys, ms, lt, m);
    var n := |ms|;
    CombinedSnoc(t0, ys[..n], ms, ys[n], m);
    assert ys[..n] + [ys[n]] == ys[..n + 1];
  }

  lemma CombinedSnoc(t: map<CveKey, DebCveRow>, ys: seq<Yield>, ms: seq<map<EntryKey, DebCveRow>>, y: Yield, m: map<EntryKey, DebCveRow>)
    requires |ys| == |ms|
    ensures Combined(t, ys + [y], ms + [m]) == Applied(Combined(t, ys, ms), y.id, m)
  {
    assert (ys + [y])[..|ys|] == ys && (ms + [m])[..|ms|] == ms;
  }

  /**
   * `combine` inside its transaction: the passes for every yielded
   * distribution in turn. It fails exactly when some distribution's join
   * holds a row whose NVD record fails the severity extraction, and then
   * `deb_cve` is rolled back; otherwise every distribution's entries are
   * built from its join and `deb_cve` is the stored table with all of
   * them reconciled.
   */
  method Combine(store: Store, stream: seq<(int, DistCpe)>, lt: (string, string) -> bool) returns (r: Result<seq<map<EntryKey, DebCveRow>>>)
    requires store.Valid()
    requires forall i :: 0 <= i < |stream| ==> stream[i].0 in store.dists
    modifies store`debcve
    ensures store.Valid()
    ensures var ys := Yields(stream, |stream|);
      && (r.Err? ==> store.debcve == old(store.debcve) && exists j :: 0 <= j < |ys| && Fails(store, ys[j], lt))
      && (r.Ok? ==> |r.value| == |ys| && Passed(store, ys, r.value, lt) && store.debcve == Combined(old(store.debcve), ys, r.value))
  {
    var ys := CombineDists(stream);
    YieldsIn(stream, |stream|, store.dists);
    var t0 := store.debcve;
    var built: seq<map<EntryKey, DebCveRow>> := [];
    for j := 0 to |ys|
      invariant store.Valid() && DebCveTable(t0, store.dists)
      invariant |built| == j && Passed(store, ys, built, lt) && store.debcve == Combined(t0, ys[..j], built)
    {
      var res := CombineDist(store, ys[j], lt);
      if res.Err? {
        store.SetDebcve(t0);
        return Err(res.error);
      }
      CombineStep(store, ys, built, lt, res.value, t0, store.debcve);
      built := built + [res.value];
    }
    assert ys[..|ys|] == ys;
    return Ok(built);
  }

  /**
   * The passes for one distribution add the new entries, give a stored
   * row with a new entry that entry's payload, and leave every other row
   * as it was: nothing is deleted, not even a stored row of the
   * distribution that no longer has an entry.
   */
  lemma AppliedRows(t: map<CveKey, DebCveRow>, id: int, m: map<EntryKey, DebCveRow>)
    ensures var a := Applied(t, id, m);
      && t.Keys <= a.Keys
      && (forall k :: k in a ==> k in t || (k.0 == id && (k.1, k.2) in m))
      && (forall key :: key in m ==> (id, key.0, key.1) in a && a[(id, key.0, key.1)].Payload() == m[key].Payload())
      && (forall k :: k in t && !(k.0 == id && (k.1, k.2) in m) ==> a[k] == t[k])
      && (forall k :: k in t ==> a[k].Key() == t[k].Key() && a[k].lastMod == t[k].lastMod)
  {
    var a := Applied(t, id, m);
    forall key | key in m ensures (id, key.0, key.1) in a {
      assert (id, key.0, key.1) in AddedKeys(id, m);
    }
  }

  /** Reconciling a distribution a second time with the same entries changes nothing. */
  lemma AppliedIdempotent(t: map<CveKey, DebCveRow>, id: int, m: map<EntryKey, DebCveRow>)
    ensures Applied(Applied(t, id, m), id, m) == Applied(t, id, m)
  {
    var a := Applied(t, id, m);
    var aa := Applied(a, id, m);
    forall k | k in a ensures k in aa && aa[k] == a[k] {
      if k in t && k.0 == id && (k.1, k.2) in m {
        MergeLaws(t[k], m[(k.1, k.2)], t[k]);
      } else if k !in t {
        MergeLaws(m[(k.1, k.2)], m[(k.1, k.2)], m[(k.1, k.2)]);
      }
    }
    forall k | k in aa ensures k in a {
      AppliedAt(a, id, m, k);
      AppliedAt(t, id, m, k);
    }
  }

  /** One key of `Applied`: whether it is there, and its row. */
  lemma AppliedAt(t: map<CveKey, DebCveRow>, id: int, m: map<EntryKey, DebCveRow>, k: CveKey)
    ensures k in Applied(t, id, m) <==> k in t || (k.0 == id && (k.1, k.2) in m)
    ensures k in Applied(t, id, m) ==>
      Applied(t, id, m)[k] == if k in t then (if k.0 == id && (k.1, k.2) in m then t[k].MergedWith(m[(k.1, k.2)]) else t[k]) else m[(k.1, k.2)]
  {
    if k.0 == id && (k.1, k.2) in m {
      assert k in AddedKeys(id, m);
    }
  }

  /** The passes of two different distributions commute: the stream order does not matter. */
  lemma AppliedCommute(t: map<CveKey, DebCveRow>, id1: int, m1: map<EntryKey, DebCveRow>, id2: int, m2: map<EntryKey, DebCveRow>)
    requires id1 != id2
    ensures Applied(Applied(t, id1, m1), id2, m2) == Applied(Applied(t, id2, m2), id1, m1)
  {
    var x, y := Applied(Applied(t, id1, m1), id2, m2), Applied(Applied(t, id2, m2), id1, m1);
    forall k ensures (k in x <==> k in y) && (k in x ==> x[k] == y[k]) {
      CommuteAt(t, id1, m1, id2, m2, k);
    }
  }

  lemma CommuteAt(t: map<CveKey, DebCveRow>, id1: int, m1: map<EntryKey, DebCveRow>, id2: int, m2: map<EntryKey, DebCveRow>, k: CveKey)
    requires id1 != id2
    ensures var x, y := Applied(Applied(t, id1, m1), id2, m2), Applied(Applied(t, id2, m2), id1, m1);
      (k in x <==> k in y) && (k in x ==> x[k] == y[k])
  {
    var a1, a2 := Applied(t, id1, m1), Applied(t, id2, m2);
    AppliedAt(t, id1, m1, k);
    AppliedAt(t, id2, m2, k);
    AppliedAt(a1, id2, m2, k);
    AppliedAt(a2, id1, m1, k);
  }

  /** The whole pass never deletes, and a distribution with no yield keeps its rows. */
  lemma {:induction false} CombinedKeeps(t: map<CveKey, DebCveRow>, ys: seq<Yield>, ms: seq<map<EntryKey, DebCveRow>>)
    requires |ys| == |ms|
    ensures t.Keys <= Combined(t, ys, ms).Keys
    ensures forall k :: k in t && (forall j :: 0 <= j < |ys| ==> ys[j].id != k.0) ==> Combined(t, ys, ms)[k] == t[k]
    decreases |ys|
  {
    if ys != [] {
      var n := |ys| - 1;
      CombinedKeeps(t, ys[..n], ms[..n]);
      AppliedRows(Combined(t, ys[..n], ms[..n]), ys[n].id, ms[n]);
    }
  }

  /**
   * With distinct distribution ids, every new entry of every yield ends up
   * stored under its key with its payload.
   */
  lemma {:induction false} CombinedHas(t: map<CveKey, DebCveRow>, ys: seq<Yield>, ms: seq<map<EntryKey, DebCveRow>>, j: nat, key: EntryKey)
    requires |ys| == |ms| && j < |ys| && key in ms[j]
    requires forall a, b :: 0 <= a < b < |ys| ==> ys[a].id != ys[b].id
    ensures (ys[j].id, key.0, key.1) in Combined(t, ys, ms)
    ensures Combined(t, ys, ms)[(ys[j].id, key.0, key.1)].Payload() == ms[j][key].Payload()
    decreases |ys|
  {
    var n := |ys| - 1;
    var c := Combined(t, ys[..n], ms[..n]);
    AppliedRows(c, ys[n].id, ms[n]);
    if j < n {
      CombinedHas(t, ys[..n], ms[..n], j, key);
      assert ys[j].id != ys[n].id;
    }
  }

  /**
   * The fallback rule end to end: an advisory recorded for the only
   * fallback of a concrete distribution's chain (its own vendor/product
   * or, for Garden Linux, Debian's), about a source package the
   * distribution ships and a CVE with an NVD record, gives that
   * distribution a `deb_cve` row, when the stream comes in the query's
   * order.
   */
  lemma FallbackApplies(store: Store, stream: seq<(int, DistCpe)>, lt: (string, string) -> bool, t: map<CveKey, DebCveRow>,
                        ms: seq<map<EntryKey, DebCveRow>>, i: nat, f: nat, pair: (string, string), src: string, cve: string)
    requires Ordered(stream) && i < |stream| && f < |stream|
    requires forall a, b :: 0 <= a < b < |stream| ==> stream[a].0 != stream[b].0
    requires var d := stream[i].1;
      && d.cpeVersion != ""
      && (pair == (d.cpeVendor, d.cpeProduct) || (d.cpeProduct == "gardenlinux" && pair == DebianPair))
    requires FallbackOf(stream[f], pair) && forall k :: 0 <= k < |stream| && k != f ==> !FallbackOf(stream[k], pair)
    requires (stream[i].0, src) in store.debsrc && (stream[f].0, cve, src) in store.debsec && cve in store.nvd
    requires |ms| == |Yields(stream, |stream|)| && Passed(store, Yields(stream, |stream|), ms, lt)
    ensures (stream[i].0, cve, src) in Combined(t, Yields(stream, |stream|), ms)
  {
    var ys := Yields(stream, |stream|);
    var d := stream[i].1;
    YieldsComplete(stream, |stream|, i);
    var j :| 0 <= j < |ys| && ys[j] == Yield(stream[i].0, d, ChainAt(stream, i));
    OrderedChain(stream, i);
    LastFallbackUnique(stream, |stream|, f, pair);
    assert stream[f].0 in ChainAt(stream, i);
    var a := (stream[f].0, cve, src);
    JoinHas(store.debsrc, store.debsec, store.nvd, stream[i].0, ys[j].chain, lt, src, a);
    var rows := JoinRows(store.debsrc, store.debsec, store.nvd, ys[j].id, ys[j].chain, lt);
    assert Built(ms[j], rows, ys[j].dist, ys[j].id);
    assert (cve, src) in RowKeys(rows);
    YieldsDistinct(stream, |stream|);
    CombinedHas(t, ys, ms, j, (cve, src));
  }
}
