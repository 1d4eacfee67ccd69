/**
 * The older `combine-deb` pass. It joins source packages with advisories
 * along a shorter fallback chain (no Debian fallback for other vendors),
 * does not consult NVD records, and stores only the criteria and the
 * vulnerable flag in the match blob. Its `DebCve(...)` call leaves out the
 * constructor's required `cvss_severity` and `deb_version_fixed`, so the
 * pass raises `TypeError` at the first joined row and never commits.
 */
module CliCombineDeb {
  import opened Wrappers
  import opened Json
  import opened Text
  import opened CpeNames
  import opened Database
  import opened DataCombineDeb
  import opened Sets

  // ---------------------------------------------------------------- the distribution stream

  /** `ORDER BY cpe_version`: the stream's versions never decrease. */
  predicate VersionOrdered(stream: seq<(int, DistCpe)>) {
    forall i, j :: 0 <= i < j < |stream| ==> !Less(stream[j].1.cpeVersion, stream[i].1.cpeVersion)
  }

  /** In that order every empty-version row comes before every other row. */
  lemma EmptyFirst(stream: seq<(int, DistCpe)>, i: nat, j: nat)
    requires VersionOrdered(stream) && i < j < |stream| && stream[j].1.cpeVersion == ""
    ensures stream[i].1.cpeVersion == ""
  {
    assert !Less("", stream[i].1.cpeVersion);
  }

  /** The chain for row `i`: the distribution, then the last earlier fallback of its own vendor/product. */
  function ChainOf(stream: seq<(int, DistCpe)>, i: nat): seq<int>
    requires i < |stream|
  {
    var d := stream[i].1;
    [stream[i].0] + Opt(LastFallback(stream, i, (d.cpeVendor, d.cpeProduct)))
  }

  /** The generator's output for the first `n` rows. */
  function Yields(stream: seq<(int, DistCpe)>, n: nat): seq<Yield>
    requires n <= |stream|
    decreases n
  {
    if n == 0 then []
    else
      Yields(stream, n - 1)
      + (if stream[n - 1].1.cpeVersion != "" then [Yield(stream[n - 1].0, stream[n - 1].1, ChainOf(stream, n - 1))] else [])
  }

  /** `combine_dists`: stream the distributions, recording fallbacks and yielding the others with their chain. */
  method CombineDists(stream: seq<(int, DistCpe)>) returns (ys: seq<Yield>)
    ensures ys == Yields(stream, |stream|)
  {
    var fallbacks: map<(string, string), int> := map[];
    ys := [];
    for i := 0 to |stream|
      invariant ys == Yields(stream, i)
      invariant forall pair :: MapGet(fallbacks, pair) == LastFallback(stream, i, pair)
    {
      var (id, d) := stream[i];
      var pair := (d.cpeVendor, d.cpeProduct);
      if d.cpeVersion == "" {
        fallbacks := fallbacks[pair := id];
      } else {
        var chain := [id];
        var f := MapGet(fallbacks, pair);
        if f.Some? {
          chain := chain + [f.value];
        }
        assert chain == ChainOf(stream, i);
        ys := ys + [Yield(id, d, chain)];
      }
    }
  }

  /**
   * Every yield is a concrete row of the stream; its chain is itself and
   * at most one fallback of the same vendor and product, so a Garden Linux
   * distribution never falls back to Debian.
   */
  lemma {:induction false} YieldsSameVendor(stream: seq<(int, DistCpe)>, n: nat, y: Yield)
    requires n <= |stream| && y in Yields(stream, n)
    ensures exists i :: 0 <= i < n && stream[i].1.cpeVersion != "" && y == Yield(stream[i].0, stream[i].1, ChainOf(stream, i))
    ensures 1 <= |y.chain| <= 2 && y.chain[0] == y.id
    ensures |y.chain| == 2 ==> exists k :: 0 <= k < |stream| && stream[k].0 == y.chain[1]
                                 && FallbackOf(stream[k], (y.dist.cpeVendor, y.dist.cpeProduct))
    decreases n
  {
    if y !in Yields(stream, n - 1) {
      var d := stream[n - 1].1;
      assert y == Yield(stream[n - 1].0, d, ChainOf(stream, n - 1));
      var o := LastFallback(stream, n - 1, (d.cpeVendor, d.cpeProduct));
      if o.Some? {
        LastFallbackIs(stream, n - 1, (d.cpeVendor, d.cpeProduct));
      }
    } else {
      YieldsSameVendor(stream, n - 1, y);
    }
  }

  /** A last fallback is a fallback row of the stream. */
  lemma {:induction false} LastFallbackIs(stream: seq<(int, DistCpe)>, n: nat, pair: (string, string))
    requires n <= |stream| && LastFallback(stream, n, pair).Some?
    ensures exists k :: 0 <= k < n && stream[k].0 == LastFallback(stream, n, pair).value && FallbackOf(stream[k], pair)
    decreases n
  {
    if !FallbackOf(stream[n - 1], pair) {
      LastFallbackIs(stream, n - 1, pair);
    }
  }

  /** Every concrete row is yielded, with its chain. */
  lemma {:induction false} YieldsComplete(stream: seq<(int, DistCpe)>, n: nat, i: nat)
    requires i < n <= |stream| && stream[i].1.cpeVersion != ""
    ensures Yield(stream[i].0, stream[i].1, ChainOf(stream, i)) in Yields(stream, n)
    decreases n
  {
    var y := Yield(stream[i].0, stream[i].1, ChainOf(stream, i));
    var prev, last := Yields(stream, n - 1), Yields(stream, n)[|Yields(stream, n - 1)|..];
    assert Yields(stream, n) == prev + last;
    if i < n - 1 {
      YieldsComplete(stream, n - 1, i);
      assert y in prev;
    } else {
      assert last == [y];
    }
  }

  /** Every yield is a distribution of the store. */
  lemma {:induction false} YieldsIn(stream: seq<(int, DistCpe)>, n: nat, dists: map<int, DistCpe>)
    requires n <= |stream|
    requires forall i :: 0 <= i < |stream| ==> stream[i].0 in dists
    ensures forall j :: 0 <= j < |Yields(stream, n)| ==> Yields(stream, n)[j].id in dists
    decreases n
  {
    if n > 0 {
      YieldsIn(stream, n - 1, dists);
    }
  }

  /** Distinct stream ids give distinct yield ids. */
  lemma {:induction false} YieldsDistinct(stream: seq<(int, DistCpe)>, n: nat)
    requires n <= |stream|
    requires forall i, j :: 0 <= i < j < |stream| ==> stream[i].0 != stream[j].0
    ensures forall j, j' :: 0 <= j < j' < |Yields(stream, n)| ==> Yields(stream, n)[j].id != Yields(stream, n)[j'].id
    decreases n
  {
    if n > 0 {
      YieldsDistinct(stream, n - 1);
      var ys := Yields(stream, n - 1);
      forall j | 0 <= j < |ys| ensures ys[j].id != stream[n - 1].0 {
        assert ys[j] in ys;
        YieldsSameVendor(stream, n - 1, ys[j]);
      }
    }
  }

  /** In version order the chain of a concrete row holds the last fallback of the whole stream. */
  lemma OrderedChain(stream: seq<(int, DistCpe)>, i: nat)
    requires VersionOrdered(stream) && i < |stream| && stream[i].1.cpeVersion != ""
    ensures var d := stream[i].1;
      LastFallback(stream, i, (d.cpeVendor, d.cpeProduct)) == LastFallback(stream, |stream|, (d.cpeVendor, d.cpeProduct))
  {
    var d := stream[i].1;
    forall k | i <= k < |stream| ensures !FallbackOf(stream[k], (d.cpeVendor, d.cpeProduct)) {
      if k > i && stream[k].1.cpeVersion == "" {
        EmptyFirst(stream, i, k);
      }
    }
    LastFallbackTail(stream, i, |stream|, (d.cpeVendor, d.cpeProduct));
  }

  // ---------------------------------------------------------------- the join and the new entries

  /** One row of the older join: CVE, source, installed version, vulnerable flag. */
  datatype SourceRow = SourceRow(cveId: string, debSource: string, debVersion: string, vulnerable: bool)

  /** Every source of the distribution with every advisory about it in a chain distribution. */
  function JoinRows(debsrc: map<DebsrcKey, DebsrcRow>, debsec: map<CveKey, DebsecCveRow>,
                    id: int, chain: seq<int>, lt: (string, string) -> bool): set<SourceRow>
  {
    set s, a | s in debsrc && a in debsec && s.0 == id && a.2 == s.1 && a.0 in chain
      :: SourceRow(a.1, s.1, debsrc[s].debVersion, Vulnerable(debsrc[s].debVersion, debsec[a].debVersionFixed, lt))
  }

  /** An advisory about a source of the distribution, in a chain distribution, is joined; no NVD record is needed. */
  lemma JoinHas(debsrc: map<DebsrcKey, DebsrcRow>, debsec: map<CveKey, DebsecCveRow>,
                id: int, chain: seq<int>, lt: (string, string) -> bool, src: string, a: CveKey)
    requires (id, src) in debsrc && a in debsec && a.2 == src && a.0 in chain
    ensures var v := debsrc[(id, src)].debVersion;
      SourceRow(a.1, src, v, Vulnerable(v, debsec[a].debVersionFixed, lt)) in JoinRows(debsrc, debsec, id, chain, lt)
  {
    var s := (id, src);
    assert s in debsrc && s.1 == src;
  }

  /** The distribution's OS CPE; `other` stays ANY. */
  function CpeFor(d: DistCpe): Cpe {
    Cpe(Concrete(OS), Concrete(d.cpeVendor), Concrete(d.cpeProduct), Concrete(d.cpeVersion), Any, Any, Any, Any, Any, Any)
  }

  /** The keyword arguments `combine` passes to `DebCve(...)`. */
  const EntryArgs: set<string> := {"dist", "cve_id", "deb_source", "deb_version", "debsec_vulnerable", "data_cpe_match"}

  /** The match blob built for one row: the criteria and the vulnerable flag. */
  function Blob(d: DistCpe, row: SourceRow): Json {
    JObj(map["criteria" := JStr(Format(CpeFor(d))), "vulnerable" := JBool(row.vulnerable)])
  }

  /** The entity for one row: the constructor called with `EntryArgs` only. */
  function Entry(d: DistCpe, id: int, row: SourceRow): Result<DebCveRow> {
    NewDebCve(EntryArgs, DebCveRow(Some(id), row.cveId, None, None, row.debSource, row.debVersion, None, row.vulnerable, Blob(d, row)))
  }

  /**
   * The call leaves out exactly `cvss_severity` and `deb_version_fixed`,
   * both required, so building the entity of any row raises `TypeError`;
   * the blob built before it holds just the criteria and the flag.
   */
  lemma EntryRaises(d: DistCpe, id: int, row: SourceRow)
    ensures EntryArgs <= DebCveArgs && DebCveRequired - EntryArgs == {"cvss_severity", "deb_version_fixed"}
    ensures Entry(d, id, row) == Err(TypeError)
    ensures var b := Blob(d, row);
      && b.JObj? && b.fields.Keys == {"criteria", "vulnerable"}
      && b.fields["vulnerable"] == JBool(row.vulnerable) && b.fields["criteria"] == JStr(Format(CpeFor(d)))
  {
    assert "cvss_severity" in DebCveRequired && "cvss_severity" !in EntryArgs;
  }

  /** With plain coordinates the criteria read back as the distribution's CPE. */
  lemma CriteriaParses(d: DistCpe)
    requires FieldValueOk(Concrete(d.cpeVendor)) && FieldValueOk(Concrete(d.cpeProduct)) && FieldValueOk(Concrete(d.cpeVersion))
    ensures Parse(Format(CpeFor(d))) == Ok(CpeFor(d))
  {
    ParseFormat(CpeFor(d));
  }

  function KeyOf(row: SourceRow): EntryKey {
    (row.cveId, row.debSource)
  }

  function KeysOf(rows: set<SourceRow>): set<EntryKey> {
    set row | row in rows :: KeyOf(row)
  }

  /** `new_entries` after the loop: one entry per key of the rows, each built from some row with that key. */
  ghost predicate Built(m: map<EntryKey, DebCveRow>, rows: set<SourceRow>, d: DistCpe, id: int) {
    && m.Keys == KeysOf(rows)
    && forall key :: key in m ==> BuiltFrom(m[key], rows, d, id, key)
  }

  ghost predicate BuiltFrom(e: DebCveRow, rows: set<SourceRow>, d: DistCpe, id: int, key: EntryKey) {
    exists row :: row in rows && KeyOf(row) == key && Entry(d, id, row) == Ok(e)
  }

  lemma BuiltStep(m: map<EntryKey, DebCveRow>, done: set<SourceRow>, row: SourceRow, d: DistCpe, id: int)
    requires Built(m, done, d, id) && Entry(d, id, row).Ok?
    ensures Built(m[KeyOf(row) := Entry(d, id, row).value], done + {row}, d, id)
  {
    var m', all := m[KeyOf(row) := Entry(d, id, row).value], done + {row};
    assert KeysOf(all) == KeysOf(done) + {KeyOf(row)};
    forall key | key in m' ensures BuiltFrom(m'[key], all, d, id, key) {
      if key == KeyOf(row) {
        assert row in all;
      } else {
        assert BuiltFrom(m[key], done, d, id, key);
        var r :| r in done && KeyOf(r) == key && Entry(d, id, r) == Ok(m[key]);
        assert r in all;
      }
    }
  }

  /** Nothing built from no rows. */
  lemma BuiltNone(m: map<EntryKey, DebCveRow>, d: DistCpe, id: int)
    requires Built(m, {}, d, id)
    ensures m == map[]
  {
    assert m.Keys == {};
  }

  /**
   * The loop of `combine` over the join rows: each row's entity replaces
   * any earlier one with its key, and the first row whose entity cannot be
   * built ends the loop with its error.
   */
  method BuildEntries(d: DistCpe, id: int, rows: set<SourceRow>) returns (r: Result<map<EntryKey, DebCveRow>>)
    ensures r.Err? <==> exists row :: row in rows && Entry(d, id, row).Err?
    ensures r.Err? ==> exists row :: row in rows && Entry(d, id, row) == Err(r.error)
    ensures r.Ok? ==> Built(r.value, rows, d, id)
  {
    var m := map[];
    var todo := rows;
    while todo != {}
      invariant todo <= rows
      invariant Built(m, rows - todo, d, id)
      invariant forall row :: row in rows - todo ==> Entry(d, id, row).Ok?
      decreases |todo|
    {
      NonEmptyHas(todo);
      var row :| row in todo;
      var e := Entry(d, id, row);
      if e.Err? {
        return Err(e.error);
      }
      BuiltStep(m, rows - todo, row, d, id);
      assert (rows - todo) + {row} == rows - (todo - {row});
      m := m[KeyOf(row) := e.value];
      todo := todo - {row};
    }
    assert rows - todo == rows;
    return Ok(m);
  }

  // ---------------------------------------------------------------- the whole pass

  /** The update and insert passes of no entries change nothing. */
  lemma AppliedNone(t: map<CveKey, DebCveRow>, id: int)
    ensures Applied(t, id, map[]) == t
  {
    var a := Applied(t, id, map[]);
    forall k ensures (k in a <==> k in t) && (k in a ==> a[k] == t[k]) {
      AppliedAt(t, id, map[], k);
    }
  }

  /**
   * One iteration of `combine`: building the entries of the yield raises
   * `TypeError` exactly when its join has a row; otherwise the update and
   * insert passes run over no entries. Either way `deb_cve` is unchanged.
   */
  method CombineDist(store: Store, y: Yield, lt: (string, string) -> bool) returns (r: Result<map<EntryKey, DebCveRow>>)
    requires store.Valid() && y.id in store.dists
    modifies store`debcve
    ensures store.Valid()
    ensures var rows := JoinRows(store.debsrc, store.debsec, y.id, y.chain, lt);
      && (r.Err? <==> rows != {})
      && (r.Err? ==> r.error == TypeError)
      && (r.Ok? ==> Built(r.value, rows, y.dist, y.id) && r.value == map[])
    ensures store.debcve == old(store.debcve)
  {
    var rows := JoinRows(store.debsrc, store.debsec, y.id, y.chain, lt);
    if rows != {} {
      NonEmptyHas(rows);
      var row :| row in rows;
      EntryRaises(y.dist, y.id, row);
    }
    r := BuildEntries(y.dist, y.id, rows);
    if r.Err? {
      var row :| row in rows && Entry(y.dist, y.id, row) == Err(r.error);
      EntryRaises(y.dist, y.id, row);
      return;
    }
    BuiltNone(r.value, y.dist, y.id);
    var w := ReconcileTable(store.debcve, store.dists, y.id, r.value, rows, y.dist);
    AppliedNone(store.debcve, y.id);
    store.SetDebcve(w);
  }

  /** The update and insert passes for built entries, keeping the table's keys and foreign keys. */
  method ReconcileTable(t: map<CveKey, DebCveRow>, dists: map<int, DistCpe>, id: int, m: map<EntryKey, DebCveRow>,
                        ghost rows: set<SourceRow>, ghost d: DistCpe) returns (w: map<CveKey, DebCveRow>)
    requires DebCveTable(t, dists) && id in dists && Built(m, rows, d, id)
    ensures w == Applied(t, id, m) && DebCveTable(w, dists)
  {
    TableKeyed(t, dists);
    w := Reconcile(t, id, m);
    BuiltKeyed(m, rows, d, id);
    AppliedTable(t, dists, id, m);
  }

  lemma BuiltKeyed(m: map<EntryKey, DebCveRow>, rows: set<SourceRow>, d: DistCpe, id: int)
    requires Built(m, rows, d, id)
    ensures forall key :: key in m ==> m[key].Key() == (Some(id), key.0, key.1)
  {
    forall key | key in m ensures m[key].Key() == (Some(id), key.0, key.1) {
      assert BuiltFrom(m[key], rows, d, id, key);
      var row :| row in rows && KeyOf(row) == key && Entry(d, id, row) == Ok(m[key]);
    }
  }

  /** Some yielded distribution's join has a row: the condition under which `combine` raises. */
  ghost predicate Raises(store: Store, ys: seq<Yield>, lt: (string, string) -> bool)
    reads store`debsrc, store`debsec
  {
    exists j :: 0 <= j < |ys| && JoinRows(store.debsrc, store.debsec, ys[j].id, ys[j].chain, lt) != {}
  }

  /**
   * `combine`: the passes for every yielded distribution in turn. It raises
   * `TypeError` exactly when some yielded distribution's join has a row, so
   * the session is never committed; otherwise every join is empty and no
   * entry is built. In no case does `deb_cve` change.
   */
  method Combine(store: Store, stream: seq<(int, DistCpe)>, lt: (string, string) -> bool) returns (r: Result<seq<map<EntryKey, DebCveRow>>>)
    requires store.Valid()
    requires forall i :: 0 <= i < |stream| ==> stream[i].0 in store.dists
    modifies store`debcve
    ensures store.Valid()
    ensures var ys := Yields(stream, |stream|);
      && (r.Err? <==> Raises(store, ys, lt))
      && (r.Err? ==> r.error == TypeError)
      && (r.Ok? ==> |r.value| == |ys| && forall j :: 0 <= j < |ys| ==> r.value[j] == map[])
    ensures store.debcve == old(store.debcve)
  {
    var ys := CombineDists(stream);
    YieldsIn(stream, |stream|, store.dists);
    var ms := [];
    for j := 0 to |ys|
      invariant store.Valid() && store.debcve == old(store.debcve)
      invariant |ms| == j && forall k :: 0 <= k < j ==> ms[k] == map[]
      invariant forall k :: 0 <= k < j ==> JoinRows(store.debsrc, store.debsec, ys[k].id, ys[k].chain, lt) == {}
    {
      var m := CombineDist(store, ys[j], lt);
      if m.Err? {
        return Err(m.error);
      }
      ms := ms + [m.value];
    }
    return Ok(ms);
  }

  /**
   * An advisory of a chain distribution about a source the yielded
   * distribution ships is a join row keyed by its CVE and source, whose
   * entity raises `TypeError`.
   */
  lemma JoinedRaises(debsrc: map<DebsrcKey, DebsrcRow>, debsec: map<CveKey, DebsecCveRow>, lt: (string, string) -> bool,
                     y: Yield, f: int, src: string, cve: string)
    requires (y.id, src) in debsrc && (f, cve, src) in debsec && f in y.chain
    ensures exists row :: row in JoinRows(debsrc, debsec, y.id, y.chain, lt) && KeyOf(row) == (cve, src)
                          && Entry(y.dist, y.id, row) == Err(TypeError)
  {
    JoinHas(debsrc, debsec, y.id, y.chain, lt, src, (f, cve, src));
    var v := debsrc[(y.id, src)].debVersion;
    var row := SourceRow(cve, src, v, Vulnerable(v, debsec[(f, cve, src)].debVersionFixed, lt));
    EntryRaises(y.dist, y.id, row);
  }

  /** In version order the chain of a concrete row holds the only fallback of its vendor/product. */
  lemma ChainHasFallback(stream: seq<(int, DistCpe)>, i: nat, f: nat)
    requires VersionOrdered(stream) && i < |stream| && f < |stream|
    requires var d := stream[i].1; d.cpeVersion != "" && FallbackOf(stream[f], (d.cpeVendor, d.cpeProduct))
    requires forall k :: 0 <= k < |stream| && k != f ==> !FallbackOf(stream[k], (stream[i].1.cpeVendor, stream[i].1.cpeProduct))
    ensures stream[f].0 in ChainOf(stream, i)
  {
    var d := stream[i].1;
    OrderedChain(stream, i);
    LastFallbackUnique(stream, |stream|, f, (d.cpeVendor, d.cpeProduct));
  }

  /**
   * An advisory recorded only for the one fallback of a concrete
   * distribution's own vendor/product, about a source it ships, is joined
   * for that distribution when the stream is in version order; so the pass
   * raises instead of writing a `deb_cve` row for it.
   */
  lemma FallbackApplies(store: Store, stream: seq<(int, DistCpe)>, lt: (string, string) -> bool, i: nat, f: nat, src: string, cve: string)
    requires VersionOrdered(stream) && i < |stream| && f < |stream|
    requires var d := stream[i].1; d.cpeVersion != "" && FallbackOf(stream[f], (d.cpeVendor, d.cpeProduct))
    requires forall k :: 0 <= k < |stream| && k != f ==> !FallbackOf(stream[k], (stream[i].1.cpeVendor, stream[i].1.cpeProduct))
    requires (stream[i].0, src) in store.debsrc && (stream[f].0, cve, src) in store.debsec
    ensures var v := store.debsrc[(stream[i].0, src)].debVersion;
      SourceRow(cve, src, v, Vulnerable(v, store.debsec[(stream[f].0, cve, src)].debVersionFixed, lt))
        in JoinRows(store.debsrc, store.debsec, stream[i].0, ChainOf(stream, i), lt)
    ensures Raises(store, Yields(stream, |stream|), lt)
  {
    var ys := Yields(stream, |stream|);
    var id, chain, fid := stream[i].0, ChainOf(stream, i), stream[f].0;
    ChainHasFallback(stream, i, f);
    JoinHas(store.debsrc, store.debsec, id, chain, lt, src, (fid, cve, src));
    YieldsComplete(stream, |stream|, i);
    var j :| 0 <= j < |ys| && ys[j] == Yield(id, stream[i].1, chain);
    assert ys[j].id == id && ys[j].chain == chain;
    FallbackAt(store, ys, lt, j, fid, src, cve);
  }

  /** An advisory of a chain distribution about a source a yielded distribution ships makes `combine` raise. */
  lemma FallbackAt(store: Store, ys: seq<Yield>, lt: (string, string) -> bool, j: nat, f: int, src: string, cve: string)
    requires j < |ys|
    requires (ys[j].id, src) in store.debsrc && (f, cve, src) in store.debsec && f in ys[j].chain
    ensures Raises(store, ys, lt)
  {
    JoinedRaises(store.debsrc, store.debsec, lt, ys[j], f, src, cve);
  }
}
