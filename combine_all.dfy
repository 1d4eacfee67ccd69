/**
 * The `combine-all` pass: one canonical `all_cve` record per CVE that has
 * an NVD record and at least one `deb_cve` row. It is the NVD document
 * with one more configuration block holding every Debian match blob of
 * the CVE. Records no longer produced are deleted.
 */
module CombineAll {
  import opened Wrappers
  import opened Json
  import opened Database
  import opened Sets

  // ---------------------------------------------------------------- the aggregation

  /** `array_agg(deb_cve.data_cpe_match)` for `cve`, over the `deb_cve` rows in the order `order` the database reads them. */
  function Matches(debcve: map<CveKey, DebCveRow>, order: seq<CveKey>, cve: string): seq<Json>
    decreases |order|
  {
    if order == [] then []
    else
      var k := order[|order| - 1];
      Matches(debcve, order[..|order| - 1], cve) + (if k in debcve && k.1 == cve then [debcve[k].dataCpeMatch] else [])
  }

  /** The blob of every row of the CVE that the read order lists, and nothing else. */
  lemma {:induction false} MatchesIn(debcve: map<CveKey, DebCveRow>, order: seq<CveKey>, cve: string)
    ensures forall m :: m in Matches(debcve, order, cve) <==>
      exists k :: k in order && k in debcve && k.1 == cve && debcve[k].dataCpeMatch == m
    decreases |order|
  {
    if order != [] {
      var n := |order| - 1;
      var pre := order[..n];
      assert order == pre + [order[n]];
      MatchesIn(debcve, pre, cve);
    }
  }

  /** Distinct positions of a read order hold distinct rows; so its last row is not among the earlier ones. */
  predicate Distinct(order: seq<CveKey>) {
    forall i, j :: 0 <= i < j < |order| ==> order[i] != order[j]
  }

  lemma LastNew(order: seq<CveKey>)
    requires Distinct(order) && order != []
    ensures order[..|order| - 1] + [order[|order| - 1]] == order
    ensures Distinct(order[..|order| - 1]) && order[|order| - 1] !in order[..|order| - 1]
    ensures forall k :: k in order <==> k in order[..|order| - 1] || k == order[|order| - 1]
  {
  }

  /** `k` is a `deb_cve` row of the CVE; with `m`, one that carries blob `m`. */
  predicate OfCve(debcve: map<CveKey, DebCveRow>, cve: string, k: CveKey) {
    k in debcve && k.1 == cve
  }

  predicate Carries(debcve: map<CveKey, DebCveRow>, cve: string, m: Json, k: CveKey) {
    OfCve(debcve, cve, k) && debcve[k].dataCpeMatch == m
  }

  /** Extending a read order without repeats by one row adds that row to a filter of it exactly when the row passes. */
  lemma FilterSnoc(order: seq<CveKey>, P: CveKey -> bool)
    requires Distinct(order) && order != []
    ensures var n := |order| - 1;
      |set k | k in order && P(k)| == |set k | k in order[..n] && P(k)| + (if P(order[n]) then 1 else 0)
  {
    var n := |order| - 1;
    LastNew(order);
    var all, before := set k | k in order && P(k), set k | k in order[..n] && P(k);
    if P(order[n]) {
      assert order[n] !in before;
      assert all == before + {order[n]};
    } else {
      assert all == before;
    }
  }

  lemma OfCveSnoc(debcve: map<CveKey, DebCveRow>, order: seq<CveKey>, cve: string)
    requires Distinct(order) && order != []
    ensures var n := |order| - 1;
      |set k | k in order && OfCve(debcve, cve, k)|
      == |set k | k in order[..n] && OfCve(debcve, cve, k)| + (if OfCve(debcve, cve, order[n]) then 1 else 0)
  {
    var n, P := |order| - 1, k => OfCve(debcve, cve, k);
    FilterSnoc(order, P);
    assert forall k :: P(k) == OfCve(debcve, cve, k);
    assert (set k | k in order && P(k)) == set k | k in order && OfCve(debcve, cve, k);
    assert (set k | k in order[..n] && P(k)) == set k | k in order[..n] && OfCve(debcve, cve, k);
  }

  lemma CarriesSnoc(debcve: map<CveKey, DebCveRow>, order: seq<CveKey>, cve: string, m: Json)
    requires Distinct(order) && order != []
    ensures var n := |order| - 1;
      |set k | k in order && Carries(debcve, cve, m, k)|
      == |set k | k in order[..n] && Carries(debcve, cve, m, k)| + (if Carries(debcve, cve, m, order[n]) then 1 else 0)
  {
    var n, P := |order| - 1, k => Carries(debcve, cve, m, k);
    FilterSnoc(order, P);
    assert forall k :: P(k) == Carries(debcve, cve, m, k);
    assert (set k | k in order && P(k)) == set k | k in order && Carries(debcve, cve, m, k);
    assert (set k | k in order[..n] && P(k)) == set k | k in order[..n] && Carries(debcve, cve, m, k);
  }

  /** Over a read order without repeats, the aggregate has one blob per listed row of the CVE. */
  lemma {:induction false} MatchesLengthIn(debcve: map<CveKey, DebCveRow>, order: seq<CveKey>, cve: string)
    requires Distinct(order)
    ensures |Matches(debcve, order, cve)| == |set k | k in order && OfCve(debcve, cve, k)|
    decreases |order|
  {
    if order != [] {
      LastNew(order);
      MatchesLengthIn(debcve, order[..|order| - 1], cve);
      OfCveSnoc(debcve, order, cve);
    }
  }

  /** Over a read order without repeats, each blob is there once per listed row of the CVE that carries it. */
  lemma {:induction false} MatchesCountIn(debcve: map<CveKey, DebCveRow>, order: seq<CveKey>, cve: string, m: Json)
    requires Distinct(order)
    ensures multiset(Matches(debcve, order, cve))[m] == |set k | k in order && Carries(debcve, cve, m, k)|
    decreases |order|
  {
    if order != [] {
      var n := |order| - 1;
      LastNew(order);
      MatchesCountIn(debcve, order[..n], cve, m);
      CarriesSnoc(debcve, order, cve, m);
      var last := order[n];
      var tail := if OfCve(debcve, cve, last) then [debcve[last].dataCpeMatch] else [];
      assert Matches(debcve, order, cve) == Matches(debcve, order[..n], cve) + tail;
      assert multiset(tail)[m] == if Carries(debcve, cve, m, last) then 1 else 0;
    }
  }

  /** Over a read order that lists every `deb_cve` row once, the aggregate holds exactly the blobs of the CVE's rows. */
  lemma MatchesExact(debcve: map<CveKey, DebCveRow>, order: seq<CveKey>, cve: string)
    requires Enumerates(order, debcve.Keys)
    ensures forall m :: m in Matches(debcve, order, cve) <==> exists k :: k in debcve && k.1 == cve && debcve[k].dataCpeMatch == m
  {
    MatchesIn(debcve, order, cve);
  }

  /** Over such an order there is one blob per row of the CVE: its length is their number, each blob counted per row carrying it. */
  lemma MatchesCount(debcve: map<CveKey, DebCveRow>, order: seq<CveKey>, cve: string)
    requires Enumerates(order, debcve.Keys)
    ensures |Matches(debcve, order, cve)| == |set k | k in debcve && k.1 == cve|
    ensures forall m :: multiset(Matches(debcve, order, cve))[m] == |set k | k in debcve && k.1 == cve && debcve[k].dataCpeMatch == m|
  {
    forall m ensures multiset(Matches(debcve, order, cve))[m] == |set k | k in debcve && k.1 == cve && debcve[k].dataCpeMatch == m| {
      MatchesCountIn(debcve, order, cve, m);
      assert (set k | k in order && Carries(debcve, cve, m, k)) == (set k | k in debcve && k.1 == cve && debcve[k].dataCpeMatch == m);
    }
    MatchesLengthIn(debcve, order, cve);
    assert (set k | k in order && OfCve(debcve, cve, k)) == (set k | k in debcve && k.1 == cve);
  }

  /** The CVE has at least one `deb_cve` row. */
  predicate HasRows(debcve: map<CveKey, DebCveRow>, cve: string) {
    exists k :: k in debcve && k.1 == cve
  }

  /** Over such an order the aggregate is empty exactly when the CVE has no row. */
  lemma MatchesEmpty(debcve: map<CveKey, DebCveRow>, order: seq<CveKey>, cve: string)
    requires Enumerates(order, debcve.Keys)
    ensures Matches(debcve, order, cve) == [] <==> !HasRows(debcve, cve)
  {
    MatchesExact(debcve, order, cve);
    if Matches(debcve, order, cve) != [] {
      assert Matches(debcve, order, cve)[0] in Matches(debcve, order, cve);
    }
    if HasRows(debcve, cve) {
      var k :| k in debcve && k.1 == cve;
      assert debcve[k].dataCpeMatch in Matches(debcve, order, cve);
    }
  }

  /** The CVEs the query groups by: those with an NVD record and at least one `deb_cve` row. */
  function Groups(nvd: map<string, NvdCveRow>, debcve: map<CveKey, DebCveRow>): set<string> {
    set k | k in debcve && k.1 in nvd :: k.1
  }

  lemma GroupsExact(nvd: map<string, NvdCveRow>, debcve: map<CveKey, DebCveRow>, cve: string)
    ensures cve in Groups(nvd, debcve) <==> cve in nvd && HasRows(debcve, cve)
  {
  }

  /** The configuration block added for one CVE: one OR node over all its matches. */
  function ConfigBlock(matches: seq<Json>): Json {
    JObj(map["nodes" := JArr([JObj(map["cpeMatch" := JArr(matches), "negate" := JBool(false), "operator" := JStr("OR")])])])
  }

  /** `data.setdefault('configurations', []).append(...)` on the CVE's NVD document. */
  function NewData(nvd: map<string, NvdCveRow>, debcve: map<CveKey, DebCveRow>, order: seq<CveKey>, cve: string): Result<Json>
    requires cve in nvd
  {
    SetDefaultAppend(nvd[cve].data, "configurations", ConfigBlock(Matches(debcve, order, cve)))
  }

  /**
   * The new document is the NVD document with exactly one block more, at
   * the end of its configurations, and nothing else changed; it fails only
   * when the document is no object or its configurations are no list.
   */
  lemma NewDataShape(nvd: map<string, NvdCveRow>, debcve: map<CveKey, DebCveRow>, order: seq<CveKey>, cve: string)
    requires cve in nvd
    ensures var d, r := nvd[cve].data, NewData(nvd, debcve, order, cve);
      && (r.Ok? <==> d.JObj? && ("configurations" in d.fields ==> d.fields["configurations"].JArr?))
      && (r.Err? ==> r.error == AttributeError)
      && (r.Ok? ==> && r.value.JObj? && r.value.fields.Keys == d.fields.Keys + {"configurations"}
                    && (forall k :: k in d.fields && k != "configurations" ==> r.value.fields[k] == d.fields[k])
                    && r.value.fields["configurations"].JArr?
                    && var before := if "configurations" in d.fields then d.fields["configurations"].items else [];
                       r.value.fields["configurations"].items == before + [ConfigBlock(Matches(debcve, order, cve))])
  {
  }

  // ---------------------------------------------------------------- the new entries

  /** `new_entries` after the loop: one entry per group, each the CVE's new document. */
  ghost predicate Built(m: map<string, AllCveRow>, nvd: map<string, NvdCveRow>, debcve: map<CveKey, DebCveRow>, order: seq<CveKey>) {
    && m.Keys == Groups(nvd, debcve)
    && forall c :: c in m ==> c in nvd && NewData(nvd, debcve, order, c) == Ok(m[c].data) && m[c].cveId == c && m[c].lastMod == None
  }

  ghost predicate Fails(nvd: map<string, NvdCveRow>, debcve: map<CveKey, DebCveRow>, order: seq<CveKey>) {
    exists c :: c in Groups(nvd, debcve) && NewData(nvd, debcve, order, c).Err?
  }

  /** `combine`'s loop over the grouped rows: each group's new document, keyed by CVE id. */
  method BuildEntries(nvd: map<string, NvdCveRow>, debcve: map<CveKey, DebCveRow>, order: seq<CveKey>) returns (r: Result<map<string, AllCveRow>>)
    requires Enumerates(order, debcve.Keys)
    ensures r.Err? <==> Fails(nvd, debcve, order)
    ensures r.Err? ==> r.error == AttributeError
    ensures r.Ok? ==> Built(r.value, nvd, debcve, order)
  {
    var groups := Groups(nvd, debcve);
    var m: map<string, AllCveRow> := map[];
    var todo := groups;
    while todo != {}
      invariant todo <= groups
      invariant forall c :: c in m <==> c in groups && c !in todo
      invariant forall c :: c in m ==> c in nvd && NewData(nvd, debcve, order, c) == Ok(m[c].data) && m[c].cveId == c && m[c].lastMod == None
      decreases |todo|
    {
      NonEmptyHas(todo);
      var c :| c in todo;
      var data := SetDefaultAppend(nvd[c].data, "configurations", ConfigBlock(Matches(debcve, order, c)));
      if data.Err? {
        return Err(data.error);
      }
      m := m[c := AllCveRow(c, None, data.value)];
      todo := todo - {c};
    }
    assert m.Keys == groups;
    return Ok(m);
  }

  // ---------------------------------------------------------------- update and insert

  /** `all_cve` after both passes: exactly the new keys; a stored record takes the new document. */
  function Reconciled(t: map<string, AllCveRow>, m: map<string, AllCveRow>): map<string, AllCveRow> {
    map c | c in m :: if c in t then t[c].MergedWith(m[c]) else m[c]
  }

  /**
   * `combine_update`: a stored record with a new entry takes its document,
   * a stored record without one is deleted; the new entries not stored
   * are returned.
   */
  method CombineUpdate(t: map<string, AllCveRow>, m: map<string, AllCveRow>) returns (u: map<string, AllCveRow>, left: map<string, AllCveRow>)
    requires AllCveTable(t)
    ensures forall c :: c in u <==> c in t && c in m
    ensures forall c :: c in u ==> u[c] == t[c].MergedWith(m[c])
    ensures forall c :: c in left <==> c in m && c !in t
    ensures forall c :: c in left ==> left[c] == m[c]
  {
    u, left := t, m;
    var todo := t.Keys;
    while todo != {}
      invariant todo <= t.Keys
      invariant forall c :: c in u <==> c in todo || (c in t && c in m)
      invariant forall c :: c in u ==> u[c] == if c in todo then t[c] else t[c].MergedWith(m[c])
      invariant forall c :: c in left <==> c in m && (c !in t || c in todo)
      invariant forall c :: c in left ==> left[c] == m[c]
      decreases |todo|
    {
      NonEmptyHas(todo);
      var c :| c in todo;
      var key := u[c].cveId;
      if key in left {
        u := u[c := u[c].MergedWith(left[key])];
        left := left - {key};
      } else {
        u := u - {c};
      }
      todo := todo - {c};
    }
  }

  /** `combine_insert`: every leftover entry is added. */
  method CombineInsert(u: map<string, AllCveRow>, left: map<string, AllCveRow>) returns (w: map<string, AllCveRow>)
    ensures forall c :: c in w <==> c in u || c in left
    ensures forall c :: c in w ==> w[c] == if c in left then left[c] else u[c]
  {
    w := u;
    var todo := left.Keys;
    while todo != {}
      invariant todo <= left.Keys
      invariant forall c :: c in w <==> c in u || (c in left && c !in todo)
      invariant forall c :: c in w ==> w[c] == if c in left && c !in todo then left[c] else u[c]
      decreases |todo|
    {
      NonEmptyHas(todo);
      var c :| c in todo;
      w := w[c := left[c]];
      todo := todo - {c};
    }
  }

  /** Afterwards the stored CVE ids are exactly the new keys, each with the new document. */
  lemma ReconciledRows(t: map<string, AllCveRow>, m: map<string, AllCveRow>)
    requires AllCveTable(t) && AllCveTable(m)
    ensures var r := Reconciled(t, m);
      && r.Keys == m.Keys
      && (forall c :: c in r ==> r[c].cveId == c && r[c].data == m[c].data)
      && (forall c :: c in r && c in t ==> r[c].lastMod == t[c].lastMod)
      && AllCveTable(r)
  {
  }

  lemma ReconciledIs(t: map<string, AllCveRow>, m: map<string, AllCveRow>, w: map<string, AllCveRow>)
    requires forall c :: c in w <==> c in m
    requires forall c :: c in w ==> w[c] == if c in t then t[c].MergedWith(m[c]) else m[c]
    ensures w == Reconciled(t, m)
  {
  }

  /** A second pass with the same new entries changes nothing. */
  lemma ReconciledIdempotent(t: map<string, AllCveRow>, m: map<string, AllCveRow>)
    ensures Reconciled(Reconciled(t, m), m) == Reconciled(t, m)
  {
  }

  /** `combine_update` followed by `combine_insert`. */
  method Reconcile(t: map<string, AllCveRow>, m: map<string, AllCveRow>) returns (w: map<string, AllCveRow>)
    requires AllCveTable(t)
    ensures w == Reconciled(t, m)
  {
    var u, left := CombineUpdate(t, m);
    w := CombineInsert(u, left);
    ReconciledIs(t, m, w);
  }

  /**
   * `combine` inside its session: build the new entries from the grouped
   * rows (`order` being the order in which the aggregation reads every
   * `deb_cve` row once), then
   * update and insert. A failure leaves `all_cve` as it was, since the
   * session is never committed; otherwise `all_cve` holds exactly the new
   * entries.
   */
  method Combine(store: Store, order: seq<CveKey>) returns (r: Result<map<string, AllCveRow>>)
    requires store.Valid() && Enumerates(order, store.debcve.Keys)
    modifies store`allcve
    ensures store.Valid()
    ensures r.Err? <==> Fails(store.nvd, store.debcve, order)
    ensures r.Err? ==> store.allcve == old(store.allcve)
    ensures r.Ok? ==> Built(r.value, store.nvd, store.debcve, order) && store.allcve == Reconciled(old(store.allcve), r.value)
  {
    r := BuildEntries(store.nvd, store.debcve, order);
    if r.Err? {
      return;
    }
    var w := Reconcile(store.allcve, r.value);
    ReconciledRows(store.allcve, r.value);
    store.SetAllcve(w);
  }
}
