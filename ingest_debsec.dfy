/**
 * The `ingest-debsec` pass: reconcile the `debsec_cve` rows of one
 * product's distributions with a parsed Debian security-tracker CVE list.
 * A persisted advisory adopts the file's statement about it or, when the
 * file's bucket for its codename has none, is deleted; every statement
 * left over is then inserted under the distribution of its codename,
 * which the product's mapper creates when it is missing.
 */
module DataIngestDebsec {
  import opened Wrappers
  import opened Database
  import opened DistCpeMappers
  import opened DebsecCveFiles

  type Bucket = map<(string, string), DebsecCveRow>

  /** Both queries of the pass filter `dist_cpe` on the mapper's vendor and product. */
  predicate SameProduct(d: DistCpe, m: DistCpeMapper)
    requires !m.BaseMapper?
  {
    d.cpeVendor == m.CpeVendor() && d.cpeProduct == m.CpeProduct()
  }

  /** The ids of the product's `dist_cpe` rows. */
  function ProductDists(dists: map<int, DistCpe>, m: DistCpeMapper): set<int>
    requires !m.BaseMapper?
  {
    set id | id in dists && SameProduct(dists[id], m)
  }

  /** The keys of the `debsec_cve` rows the update query streams. */
  function Scope(t: map<CveKey, DebsecCveRow>, dists: map<int, DistCpe>, m: DistCpeMapper): set<CveKey>
    requires !m.BaseMapper?
  {
    set k {:trigger k in t} | k in t && k.0 in dists && SameProduct(dists[k.0], m)
  }

  /** Each row is stored under its own CVE id and source. */
  predicate KeyedRows(t: map<CveKey, DebsecCveRow>) {
    forall k {:trigger k in t} :: k in t ==> t[k].cveId == k.1 && t[k].debSource == k.2
  }

  /** The advisory the file states for a key in the bucket of a codename, if any. */
  function NewEntry(file: Buckets, c: string, key: (string, string)): Option<DebsecCveRow> {
    if c in file && key in file[c] then Some(file[c][key]) else None
  }

  /**
   * The update pass over the streamed rows, in stream order `order`.
   */
  function UpdateAdvisories(t: map<CveKey, DebsecCveRow>, dists: map<int, DistCpe>, file: Buckets, order: seq<CveKey>, deletes: bool)
    : (r: (map<CveKey, DebsecCveRow>, Buckets))
    ensures r.0.Keys <= t.Keys && r.1.Keys == file.Keys
    decreases |order|
  {
    if order == [] then (t, file)
    else
      var s := UpdateRow(t, dists, file, order[0], deletes);
      UpdateAdvisories(s.0, dists, s.1, order[1..], deletes)
  }

  /**
   * One streamed row `k`: it looks up the bucket of its distribution's
   * codename; a missing or empty bucket, or a bucket without the row's
   * (cve_id, source), deletes the row when `deletes` holds and leaves it
   * otherwise; a present entry is popped and merged into the row.
   */
  function UpdateRow(t: map<CveKey, DebsecCveRow>, dists: map<int, DistCpe>, file: Buckets, k: CveKey, deletes: bool)
    : (r: (map<CveKey, DebsecCveRow>, Buckets))
    ensures r.0.Keys <= t.Keys && r.1.Keys == file.Keys
  {
    if k !in t || k.0 !in dists then (t, file)
    else
      var c := dists[k.0].debCodename;
      var key := (t[k].cveId, t[k].debSource);
      var kept := if deletes then t - {k} else t;
      if c !in file || file[c] == map[] then (kept, file)
      else if key !in file[c] then (kept, file)
      else (t[k := t[k].MergedWith(file[c][key])], file[c := file[c] - {key}])
  }

  /** What a streamed row is matched by: its codename, CVE id and source. */
  function Tag(dists: map<int, DistCpe>, k: CveKey): (string, string, string)
    requires k.0 in dists
  {
    (dists[k.0].debCodename, k.1, k.2)
  }

  /** The keys the update pass pops from the bucket of codename `c`. */
  function Popped(dists: map<int, DistCpe>, order: seq<CveKey>, c: string): set<(string, string)> {
    set k {:trigger k in order} | k in order && k.0 in dists && dists[k.0].debCodename == c :: (k.1, k.2)
  }

  /** The streamed rows the update pass reads: persisted rows of known distributions, with pairwise different tags. */
  ghost predicate Streamed(t: map<CveKey, DebsecCveRow>, dists: map<int, DistCpe>, order: seq<CveKey>) {
    && (forall i :: 0 <= i < |order| ==> order[i] in t && order[i].0 in dists)
    && (forall i, j :: 0 <= i < j < |order| ==> Tag(dists, order[i]) != Tag(dists, order[j]))
  }

  /**
   * One row in closed form: with rows keyed by their CVE id and source,
   * the row is merged with the file's entry for it and that entry is
   * popped; without one, the row is deleted exactly when `deletes` holds.
   */
  lemma RowClosed(t: map<CveKey, DebsecCveRow>, dists: map<int, DistCpe>, file: Buckets, k: CveKey, deletes: bool)
    requires KeyedRows(t) && k in t && k.0 in dists
    ensures var c, key := dists[k.0].debCodename, (k.1, k.2);
      && UpdateRow(t, dists, file, k, deletes).1 == (if NewEntry(file, c, key).Some? then file[c := file[c] - {key}] else file)
      && UpdateRow(t, dists, file, k, deletes).0
         == (if NewEntry(file, c, key).Some? then t[k := t[k].MergedWith(file[c][key])] else if deletes then t - {k} else t)
      && KeyedRows(UpdateRow(t, dists, file, k, deletes).0)
  {
    var r := UpdateRow(t, dists, file, k, deletes).0;
    forall k' {:trigger k' in r} | k' in r ensures r[k'].cveId == k'.1 && r[k'].debSource == k'.2 {
      var c := dists[k.0].debCodename;
      if k' == k && c in file && (k.1, k.2) in file[c] {
        assert t[k].MergedWith(file[c][(k.1, k.2)]).cveId == t[k].cveId;
      }
    }
  }

  /** The rows after the first of a stream keep the stream's conditions once the first row is handled. */
  lemma StreamedTail(t: map<CveKey, DebsecCveRow>, dists: map<int, DistCpe>, file: Buckets, order: seq<CveKey>, deletes: bool)
    requires KeyedRows(t) && Streamed(t, dists, order) && order != []
    ensures Streamed(UpdateRow(t, dists, file, order[0], deletes).0, dists, order[1..])
    ensures forall x {:trigger x in order[1..]} :: x in order[1..] ==> x != order[0] && Tag(dists, x) != Tag(dists, order[0])
  {
    var k, rest := order[0], order[1..];
    RowClosed(t, dists, file, k, deletes);
    forall i | 0 <= i < |rest| ensures rest[i] in UpdateRow(t, dists, file, k, deletes).0 && rest[i].0 in dists {
      assert rest[i] == order[i + 1] && Tag(dists, order[0]) != Tag(dists, order[i + 1]);
    }
    forall i, j | 0 <= i < j < |rest| ensures Tag(dists, rest[i]) != Tag(dists, rest[j]) {
      assert rest[i] == order[i + 1] && rest[j] == order[j + 1];
    }
    forall x {:trigger x in rest} | x in rest ensures x != k && Tag(dists, x) != Tag(dists, k) {
      var j :| 0 <= j < |rest| && rest[j] == x;
      assert order[j + 1] == x;
    }
  }

  /** The first row of a stream pops its own key from its codename's bucket, the rest pop the others. */
  lemma PoppedCons(dists: map<int, DistCpe>, order: seq<CveKey>, c: string)
    requires order != [] && order[0].0 in dists
    ensures Popped(dists, order, c)
      == (if dists[order[0].0].debCodename == c then {(order[0].1, order[0].2)} else {}) + Popped(dists, order[1..], c)
  {
    var k, rest := order[0], order[1..];
    var head: set<(string, string)> := if dists[k.0].debCodename == c then {(k.1, k.2)} else {};
    forall p | p in Popped(dists, order, c) ensures p in head + Popped(dists, rest, c) {
      var x :| x in order && x.0 in dists && dists[x.0].debCodename == c && p == (x.1, x.2);
      if x != k {
        assert x in rest;
      }
    }
    forall p | p in head + Popped(dists, rest, c) ensures p in Popped(dists, order, c) {
      if p in Popped(dists, rest, c) {
        var x :| x in rest && x.0 in dists && dists[x.0].debCodename == c && p == (x.1, x.2);
        assert x in order;
      } else {
        assert k in order;
      }
    }
  }

  /** Each bucket loses exactly the keys of the streamed rows of its codename. */
  lemma {:induction false} UpdateBuckets(t: map<CveKey, DebsecCveRow>, dists: map<int, DistCpe>, file: Buckets, order: seq<CveKey>, deletes: bool)
    requires KeyedRows(t) && Streamed(t, dists, order)
    ensures forall c :: c in file ==> UpdateAdvisories(t, dists, file, order, deletes).1[c] == file[c] - Popped(dists, order, c)
    decreases |order|
  {
    if order != [] {
      var k, rest := order[0], order[1..];
      var c, key := dists[k.0].debCodename, (k.1, k.2);
      RowClosed(t, dists, file, k, deletes);
      StreamedTail(t, dists, file, order, deletes);
      var s := UpdateRow(t, dists, file, k, deletes);
      UpdateBuckets(s.0, dists, s.1, rest, deletes);
      forall c' | c' in file ensures s.1[c'] - Popped(dists, rest, c') == file[c'] - Popped(dists, order, c') {
        PoppedCons(dists, order, c');
        if c' == c {
          assert (s.1[c'] - Popped(dists, rest, c')).Keys == (file[c'] - Popped(dists, order, c')).Keys;
        }
      }
    }
  }

  /** Rows that are not streamed stay as they are. */
  lemma {:induction false} UpdateUntouched(t: map<CveKey, DebsecCveRow>, dists: map<int, DistCpe>, file: Buckets, order: seq<CveKey>, deletes: bool)
    requires KeyedRows(t) && Streamed(t, dists, order)
    ensures forall k :: k in t && k !in order ==>
      k in UpdateAdvisories(t, dists, file, order, deletes).0 && UpdateAdvisories(t, dists, file, order, deletes).0[k] == t[k]
    decreases |order|
  {
    if order != [] {
      RowClosed(t, dists, file, order[0], deletes);
      StreamedTail(t, dists, file, order, deletes);
      var s := UpdateRow(t, dists, file, order[0], deletes);
      UpdateUntouched(s.0, dists, s.1, order[1..], deletes);
      assert forall x :: x in order <==> x == order[0] || x in order[1..];
    }
  }

  /**
   * A streamed row with an entry in the file is merged with it; one
   * without is gone exactly when `deletes` holds and unchanged otherwise.
   */
  lemma {:induction false} UpdateStreamed(t: map<CveKey, DebsecCveRow>, dists: map<int, DistCpe>, file: Buckets, order: seq<CveKey>, deletes: bool)
    requires KeyedRows(t) && Streamed(t, dists, order)
    ensures forall k :: k in order && NewEntry(file, dists[k.0].debCodename, (k.1, k.2)).Some? ==>
      && k in UpdateAdvisories(t, dists, file, order, deletes).0
      && UpdateAdvisories(t, dists, file, order, deletes).0[k] == t[k].MergedWith(file[dists[k.0].debCodename][(k.1, k.2)])
    ensures forall k :: k in order && NewEntry(file, dists[k.0].debCodename, (k.1, k.2)).None? ==>
      && (k in UpdateAdvisories(t, dists, file, order, deletes).0 <==> !deletes)
      && (k in UpdateAdvisories(t, dists, file, order, deletes).0 ==> UpdateAdvisories(t, dists, file, order, deletes).0[k] == t[k])
    decreases |order|
  {
    if order != [] {
      var k, rest := order[0], order[1..];
      RowClosed(t, dists, file, k, deletes);
      StreamedTail(t, dists, file, order, deletes);
      var s := UpdateRow(t, dists, file, k, deletes);
      UpdateStreamed(s.0, dists, s.1, rest, deletes);
      UpdateUntouched(s.0, dists, s.1, rest, deletes);
      StreamedEntries(t, dists, file, order, deletes);
      assert forall x :: x in order <==> x == k || x in rest;
    }
  }

  /** Handling the first row changes neither the other streamed rows nor the file's entries for them. */
  lemma StreamedEntries(t: map<CveKey, DebsecCveRow>, dists: map<int, DistCpe>, file: Buckets, order: seq<CveKey>, deletes: bool)
    requires KeyedRows(t) && Streamed(t, dists, order) && order != []
    ensures var s := UpdateRow(t, dists, file, order[0], deletes);
      forall x {:trigger x in order[1..]} :: x in order[1..] ==>
        && x in s.0 && s.0[x] == t[x]
        && NewEntry(s.1, dists[x.0].debCodename, (x.1, x.2)) == NewEntry(file, dists[x.0].debCodename, (x.1, x.2))
  {
    RowClosed(t, dists, file, order[0], deletes);
    StreamedTail(t, dists, file, order, deletes);
  }

  /**
   * The update pass read as a whole, when no two streamed rows share
   * codename, CVE id and source: each bucket loses exactly the keys of
   * the streamed rows of its codename; rows not streamed stay; a streamed
   * row with an entry in the file is merged with it; one without is gone
   * exactly when `deletes` holds and unchanged otherwise.
   */
  lemma UpdateClosed(t: map<CveKey, DebsecCveRow>, dists: map<int, DistCpe>, file: Buckets, order: seq<CveKey>, deletes: bool)
    requires KeyedRows(t)
    requires forall i :: 0 <= i < |order| ==> order[i] in t && order[i].0 in dists
    requires forall i, j :: 0 <= i < j < |order| ==> Tag(dists, order[i]) != Tag(dists, order[j])
    ensures forall c :: c in file ==> UpdateAdvisories(t, dists, file, order, deletes).1[c] == file[c] - Popped(dists, order, c)
    ensures forall k :: k in t && k !in order ==>
      k in UpdateAdvisories(t, dists, file, order, deletes).0 && UpdateAdvisories(t, dists, file, order, deletes).0[k] == t[k]
    ensures forall k :: k in order && NewEntry(file, dists[k.0].debCodename, (k.1, k.2)).Some? ==>
      && k in UpdateAdvisories(t, dists, file, order, deletes).0
      && UpdateAdvisories(t, dists, file, order, deletes).0[k] == t[k].MergedWith(file[dists[k.0].debCodename][(k.1, k.2)])
    ensures forall k :: k in order && NewEntry(file, dists[k.0].debCodename, (k.1, k.2)).None? ==>
      && (k in UpdateAdvisories(t, dists, file, order, deletes).0 <==> !deletes)
      && (k in UpdateAdvisories(t, dists, file, order, deletes).0 ==> UpdateAdvisories(t, dists, file, order, deletes).0[k] == t[k])
  {
    UpdateBuckets(t, dists, file, order, deletes);
    UpdateUntouched(t, dists, file, order, deletes);
    UpdateStreamed(t, dists, file, order, deletes);
  }

  /** The update loop: each streamed row is merged with the entry it pops from its bucket, or deleted. */
  method Update(store: Store, file: DebsecCveFile, order: seq<CveKey>, deletes: bool)
    requires store.Valid()
    requires forall i :: 0 <= i < |order| ==> order[i] in store.debsec
    requires forall i, j :: 0 <= i < j < |order| ==> order[i] != order[j]
    modifies store`debsec, file
    ensures store.Valid()
    ensures (store.debsec, file.buckets) == UpdateAdvisories(old(store.debsec), store.dists, old(file.buckets), order, deletes)
  {
    var t, f, i := store.debsec, file.buckets, 0;
    while i < |order|
      invariant 0 <= i <= |order|
      invariant DebsecTable(t, store.dists)
      invariant forall j :: i <= j < |order| ==> order[j] in t
      invariant UpdateAdvisories(old(store.debsec), store.dists, old(file.buckets), order, deletes)
        == UpdateAdvisories(t, store.dists, f, order[i..], deletes)
    {
      assert order[i..][0] == order[i] && order[i..][1..] == order[i + 1..];
      t, f := UpdateOne(store.dists, t, f, order[i], deletes);
      i := i + 1;
    }
    store.debsec, file.buckets := t, f;
  }

  /** One streamed row of the update loop: `UpdateRow` on the loop's tables. */
  method UpdateOne(dists: map<int, DistCpe>, t0: map<CveKey, DebsecCveRow>, f0: Buckets, k: CveKey, deletes: bool)
    returns (t: map<CveKey, DebsecCveRow>, f: Buckets)
    requires DebsecTable(t0, dists) && k in t0
    ensures (t, f) == UpdateRow(t0, dists, f0, k, deletes)
    ensures DebsecTable(t, dists)
  {
    t, f := t0, f0;
    var c := dists[t[k].distId.value].debCodename;
    var key := (t[k].cveId, t[k].debSource);
    if c !in f || f[c] == map[] {
      if deletes {
        t := t - {k};
      }
    } else if key !in f[c] {
      if deletes {
        t := t - {k};
      }
    } else {
      var newEntry := f[c][key];
      f := f[c := f[c] - {key}];
      var merged := MergeDebsecCve(t[k], newEntry);
      t := t[k := merged];
    }
  }

  /**
   * `{i.deb_codename: i for i in stream}` over the product's distribution
   * rows in stream order: every codename is indexed, by a row that has it.
   */
  function CodenameIndex(dists: map<int, DistCpe>, order: seq<int>): (ix: map<string, int>)
    requires forall i :: 0 <= i < |order| ==> order[i] in dists
    ensures forall c :: c in ix ==> ix[c] in order && dists[ix[c]].debCodename == c
    ensures forall i :: 0 <= i < |order| ==> dists[order[i]].debCodename in ix
    decreases |order|
  {
    if order == [] then map[]
    else
      var d := order[|order| - 1];
      var p := order[..|order| - 1];
      assert forall i :: 0 <= i < |p| ==> p[i] == order[i];
      CodenameIndex(dists, p)[dists[d].debCodename := d]
  }

  /** A later row with the same codename replaces an earlier one: the index holds the last. */
  lemma {:induction false} CodenameIndexLast(dists: map<int, DistCpe>, order: seq<int>, i: nat)
    requires forall j :: 0 <= j < |order| ==> order[j] in dists
    requires i < |order|
    requires forall j :: i < j < |order| ==> dists[order[j]].debCodename != dists[order[i]].debCodename
    ensures CodenameIndex(dists, order)[dists[order[i]].debCodename] == order[i]
    decreases |order|
  {
    var p := order[..|order| - 1];
    assert forall j :: 0 <= j < |p| ==> p[j] == order[j];
    if i < |order| - 1 {
      CodenameIndexLast(dists, p, i);
    }
  }

  /** An entry of the bucket collides with a row already stored under distribution `id`. */
  predicate Collides(t: map<CveKey, DebsecCveRow>, id: int, bucket: Bucket) {
    exists key {:trigger key in bucket} :: key in bucket && (id, key.0, key.1) in t
  }

  /** Every entry of a bucket sits under its own (cve_id, source). */
  predicate KeyedBucket(bucket: Bucket) {
    forall key {:trigger key in bucket} :: key in bucket ==> bucket[key].cveId == key.0 && bucket[key].debSource == key.1
  }

  /**
   * The rows `mapper(c)` creates for the codenames of the file it accepts;
   * a concrete mapper raises `KeyError(c)` for every other codename.
   */
  function Made(m: DistCpeMapper, b: Buckets): (made: map<string, DistCpe>)
    requires !m.BaseMapper?
    ensures forall c :: c in made <==> c in b && Call(m, c).Ok?
    ensures forall c :: c in made ==> made[c] == Call(m, c).value
  {
    map c | c in b && Call(m, c).Ok? :: Call(m, c).value
  }

  /** `made` holds exactly the rows the mapper creates for the codenames of `b`. */
  ghost predicate MadeBy(made: map<string, DistCpe>, m: DistCpeMapper, b: Buckets) {
    forall c {:trigger Call(m, c)} :: c in b ==> (c in made <==> Call(m, c).Ok?) && (c in made ==> made[c] == Call(m, c).value)
  }

  lemma MadeByMade(m: DistCpeMapper, b: Buckets)
    requires !m.BaseMapper?
    ensures MadeBy(Made(m, b), m, b)
  {
  }

  /** Each row the mapper creates belongs to its product and carries the codename asked for. */
  ghost predicate Sound(made: map<string, DistCpe>, m: DistCpeMapper)
    requires !m.BaseMapper?
  {
    forall c :: c in made ==> made[c].debCodename == c && SameProduct(made[c], m)
  }

  lemma MadeSound(m: DistCpeMapper, b: Buckets)
    requires !m.BaseMapper?
    ensures Sound(Made(m, b), m)
  {
  }

  /** A bucket of `S` collides with the rows of its existing distribution. */
  predicate Clashes(t: map<CveKey, DebsecCveRow>, ix: map<string, int>, b: Buckets, S: set<string>) {
    exists c :: c in S && c in b && c in ix && Collides(t, ix[c], b[c])
  }

  /** Every distribution id is below the next value of the id sequence. */
  predicate Fresh(d: map<int, DistCpe>, next: int) {
    forall id :: id in d ==> id < next
  }

  /**
   * The distributions after handling the codenames `S`: the index `ix`
   * extends `ix0` by one new row per codename of `S` that had none, made
   * by the mapper; nothing else is added and no row changes.
   */
  ghost predicate Resolved(d0: map<int, DistCpe>, d: map<int, DistCpe>, ix0: map<string, int>, ix: map<string, int>,
                           made: map<string, DistCpe>, m: DistCpeMapper, S: set<string>)
    requires !m.BaseMapper?
  {
    && (forall c :: c in ix <==> c in ix0 || c in S)
    && (forall c :: c in ix0 ==> ix[c] == ix0[c])
    && (forall c :: c in ix ==> ix[c] in d && d[ix[c]].debCodename == c && SameProduct(d[ix[c]], m))
    && (forall c :: c in S && c !in ix0 ==> ix[c] !in d0 && c in made && made[c] == d[ix[c]])
    && (forall id :: id in d0 ==> id in d && d[id] == d0[id])
    && (forall id :: id in d && id !in d0 ==> d[id].debCodename in S && d[id].debCodename !in ix0 && ix[d[id].debCodename] == id)
  }

  /** Is `k` the key of an entry of codename `c` in `S`, added under its index? */
  predicate InsertedKey(ix: map<string, int>, b: Buckets, S: set<string>, c: string, k: CveKey) {
    c in S && c in b && c in ix && ix[c] == k.0 && (k.1, k.2) in b[c]
  }

  /** The advisories after adding the buckets of `S` to `t0` under their indexed distributions. */
  ghost predicate Added(t0: map<CveKey, DebsecCveRow>, t: map<CveKey, DebsecCveRow>, d: map<int, DistCpe>, ix: map<string, int>, b: Buckets, S: set<string>) {
    && (forall k {:trigger k in t0} :: k in t0 ==> k in t)
    && (forall c, key {:trigger key in b[c]} :: c in S && c in b && c in ix && key in b[c] ==>
         (ix[c], key.0, key.1) in t && t[(ix[c], key.0, key.1)] == b[c][key].(distId := Some(ix[c])))
    && (forall k {:trigger k in t} :: k in t && k !in t0 ==> k.0 in d && InsertedKey(ix, b, S, d[k.0].debCodename, k))
    && (forall k {:trigger k in t0} :: k in t0 && !(k.0 in d && InsertedKey(ix, b, S, d[k.0].debCodename, k)) ==> t[k] == t0[k])
  }

  /**
   * The distribution half of the codename loop of `import_cve_insert`
   * over the iteration order `cs`: a codename takes `dists.get(c)` or,
   * when it has none, the mapper's row, added under the next id of the
   * sequence; a codename the mapper rejects ends the loop with its
   * `KeyError`. The index only grows and keeps every codename it had.
   */
  function ResolveCodenames(d: map<int, DistCpe>, next: int, ix: map<string, int>, made: map<string, DistCpe>, cs: seq<string>)
    : (r: Result<Resolution>)
    ensures r.Ok? ==> forall c :: c in ix ==> c in r.value.index && r.value.index[c] == ix[c]
    ensures r.Ok? ==> forall i :: 0 <= i < |cs| ==> cs[i] in r.value.index
    decreases |cs|
  {
    if cs == [] then Ok(Resolution(d, next, ix))
    else if cs[0] in ix then ResolveCodenames(d, next, ix, made, cs[1..])
    else if cs[0] !in made then Err(KeyError(cs[0]))
    else ResolveCodenames(d[next := made[cs[0]]], next + 1, ix[cs[0] := next], made, cs[1..])
  }

  /** Where the distributions of the codename loop end up: the rows, the id sequence and the codename index. */
  datatype Resolution = Resolution(dists: map<int, DistCpe>, next: int, index: map<string, int>)

  /** The entries of a bucket attached to distribution `id`, under their keys. */
  function Attached(id: int, bucket: Bucket): (r: map<CveKey, DebsecCveRow>)
    ensures forall k {:trigger k in r} :: k in r <==> k.0 == id && (k.1, k.2) in bucket
    ensures forall key {:trigger key in bucket} :: key in bucket ==> r[(id, key.0, key.1)] == bucket[key].(distId := Some(id))
  {
    map key {:trigger key in bucket} | key in bucket :: (id, key.0, key.1) := bucket[key].(distId := Some(id))
  }

  /**
   * The advisory half of the codename loop: each bucket in order `cs` is
   * attached to the distribution `ix` gives its codename and added to the
   * rows; the flag records whether an added key was already stored,
   * which makes the flush fail. The fold stops at a codename without an
   * index entry or a bucket, which a resolved file does not have.
   */
  function AttachCodenames(t: map<CveKey, DebsecCveRow>, clash: bool, ix: map<string, int>, b: Buckets, cs: seq<string>)
    : (map<CveKey, DebsecCveRow>, bool)
    decreases |cs|
  {
    if cs == [] || cs[0] !in ix || cs[0] !in b then (t, clash)
    else AttachCodenames(t + Attached(ix[cs[0]], b[cs[0]]), clash || Collides(t, ix[cs[0]], b[cs[0]]), ix, b, cs[1..])
  }

  /** A codename that already has a distribution leaves the distributions and the index as they are. */
  lemma ResolvedKeep(d0: map<int, DistCpe>, d: map<int, DistCpe>, ix0: map<string, int>, ix: map<string, int>,
                     made: map<string, DistCpe>, m: DistCpeMapper, S: set<string>, c: string)
    requires !m.BaseMapper? && Resolved(d0, d, ix0, ix, made, m, S)
    requires c in ix && c !in S
    ensures Resolved(d0, d, ix0, ix, made, m, S + {c})
  {
  }

  /** A codename without a distribution gets the mapper's row under a new id. */
  lemma ResolvedAdd(d0: map<int, DistCpe>, d: map<int, DistCpe>, ix0: map<string, int>, ix: map<string, int>,
                    made: map<string, DistCpe>, m: DistCpeMapper, S: set<string>, c: string, id: int)
    requires !m.BaseMapper? && Resolved(d0, d, ix0, ix, made, m, S)
    requires c !in ix && c !in S && id !in d
    requires c in made && made[c].debCodename == c && SameProduct(made[c], m)
    ensures Resolved(d0, d[id := made[c]], ix0, ix[c := id], made, m, S + {c})
  {
    var d', ix' := d[id := made[c]], ix[c := id];
    forall c' | c' in S + {c} && c' !in ix0 ensures ix'[c'] !in d0 && c' in made && made[c'] == d'[ix'[c']] {
      if c' != c {
        assert ix'[c'] == ix[c'] && ix[c'] in d && ix[c'] != id;
      }
    }
  }

  /**
   * The distribution half fails exactly when one of the codenames has no
   * distribution and the mapper rejects it, and then with the `KeyError`
   * of the first such codename in iteration order.
   */
  lemma {:induction false} ResolveErr(ix0: map<string, int>, made: map<string, DistCpe>, d: map<int, DistCpe>, next: int, ix: map<string, int>, cs: seq<string>)
    requires forall i :: 0 <= i < |cs| ==> (cs[i] in ix <==> cs[i] in ix0)
    requires forall i, j :: 0 <= i < j < |cs| ==> cs[i] != cs[j]
    ensures ResolveCodenames(d, next, ix, made, cs).Ok? <==> forall i :: 0 <= i < |cs| ==> cs[i] in ix0 || cs[i] in made
    ensures ResolveCodenames(d, next, ix, made, cs).Err? ==>
      exists i :: (&& 0 <= i < |cs| && cs[i] !in ix0 && cs[i] !in made
                   && ResolveCodenames(d, next, ix, made, cs).error == KeyError(cs[i])
                   && (forall j :: 0 <= j < i ==> cs[j] in ix0 || cs[j] in made))
    decreases |cs|
  {
    if cs != [] {
      var c, rest := cs[0], cs[1..];
      if c in ix || c in made {
        var d', next', ix' := if c in ix then d else d[next := made[c]], if c in ix then next else next + 1, if c in ix then ix else ix[c := next];
        assert ResolveCodenames(d, next, ix, made, cs) == ResolveCodenames(d', next', ix', made, rest);
        forall i | 0 <= i < |rest| ensures rest[i] in ix' <==> rest[i] in ix0 {
          assert rest[i] == cs[i + 1] && cs[i + 1] != cs[0];
        }
        ResolveErr(ix0, made, d', next', ix', rest);
        forall i | 0 < i < |cs| ensures (cs[i] in ix0 || cs[i] in made) <==> (rest[i - 1] in ix0 || rest[i - 1] in made) {
          assert cs[i] == rest[i - 1];
        }
        if ResolveCodenames(d, next, ix, made, cs).Err? {
          var i :| (&& 0 <= i < |rest| && rest[i] !in ix0 && rest[i] !in made
                    && ResolveCodenames(d', next', ix', made, rest).error == KeyError(rest[i])
                    && (forall j :: 0 <= j < i ==> rest[j] in ix0 || rest[j] in made));
          assert cs[i + 1] == rest[i];
          forall j | 0 <= j < i + 1 ensures cs[j] in ix0 || cs[j] in made {
            if j > 0 {
              assert cs[j] == rest[j - 1];
            }
          }
        }
      }
    }
  }

  /** A distribution half that succeeds has resolved every codename of `cs`, with ids below the sequence. */
  lemma {:induction false} ResolveState(d0: map<int, DistCpe>, ix0: map<string, int>, made: map<string, DistCpe>, m: DistCpeMapper, S: set<string>,
                                        d: map<int, DistCpe>, next: int, ix: map<string, int>, cs: seq<string>)
    requires !m.BaseMapper? && Sound(made, m) && Resolved(d0, d, ix0, ix, made, m, S) && Fresh(d, next)
    requires forall i :: 0 <= i < |cs| ==> cs[i] !in S
    requires forall i, j :: 0 <= i < j < |cs| ==> cs[i] != cs[j]
    ensures var R := ResolveCodenames(d, next, ix, made, cs);
      R.Ok? ==> Resolved(d0, R.value.dists, ix0, R.value.index, made, m, S + (set c | c in cs)) && Fresh(R.value.dists, R.value.next)
    decreases |cs|
  {
    if cs == [] {
      assert S + (set c | c in cs) == S;
    } else {
      var c, rest := cs[0], cs[1..];
      Tail(S, cs);
      if c in ix {
        ResolvedKeep(d0, d, ix0, ix, made, m, S, c);
        ResolveState(d0, ix0, made, m, S + {c}, d, next, ix, rest);
      } else if c in made {
        ResolvedAdd(d0, d, ix0, ix, made, m, S, c, next);
        ResolveState(d0, ix0, made, m, S + {c}, d[next := made[c]], next + 1, ix[c := next], rest);
      }
    }
  }

  /** The codenames after the first of a list without repeats are new once the first is handled. */
  lemma Tail(S: set<string>, cs: seq<string>)
    requires cs != [] && forall i :: 0 <= i < |cs| ==> cs[i] !in S
    requires forall i, j :: 0 <= i < j < |cs| ==> cs[i] != cs[j]
    ensures forall i :: 0 <= i < |cs| - 1 ==> cs[1..][i] !in S + {cs[0]}
    ensures forall i, j :: 0 <= i < j < |cs| - 1 ==> cs[1..][i] != cs[1..][j]
    ensures S + {cs[0]} + (set x | x in cs[1..]) == S + (set x | x in cs)
  {
    forall i | 0 <= i < |cs| - 1 ensures cs[1..][i] !in S + {cs[0]} {
      assert cs[1..][i] == cs[i + 1];
    }
  }

  /** Attaching a bucket to a stored distribution keeps the table keyed by the rows. */
  lemma TableBucket(t: map<CveKey, DebsecCveRow>, d: map<int, DistCpe>, id: int, bucket: Bucket)
    requires DebsecTable(t, d) && id in d && KeyedBucket(bucket)
    ensures DebsecTable(t + Attached(id, bucket), d)
  {
    var u := t + Attached(id, bucket);
    forall k {:trigger k in u} | k in u ensures u[k].Key() == (Some(k.0), k.1, k.2) && k.0 in d {
      if k !in Attached(id, bucket) {
        assert u[k] == t[k];
      }
    }
  }

  /** Adding the bucket of one more codename under its distribution extends the added rows. */
  lemma AddedBucket(t0: map<CveKey, DebsecCveRow>, t: map<CveKey, DebsecCveRow>, d: map<int, DistCpe>, ix: map<string, int>, b: Buckets, S: set<string>, c: string)
    requires Added(t0, t, d, ix, b, S)
    requires c in b && c in ix && c !in S
    requires forall c' :: c' in ix ==> ix[c'] in d && d[ix[c']].debCodename == c'
    ensures Added(t0, t + Attached(ix[c], b[c]), d, ix, b, S + {c})
  {
    var u := t + Attached(ix[c], b[c]);
    forall c', key {:trigger key in b[c']} | c' in S + {c} && c' in b && c' in ix && key in b[c']
      ensures (ix[c'], key.0, key.1) in u && u[(ix[c'], key.0, key.1)] == b[c'][key].(distId := Some(ix[c']))
    {
      if c' != c {
        assert ix[c'] != ix[c];
      }
    }
    forall k {:trigger k in t0} | k in t0 && !(k.0 in d && InsertedKey(ix, b, S + {c}, d[k.0].debCodename, k)) ensures u[k] == t0[k] {
      assert !(k.0 == ix[c] && (k.1, k.2) in b[c]);
    }
  }

  /**
   * The bucket of a codename outside `S` collides with the current rows
   * exactly when its distribution existed before the pass and the bucket
   * collides with the rows stored then.
   */
  lemma ClashStep(t0: map<CveKey, DebsecCveRow>, t: map<CveKey, DebsecCveRow>, d0: map<int, DistCpe>, d: map<int, DistCpe>, ix0: map<string, int>, ix: map<string, int>,
                  made: map<string, DistCpe>, m: DistCpeMapper, b: Buckets, All: set<string>, S: set<string>, c: string)
    requires !m.BaseMapper? && Resolved(d0, d, ix0, ix, made, m, All) && Added(t0, t, d, ix, b, S)
    requires DebsecTable(t0, d0) && c in b && c in All && c !in S
    ensures Collides(t, ix[c], b[c]) <==> c in ix0 && Collides(t0, ix0[c], b[c])
    ensures Clashes(t0, ix0, b, S + {c}) <==> Clashes(t0, ix0, b, S) || (c in ix0 && Collides(t0, ix0[c], b[c]))
  {
    assert d[ix[c]].debCodename == c;
    forall key {:trigger key in b[c]} | key in b[c] ensures (ix[c], key.0, key.1) in t <==> c in ix0 && (ix0[c], key.0, key.1) in t0 {
      var k := (ix[c], key.0, key.1);
      if k in t0 {
        assert k.0 in d0;
        assert forall id :: id in d0 ==> id in d;
      }
    }
    if Collides(t, ix[c], b[c]) {
      var key :| key in b[c] && (ix[c], key.0, key.1) in t;
    }
    if c in ix0 && Collides(t0, ix0[c], b[c]) {
      var key :| key in b[c] && (ix0[c], key.0, key.1) in t0;
    }
  }

  /**
   * What holds after the buckets of `S` are added: the table's rows
   * belong to stored distributions, the buckets sit under their
   * distributions, and `clash` records whether one collided with the rows
   * stored before the pass.
   */
  ghost predicate Attaching(t0: map<CveKey, DebsecCveRow>, ix0: map<string, int>, d: map<int, DistCpe>, ix: map<string, int>, b: Buckets, S: set<string>,
                            t: map<CveKey, DebsecCveRow>, clash: bool)
  {
    && DebsecTable(t, d)
    && Added(t0, t, d, ix, b, S)
    && (clash <==> Clashes(t0, ix0, b, S))
  }

  /** Adding one more bucket keeps the advisory half's state. */
  lemma AttachStep(t0: map<CveKey, DebsecCveRow>, d0: map<int, DistCpe>, ix0: map<string, int>, made: map<string, DistCpe>, m: DistCpeMapper, b: Buckets, All: set<string>, S: set<string>,
                   d: map<int, DistCpe>, ix: map<string, int>, t: map<CveKey, DebsecCveRow>, clash: bool, c: string)
    requires !m.BaseMapper? && DebsecTable(t0, d0) && Resolved(d0, d, ix0, ix, made, m, All)
    requires Attaching(t0, ix0, d, ix, b, S, t, clash)
    requires c in b && c in All && c !in S && KeyedBucket(b[c])
    ensures Attaching(t0, ix0, d, ix, b, S + {c}, t + Attached(ix[c], b[c]), clash || Collides(t, ix[c], b[c]))
  {
    TableBucket(t, d, ix[c], b[c]);
    AddedBucket(t0, t, d, ix, b, S, c);
    ClashStep(t0, t, d0, d, ix0, ix, made, m, b, All, S, c);
  }

  /** The advisory half adds every bucket of `cs`. */
  lemma {:induction false} AttachState(t0: map<CveKey, DebsecCveRow>, d0: map<int, DistCpe>, ix0: map<string, int>, made: map<string, DistCpe>, m: DistCpeMapper, b: Buckets, All: set<string>, S: set<string>,
                                       d: map<int, DistCpe>, ix: map<string, int>, t: map<CveKey, DebsecCveRow>, clash: bool, cs: seq<string>)
    requires !m.BaseMapper? && DebsecTable(t0, d0) && Resolved(d0, d, ix0, ix, made, m, All)
    requires Attaching(t0, ix0, d, ix, b, S, t, clash)
    requires forall i :: 0 <= i < |cs| ==> cs[i] in b && cs[i] in All && cs[i] !in S && KeyedBucket(b[cs[i]])
    requires forall i, j :: 0 <= i < j < |cs| ==> cs[i] != cs[j]
    ensures var A := AttachCodenames(t, clash, ix, b, cs); Attaching(t0, ix0, d, ix, b, S + (set c | c in cs), A.0, A.1)
    decreases |cs|
  {
    if cs == [] {
      assert S + (set c | c in cs) == S;
    } else {
      var c, rest := cs[0], cs[1..];
      Tail(S, cs);
      AttachStep(t0, d0, ix0, made, m, b, All, S, d, ix, t, clash, c);
      AttachState(t0, d0, ix0, made, m, b, All, S + {c}, d, ix, t + Attached(ix[c], b[c]), clash || Collides(t, ix[c], b[c]), rest);
    }
  }

  /**
   * The inner loop of `import_cve_insert`: each entry of one bucket is
   * attached to distribution `id` and added. Reports whether an added key
   * was already stored, which makes the flush fail.
   */
  method AddBucket(t: map<CveKey, DebsecCveRow>, id: int, bucket: Bucket) returns (u: map<CveKey, DebsecCveRow>, clash: bool)
    ensures clash <==> Collides(t, id, bucket)
    ensures u == t + Attached(id, bucket)
  {
    u, clash := t, false;
    var todo := bucket.Keys;
    while todo != {}
      invariant todo <= bucket.Keys
      invariant clash <==> exists key {:trigger key in bucket} :: key in bucket && key !in todo && (id, key.0, key.1) in t
      invariant u == t + Attached(id, bucket - todo)
      decreases todo
    {
      var key :| key in todo;
      var entry := bucket[key].(distId := Some(id));
      AttachedStep(t, id, bucket, todo, key);
      if (id, key.0, key.1) in t {
        clash := true;
      }
      u := u[(id, key.0, key.1) := entry];
      todo := todo - {key};
    }
    assert bucket - todo == bucket;
  }

  /** Attaching one more entry of a bucket extends the attached rows by that entry. */
  lemma AttachedStep(t: map<CveKey, DebsecCveRow>, id: int, bucket: Bucket, todo: set<(string, string)>, key: (string, string))
    requires key in todo && todo <= bucket.Keys
    ensures (t + Attached(id, bucket - todo))[(id, key.0, key.1) := bucket[key].(distId := Some(id))]
      == t + Attached(id, bucket - (todo - {key}))
  {
    BucketStep(bucket, todo, key);
    AttachedPut(t, id, bucket - todo, key, bucket[key]);
  }

  lemma BucketStep(bucket: Bucket, todo: set<(string, string)>, key: (string, string))
    requires key in todo && todo <= bucket.Keys
    ensures bucket - (todo - {key}) == (bucket - todo)[key := bucket[key]]
  {
  }

  /** Attaching one more entry adds it under the distribution. */
  lemma AttachedPut(t: map<CveKey, DebsecCveRow>, id: int, bucket: Bucket, key: (string, string), v: DebsecCveRow)
    ensures (t + Attached(id, bucket))[(id, key.0, key.1) := v.(distId := Some(id))] == t + Attached(id, bucket[key := v])
  {
  }

  /**
   * `import_cve_insert`: index the product's distributions by codename,
   * drop the `experimental` bucket, then for each remaining codename, in
   * the file's order `cs`, take its distribution or create it with the
   * mapper, and add the bucket's entries under it. A codename the mapper
   * rejects raises its `KeyError`; otherwise an added key that is already
   * stored fails the flush with `IntegrityError`. A failure leaves both
   * tables unchanged.
   */
  method Insert(store: Store, m: DistCpeMapper, file: DebsecCveFile, distOrder: seq<int>, cs: seq<string>) returns (r: Result<map<string, int>>)
    requires !m.BaseMapper? && store.Valid()
    requires forall c :: c in file.buckets ==> KeyedBucket(file.buckets[c])
    requires Enumerates(distOrder, ProductDists(store.dists, m))
    requires Enumerates(cs, file.buckets.Keys - {"experimental"})
    modifies store`dists, store`nextDistId, store`debsec, file
    ensures store.Valid()
    ensures file.buckets == old(file.buckets) - {"experimental"}
    ensures var R := ResolveCodenames(old(store.dists), old(store.nextDistId), CodenameIndex(old(store.dists), distOrder), Made(m, file.buckets), cs);
      && (R.Err? ==> r == Err(R.error))
      && (R.Ok? ==> var A := AttachCodenames(old(store.debsec), false, R.value.index, file.buckets, cs);
           && (A.1 ==> r == Err(IntegrityError))
           && (!A.1 ==> && r == Ok(R.value.index) && store.dists == R.value.dists && store.nextDistId == R.value.next
                        && store.debsec == A.0))
    ensures r.Err? ==> store.dists == old(store.dists) && store.nextDistId == old(store.nextDistId) && store.debsec == old(store.debsec)
  {
    var ix0 := CodenameIndex(store.dists, distOrder);
    file.buckets := file.buckets - {"experimental"};
    var b := file.buckets;
    MadeByMade(m, b);
    var res := InsertCodenames(m, b, Made(m, b), store.dists, store.nextDistId, ix0, store.debsec, cs);
    if res.Err? {
      return Err(res.error);
    }
    var (R, t, clash) := res.value;
    if clash {
      return Err(IntegrityError);
    }
    InsertTable(store.debsec, store.dists, ix0, m, b, distOrder, cs, store.nextDistId);
    GrownTables(store.debsrc, store.debcve, store.dists, R.dists);
    store.SetDebsec(R.dists, R.next, t);
    return Ok(R.index);
  }

  /**
   * The codename loop of `import_cve_insert` over the buckets `b` in
   * order `cs`, on the distributions `d0` (ids below `next0`), their
   * codename index `ix0` and the advisories `t0`: it computes both halves
   * of the loop in one pass.
   */
  method InsertCodenames(m: DistCpeMapper, b: Buckets, ghost made: map<string, DistCpe>, d0: map<int, DistCpe>, next0: int,
                         ix0: map<string, int>, t0: map<CveKey, DebsecCveRow>, cs: seq<string>)
    returns (r: Result<(Resolution, map<CveKey, DebsecCveRow>, bool)>)
    requires !m.BaseMapper? && MadeBy(made, m, b) && forall i :: 0 <= i < |cs| ==> cs[i] in b
    ensures var R := ResolveCodenames(d0, next0, ix0, made, cs);
      && (R.Err? ==> r == Err(R.error))
      && (R.Ok? ==> r.Ok? && r.value.0 == R.value && (r.value.1, r.value.2) == AttachCodenames(t0, false, R.value.index, b, cs))
  {
    ghost var R := ResolveCodenames(d0, next0, ix0, made, cs);
    ghost var A := if R.Ok? then AttachCodenames(t0, false, R.value.index, b, cs) else (t0, false);
    var s, i := (Resolution(d0, next0, ix0), t0, false), 0;
    while i < |cs|
      invariant 0 <= i <= |cs|
      invariant R == ResolveCodenames(s.0.dists, s.0.next, s.0.index, made, cs[i..])
      invariant R.Ok? ==> A == AttachCodenames(s.1, s.2, R.value.index, b, cs[i..])
    {
      var res := InsertCodename(m, b, made, s, cs, i);
      if res.Err? {
        return Err(res.error);
      }
      s, i := res.value, i + 1;
    }
    assert cs[i..] == [];
    return Ok(s);
  }

  /**
   * One round of the codename loop, for `cs[i]`: take its distribution
   * or create it with the mapper, then attach its bucket. The round
   * continues both halves of the loop from where they were.
   */
  method InsertCodename(m: DistCpeMapper, b: Buckets, ghost made: map<string, DistCpe>,
                        s: (Resolution, map<CveKey, DebsecCveRow>, bool), cs: seq<string>, i: int)
    returns (r: Result<(Resolution, map<CveKey, DebsecCveRow>, bool)>)
    requires !m.BaseMapper? && MadeBy(made, m, b)
    requires 0 <= i < |cs| && forall j :: i <= j < |cs| ==> cs[j] in b
    ensures var R := ResolveCodenames(s.0.dists, s.0.next, s.0.index, made, cs[i..]);
      && (r.Err? ==> R == Err(r.error))
      && (r.Ok? ==> && R == ResolveCodenames(r.value.0.dists, r.value.0.next, r.value.0.index, made, cs[i + 1..])
                    && (R.Ok? ==> AttachCodenames(s.1, s.2, R.value.index, b, cs[i..]) == AttachCodenames(r.value.1, r.value.2, R.value.index, b, cs[i + 1..])))
  {
    var c, d, next, ix := cs[i], s.0.dists, s.0.next, s.0.index;
    var id;
    if c in ix {
      id := ix[c];
      StepKnown(d, next, ix, made, s.1, s.2, b, cs, i);
    } else {
      var dist := Call(m, c);
      if dist.Err? {
        StepErr(d, next, ix, made, cs, i);
        return Err(dist.error);
      }
      StepNew(d, next, ix, made, s.1, s.2, b, cs, i);
      assert dist.value == made[c];
      id, d, next, ix := next, d[next := dist.value], next + 1, ix[c := next];
    }
    var t, clash := AddBucket(s.1, id, b[c]);
    return Ok((Resolution(d, next, ix), t, s.2 || clash));
  }

  /** A codename that has a distribution takes it; its bucket is attached to it. */
  lemma StepKnown(d: map<int, DistCpe>, next: int, ix: map<string, int>, made: map<string, DistCpe>,
                  t: map<CveKey, DebsecCveRow>, clash: bool, b: Buckets, cs: seq<string>, i: int)
    requires 0 <= i < |cs| && cs[i] in ix && forall j :: i <= j < |cs| ==> cs[j] in b
    ensures var R := ResolveCodenames(d, next, ix, made, cs[i..]);
      && R == ResolveCodenames(d, next, ix, made, cs[i + 1..])
      && (R.Ok? ==> AttachCodenames(t, clash, R.value.index, b, cs[i..])
                    == AttachCodenames(t + Attached(ix[cs[i]], b[cs[i]]), clash || Collides(t, ix[cs[i]], b[cs[i]]), R.value.index, b, cs[i + 1..]))
  {
    assert cs[i..][0] == cs[i] && cs[i..][1..] == cs[i + 1..];
  }

  /** A codename without a distribution takes the mapper's row under the next id; its bucket is attached to it. */
  lemma StepNew(d: map<int, DistCpe>, next: int, ix: map<string, int>, made: map<string, DistCpe>,
                t: map<CveKey, DebsecCveRow>, clash: bool, b: Buckets, cs: seq<string>, i: int)
    requires 0 <= i < |cs| && cs[i] !in ix && cs[i] in made && forall j :: i <= j < |cs| ==> cs[j] in b
    ensures var R := ResolveCodenames(d, next, ix, made, cs[i..]);
      && R == ResolveCodenames(d[next := made[cs[i]]], next + 1, ix[cs[i] := next], made, cs[i + 1..])
      && (R.Ok? ==> AttachCodenames(t, clash, R.value.index, b, cs[i..])
                    == AttachCodenames(t + Attached(next, b[cs[i]]), clash || Collides(t, next, b[cs[i]]), R.value.index, b, cs[i + 1..]))
  {
    assert cs[i..][0] == cs[i] && cs[i..][1..] == cs[i + 1..];
  }

  /** A codename without a distribution that the mapper rejects ends the loop with its `KeyError`. */
  lemma StepErr(d: map<int, DistCpe>, next: int, ix: map<string, int>, made: map<string, DistCpe>, cs: seq<string>, i: int)
    requires 0 <= i < |cs| && cs[i] !in ix && cs[i] !in made
    ensures ResolveCodenames(d, next, ix, made, cs[i..]) == Err(KeyError(cs[i]))
  {
    assert cs[i..][0] == cs[i];
  }

  /** Tables whose rows belong to stored distributions keep that property when distributions are added. */
  lemma GrownTables(debsrc: map<DebsrcKey, DebsrcRow>, debcve: map<CveKey, DebCveRow>, d0: map<int, DistCpe>, d: map<int, DistCpe>)
    requires DebsrcTable(debsrc, d0) && DebCveTable(debcve, d0)
    requires forall id :: id in d0 ==> id in d
    ensures DebsrcTable(debsrc, d) && DebCveTable(debcve, d)
  {
    forall k {:trigger k in debsrc} | k in debsrc ensures k.0 in d {
      var id := k.0;
      assert id in d0;
      assert id in d;
    }
    forall k {:trigger k in debcve} | k in debcve ensures k.0 in d {
      var id := k.0;
      assert id in d0;
      assert id in d;
    }
  }

  /**
   * Both halves of the codename loop over all the buckets of the file,
   * from the product's distributions indexed by codename: a successful
   * distribution half resolves every codename, and the advisory half then
   * adds every bucket, flagging exactly the buckets that collide with the
   * rows stored before.
   */
  lemma InsertState(t0: map<CveKey, DebsecCveRow>, d0: map<int, DistCpe>, ix0: map<string, int>, m: DistCpeMapper, b: Buckets,
                    distOrder: seq<int>, cs: seq<string>, next: int)
    requires !m.BaseMapper? && DebsecTable(t0, d0) && Fresh(d0, next)
    requires Enumerates(distOrder, ProductDists(d0, m)) && ix0 == CodenameIndex(d0, distOrder)
    requires forall c :: c in b ==> KeyedBucket(b[c])
    requires Enumerates(cs, b.Keys)
    ensures var R := ResolveCodenames(d0, next, ix0, Made(m, b), cs);
      R.Ok? ==> && Resolved(d0, R.value.dists, ix0, R.value.index, Made(m, b), m, b.Keys) && Fresh(R.value.dists, R.value.next)
                && var A := AttachCodenames(t0, false, R.value.index, b, cs); Attaching(t0, ix0, R.value.dists, R.value.index, b, b.Keys, A.0, A.1)
  {
    InsertResolved(d0, ix0, m, b, distOrder, cs, next);
    var R := ResolveCodenames(d0, next, ix0, Made(m, b), cs);
    if R.Ok? {
      InsertAttached(t0, d0, ix0, Made(m, b), m, b, cs, R.value);
    }
  }

  /** The distribution half over all the buckets resolves every codename of the file. */
  lemma InsertResolved(d0: map<int, DistCpe>, ix0: map<string, int>, m: DistCpeMapper, b: Buckets, distOrder: seq<int>, cs: seq<string>, next: int)
    requires !m.BaseMapper? && Fresh(d0, next)
    requires Enumerates(distOrder, ProductDists(d0, m)) && ix0 == CodenameIndex(d0, distOrder)
    requires Enumerates(cs, b.Keys)
    ensures var R := ResolveCodenames(d0, next, ix0, Made(m, b), cs);
      R.Ok? ==> Resolved(d0, R.value.dists, ix0, R.value.index, Made(m, b), m, b.Keys) && Fresh(R.value.dists, R.value.next)
  {
    ProductIndex(d0, m, distOrder);
    StartResolved(d0, ix0, Made(m, b), m);
    MadeSound(m, b);
    ResolveState(d0, ix0, Made(m, b), m, {}, d0, next, ix0, cs);
    EnumeratedSet(cs, b.Keys);
  }

  /** The codename index of the product's distributions points at distributions of the product. */
  lemma ProductIndex(d0: map<int, DistCpe>, m: DistCpeMapper, distOrder: seq<int>)
    requires !m.BaseMapper? && Enumerates(distOrder, ProductDists(d0, m))
    ensures var ix0 := CodenameIndex(d0, distOrder);
      forall c :: c in ix0 ==> ix0[c] in d0 && d0[ix0[c]].debCodename == c && SameProduct(d0[ix0[c]], m)
  {
    var ix0 := CodenameIndex(d0, distOrder);
    forall c | c in ix0 ensures SameProduct(d0[ix0[c]], m) {
      assert ix0[c] in ProductDists(d0, m);
    }
  }

  lemma EnumeratedSet(cs: seq<string>, S: set<string>)
    requires Enumerates(cs, S)
    ensures {} + (set c | c in cs) == S
  {
  }

  lemma StartResolved(d0: map<int, DistCpe>, ix0: map<string, int>, made: map<string, DistCpe>, m: DistCpeMapper)
    requires !m.BaseMapper?
    requires forall c :: c in ix0 ==> ix0[c] in d0 && d0[ix0[c]].debCodename == c && SameProduct(d0[ix0[c]], m)
    ensures Resolved(d0, d0, ix0, ix0, made, m, {})
  {
  }

  /** With every codename resolved, the advisory half adds every bucket of the file. */
  lemma InsertAttached(t0: map<CveKey, DebsecCveRow>, d0: map<int, DistCpe>, ix0: map<string, int>, made: map<string, DistCpe>, m: DistCpeMapper, b: Buckets,
                       cs: seq<string>, R: Resolution)
    requires !m.BaseMapper? && DebsecTable(t0, d0) && Resolved(d0, R.dists, ix0, R.index, made, m, b.Keys)
    requires forall c :: c in b ==> KeyedBucket(b[c])
    requires Enumerates(cs, b.Keys)
    ensures var A := AttachCodenames(t0, false, R.index, b, cs); Attaching(t0, ix0, R.dists, R.index, b, b.Keys, A.0, A.1)
  {
    StartAttaching(t0, d0, ix0, made, m, R.dists, R.index, b);
    AttachState(t0, d0, ix0, made, m, b, b.Keys, {}, R.dists, R.index, t0, false, cs);
    assert {} + (set c | c in cs) == b.Keys;
  }

  lemma StartAttaching(t0: map<CveKey, DebsecCveRow>, d0: map<int, DistCpe>, ix0: map<string, int>, made: map<string, DistCpe>, m: DistCpeMapper,
                       d: map<int, DistCpe>, ix: map<string, int>, b: Buckets)
    requires !m.BaseMapper? && DebsecTable(t0, d0) && Resolved(d0, d, ix0, ix, made, m, b.Keys)
    ensures Attaching(t0, ix0, d, ix, b, {}, t0, false)
  {
    assert DebsecTable(t0, d) by {
      forall k {:trigger k in t0} | k in t0 ensures t0[k].Key() == (Some(k.0), k.1, k.2) && k.0 in d {
        assert k.0 in d0;
        assert forall id :: id in d0 ==> id in d;
      }
    }
  }

  /** A successful codename loop leaves a table whose rows belong to stored distributions. */
  lemma InsertTable(t0: map<CveKey, DebsecCveRow>, d0: map<int, DistCpe>, ix0: map<string, int>, m: DistCpeMapper, b: Buckets,
                    distOrder: seq<int>, cs: seq<string>, next: int)
    requires !m.BaseMapper? && DebsecTable(t0, d0) && Fresh(d0, next)
    requires Enumerates(distOrder, ProductDists(d0, m)) && ix0 == CodenameIndex(d0, distOrder)
    requires forall c :: c in b ==> KeyedBucket(b[c])
    requires Enumerates(cs, b.Keys)
    ensures var R := ResolveCodenames(d0, next, ix0, Made(m, b), cs);
      R.Ok? ==> && Fresh(R.value.dists, R.value.next) && (forall id :: id in d0 ==> id in R.value.dists)
                && DebsecTable(AttachCodenames(t0, false, R.value.index, b, cs).0, R.value.dists)
  {
    InsertState(t0, d0, ix0, m, b, distOrder, cs, next);
  }

  /**
   * Each bucket after the update pass is part of the file's bucket: the
   * pass only pops entries.
   */
  lemma {:induction false} UpdateShrinks(t: map<CveKey, DebsecCveRow>, dists: map<int, DistCpe>, file: Buckets, order: seq<CveKey>, deletes: bool)
    ensures forall c, key {:trigger key in UpdateAdvisories(t, dists, file, order, deletes).1[c]} ::
      c in UpdateAdvisories(t, dists, file, order, deletes).1 && key in UpdateAdvisories(t, dists, file, order, deletes).1[c] ==>
        c in file && key in file[c] && UpdateAdvisories(t, dists, file, order, deletes).1[c][key] == file[c][key]
    decreases |order|
  {
    if order != [] {
      var s := UpdateRow(t, dists, file, order[0], deletes);
      RowShrinks(t, dists, file, order[0], deletes);
      UpdateShrinks(s.0, dists, s.1, order[1..], deletes);
      var f := UpdateAdvisories(t, dists, file, order, deletes).1;
      assert f == UpdateAdvisories(s.0, dists, s.1, order[1..], deletes).1;
      forall c, key | c in f && key in f[c] ensures c in file && key in file[c] && f[c][key] == file[c][key] {
        assert key in s.1[c];
      }
    }
  }

  lemma RowShrinks(t: map<CveKey, DebsecCveRow>, dists: map<int, DistCpe>, file: Buckets, k: CveKey, deletes: bool)
    ensures forall c, key {:trigger key in UpdateRow(t, dists, file, k, deletes).1[c]} ::
      c in UpdateRow(t, dists, file, k, deletes).1 && key in UpdateRow(t, dists, file, k, deletes).1[c] ==>
        c in file && key in file[c] && UpdateRow(t, dists, file, k, deletes).1[c][key] == file[c][key]
  {
  }

  /** A table whose buckets are keyed keeps them keyed after the update pass. */
  lemma UpdateKeyed(t: map<CveKey, DebsecCveRow>, dists: map<int, DistCpe>, file: Buckets, order: seq<CveKey>, deletes: bool)
    requires forall c :: c in file ==> KeyedBucket(file[c])
    ensures var f := UpdateAdvisories(t, dists, file, order, deletes).1; forall c :: c in f ==> KeyedBucket(f[c])
  {
    UpdateShrinks(t, dists, file, order, deletes);
  }

  /** The rows the update query streams are stored rows, each streamed once. */
  lemma ScopeRows(t: map<CveKey, DebsecCveRow>, dists: map<int, DistCpe>, m: DistCpeMapper, order: seq<CveKey>)
    requires !m.BaseMapper? && Enumerates(order, Scope(t, dists, m))
    ensures forall i :: 0 <= i < |order| ==> order[i] in t
    ensures forall i, j :: 0 <= i < j < |order| ==> order[i] != order[j]
  {
  }

  /**
   * When the insert pass fails in its distribution half: exactly when
   * some codename of the file has no distribution of the product and the
   * mapper rejects it, with the `KeyError` of the first such codename in
   * file order.
   */
  lemma InsertFails(d0: map<int, DistCpe>, m: DistCpeMapper, b: Buckets, distOrder: seq<int>, cs: seq<string>, next: int)
    requires !m.BaseMapper? && Enumerates(distOrder, ProductDists(d0, m)) && Enumerates(cs, b.Keys)
    ensures var ix0 := CodenameIndex(d0, distOrder);
      var R := ResolveCodenames(d0, next, ix0, Made(m, b), cs);
      && (R.Ok? <==> forall c :: c in b ==> c in ix0 || Call(m, c).Ok?)
      && (R.Err? ==> exists i :: && 0 <= i < |cs| && cs[i] !in ix0 && Call(m, cs[i]).Err? && R.error == KeyError(cs[i])
                                 && (forall j :: 0 <= j < i ==> cs[j] in ix0 || Call(m, cs[j]).Ok?))
  {
    var ix0 := CodenameIndex(d0, distOrder);
    ResolveErr(ix0, Made(m, b), d0, next, ix0, cs);
  }

  /**
   * A successful distribution half, read off: every codename of the file
   * has a distribution of the product carrying it; a new one is the
   * mapper's row under an id no row had; no stored distribution changes.
   */
  lemma InsertDists(d0: map<int, DistCpe>, m: DistCpeMapper, b: Buckets, distOrder: seq<int>, cs: seq<string>, next: int)
    requires !m.BaseMapper? && Fresh(d0, next)
    requires Enumerates(distOrder, ProductDists(d0, m)) && Enumerates(cs, b.Keys)
    ensures var ix0 := CodenameIndex(d0, distOrder);
      var R := ResolveCodenames(d0, next, ix0, Made(m, b), cs);
      R.Ok? ==>
        && (forall c :: c in b ==> && c in R.value.index && R.value.index[c] in R.value.dists
                                   && R.value.dists[R.value.index[c]].debCodename == c && SameProduct(R.value.dists[R.value.index[c]], m))
        && (forall c :: c in ix0 ==> c in R.value.index && R.value.index[c] == ix0[c])
        && (forall c :: c in b && c !in ix0 ==> && c in R.value.index && R.value.index[c] in R.value.dists && R.value.index[c] !in d0
                                                && Call(m, c).Ok? && R.value.dists[R.value.index[c]] == Call(m, c).value)
        && (forall id :: id in d0 ==> id in R.value.dists && R.value.dists[id] == d0[id])
  {
    InsertResolved(d0, CodenameIndex(d0, distOrder), m, b, distOrder, cs, next);
  }

  /**
   * A successful advisory half, read off: the flush fails exactly when a
   * bucket collides with the rows of its existing distribution; every
   * entry sits under its codename's distribution; no stored row is lost,
   * and one whose key no entry takes is unchanged.
   */
  lemma InsertRows(t0: map<CveKey, DebsecCveRow>, d0: map<int, DistCpe>, m: DistCpeMapper, b: Buckets,
                   distOrder: seq<int>, cs: seq<string>, next: int)
    requires !m.BaseMapper? && DebsecTable(t0, d0) && Fresh(d0, next)
    requires Enumerates(distOrder, ProductDists(d0, m))
    requires forall c :: c in b ==> KeyedBucket(b[c])
    requires Enumerates(cs, b.Keys)
    ensures var ix0 := CodenameIndex(d0, distOrder);
      var R := ResolveCodenames(d0, next, ix0, Made(m, b), cs);
      R.Ok? ==> var A := AttachCodenames(t0, false, R.value.index, b, cs);
        && (A.1 <==> exists c :: c in b && c in ix0 && Collides(t0, ix0[c], b[c]))
        && (forall c, key {:trigger key in b[c]} :: c in b && key in b[c] ==>
              c in R.value.index && (R.value.index[c], key.0, key.1) in A.0 && A.0[(R.value.index[c], key.0, key.1)] == b[c][key].(distId := Some(R.value.index[c])))
        && (forall k {:trigger k in t0} :: k in t0 ==> k in A.0)
        && (forall k {:trigger k in t0} :: k in t0 && !(k.0 in R.value.dists && InsertedKey(R.value.index, b, b.Keys, R.value.dists[k.0].debCodename, k))
              ==> A.0[k] == t0[k])
  {
    InsertState(t0, d0, CodenameIndex(d0, distOrder), m, b, distOrder, cs, next);
  }

  /** A mapper of a concrete product; `DistCpeMapper.new` returns no other. */
  type ProductMapper = m: DistCpeMapper | !m.BaseMapper? witness DebianMapper

  /** `IngestDebsec`: the pass for one product. */
  class IngestDebsec {
    const distBase: ProductMapper

    /** `__init__` after `DistCpeMapper.new(cpe_product)` has succeeded. */
    constructor (m: ProductMapper)
      ensures distBase == m
    {
      distBase := m;
    }

    /** `import_cve_update`: the product's advisories are merged with or deleted against the file. */
    method ImportCveUpdate(store: Store, file: DebsecCveFile, order: seq<CveKey>)
      requires store.Valid()
      requires Enumerates(order, Scope(store.debsec, store.dists, distBase))
      modifies store`debsec, file
      ensures store.Valid()
      ensures (store.debsec, file.buckets) == UpdateAdvisories(old(store.debsec), store.dists, old(file.buckets), order, true)
    {
      ScopeRows(store.debsec, store.dists, distBase, order);
      Update(store, file, order, true);
    }

    /** `import_cve_insert`: the file's buckets are added under their codenames' distributions. */
    method ImportCveInsert(store: Store, file: DebsecCveFile, distOrder: seq<int>, cs: seq<string>) returns (r: Result<map<string, int>>)
      requires store.Valid()
      requires forall c :: c in file.buckets ==> KeyedBucket(file.buckets[c])
      requires Enumerates(distOrder, ProductDists(store.dists, distBase))
      requires Enumerates(cs, file.buckets.Keys - {"experimental"})
      modifies store`dists, store`nextDistId, store`debsec, file
      ensures store.Valid()
      ensures file.buckets == old(file.buckets) - {"experimental"}
      ensures var R := ResolveCodenames(old(store.dists), old(store.nextDistId), CodenameIndex(old(store.dists), distOrder), Made(distBase, file.buckets), cs);
        && (R.Err? ==> r == Err(R.error))
        && (R.Ok? ==> var A := AttachCodenames(old(store.debsec), false, R.value.index, file.buckets, cs);
             && (A.1 ==> r == Err(IntegrityError))
             && (!A.1 ==> && r == Ok(R.value.index) && store.dists == R.value.dists && store.nextDistId == R.value.next
                          && store.debsec == A.0))
      ensures r.Err? ==> store.dists == old(store.dists) && store.nextDistId == old(store.nextDistId) && store.debsec == old(store.debsec)
    {
      r := Insert(store, distBase, file, distOrder, cs);
    }

    /**
     * `import_cve` inside its transaction: the update pass, then the
     * insert pass over the buckets the update left. A failure rolls the
     * transaction back; otherwise the store holds the insert pass's
     * result on the updated advisories.
     */
    method ImportCve(store: Store, file: DebsecCveFile, order: seq<CveKey>, distOrder: seq<int>, cs: seq<string>) returns (r: Result<map<string, int>>)
      requires store.Valid()
      requires forall c :: c in file.buckets ==> KeyedBucket(file.buckets[c])
      requires Enumerates(order, Scope(store.debsec, store.dists, distBase))
      requires Enumerates(distOrder, ProductDists(store.dists, distBase))
      requires Enumerates(cs, file.buckets.Keys - {"experimental"})
      modifies store`dists, store`nextDistId, store`debsec, file
      ensures store.Valid()
      ensures var U := UpdateAdvisories(old(store.debsec), old(store.dists), old(file.buckets), order, true);
        var b := U.1 - {"experimental"};
        var R := ResolveCodenames(old(store.dists), old(store.nextDistId), CodenameIndex(old(store.dists), distOrder), Made(distBase, b), cs);
        && file.buckets == b
        && (R.Err? ==> r == Err(R.error))
        && (R.Ok? ==> var A := AttachCodenames(U.0, false, R.value.index, b, cs);
             && (A.1 ==> r == Err(IntegrityError))
             && (!A.1 ==> && r == Ok(R.value.index) && store.dists == R.value.dists && store.nextDistId == R.value.next
                          && store.debsec == A.0))
      ensures r.Err? ==> store.dists == old(store.dists) && store.nextDistId == old(store.nextDistId) && store.debsec == old(store.debsec)
    {
      var t0 := store.debsec;
      ghost var b0 := file.buckets;
      UpdateKeyed(t0, store.dists, b0, order, true);
      ImportCveUpdate(store, file, order);
      r := ImportCveInsert(store, file, distOrder, cs);
      if r.Err? {
        store.SetDebsec(store.dists, store.nextDistId, t0);
      }
    }
  }
}
