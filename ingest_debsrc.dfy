/**
 * The `ingest-debsrc` pass: reconcile the `debsrc` rows of one
 * distribution with a parsed Sources file. Rows whose source is in the
 * file adopt its version, rows whose source is not are deleted, and the
 * remaining file entries are inserted under the distribution, which is
 * created when no row for it exists yet.
 */
module DataIngestDebsrc {
  import opened Wrappers
  import opened Database
  import opened DistCpeMappers

  /** The coordinates both queries of the pass filter `dist_cpe` on. */
  predicate SameRelease(d: DistCpe, target: DistCpe) {
    d.cpeVendor == target.cpeVendor && d.cpeProduct == target.cpeProduct && d.debCodename == target.debCodename
  }

  /** The ids of the `dist_cpe` rows the insert query finds. */
  function MatchingDists(dists: map<int, DistCpe>, target: DistCpe): set<int> {
    set id | id in dists && SameRelease(dists[id], target)
  }

  /** The keys of the `debsrc` rows the update query streams (an inner join on the distribution). */
  function Scope(t: map<DebsrcKey, DebsrcRow>, dists: map<int, DistCpe>, target: DistCpe): set<DebsrcKey> {
    set k | k in t && k.0 in dists && SameRelease(dists[k.0], target)
  }

  /**
   * The distribution the pass is constructed with: `DistCpeMapper.new`
   * for the product, called with the codename. An unknown product or an
   * unknown Debian codename is a `KeyError`.
   */
  function TargetDist(product: string, codename: string): (r: Result<DistCpe>)
    ensures r.Ok? <==> product == "gardenlinux" || (product == "debian" && codename in DebianVersions)
    ensures product !in Keys() ==> r == Err(KeyError(product))
    ensures product in Keys() && r.Err? ==> r == Err(KeyError(codename))
    ensures r.Ok? ==> r.value.debCodename == codename && (r.value.cpeVersion == "" <==> codename == "")
  {
    match New(product)
    case Err(e) => Err(e)
    case Ok(m) =>
      var d := Call(m, codename);
      if d.Ok? then FallbackIffEmptyCodename(m, codename); d else d
  }

  /** A parsed Sources file: source package name to version. The update pass pops from it. */
  class DebsrcFile {
    var entries: map<string, string>

    constructor (entries: map<string, string>)
      ensures this.entries == entries
    {
      this.entries := entries;
    }
  }

  /** A file entry as the pass sees it: a `Debsrc` not yet attached to a distribution. */
  function FileEntry(source: string, version: string): DebsrcRow {
    DebsrcRow(None, None, source, version)
  }

  /**
   * The update pass over the persisted rows in stream order `order`: each
   * row pops its source from the file and, when the file had it, adopts
   * the file's version; otherwise the row is deleted when `deletes` holds
   * and kept when it does not. Returns the new table and what is left of
   * the file.
   */
  function UpdateRows(t: map<DebsrcKey, DebsrcRow>, file: map<string, string>, order: seq<DebsrcKey>, deletes: bool)
    : (r: (map<DebsrcKey, DebsrcRow>, map<string, string>))
    ensures r.0.Keys <= t.Keys && r.1.Keys <= file.Keys
    decreases |order|
  {
    if order == [] then (t, file)
    else if order[0] !in t then UpdateRows(t, file, order[1..], deletes)
    else
      var k := order[0];
      var src := t[k].debSource;
      if src in file then
        UpdateRows(t[k := t[k].MergedWith(FileEntry(src, file[src]))], file - {src}, order[1..], deletes)
      else if deletes then UpdateRows(t - {k}, file, order[1..], deletes)
      else UpdateRows(t, file, order[1..], deletes)
  }

  /** The sources of the streamed rows: what the update pass pops. */
  function Sources(order: seq<DebsrcKey>): set<string> {
    set k | k in order :: k.1
  }

  /** Each row is stored under its own source name. */
  predicate KeyedBySource(t: map<DebsrcKey, DebsrcRow>) {
    forall k :: k in t ==> t[k].debSource == k.1
  }

  /**
   * The update pass read as a whole, when the streamed rows have pairwise
   * different sources (they do when they all belong to one distribution):
   * the file loses exactly the streamed sources, rows not streamed stay,
   * streamed rows whose source is in the file carry the file's version,
   * and the other streamed rows are gone exactly when `deletes` holds.
   */
  lemma {:induction false} UpdateRowsClosed(t: map<DebsrcKey, DebsrcRow>, file: map<string, string>, order: seq<DebsrcKey>, deletes: bool)
    requires KeyedBySource(t)
    requires forall i, j :: 0 <= i < j < |order| ==> order[i].1 != order[j].1
    requires forall i :: 0 <= i < |order| ==> order[i] in t
    ensures UpdateRows(t, file, order, deletes).1 == file - Sources(order)
    ensures forall k :: k in t && k !in order ==>
      k in UpdateRows(t, file, order, deletes).0 && UpdateRows(t, file, order, deletes).0[k] == t[k]
    ensures forall k :: k in order && k.1 in file ==>
      k in UpdateRows(t, file, order, deletes).0 && UpdateRows(t, file, order, deletes).0[k] == t[k].(debVersion := file[k.1])
    ensures forall k :: k in order && k.1 !in file ==>
      (k in UpdateRows(t, file, order, deletes).0 <==> !deletes)
    ensures forall k :: k in order && k.1 !in file && k in UpdateRows(t, file, order, deletes).0 ==>
      UpdateRows(t, file, order, deletes).0[k] == t[k]
    decreases |order|
  {
    if order != [] {
      var k, rest := order[0], order[1..];
      StreamHead(order);
      var t1, f1 :=
        if k.1 in file then t[k := t[k].MergedWith(FileEntry(k.1, file[k.1]))]
        else if deletes then t - {k} else t,
        if k.1 in file then file - {k.1} else file;
      assert UpdateRows(t, file, order, deletes) == UpdateRows(t1, f1, rest, deletes);
      UpdateRowsClosed(t1, f1, rest, deletes);
      assert f1 - Sources(rest) == file - Sources(order);
    }
  }

  /** The first streamed row against the rest of the stream. */
  lemma StreamHead(order: seq<DebsrcKey>)
    requires order != []
    requires forall i, j :: 0 <= i < j < |order| ==> order[i].1 != order[j].1
    ensures forall x :: x in order <==> x == order[0] || x in order[1..]
    ensures Sources(order) == {order[0].1} + Sources(order[1..])
    ensures forall x :: x in order[1..] ==> x.1 != order[0].1
  {
    var k, rest := order[0], order[1..];
    assert forall x :: x in order <==> x == k || x in rest;
    forall x | x in rest ensures x.1 != k.1 {
      var j :| 0 <= j < |rest| && rest[j] == x;
      assert order[j + 1] == x;
    }
  }

  /** Does an entry left in the file collide with a row already stored under distribution `id`? */
  predicate Collides(t: map<DebsrcKey, DebsrcRow>, id: int, file: map<string, string>) {
    exists s :: s in file && (id, s) in t
  }

  /** The rows `import_insert` adds: every entry left in the file, attached to distribution `id`. */
  function Inserted(id: int, file: map<string, string>): (r: map<DebsrcKey, DebsrcRow>)
    ensures forall k :: k in r <==> k.0 == id && k.1 in file
    ensures forall k :: k in r ==> r[k] == DebsrcRow(Some(id), None, k.1, file[k.1])
  {
    map k | k in (set s | s in file :: (id, s)) :: DebsrcRow(Some(id), None, k.1, file[k.1])
  }

  /**
   * The update and insert passes together, when the streamed rows are
   * exactly the rows of distribution `d`: afterwards the sources of `d`
   * are the file's sources with the file's versions (with deletes), or
   * include them and keep every other row (without), no leftover entry
   * collides with a stored row, and the other distributions keep their
   * rows.
   */
  lemma ImportRows(t: map<DebsrcKey, DebsrcRow>, entries: map<string, string>, order: seq<DebsrcKey>, deletes: bool, d: int)
    requires KeyedBySource(t)
    requires forall i, j :: 0 <= i < j < |order| ==> order[i] != order[j]
    requires forall k :: k in t ==> (k in order <==> k.0 == d)
    requires forall i :: 0 <= i < |order| ==> order[i] in t
    ensures var u := UpdateRows(t, entries, order, deletes); !Collides(u.0, d, u.1)
    ensures var u := UpdateRows(t, entries, order, deletes); var f := u.0 + Inserted(d, u.1);
      && (forall s :: s in entries ==> (d, s) in f && f[(d, s)].debVersion == entries[s] && f[(d, s)].debSource == s)
      && (deletes ==> forall s :: (d, s) in f ==> s in entries)
      && (!deletes ==> forall s :: (d, s) in t && s !in entries ==> (d, s) in f && f[(d, s)] == t[(d, s)])
      && (forall k: DebsrcKey :: k.0 != d ==> (k in f <==> k in t))
      && (forall k: DebsrcKey :: k.0 != d && k in t ==> f[k] == t[k])
  {
    forall i, j | 0 <= i < j < |order| ensures order[i].1 != order[j].1 {
      assert order[i] in t && order[j] in t;
      assert order[i].0 == d == order[j].0;
    }
    UpdateRowsClosed(t, entries, order, deletes);
    var u := UpdateRows(t, entries, order, deletes);
    forall s | s in u.1 ensures (d, s) !in u.0 {
      assert s !in Sources(order);
      assert (d, s) in order ==> s in Sources(order);
    }
  }

  /**
   * The streaming update loop: each streamed row is loaded into an entity,
   * its source popped from the file, and the entity merged with the
   * file's entry or the row deleted.
   */
  method Update(store: Store, file: DebsrcFile, order: seq<DebsrcKey>, deletes: bool)
    requires store.Valid()
    requires forall i :: 0 <= i < |order| ==> order[i] in store.debsrc
    requires forall i, j :: 0 <= i < j < |order| ==> order[i] != order[j]
    modifies store`debsrc, file
    ensures store.Valid()
    ensures (store.debsrc, file.entries) == UpdateRows(old(store.debsrc), old(file.entries), order, deletes)
  {
    var dists := store.dists;
    var t, f := store.debsrc, file.entries;
    var i := 0;
    while i < |order|
      invariant 0 <= i <= |order|
      invariant DebsrcTable(t, dists)
      invariant forall j :: i <= j < |order| ==> order[j] in t
      invariant UpdateRows(old(store.debsrc), old(file.entries), order, deletes)
        == UpdateRows(t, f, order[i..], deletes)
    {
      var k := order[i];
      assert order[i..][0] == k && order[i..][1..] == order[i + 1..];
      var src := t[k].debSource;
      if src in f {
        var newEntry := FileEntry(src, f[src]);
        f := f - {src};
        var merged := MergeDebsrc(t[k], newEntry);
        t := t[k := merged];
      } else if deletes {
        t := t - {k};
      }
      i := i + 1;
    }
    store.debsrc, file.entries := t, f;
  }

  /**
   * The insert pass: the one `dist_cpe` row with the target's coordinates
   * is reused, or the target is added when there is none; more than one
   * is `MultipleResultsFound`. Every entry left in the file is then
   * attached to that distribution and added; an entry whose key is
   * already stored is an `IntegrityError`. A failure changes nothing.
   */
  method Insert(store: Store, target: DistCpe, file: DebsrcFile) returns (r: Result<int>)
    requires store.Valid()
    modifies store`dists, store`nextDistId, store`debsrc
    ensures store.Valid()
    ensures |MatchingDists(old(store.dists), target)| > 1 ==> r == Err(MultipleResultsFound)
    ensures |MatchingDists(old(store.dists), target)| <= 1 ==>
      (r.Err? <==> exists id :: id in MatchingDists(old(store.dists), target) && Collides(old(store.debsrc), id, file.entries))
    ensures r.Err? ==> store.dists == old(store.dists) && store.nextDistId == old(store.nextDistId) && store.debsrc == old(store.debsrc)
    ensures r.Ok? && MatchingDists(old(store.dists), target) == {} ==>
      r.value !in old(store.dists) && store.dists == old(store.dists)[r.value := target]
    ensures r.Ok? && MatchingDists(old(store.dists), target) != {} ==>
      r.value in MatchingDists(old(store.dists), target) && store.dists == old(store.dists)
    ensures r.Ok? ==> store.debsrc == old(store.debsrc) + Inserted(r.value, file.entries)
  {
    var ids := MatchingDists(store.dists, target);
    if |ids| > 1 {
      return Err(MultipleResultsFound);
    }
    var id: int;
    if ids == {} {
      id := store.AddDist(target);
    } else {
      if forall d :: d !in ids {
        assert false;
      }
      id :| id in ids;
      Singleton(ids, id);
      if Collides(store.debsrc, id, file.entries) {
        return Err(IntegrityError);
      }
    }
    AddEntries(store, id, file.entries);
    return Ok(id);
  }

  /** A set of at most one element that holds `d` is `{d}`. */
  lemma Singleton(ids: set<int>, d: int)
    requires d in ids && |ids| <= 1
    ensures ids == {d}
  {
    var rest := ids - {d};
    assert ids == rest + {d} && rest * {d} == {};
    assert |rest| == 0;
  }

  /** The loop of `import_insert`: each file entry is attached to distribution `id` and added. */
  method AddEntries(store: Store, id: int, entries: map<string, string>)
    requires store.Valid() && id in store.dists && !Collides(store.debsrc, id, entries)
    modifies store`debsrc
    ensures store.Valid()
    ensures store.debsrc == old(store.debsrc) + Inserted(id, entries)
  {
    var t0 := store.debsrc;
    var t, todo := t0, entries.Keys;
    while todo != {}
      invariant todo <= entries.Keys
      invariant t == t0 + Inserted(id, entries - todo)
      decreases todo
    {
      var s :| s in todo;
      var entry := FileEntry(s, entries[s]).(distId := Some(id));
      InsertedStep(t0, id, entries, todo, s);
      t := t[(id, s) := entry];
      todo := todo - {s};
    }
    assert entries - todo == entries;
    store.debsrc := t;
  }

  /** Adding one more entry of the file extends the inserted rows by that entry's row. */
  lemma InsertedStep(t0: map<DebsrcKey, DebsrcRow>, id: int, entries: map<string, string>, todo: set<string>, s: string)
    requires s in todo && todo <= entries.Keys
    ensures (t0 + Inserted(id, entries - todo))[(id, s) := DebsrcRow(Some(id), None, s, entries[s])]
      == t0 + Inserted(id, entries - (todo - {s}))
  {
    assert entries - (todo - {s}) == (entries - todo)[s := entries[s]];
  }

  /** `IngestDebsrc`: the pass for one distribution. */
  class IngestDebsrc {
    const dist: DistCpe

    constructor (dist: DistCpe)
      ensures this.dist == dist
    {
      this.dist := dist;
    }

    /** `import_update`: rows of the distribution are merged with or deleted against the file. */
    method ImportUpdate(store: Store, file: DebsrcFile, order: seq<DebsrcKey>)
      requires store.Valid()
      requires Enumerates(order, Scope(store.debsrc, store.dists, dist))
      modifies store`debsrc, file
      ensures store.Valid()
      ensures (store.debsrc, file.entries) == UpdateRows(old(store.debsrc), old(file.entries), order, true)
    {
      Update(store, file, order, true);
    }

    /** `import_insert`. */
    method ImportInsert(store: Store, file: DebsrcFile) returns (r: Result<int>)
      requires store.Valid()
      modifies store`dists, store`nextDistId, store`debsrc
      ensures store.Valid()
      ensures |MatchingDists(old(store.dists), dist)| > 1 ==> r == Err(MultipleResultsFound)
      ensures r.Err? ==> store.dists == old(store.dists) && store.nextDistId == old(store.nextDistId) && store.debsrc == old(store.debsrc)
      ensures r.Ok? ==> store.debsrc == old(store.debsrc) + Inserted(r.value, file.entries)
      ensures r.Ok? ==> r.value in store.dists && SameRelease(store.dists[r.value], dist)
    {
      r := Insert(store, dist, file);
    }

    /**
     * `import_file` inside its transaction: update, then insert. It fails
     * exactly when several distributions carry the target's coordinates,
     * and then the store is unchanged. Otherwise the distribution's
     * sources are afterwards exactly the file's, with the file's versions,
     * and no other distribution's rows change.
     */
    method ImportFile(store: Store, entries: map<string, string>, order: seq<DebsrcKey>) returns (r: Result<int>)
      requires store.Valid()
      requires Enumerates(order, Scope(store.debsrc, store.dists, dist))
      modifies store`dists, store`nextDistId, store`debsrc
      ensures store.Valid()
      ensures r.Err? <==> |MatchingDists(old(store.dists), dist)| > 1
      ensures r.Err? ==> store.dists == old(store.dists) && store.nextDistId == old(store.nextDistId) && store.debsrc == old(store.debsrc)
      ensures r.Ok? ==> r.value in store.dists && SameRelease(store.dists[r.value], dist)
      ensures r.Ok? ==> forall s :: (r.value, s) in store.debsrc <==> s in entries
      ensures r.Ok? ==> forall s :: s in entries ==> store.debsrc[(r.value, s)].debVersion == entries[s]
      ensures r.Ok? ==> forall k: DebsrcKey :: k.0 != r.value ==> (k in store.debsrc <==> k in old(store.debsrc))
      ensures r.Ok? ==> forall k: DebsrcKey :: k.0 != r.value && k in old(store.debsrc) ==> store.debsrc[k] == old(store.debsrc)[k]
    {
      var t0, ids := store.debsrc, MatchingDists(store.dists, dist);
      var file := new DebsrcFile(entries);
      ImportUpdate(store, file, order);
      r := Insert(store, dist, file);
      if r.Err? {
        store.debsrc := t0;
        if |ids| <= 1 {
          var id :| id in ids && Collides(UpdateRows(t0, entries, order, true).0, id, UpdateRows(t0, entries, order, true).1);
          ImportScope(t0, old(store.dists), dist, order, id);
          ImportRows(t0, entries, order, true, id);
        }
      } else {
        ImportScope(t0, old(store.dists), dist, order, r.value);
        ImportRows(t0, entries, order, true, r.value);
      }
    }
  }

  /**
   * With at most one distribution carrying the coordinates, the update
   * query streams exactly the rows of the distribution the insert uses.
   */
  lemma ImportScope(t: map<DebsrcKey, DebsrcRow>, dists: map<int, DistCpe>, target: DistCpe, order: seq<DebsrcKey>, d: int)
    requires DebsrcTable(t, dists)
    requires Enumerates(order, Scope(t, dists, target))
    requires d in MatchingDists(dists, target) || (MatchingDists(dists, target) == {} && d !in dists)
    requires |MatchingDists(dists, target)| <= 1
    ensures KeyedBySource(t)
    ensures forall k :: k in t ==> (k in order <==> k.0 == d)
    ensures forall i :: 0 <= i < |order| ==> order[i] in t
  {
    var ids := MatchingDists(dists, target);
    if d in ids {
      Singleton(ids, d);
    }
    forall k | k in t ensures k in order <==> k.0 == d {
      assert t[k].Key() == (Some(k.0), k.1) && k.0 in dists;
      assert k in order <==> k.0 in ids;
    }
  }
}
