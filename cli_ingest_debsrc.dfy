/**
 * The older `ingest-debsrc` pass. It reconciles like the current one, but
 * its update pass never deletes: a stored source missing from the file
 * keeps its row and version.
 */
module CliIngestDebsrc {
  import opened Wrappers
  import opened Database
  import opened DistCpeMappers
  import opened CliMappers
  import opened DataIngestDebsrc

  /** `__init__`: the embedded registry's mapper for the product, called with the codename. */
  function EmbeddedTarget(product: string, codename: string): (r: Result<DistCpe>)
    ensures r == TargetDist(product, codename)
  {
    match Lookup(product)
    case Err(e) => Err(e)
    case Ok(m) => EmbeddedMappers(m, codename); LookupIsNew(product); EmbeddedCall(m, codename)
  }

  /** The older `IngestDebsrc`: the pass for one distribution. */
  class IngestDebsrc {
    const dist: DistCpe

    constructor (dist: DistCpe)
      ensures this.dist == dist
    {
      this.dist := dist;
    }

    /** `import_update`: rows of the distribution whose source is in the file are merged; the others stay. */
    method ImportUpdate(store: Store, file: DebsrcFile, order: seq<DebsrcKey>)
      requires store.Valid()
      requires Enumerates(order, Scope(store.debsrc, store.dists, dist))
      modifies store`debsrc, file
      ensures store.Valid()
      ensures (store.debsrc, file.entries) == UpdateRows(old(store.debsrc), old(file.entries), order, false)
    {
      Update(store, file, order, false);
    }

    /** `import_insert`: the same insert pass as the current one. */
    method ImportInsert(store: Store, file: DebsrcFile) returns (r: Result<int>)
      requires store.Valid()
      modifies store`dists, store`nextDistId, store`debsrc
      ensures store.Valid()
      ensures |MatchingDists(old(store.dists), dist)| > 1 ==> r == Err(MultipleResultsFound)
      ensures r.Err? ==> store.dists == old(store.dists) && store.nextDistId == old(store.nextDistId) && store.debsrc == old(store.debsrc)
      ensures r.Ok? ==> store.debsrc == old(store.debsrc) + Inserted(r.value, file.entries)
      ensures r.Ok? ==> r.value in store.dists && SameRelease(store.dists[r.value], dist)
    {
      r := Insert(store, dist, file);
    }

    /**
     * `import_file` inside its transaction. It fails exactly when several
     * distributions carry the target's coordinates, and then nothing
     * changes. Otherwise every file source is stored under the
     * distribution with the file's version, every other source of the
     * distribution keeps its row, nothing else is added, and no other
     * distribution's rows change.
     */
    method ImportFile(store: Store, entries: map<string, string>, order: seq<DebsrcKey>) returns (r: Result<int>)
      requires store.Valid()
      requires Enumerates(order, Scope(store.debsrc, store.dists, dist))
      modifies store`dists, store`nextDistId, store`debsrc
      ensures store.Valid()
      ensures r.Err? <==> |MatchingDists(old(store.dists), dist)| > 1
      ensures r.Err? ==> store.dists == old(store.dists) && store.nextDistId == old(store.nextDistId) && store.debsrc == old(store.debsrc)
      ensures r.Ok? ==> r.value in store.dists && SameRelease(store.dists[r.value], dist)
      ensures r.Ok? ==> forall s :: s in entries ==> (r.value, s) in store.debsrc && store.debsrc[(r.value, s)].debVersion == entries[s]
      ensures r.Ok? ==> forall s :: (r.value, s) in old(store.debsrc) && s !in entries ==>
                          (r.value, s) in store.debsrc && store.debsrc[(r.value, s)] == old(store.debsrc)[(r.value, s)]
      ensures r.Ok? ==> forall s :: (r.value, s) in store.debsrc ==> s in entries || (r.value, s) in old(store.debsrc)
      ensures r.Ok? ==> forall k: DebsrcKey :: k.0 != r.value ==> (k in store.debsrc <==> k in old(store.debsrc))
      ensures r.Ok? ==> forall k: DebsrcKey :: k.0 != r.value && k in old(store.debsrc) ==> store.debsrc[k] == old(store.debsrc)[k]
    {
      var t0, ids := store.debsrc, MatchingDists(store.dists, dist);
      var file := new DebsrcFile(entries);
      ImportUpdate(store, file, order);
      r := Insert(store, dist, file);
      if r.Err? {
        store.debsrc := t0;
        if |ids| <= 1 {
          var id :| id in ids && Collides(UpdateRows(t0, entries, order, false).0, id, UpdateRows(t0, entries, order, false).1);
          ImportScope(t0, old(store.dists), dist, order, id);
          ImportRows(t0, entries, order, false, id);
        }
      } else {
        ImportScope(t0, old(store.dists), dist, order, r.value);
        ImportRows(t0, entries, order, false, r.value);
        KeptOrFromFile(t0, entries, order, r.value);
      }
    }
  }

  /** Without deletes, a row of `d` after both passes is a file source or was stored before. */
  lemma KeptOrFromFile(t: map<DebsrcKey, DebsrcRow>, entries: map<string, string>, order: seq<DebsrcKey>, d: int)
    requires KeyedBySource(t)
    requires forall i, j :: 0 <= i < j < |order| ==> order[i] != order[j]
    requires forall k :: k in t ==> (k in order <==> k.0 == d)
    requires forall i :: 0 <= i < |order| ==> order[i] in t
    ensures var u := UpdateRows(t, entries, order, false);
      forall s :: (d, s) in u.0 + Inserted(d, u.1) ==> s in entries || (d, s) in t
  {
    var u := UpdateRows(t, entries, order, false);
    forall s | (d, s) in u.0 + Inserted(d, u.1) ensures s in entries || (d, s) in t {
      if (d, s) !in u.0 {
        assert s in u.1;
      }
    }
  }
}
