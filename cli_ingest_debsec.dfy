/**
 * The older `ingest-debsec` pass. It is the current pass with its own
 * mapper registry, except that the update pass never deletes: a stored
 * advisory the file no longer states keeps its row.
 */
module CliIngestDebsec {
  import opened Wrappers
  import opened Database
  import opened DistCpeMappers
  import opened CliMappers
  import opened DebsecCveFiles
  import opened DataIngestDebsec

  /** `__init__`: the embedded registry's mapper for the product. */
  function EmbeddedBase(product: string): (r: Result<DistCpeMapper>)
    ensures r.Ok? <==> product in Keys()
    ensures r == New(product)
    ensures r.Ok? ==> !r.value.BaseMapper? && forall c :: EmbeddedCall(r.value, c) == Call(r.value, c)
    ensures r.Err? ==> r.error == KeyError(product)
  {
    match Lookup(product)
    case Err(e) => Err(e)
    case Ok(m) =>
      LookupIsNew(product);
      assert forall c :: EmbeddedCall(m, c) == Call(m, c) by {
        forall c ensures EmbeddedCall(m, c) == Call(m, c) { EmbeddedMappers(m, c); }
      }
      Ok(m)
  }

  /** Without deletes the update pass keeps every stored advisory row. */
  lemma {:induction false} UpdateKeepsRows(t: map<CveKey, DebsecCveRow>, dists: map<int, DistCpe>, file: Buckets, order: seq<CveKey>)
    ensures UpdateAdvisories(t, dists, file, order, false).0.Keys == t.Keys
    decreases |order|
  {
    if order != [] {
      var s := UpdateRow(t, dists, file, order[0], false);
      assert s.0.Keys == t.Keys;
      UpdateKeepsRows(s.0, dists, s.1, order[1..]);
    }
  }

  /** The older `IngestDebsec`: the pass for one product. */
  class IngestDebsec {
    const distBase: ProductMapper

    /** `__init__` after the registry lookup has succeeded. */
    constructor (m: ProductMapper)
      ensures distBase == m
    {
      distBase := m;
    }

    /** `import_cve_update`: the product's advisories are merged with the file; none is deleted. */
    method ImportCveUpdate(store: Store, file: DebsecCveFile, order: seq<CveKey>)
      requires store.Valid()
      requires Enumerates(order, Scope(store.debsec, store.dists, distBase))
      modifies store`debsec, file
      ensures store.Valid()
      ensures (store.debsec, file.buckets) == UpdateAdvisories(old(store.debsec), store.dists, old(file.buckets), order, false)
    {
      ScopeRows(store.debsec, store.dists, distBase, order);
      Update(store, file, order, false);
    }

    /** `import_cve_insert`: the same insert pass as the current one. */
    method ImportCveInsert(store: Store, file: DebsecCveFile, distOrder: seq<int>, cs: seq<string>) returns (r: Result<map<string, int>>)
      requires store.Valid()
      requires forall c :: c in file.buckets ==> KeyedBucket(file.buckets[c])
      requires Enumerates(distOrder, ProductDists(store.dists, distBase))
      requires Enumerates(cs, file.buckets.Keys - {"experimental"})
      modifies store`dists, store`nextDistId, store`debsec, file
      ensures store.Valid()
      ensures file.buckets == old(file.buckets) - {"experimental"}
      ensures var R := ResolveCodenames(old(store.dists), old(store.nextDistId), CodenameIndex(old(store.dists), distOrder), Made(distBase, file.buckets), cs);
        && (R.Err? ==> r == Err(R.error))
        && (R.Ok? ==> var A := AttachCodenames(old(store.debsec), false, R.value.index, file.buckets, cs);
             && (A.1 ==> r == Err(IntegrityError))
             && (!A.1 ==> && r == Ok(R.value.index) && store.dists == R.value.dists && store.nextDistId == R.value.next
                          && store.debsec == A.0))
      ensures r.Err? ==> store.dists == old(store.dists) && store.nextDistId == old(store.nextDistId) && store.debsec == old(store.debsec)
    {
      r := Insert(store, distBase, file, distOrder, cs);
    }

    /**
     * `import_cve` inside its transaction: the update pass without
     * deletes, then the insert pass over the buckets the update left. A
     * failure rolls the transaction back.
     */
    method ImportCve(store: Store, file: DebsecCveFile, order: seq<CveKey>, distOrder: seq<int>, cs: seq<string>) returns (r: Result<map<string, int>>)
      requires store.Valid()
      requires forall c :: c in file.buckets ==> KeyedBucket(file.buckets[c])
      requires Enumerates(order, Scope(store.debsec, store.dists, distBase))
      requires Enumerates(distOrder, ProductDists(store.dists, distBase))
      requires Enumerates(cs, file.buckets.Keys - {"experimental"})
      modifies store`dists, store`nextDistId, store`debsec, file
      ensures store.Valid()
      ensures var U := UpdateAdvisories(old(store.debsec), old(store.dists), old(file.buckets), order, false);
        var b := U.1 - {"experimental"};
        var R := ResolveCodenames(old(store.dists), old(store.nextDistId), CodenameIndex(old(store.dists), distOrder), Made(distBase, b), cs);
        && file.buckets == b
        && (R.Err? ==> r == Err(R.error))
        && (R.Ok? ==> var A := AttachCodenames(U.0, false, R.value.index, b, cs);
             && (A.1 ==> r == Err(IntegrityError))
             && (!A.1 ==> && r == Ok(R.value.index) && store.dists == R.value.dists && store.nextDistId == R.value.next
                          && store.debsec == A.0))
      ensures r.Err? ==> store.dists == old(store.dists) && store.nextDistId == old(store.nextDistId) && store.debsec == old(store.debsec)
    {
      var t0 := store.debsec;
      ghost var b0 := file.buckets;
      UpdateKeyed(t0, store.dists, b0, order, false);
      ScopeRows(store.debsec, store.dists, distBase, order);
      Update(store, file, order, false);
      r := Insert(store, distBase, file, distOrder, cs);
      if r.Err? {
        store.SetDebsec(store.dists, store.nextDistId, t0);
      }
    }
  }
}
