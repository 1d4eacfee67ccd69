/**
 * The relational schema: one row value per table, the ORM entity classes
 * whose `merge` copies the payload of a freshly parsed entity onto a
 * persisted one, and the store holding every table.
 */
module Database {
  import opened Wrappers
  import opened Json
  import opened Cvss

  /** A `dist_cpe` row; its integer id is the key of `Store.dists`. */
  datatype DistCpe = DistCpe(cpeVendor: string, cpeProduct: string, cpeVersion: string, debCodename: string)

  /** An `nvd_cve` row: the CVE record as fetched from NVD. */
  datatype NvdCveRow = NvdCveRow(cveId: string, lastMod: int, data: Json)

  /**
   * A `debsrc` row. `distId` is `None` while the entity is not attached
   * to a distribution; `lastMod` is `None` until the database fills it in.
   */
  datatype DebsrcRow = DebsrcRow(distId: Option<int>, lastMod: Option<int>, debSource: string, debVersion: string)
  {
    /** The primary key (dist_id, deb_source). */
    function Key(): (Option<int>, string) { (distId, debSource) }

    /** `Debsrc.merge`: the persisted row adopts the new version and keeps its identity. */
    function MergedWith(other: DebsrcRow): (r: DebsrcRow)
      ensures r.Key() == Key() && r.lastMod == lastMod
      ensures r.debVersion == other.debVersion
    {
      this.(debVersion := other.debVersion)
    }
  }

  /** A `debsec_cve` row: one advisory statement about a source package in one distribution. */
  datatype DebsecCveRow = DebsecCveRow(
    distId: Option<int>, cveId: string, lastMod: Option<int>, debSource: string,
    debVersionFixed: Option<string>, debsecTag: Option<string>, debsecNote: Option<string>)
  {
    /** The primary key (dist_id, cve_id, deb_source). */
    function Key(): (Option<int>, string, string) { (distId, cveId, debSource) }

    /** `DebsecCve.merge`: fixed version, tag and note come from `other`, the identity stays. */
    function MergedWith(other: DebsecCveRow): (r: DebsecCveRow)
      ensures r.Key() == Key() && r.lastMod == lastMod
      ensures r.debVersionFixed == other.debVersionFixed && r.debsecTag == other.debsecTag
      ensures r.debsecNote == other.debsecNote
    {
      this.(debVersionFixed := other.debVersionFixed, debsecTag := other.debsecTag, debsecNote := other.debsecNote)
    }
  }

  /** A `deb_cve` row: the combined verdict for one CVE and source package in one distribution. */
  datatype DebCveRow = DebCveRow(
    distId: Option<int>, cveId: string, lastMod: Option<int>, cvssSeverity: Option<CvssSeverity>,
    debSource: string, debVersion: string, debVersionFixed: Option<string>,
    debsecVulnerable: bool, dataCpeMatch: Json)
  {
    /** The primary key (dist_id, cve_id, deb_source). */
    function Key(): (Option<int>, string, string) { (distId, cveId, debSource) }

    /** Everything `merge` copies. */
    function Payload(): (Option<CvssSeverity>, string, Option<string>, bool, Json) {
      (cvssSeverity, debVersion, debVersionFixed, debsecVulnerable, dataCpeMatch)
    }

    /** `DebCve.merge`: the five payload columns come from `other`, the identity stays. */
    function MergedWith(other: DebCveRow): (r: DebCveRow)
      ensures r.Key() == Key() && r.lastMod == lastMod
      ensures r.Payload() == other.Payload()
    {
      this.(cvssSeverity := other.cvssSeverity, debVersion := other.debVersion,
            debVersionFixed := other.debVersionFixed, debsecVulnerable := other.debsecVulnerable,
            dataCpeMatch := other.dataCpeMatch)
    }
  }

  /**
   * The keyword arguments of the generated constructor `DebCve(...)`. Under
   * `MappedAsDataclass` every annotated attribute is one unless it says
   * `init=False` (`last_mod`); the un-annotated `dist_id` is none. Every
   * argument without a `default=` is required: all but the relationship
   * `dist`.
   */
  const DebCveArgs: set<string> :=
    {"dist", "cve_id", "cvss_severity", "deb_source", "deb_version", "deb_version_fixed", "debsec_vulnerable", "data_cpe_match"}
  const DebCveRequired: set<string> := DebCveArgs - {"dist"}

  /** `DebCve(**kwargs)` with the keywords `given`: `TypeError` for a missing required or an unexpected keyword. */
  function NewDebCve(given: set<string>, row: DebCveRow): Result<DebCveRow> {
    if DebCveRequired <= given && given <= DebCveArgs then Ok(row) else Err(TypeError)
  }

  /** An `all_cve` row: the NVD record extended with the Debian configurations. */
  datatype AllCveRow = AllCveRow(cveId: string, lastMod: Option<int>, data: Json)
  {
    /** `AllCve.merge`: only the document changes. */
    function MergedWith(other: AllCveRow): (r: AllCveRow)
      ensures r.cveId == cveId && r.lastMod == lastMod && r.data == other.data
    {
      this.(data := other.data)
    }
  }

  /**
   * Merging is idempotent, merging a row with itself changes nothing, and
   * merging twice is merging with the second: the persisted row only ever
   * reflects the latest parse.
   */
  lemma MergeLaws(a: DebCveRow, b: DebCveRow, c: DebCveRow)
    ensures a.MergedWith(b).MergedWith(b) == a.MergedWith(b)
    ensures a.MergedWith(a) == a
    ensures a.MergedWith(b).MergedWith(c) == a.MergedWith(c)
  {
  }

  lemma MergeLawsOthers(a: DebsrcRow, b: DebsrcRow, s: DebsecCveRow, t: DebsecCveRow, x: AllCveRow, y: AllCveRow)
    ensures a.MergedWith(b).MergedWith(b) == a.MergedWith(b) && a.MergedWith(a) == a
    ensures s.MergedWith(t).MergedWith(t) == s.MergedWith(t) && s.MergedWith(s) == s
    ensures x.MergedWith(y).MergedWith(y) == x.MergedWith(y) && x.MergedWith(x) == x
  {
  }

  /** The `Debsrc` entity object. */
  class Debsrc {
    var distId: Option<int>
    var lastMod: Option<int>
    var debSource: string
    var debVersion: string

    constructor (r: DebsrcRow)
      ensures Row() == r
    {
      distId, lastMod, debSource, debVersion := r.distId, r.lastMod, r.debSource, r.debVersion;
    }

    function Row(): DebsrcRow
      reads this
    {
      DebsrcRow(distId, lastMod, debSource, debVersion)
    }

    method Merge(other: Debsrc)
      modifies this
      ensures Row() == old(Row()).MergedWith(old(other.Row()))
    {
      debVersion := other.debVersion;
    }
  }

  /** The `DebsecCve` entity object. */
  class DebsecCve {
    var distId: Option<int>
    var cveId: string
    var lastMod: Option<int>
    var debSource: string
    var debVersionFixed: Option<string>
    var debsecTag: Option<string>
    var debsecNote: Option<string>

    constructor (r: DebsecCveRow)
      ensures Row() == r
    {
      distId, cveId, lastMod, debSource := r.distId, r.cveId, r.lastMod, r.debSource;
      debVersionFixed, debsecTag, debsecNote := r.debVersionFixed, r.debsecTag, r.debsecNote;
    }

    function Row(): DebsecCveRow
      reads this
    {
      DebsecCveRow(distId, cveId, lastMod, debSource, debVersionFixed, debsecTag, debsecNote)
    }

    method Merge(other: DebsecCve)
      modifies this
      ensures Row() == old(Row()).MergedWith(old(other.Row()))
    {
      var f, t, n := other.debVersionFixed, other.debsecTag, other.debsecNote;
      debVersionFixed := f;
      debsecTag := t;
      debsecNote := n;
    }
  }

  /** The `DebCve` entity object. */
  class DebCve {
    var distId: Option<int>
    var cveId: string
    var lastMod: Option<int>
    var cvssSeverity: Option<CvssSeverity>
    var debSource: string
    var debVersion: string
    var debVersionFixed: Option<string>
    var debsecVulnerable: bool
    var dataCpeMatch: Json

    constructor (r: DebCveRow)
      ensures Row() == r
    {
      distId, cveId, lastMod, cvssSeverity := r.distId, r.cveId, r.lastMod, r.cvssSeverity;
      debSource, debVersion, debVersionFixed := r.debSource, r.debVersion, r.debVersionFixed;
      debsecVulnerable, dataCpeMatch := r.debsecVulnerable, r.dataCpeMatch;
    }

    function Row(): DebCveRow
      reads this
    {
      DebCveRow(distId, cveId, lastMod, cvssSeverity, debSource, debVersion, debVersionFixed, debsecVulnerable, dataCpeMatch)
    }

    method Merge(other: DebCve)
      modifies this
      ensures Row() == old(Row()).MergedWith(old(other.Row()))
    {
      var s, v, f, b, m := other.cvssSeverity, other.debVersion, other.debVersionFixed, other.debsecVulnerable, other.dataCpeMatch;
      cvssSeverity := s;
      debVersion := v;
      debVersionFixed := f;
      debsecVulnerable := b;
      dataCpeMatch := m;
    }
  }

  /** The `AllCve` entity object. */
  class AllCve {
    var cveId: string
    var lastMod: Option<int>
    var data: Json

    constructor (r: AllCveRow)
      ensures Row() == r
    {
      cveId, lastMod, data := r.cveId, r.lastMod, r.data;
    }

    function Row(): AllCveRow
      reads this
    {
      AllCveRow(cveId, lastMod, data)
    }

    method Merge(other: AllCve)
      modifies this
      ensures Row() == old(Row()).MergedWith(old(other.Row()))
    {
      data := other.data;
    }
  }

  /** `s` lists every element of `S` exactly once: the rows a query streams, in some order. */
  predicate Enumerates<T>(s: seq<T>, S: set<T>) {
    && (forall i, j :: 0 <= i < j < |s| ==> s[i] != s[j])
    && (forall i :: 0 <= i < |s| ==> s[i] in S)
    && (forall x :: x in S ==> x in s)
  }

  /** Load `row` into a `Debsrc` entity, merge `other` into it in place, and read the row back. */
  method MergeDebsrc(row: DebsrcRow, other: DebsrcRow) returns (r: DebsrcRow)
    ensures r == row.MergedWith(other)
  {
    var entry := new Debsrc(row);
    var newEntry := new Debsrc(other);
    entry.Merge(newEntry);
    r := entry.Row();
  }

  /** The same for a `DebsecCve` entity. */
  method MergeDebsecCve(row: DebsecCveRow, other: DebsecCveRow) returns (r: DebsecCveRow)
    ensures r == row.MergedWith(other)
  {
    var entry := new DebsecCve(row);
    var newEntry := new DebsecCve(other);
    entry.Merge(newEntry);
    r := entry.Row();
  }

  /** The same for a `DebCve` entity. */
  method MergeDebCve(row: DebCveRow, other: DebCveRow) returns (r: DebCveRow)
    ensures r == row.MergedWith(other)
  {
    var entry := new DebCve(row);
    var newEntry := new DebCve(other);
    entry.Merge(newEntry);
    r := entry.Row();
  }

  /** The same for an `AllCve` entity. */
  method MergeAllCve(row: AllCveRow, other: AllCveRow) returns (r: AllCveRow)
    ensures r == row.MergedWith(other)
  {
    var entry := new AllCve(row);
    var newEntry := new AllCve(other);
    entry.Merge(newEntry);
    r := entry.Row();
  }

  type DebsrcKey = (int, string)
  /** (dist_id, cve_id, deb_source) */
  type CveKey = (int, string, string)

  /** Every `debsrc` row sits under its own key and refers to an existing distribution. */
  predicate DebsrcTable(t: map<DebsrcKey, DebsrcRow>, dists: map<int, DistCpe>) {
    forall k {:trigger k in t} :: k in t ==> t[k].Key() == (Some(k.0), k.1) && k.0 in dists
  }

  predicate DebsecTable(t: map<CveKey, DebsecCveRow>, dists: map<int, DistCpe>) {
    forall k {:trigger k in t} :: k in t ==> t[k].Key() == (Some(k.0), k.1, k.2) && k.0 in dists
  }

  predicate DebCveTable(t: map<CveKey, DebCveRow>, dists: map<int, DistCpe>) {
    forall k {:trigger k in t} :: k in t ==> t[k].Key() == (Some(k.0), k.1, k.2) && k.0 in dists
  }

  predicate NvdTable(t: map<string, NvdCveRow>) {
    forall k :: k in t ==> t[k].cveId == k
  }

  predicate AllCveTable(t: map<string, AllCveRow>) {
    forall k :: k in t ==> t[k].cveId == k
  }

  /** The database: each table is a map from its primary key to its row. */
  class Store {
    var dists: map<int, DistCpe>
    /** The next value of the `dist_cpe.id` sequence. */
    var nextDistId: int
    var debsrc: map<DebsrcKey, DebsrcRow>
    var debsec: map<CveKey, DebsecCveRow>
    var debcve: map<CveKey, DebCveRow>
    var nvd: map<string, NvdCveRow>
    var allcve: map<string, AllCveRow>

    /** Primary keys agree with the rows, foreign keys resolve, the id sequence is ahead of every id. */
    ghost predicate Valid()
      reads this
    {
      && (forall id :: id in dists ==> id < nextDistId)
      && DebsrcTable(debsrc, dists)
      && DebsecTable(debsec, dists)
      && DebCveTable(debcve, dists)
      && NvdTable(nvd)
      && AllCveTable(allcve)
    }

    constructor ()
      ensures Valid()
      ensures dists == map[] && debsrc == map[] && debsec == map[] && debcve == map[]
      ensures nvd == map[] && allcve == map[]
    {
      dists, nextDistId := map[], 1;
      debsrc, debsec, debcve, nvd, allcve := map[], map[], map[], map[], map[];
    }

    /**
     * Flush new `dist_cpe` rows and `debsec_cve` rows: the id sequence
     * stays ahead of every id, and every foreign key still resolves.
     */
    method SetDebsec(d: map<int, DistCpe>, next: int, t: map<CveKey, DebsecCveRow>)
      requires Valid()
      requires (forall id :: id in d ==> id < next) && DebsrcTable(debsrc, d) && DebsecTable(t, d) && DebCveTable(debcve, d)
      modifies this`dists, this`nextDistId, this`debsec
      ensures Valid()
      ensures dists == d && nextDistId == next && debsec == t
    {
      dists, nextDistId, debsec := d, next, t;
    }

    /** Flush `deb_cve` rows whose keys and foreign keys hold. */
    method SetDebcve(t: map<CveKey, DebCveRow>)
      requires Valid() && DebCveTable(t, dists)
      modifies this`debcve
      ensures Valid() && debcve == t
    {
      debcve := t;
    }

    /** Flush `nvd_cve` rows that sit under their own CVE id. */
    method SetNvd(t: map<string, NvdCveRow>)
      requires Valid() && NvdTable(t)
      modifies this`nvd
      ensures Valid() && nvd == t
    {
      nvd := t;
    }

    /** Flush `all_cve` rows that sit under their own CVE id. */
    method SetAllcve(t: map<string, AllCveRow>)
      requires Valid() && AllCveTable(t)
      modifies this`allcve
      ensures Valid() && allcve == t
    {
      allcve := t;
    }

    /** Insert a `dist_cpe` row; the sequence hands out an id no row has. */
    method AddDist(d: DistCpe) returns (id: int)
      requires Valid()
      modifies this`dists, this`nextDistId
      ensures Valid()
      ensures id !in old(dists) && dists == old(dists)[id := d]
      ensures id == old(nextDistId) && nextDistId == old(nextDistId) + 1
    {
      id := nextDistId;
      dists := dists[id := d];
      nextDistId := nextDistId + 1;
    }
  }
}
