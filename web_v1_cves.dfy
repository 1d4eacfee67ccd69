/**
 * The `/v1/cves` endpoints: one canonical CVE document by id, and the
 * documents that concern a Debian CPE, selected over the join of
 * `all_cve`, `deb_cve` and `dist_cpe` and ordered by CVE id.
 */
module WebV1Cves {
  import opened Wrappers
  import opened Json
  import opened Text
  import opened Sorting
  import opened CpeNames
  import opened Database

  /** An HTTP reply: a JSON document, a plain message, or a JSON array of documents. */
  datatype Body = Document(doc: Json) | Message(text: string) | Documents(docs: seq<Json>)
  datatype Reply = Reply(body: Body, status: int)

  /** The tables the statements read. */
  datatype Db = Db(allcve: map<string, AllCveRow>, debcve: map<CveKey, DebCveRow>, dists: map<int, DistCpe>)

  // ---------------------------------------------------------------- /<cve_id>

  /** `get_cve_id`: the stored document with 200, or `Not found` with 404. */
  function GetCveId(allcve: map<string, AllCveRow>, cveId: string): (r: Reply)
    ensures r.status == 200 <==> cveId in allcve
    ensures cveId in allcve ==> r.body == Document(allcve[cveId].data)
    ensures cveId !in allcve ==> r == Reply(Message("Not found"), 404)
  {
    if cveId in allcve then Reply(Document(allcve[cveId].data), 200)
    else Reply(Message("Not found"), 404)
  }

  // ---------------------------------------------------------------- LIKE

  /**
   * SQL `s LIKE p` with the default escape character `\`: `%` matches
   * any run, `_` any one character, `\x` the character `x`.
   */
  predicate Like(s: string, p: string)
    decreases |p|, |s|
  {
    if p == [] then s == []
    else if p[0] == '%' then Like(s, p[1..]) || (s != [] && Like(s[1..], p))
    else if p[0] == '\\' && |p| >= 2 then s != [] && s[0] == p[1] && Like(s[1..], p[2..])
    else s != [] && (p[0] == '_' || s[0] == p[0]) && Like(s[1..], p[1..])
  }

  /** A pattern the database accepts: it does not end with a lone escape character. */
  predicate PatternOk(p: string)
    decreases |p|
  {
    if p == [] then true
    else if p[0] == '\\' then |p| >= 2 && PatternOk(p[2..])
    else PatternOk(p[1..])
  }

  /** `%` matches every string. */
  lemma {:induction false} LikeAll(s: string)
    ensures Like(s, "%")
    decreases |s|
  {
    if s != [] {
      LikeAll(s[1..]);
    }
  }

  /** A pattern without `%`, `_` or `\` matches exactly itself. */
  lemma {:induction false} LikeLiteral(s: string, p: string)
    requires forall i :: 0 <= i < |p| ==> p[i] != '%' && p[i] != '_' && p[i] != '\\'
    ensures Like(s, p) <==> s == p
    decreases |p|
  {
    if p != [] && s != [] {
      LikeLiteral(s[1..], p[1..]) by {
        forall i | 0 <= i < |p[1..]| ensures p[1..][i] != '%' && p[1..][i] != '_' && p[1..][i] != '\\' {
          assert p[1..][i] == p[i + 1];
        }
      }
      if s != [] && s[0] == p[0] && s[1..] == p[1..] {
        assert s == [s[0]] + s[1..] && p == [p[0]] + p[1..];
      }
    }
  }

  // ---------------------------------------------------------------- the two statements

  /** The bound coordinates of the distribution: `None` is SQL NULL, which equals nothing. */
  datatype Target = Target(vendor: Option<string>, product: Option<string>, version: string)

  /** `stmt_cpe_version` or `stmt_cpe_vulnerable` with their parameters. */
  datatype Query =
    | ByVersion(target: Target, source: string, debVersion: string)
    | ByVulnerable(target: Target, sourcePattern: string)

  /** The distribution conditions both statements share. */
  predicate DistMatches(d: DistCpe, t: Target) {
    t.vendor == Some(d.cpeVendor) && t.product == Some(d.cpeProduct) && Like(d.cpeVersion, t.version)
  }

  /**
   * A `deb_cve` row the statement selects: joined with its CVE's
   * `all_cve` row and its distribution, whose coordinates match. The
   * version statement wants exactly the source and a fixed version above
   * the given one (or none); the vulnerable statement wants the source
   * pattern and the vulnerable flag.
   */
  predicate Hit(q: Query, db: Db, lt: (string, string) -> bool, k: CveKey) {
    && k in db.debcve && k.1 in db.allcve && k.0 in db.dists
    && DistMatches(db.dists[k.0], q.target)
    && var row := db.debcve[k];
       match q
       case ByVersion(_, source, v) =>
         row.debSource == source && (row.debVersionFixed.None? || lt(v, row.debVersionFixed.value))
       case ByVulnerable(_, pattern) =>
         Like(row.debSource, pattern) && row.debsecVulnerable
  }

  /** The selected rows, in the order `order` the database reads `deb_cve`. */
  function Selected(q: Query, db: Db, lt: (string, string) -> bool, order: seq<CveKey>): seq<CveKey>
    decreases |order|
  {
    if order == [] then []
    else
      var k := order[|order| - 1];
      Selected(q, db, lt, order[..|order| - 1]) + (if Hit(q, db, lt, k) then [k] else [])
  }

  /** Read without repeats, each selected row is there once and nothing else is. */
  lemma {:induction false} SelectedCount(q: Query, db: Db, lt: (string, string) -> bool, order: seq<CveKey>, k: CveKey)
    requires forall i, j :: 0 <= i < j < |order| ==> order[i] != order[j]
    ensures multiset(Selected(q, db, lt, order))[k] == if k in order && Hit(q, db, lt, k) then 1 else 0
    decreases |order|
  {
    if order != [] {
      var n := |order| - 1;
      var pre := order[..n];
      SelectedCount(q, db, lt, pre, k);
      var last := if Hit(q, db, lt, order[n]) then [order[n]] else [];
      assert Selected(q, db, lt, order) == Selected(q, db, lt, pre) + last;
      assert multiset(Selected(q, db, lt, order)) == multiset(Selected(q, db, lt, pre)) + multiset(last);
      assert order == pre + [order[n]];
      if order[n] == k {
        forall i | 0 <= i < n ensures pre[i] != k {
          assert pre[i] == order[i] && order[i] != order[n];
        }
        assert k !in pre;
      }
    }
  }

  /** The order the rows come out in: by CVE id, ties (several sources or distributions) broken by source and distribution. */
  predicate KeyLess(a: CveKey, b: CveKey) {
    Less(a.1, b.1) || (a.1 == b.1 && (Less(a.2, b.2) || (a.2 == b.2 && a.0 < b.0)))
  }

  lemma KeyLessOrder()
    ensures StrictTotalOrder(KeyLess)
  {
    forall a: CveKey ensures !KeyLess(a, a) {
      LessIrreflexive(a.1);
      LessIrreflexive(a.2);
    }
    forall a: CveKey, b: CveKey, c: CveKey | KeyLess(a, b) && KeyLess(b, c) ensures KeyLess(a, c) {
      if Less(a.1, b.1) && Less(b.1, c.1) {
        LessTransitive(a.1, b.1, c.1);
      } else if a.1 == b.1 && b.1 == c.1 && Less(a.2, b.2) && Less(b.2, c.2) {
        LessTransitive(a.2, b.2, c.2);
      }
    }
    forall a: CveKey, b: CveKey | a != b ensures KeyLess(a, b) || KeyLess(b, a) {
      if a.1 != b.1 {
        LessTotal(a.1, b.1);
      } else if a.2 != b.2 {
        LessTotal(a.2, b.2);
      }
    }
  }

  /** The selected rows after `ORDER BY cve_id`. */
  function Hits(q: Query, db: Db, lt: (string, string) -> bool, order: seq<CveKey>): seq<CveKey> {
    InsertionSort(Selected(q, db, lt, order), KeyLess)
  }

  /**
   * Over a read order that enumerates `deb_cve`, every row the statement
   * selects is in the result exactly once, nothing else is, and CVE ids
   * never decrease.
   */
  lemma HitsMeaning(q: Query, db: Db, lt: (string, string) -> bool, order: seq<CveKey>)
    requires Enumerates(order, db.debcve.Keys)
    ensures var hs := Hits(q, db, lt, order);
      && (forall k :: multiset(hs)[k] == if Hit(q, db, lt, k) then 1 else 0)
      && (forall i, j :: 0 <= i < j < |hs| ==> !Less(hs[j].1, hs[i].1))
  {
    var hs := Hits(q, db, lt, order);
    forall k ensures multiset(hs)[k] == if Hit(q, db, lt, k) then 1 else 0 {
      SelectedCount(q, db, lt, order, k);
    }
    KeyLessOrder();
    InsertionSortSorted(Selected(q, db, lt, order), KeyLess);
  }

  /** A key is in the result when its multiplicity is positive. */
  lemma HitsRows(q: Query, db: Db, lt: (string, string) -> bool, order: seq<CveKey>)
    ensures forall i :: 0 <= i < |Hits(q, db, lt, order)| ==> Hit(q, db, lt, Hits(q, db, lt, order)[i])
  {
    var hs := Hits(q, db, lt, order);
    forall i | 0 <= i < |hs| ensures Hit(q, db, lt, hs[i]) {
      assert hs[i] in multiset(Selected(q, db, lt, order));
      SelectedHit(q, db, lt, order, hs[i]);
    }
  }

  lemma {:induction false} SelectedHit(q: Query, db: Db, lt: (string, string) -> bool, order: seq<CveKey>, k: CveKey)
    requires k in multiset(Selected(q, db, lt, order))
    ensures Hit(q, db, lt, k)
    decreases |order|
  {
    var n := |order| - 1;
    if k in multiset(Selected(q, db, lt, order[..n])) {
      SelectedHit(q, db, lt, order[..n], k);
    }
  }

  /** `json_agg(data.cve)` over the ordered rows, `[]` when there are none. */
  function Documents(q: Query, db: Db, lt: (string, string) -> bool, order: seq<CveKey>): (r: seq<Json>)
    ensures var hs := Hits(q, db, lt, order);
      |r| == |hs| && forall i :: 0 <= i < |r| ==> hs[i].1 in db.allcve && r[i] == db.allcve[hs[i].1].data
  {
    var hs := Hits(q, db, lt, order);
    HitsRows(q, db, lt, order);
    seq(|hs|, i requires 0 <= i < |hs| => db.allcve[hs[i].1].data)
  }

  // ---------------------------------------------------------------- /findByCpe

  /** A CPE field bound as a parameter: absent is NULL; the ANY marker cannot be bound. */
  function Bind(c: Comp<string>): (r: Result<Option<string>>)
    ensures r.Err? <==> c.Any?
    ensures c.Concrete? ==> r == Ok(Some(c.value))
    ensures c.Absent? ==> r == Ok(None)
  {
    match c
    case Absent => Ok(None)
    case Any => Err(DatabaseError)
    case Concrete(v) => Ok(Some(v))
  }

  /** `x or '%'` for a CPE field: absent and empty give the match-all pattern. */
  function OrAll(c: Comp<string>): (r: Result<string>)
    ensures r.Err? <==> c.Any?
    ensures c.Absent? || c == Concrete("") ==> r == Ok("%")
    ensures c.Concrete? && c.value != "" ==> r == Ok(c.value)
  {
    match c
    case Absent => Ok("%")
    case Any => Err(DatabaseError)
    case Concrete(v) => Ok(if v == "" then "%" else v)
  }

  /** A Python string argument or attribute taken as a condition. */
  predicate Given(s: Option<string>) {
    s.Some? && s.value != ""
  }

  /**
   * The statement `get_cpe_name` binds for a Debian CPE: the version
   * statement exactly when the CPE names a source and `debVersionEnd` is
   * given, else the vulnerable statement with the source pattern
   * defaulting to `%`. A parameter the driver cannot bind fails the
   * statement. A pattern ending in the escape character is taken to fail it
   * too, although the database raises only once a comparison reaches that
   * escape.
   */
  function Choose(cpe: Cpe, source: Option<string>, debVersion: Option<string>): (r: Result<Query>)
    ensures r.Ok? ==> (r.value.ByVersion? <==> Given(source) && Given(debVersion))
    ensures r.Ok? ==> Bind(cpe.vendor) == Ok(r.value.target.vendor) && Bind(cpe.product) == Ok(r.value.target.product)
                      && OrAll(cpe.version) == Ok(r.value.target.version)
    ensures r.Ok? && r.value.ByVersion? ==> r.value.source == source.value && r.value.debVersion == debVersion.value
    ensures r.Ok? && r.value.ByVulnerable? ==> r.value.sourcePattern == if Given(source) then source.value else "%"
    ensures r.Err? <==> cpe.vendor.Any? || cpe.product.Any? || cpe.version.Any? || !PatternOk(OrAll(cpe.version).value)
                        || (!(Given(source) && Given(debVersion)) && Given(source) && !PatternOk(source.value))
  {
    match Bind(cpe.vendor)
    case Err(e) => Err(e)
    case Ok(vendor) =>
      match Bind(cpe.product)
      case Err(e) => Err(e)
      case Ok(product) =>
        match OrAll(cpe.version)
        case Err(e) => Err(e)
        case Ok(version) =>
          if !PatternOk(version) then Err(DatabaseError)
          else
            var t := Target(vendor, product, version);
            if Given(source) && Given(debVersion) then Ok(ByVersion(t, source.value, debVersion.value))
            else
              var pattern := if Given(source) then source.value else "%";
              if !PatternOk(pattern) then Err(DatabaseError) else Ok(ByVulnerable(t, pattern))
  }

  /**
   * `get_cpe_name`. An absent `cpeName` cannot be parsed (`TypeError`), a
   * malformed one raises `ValueError`; a CPE that is not Debian's is
   * answered with 400; otherwise the chosen statement's documents come
   * back with 200. Whether a CPE is Debian's and which source it names
   * are given by `isDebian` and `source`.
   */
  function GetCpeName(cpeName: Option<string>, debVersionEnd: Option<string>,
                      isDebian: Cpe -> bool, source: Cpe -> Option<string>,
                      db: Db, lt: (string, string) -> bool, order: seq<CveKey>): (r: Result<Reply>)
    ensures cpeName.None? ==> r == Err(TypeError)
    ensures cpeName.Some? && Parse(cpeName.value).Err? ==> r == Err(ValueError)
    ensures r.Ok? ==> && cpeName.Some? && Parse(cpeName.value).Ok?
                      && var cpe := Parse(cpeName.value).value;
                         && (r.value.status == 400 <==> !isDebian(cpe))
                         && (r.value.status == 400 ==> r.value.body == Message("Not Debian related CPE"))
                         && (r.value.status != 400 ==>
                               var q := Choose(cpe, source(cpe), debVersionEnd);
                               q.Ok? && r.value == Reply(Body.Documents(Documents(q.value, db, lt, order)), 200))
    ensures r.Err? && cpeName.Some? && Parse(cpeName.value).Ok? ==>
              isDebian(Parse(cpeName.value).value) && Choose(Parse(cpeName.value).value, source(Parse(cpeName.value).value), debVersionEnd).Err?
  {
    if cpeName.None? then Err(TypeError)
    else
      match Parse(cpeName.value)
      case Err(_) => Err(ValueError)
      case Ok(cpe) =>
        if !isDebian(cpe) then Ok(Reply(Message("Not Debian related CPE"), 400))
        else
          match Choose(cpe, source(cpe), debVersionEnd)
          case Err(e) => Err(e)
          case Ok(q) => Ok(Reply(Body.Documents(Documents(q, db, lt, order)), 200))
  }

  /**
   * Without a version in the CPE every distribution of the vendor and
   * product qualifies: the bound pattern is `%`.
   */
  lemma MissingVersionMatchesAll(cpe: Cpe, source: Option<string>, debVersion: Option<string>, d: DistCpe)
    requires cpe.version.Absent? && Choose(cpe, source, debVersion).Ok?
    ensures var t := Choose(cpe, source, debVersion).value.target;
      DistMatches(d, t) <==> t.vendor == Some(d.cpeVendor) && t.product == Some(d.cpeProduct)
  {
    LikeAll(d.cpeVersion);
  }

  /** With a source but no `debVersionEnd`, the vulnerable statement keeps exactly that source's vulnerable rows. */
  lemma SourceWithoutVersion(cpe: Cpe, source: string, db: Db, lt: (string, string) -> bool, k: CveKey)
    requires source != "" && forall i :: 0 <= i < |source| ==> source[i] != '%' && source[i] != '_' && source[i] != '\\'
    requires Choose(cpe, Some(source), None).Ok?
    ensures var q := Choose(cpe, Some(source), None).value;
      && q.ByVulnerable?
      && (Hit(q, db, lt, k) <==> && k in db.debcve && k.1 in db.allcve && k.0 in db.dists
                                 && DistMatches(db.dists[k.0], q.target)
                                 && db.debcve[k].debSource == source && db.debcve[k].debsecVulnerable)
  {
    if k in db.debcve {
      LikeLiteral(db.debcve[k].debSource, source);
    }
  }
}
