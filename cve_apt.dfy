/**
 * The `cve-apt` client: the source packages installed from a package
 * origin, sorted and joined into the request body, and the severity
 * threshold sent as a query parameter. The apt cache is an input.
 */
module ClientCveApt {
  import opened Wrappers
  import opened Text
  import opened Sorting
  import opened Cvss
  import opened Sets

  // ---------------------------------------------------------------- the severity option

  /** The members in declaration order, as iterating the enum gives them. */
  const Members: seq<CvssSeverity> := [NONE, UNIMPORTANT, LOW, MEDIUM, HIGH, CRITICAL]

  /** The names of the members other than `NONE`, in order. */
  function NamesExceptNone(ms: seq<CvssSeverity>): seq<string>
    decreases |ms|
  {
    if ms == [] then []
    else (if ms[0] == NONE then [] else [Name(ms[0])]) + NamesExceptNone(ms[1..])
  }

  /** `--cvss3-severity-min`: its choices and its default. */
  function Choices(): seq<string> {
    NamesExceptNone(Members)
  }

  const DefaultChoice: string := "LOW"

  /** The choices are the five names other than `NONE`, in enum order. */
  lemma ChoicesList()
    ensures Choices() == ["UNIMPORTANT", "LOW", "MEDIUM", "HIGH", "CRITICAL"]
  {
    assert Members[1..] == [UNIMPORTANT, LOW, MEDIUM, HIGH, CRITICAL];
    assert Members[1..][1..] == [LOW, MEDIUM, HIGH, CRITICAL];
    assert Members[1..][1..][1..] == [MEDIUM, HIGH, CRITICAL];
    assert Members[1..][1..][1..][1..] == [HIGH, CRITICAL];
    assert Members[1..][1..][1..][1..][1..] == [CRITICAL];
    assert Members[1..][1..][1..][1..][1..][1..] == [];
  }

  /**
   * A member's name is a choice exactly when the member is not `NONE`;
   * the default is a choice; every choice names a member.
   */
  lemma ChoicesMeaning()
    ensures forall s :: Name(s) in Choices() <==> s != NONE
    ensures DefaultChoice in Choices()
    ensures forall c :: c in Choices() ==> FromName(c).Ok? && FromName(c).value != NONE
  {
    ChoicesList();
    var cs := Choices();
    forall s ensures Name(s) in cs <==> s != NONE {
      match s
      case NONE =>
        forall i | 0 <= i < |cs| ensures cs[i] != "NONE" {
          assert cs[i][0] != 'N' || |cs[i]| != 4;
        }
      case UNIMPORTANT => assert cs[0] == Name(s);
      case LOW => assert cs[1] == Name(s);
      case MEDIUM => assert cs[2] == Name(s);
      case HIGH => assert cs[3] == Name(s);
      case CRITICAL => assert cs[4] == Name(s);
    }
    assert cs[1] == DefaultChoice;
    forall c | c in cs ensures FromName(c).Ok? && FromName(c).value != NONE {
      var i :| 0 <= i < |cs| && cs[i] == c;
      var s := [UNIMPORTANT, LOW, MEDIUM, HIGH, CRITICAL][i];
      assert c == Name(s);
      NameRoundTrip(s);
    }
  }

  // ---------------------------------------------------------------- the installed sources

  datatype Origin = Origin(origin: string, codename: string)

  /** An installed version: where it came from and its source package. */
  datatype Version = Version(origins: seq<Origin>, sourceName: string, sourceVersion: string)

  /** A package of the cache and its installed version, if any. */
  datatype Package = Package(installed: Option<Version>)

  /** (origin, codename, source name, source version). */
  type Source = (string, string, string, string)

  /** The sources contributed by the origins `os` of the installed version `v`. */
  function OriginSources(v: Version, os: seq<Origin>): set<Source>
    decreases |os|
  {
    if os == [] then {}
    else
      var o := os[|os| - 1];
      OriginSources(v, os[..|os| - 1]) + (if o.origin != "" then {(o.origin, o.codename, v.sourceName, v.sourceVersion)} else {})
  }

  function PackageSources(p: Package): set<Source> {
    if p.installed.Some? then OriginSources(p.installed.value, p.installed.value.origins) else {}
  }

  /** The sources of the packages `cache`. */
  function Sources(cache: seq<Package>): set<Source>
    decreases |cache|
  {
    if cache == [] then {} else Sources(cache[..|cache| - 1]) + PackageSources(cache[|cache| - 1])
  }

  /** The source of origin `j` of the installed version of package `i`. */
  predicate SourceAt(cache: seq<Package>, i: int, j: int, t: Source) {
    && 0 <= i < |cache| && cache[i].installed.Some?
    && var v := cache[i].installed.value;
       0 <= j < |v.origins| && v.origins[j].origin != ""
       && t == (v.origins[j].origin, v.origins[j].codename, v.sourceName, v.sourceVersion)
  }

  lemma {:induction false} OriginSourcesExact(v: Version, os: seq<Origin>, t: Source)
    ensures t in OriginSources(v, os) <==>
      exists j :: 0 <= j < |os| && os[j].origin != "" && t == (os[j].origin, os[j].codename, v.sourceName, v.sourceVersion)
    decreases |os|
  {
    if os != [] {
      var n := |os| - 1;
      OriginSourcesExact(v, os[..n], t);
      if t in OriginSources(v, os[..n]) {
        var j :| 0 <= j < n && os[..n][j].origin != "" && t == (os[..n][j].origin, os[..n][j].codename, v.sourceName, v.sourceVersion);
        assert os[j] == os[..n][j];
      }
      if exists j :: 0 <= j < n && os[j].origin != "" && t == (os[j].origin, os[j].codename, v.sourceName, v.sourceVersion) {
        var j :| 0 <= j < n && os[j].origin != "" && t == (os[j].origin, os[j].codename, v.sourceName, v.sourceVersion);
        assert os[..n][j] == os[j];
      }
    }
  }

  /** A source is collected exactly when some installed version has an origin with a non-empty name that gives it. */
  lemma {:induction false} SourcesExact(cache: seq<Package>, t: Source)
    ensures t in Sources(cache) <==> exists i, j :: SourceAt(cache, i, j, t)
    decreases |cache|
  {
    if cache != [] {
      var n := |cache| - 1;
      SourcesExact(cache[..n], t);
      if cache[n].installed.Some? {
        OriginSourcesExact(cache[n].installed.value, cache[n].installed.value.origins, t);
      }
      if t in Sources(cache[..n]) {
        var i, j :| SourceAt(cache[..n], i, j, t);
        assert cache[i] == cache[..n][i];
        assert SourceAt(cache, i, j, t);
      }
      if t in PackageSources(cache[n]) {
        var v := cache[n].installed.value;
        var j :| 0 <= j < |v.origins| && v.origins[j].origin != "" && t == (v.origins[j].origin, v.origins[j].codename, v.sourceName, v.sourceVersion);
        assert SourceAt(cache, n, j, t);
      }
      if exists i, j :: SourceAt(cache, i, j, t) {
        var i, j :| SourceAt(cache, i, j, t);
        if i < n {
          assert cache[..n][i] == cache[i];
          assert SourceAt(cache[..n], i, j, t);
        }
      }
    }
  }

  /** `get_sources`: walk the cache and its origins, collecting into a set. */
  method GetSources(cache: seq<Package>) returns (ret: set<Source>)
    ensures ret == Sources(cache)
  {
    ret := {};
    for i := 0 to |cache|
      invariant ret == Sources(cache[..i])
    {
      assert cache[..i + 1][..i] == cache[..i];
      if cache[i].installed.Some? {
        var inst := cache[i].installed.value;
        for j := 0 to |inst.origins|
          invariant ret == Sources(cache[..i]) + OriginSources(inst, inst.origins[..j])
        {
          assert inst.origins[..j + 1][..j] == inst.origins[..j];
          var origin := inst.origins[j];
          if origin.origin != "" {
            ret := ret + {(origin.origin, origin.codename, inst.sourceName, inst.sourceVersion)};
          }
        }
        assert inst.origins[..|inst.origins|] == inst.origins;
      }
    }
    assert cache[..|cache|] == cache;
  }

  // ---------------------------------------------------------------- the request

  /** Python's order on tuples of strings: lexicographic, field by field. */
  predicate SourceLess(a: Source, b: Source) {
    || Less(a.0, b.0)
    || (a.0 == b.0 && Less(a.1, b.1))
    || (a.0 == b.0 && a.1 == b.1 && Less(a.2, b.2))
    || (a.0 == b.0 && a.1 == b.1 && a.2 == b.2 && Less(a.3, b.3))
  }

  lemma SourceLessOrder()
    ensures StrictTotalOrder(SourceLess)
  {
    forall a: Source ensures !SourceLess(a, a) {
      LessIrreflexive(a.0); LessIrreflexive(a.1); LessIrreflexive(a.2); LessIrreflexive(a.3);
    }
    forall a: Source, b: Source, c: Source | SourceLess(a, b) && SourceLess(b, c) ensures SourceLess(a, c) {
      if Less(a.0, b.0) && Less(b.0, c.0) { LessTransitive(a.0, b.0, c.0); }
      if Less(a.1, b.1) && Less(b.1, c.1) { LessTransitive(a.1, b.1, c.1); }
      if Less(a.2, b.2) && Less(b.2, c.2) { LessTransitive(a.2, b.2, c.2); }
      if Less(a.3, b.3) && Less(b.3, c.3) { LessTransitive(a.3, b.3, c.3); }
    }
    forall a: Source, b: Source | a != b ensures SourceLess(a, b) || SourceLess(b, a) {
      if a.0 != b.0 { LessTotal(a.0, b.0); }
      else if a.1 != b.1 { LessTotal(a.1, b.1); }
      else if a.2 != b.2 { LessTotal(a.2, b.2); }
      else { LessTotal(a.3, b.3); }
    }
  }

  predicate Least(s: set<Source>, m: Source) {
    m in s && forall x :: x in s ==> !SourceLess(x, m)
  }

  /** A finite non-empty set of sources has a least element. */
  lemma {:induction false} LeastExists(s: set<Source>)
    requires s != {}
    ensures exists m :: Least(s, m)
    decreases |s|
  {
    SourceLessOrder();
    var x := Pick(s);
    if s - {x} == {} {
      assert s == {x};
      assert Least(s, x);
    } else {
      LeastExists(s - {x});
      var m :| Least(s - {x}, m);
      if SourceLess(x, m) {
        assert Least(s, x);
      } else {
        assert Least(s, m);
      }
    }
  }

  ghost function Pick(s: set<Source>): (x: Source)
    requires s != {}
    ensures x in s
  {
    NonEmptyHas(s);
    var x :| x in s; x
  }

  /** The least element is unique. */
  lemma LeastUnique(s: set<Source>)
    ensures forall m, n :: Least(s, m) && Least(s, n) ==> m == n
  {
    forall m, n | Least(s, m) && Least(s, n) ensures m == n {
      SourceLessOrder();
    }
  }

  /** The least element is below every other element. */
  lemma LeastBelow(s: set<Source>, m: Source, y: Source)
    requires Least(s, m) && y in s && y != m
    ensures SourceLess(m, y)
  {
    SourceLessOrder();
  }

  /** `sorted(sources)`: the least source, then the rest sorted. */
  function SortedSources(s: set<Source>): (r: seq<Source>)
    ensures |r| == |s|
    decreases |s|
  {
    if s == {} then []
    else
      LeastExists(s);
      LeastUnique(s);
      var m :| Least(s, m);
      [m] + SortedSources(s - {m})
  }

  /** Every source once, in strictly increasing order. */
  lemma {:induction false} SortedSourcesSpec(s: set<Source>)
    ensures var r := SortedSources(s);
      && (forall i :: 0 <= i < |r| ==> r[i] in s)
      && (forall x :: x in s ==> exists i :: 0 <= i < |r| && r[i] == x)
      && (forall i, j :: 0 <= i < j < |r| ==> SourceLess(r[i], r[j]))
    decreases |s|
  {
    if s != {} {
      var r := SortedSources(s);
      var m := r[0];
      var rest := r[1..];
      LeastExists(s);
      LeastUnique(s);
      assert Least(s, m) && rest == SortedSources(s - {m});
      SortedSourcesSpec(s - {m});
      forall x | x in s ensures exists i :: 0 <= i < |r| && r[i] == x {
        if x != m {
          assert x in s - {m};
          var i :| 0 <= i < |rest| && rest[i] == x;
          assert r[i + 1] == x;
        }
      }
      forall i, j | 0 <= i < j < |r| ensures SourceLess(r[i], r[j]) {
        assert r[j] == rest[j - 1];
        if i > 0 {
          assert r[i] == rest[i - 1];
        } else {
          assert r[j] in s - {m};
          LeastBelow(s, m, r[j]);
        }
      }
    }
  }

  /** One request entry: the four fields joined with `_`. */
  function Entry(t: Source): string {
    Join([t.0, t.1, t.2, t.3], "_")
  }

  /** `request_data` over the collected sources. */
  function RequestData(sources: set<Source>): map<string, seq<string>> {
    var ts := SortedSources(sources);
    map["source[]" := seq(|ts|, i requires 0 <= i < |ts| => Entry(ts[i]))]
  }

  /** Fields free of `_` can be read back from their entry. */
  lemma EntrySplit(t: Source)
    requires '_' !in t.0 && '_' !in t.1 && '_' !in t.2 && '_' !in t.3
    ensures Split(Entry(t), '_') == [t.0, t.1, t.2, t.3]
  {
    JoinSplit([t.0, t.1, t.2, t.3], '_');
  }

  /** The body lists one entry per source, in the sources' tuple order. */
  lemma RequestDataMeaning(sources: set<Source>)
    ensures var e, ts := RequestData(sources)["source[]"], SortedSources(sources);
      && |e| == |sources| && |ts| == |sources|
      && (forall i :: 0 <= i < |e| ==> ts[i] in sources && e[i] == Entry(ts[i]))
      && (forall t :: t in sources ==> exists i :: 0 <= i < |ts| && ts[i] == t)
      && (forall i, j :: 0 <= i < j < |ts| ==> SourceLess(ts[i], ts[j]))
  {
    SortedSourcesSpec(sources);
  }

  /** When no field contains `_` the entries are pairwise distinct: each splits back into its source. */
  lemma RequestDataDistinct(sources: set<Source>)
    requires forall t :: t in sources ==> '_' !in t.0 && '_' !in t.1 && '_' !in t.2 && '_' !in t.3
    ensures var e := RequestData(sources)["source[]"];
      forall i, j :: 0 <= i < j < |e| ==> e[i] != e[j]
  {
    var e, ts := RequestData(sources)["source[]"], SortedSources(sources);
    SortedSourcesSpec(sources);
    forall i, j | 0 <= i < j < |e| ensures e[i] != e[j] {
      assert ts[i] in sources && ts[j] in sources;
      EntrySplit(ts[i]);
      EntrySplit(ts[j]);
      assert SourceLess(ts[i], ts[j]);
      SourceIrreflexive(ts[i]);
    }
  }

  lemma SourceIrreflexive(t: Source)
    ensures !SourceLess(t, t)
  {
    LessIrreflexive(t.0); LessIrreflexive(t.1); LessIrreflexive(t.2); LessIrreflexive(t.3);
  }

  /** The client: the server and the severity threshold given at construction. */
  datatype Client = Client(server: string, severityMin: CvssSeverity)
  {
    /** `request_params`: the threshold by member name, which reads back as the same member. */
    function RequestParams(): (r: map<string, string>)
      ensures r.Keys == {"cvssV3SeverityMin"} && FromName(r["cvssV3SeverityMin"]) == Ok(severityMin)
    {
      NameRoundTrip(severityMin);
      map["cvssV3SeverityMin" := Name(severityMin)]
    }

    /** `request_data`: the sources of the cache, sorted and joined. */
    method RequestBody(cache: seq<Package>) returns (r: map<string, seq<string>>)
      ensures r == RequestData(Sources(cache))
    {
      var sources := GetSources(cache);
      r := RequestData(sources);
    }
  }
}
