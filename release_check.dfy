/**
 * The release consistency check: a release needs the same calendar-version
 * tag on every repository and every container image published for both
 * amd64 and arm64. The GitHub tag listings and the registry manifests are
 * inputs; the script's exit status is the result.
 */
module ReleaseCheck {
  import opened Wrappers
  import opened Json
  import opened Text
  import opened Sorting

  const Repos: seq<string> := [
    "gardenlinux/glvd", "gardenlinux/glvd-api", "gardenlinux/glvd-postgres", "gardenlinux/glvd-data-ingestion"]

  /** The image templates, each written as the text before its `{version}` placeholder. */
  const ImagePrefixes: seq<string> := [
    "ghcr.io/gardenlinux/glvd-postgres:", "ghcr.io/gardenlinux/glvd-api:", "ghcr.io/gardenlinux/glvd-data-ingestion:"]

  // ---------------------------------------------------------------------------
  // The calendar-version pattern
  // ---------------------------------------------------------------------------

  /**
   * `CALVER_REGEX.match(s)` for `^\d{4}.\d{2}.\d{2}$`: four digits, any
   * character but a newline, two digits, any character but a newline, two
   * digits, and then the end of the string or a single final newline
   * (where `$` also matches).
   */
  predicate Calver(s: string) {
    && (|s| == 10 || (|s| == 11 && s[10] == '\n'))
    && IsDigit(s[0]) && IsDigit(s[1]) && IsDigit(s[2]) && IsDigit(s[3])
    && s[4] != '\n'
    && IsDigit(s[5]) && IsDigit(s[6])
    && s[7] != '\n'
    && IsDigit(s[8]) && IsDigit(s[9])
  }

  /** The separators are not checked: any date written with digits and two non-newline separators matches. */
  lemma CalverAnySeparator(y: string, m: string, d: string, a: char, b: char)
    requires |y| == 4 && |m| == 2 && |d| == 2
    requires forall i :: 0 <= i < |y| ==> IsDigit(y[i])
    requires forall i :: 0 <= i < |m| ==> IsDigit(m[i])
    requires forall i :: 0 <= i < |d| ==> IsDigit(d[i])
    requires a != '\n' && b != '\n'
    ensures Calver(y + [a] + m + [b] + d)
    ensures Calver(y + [a] + m + [b] + d + "\n")
  {
    var s := y + [a] + m + [b] + d;
    assert s[0] == y[0] && s[1] == y[1] && s[2] == y[2] && s[3] == y[3] && s[4] == a;
    assert s[5] == m[0] && s[6] == m[1] && s[7] == b && s[8] == d[0] && s[9] == d[1];
    var t := s + "\n";
    assert t[..10] == s;
  }

  // ---------------------------------------------------------------------------
  // The latest calendar-version tag of a repository
  // ---------------------------------------------------------------------------

  /** The greatest string of a list under Python's string order. */
  function Greatest(s: seq<string>): Option<string>
    decreases |s|
  {
    if s == [] then None
    else
      var m := Greatest(s[..|s| - 1]);
      var t := s[|s| - 1];
      if m.None? || Less(m.value, t) then Some(t) else m
  }

  lemma {:induction false} GreatestSpec(s: seq<string>)
    ensures Greatest(s).None? <==> s == []
    ensures Greatest(s).Some? ==> Greatest(s).value in s && forall x | x in s :: !Less(Greatest(s).value, x)
    decreases |s|
  {
    if s != [] {
      var pre := s[..|s| - 1];
      var t := s[|s| - 1];
      GreatestSpec(pre);
      assert s == pre + [t];
      var m := Greatest(pre);
      if m.Some? {
        if Less(m.value, t) {
          forall x | x in s ensures !Less(t, x) {
            if x != t {
              assert x in pre;
              if Less(t, x) { LessTransitive(m.value, t, x); }
            } else {
              LessIrreflexive(t);
            }
          }
        }
      } else {
        LessIrreflexive(t);
      }
    }
  }

  /** The tag `get_latest_calver_tag` reports: the greatest tag the pattern accepts. */
  function Latest(names: seq<string>): Option<string> {
    Greatest(Filter(names, Calver))
  }

  /**
   * There is no latest tag exactly when no tag matches the pattern;
   * otherwise it is a matching tag of the listing and no matching tag is
   * greater.
   */
  lemma LatestMeaning(names: seq<string>)
    ensures Latest(names).None? <==> forall x | x in names :: !Calver(x)
    ensures Latest(names).Some? ==>
      var v := Latest(names).value;
      Calver(v) && v in names && forall x | x in names && Calver(x) :: !Less(v, x)
  {
    FilterExact(names, Calver);
    GreatestSpec(Filter(names, Calver));
  }

  /** The order `sort(reverse=True)` sorts by. */
  predicate Greater(a: string, b: string) { Less(b, a) }

  lemma GreaterOrder()
    ensures StrictTotalOrder(Greater)
  {
    forall a ensures !Greater(a, a) { LessIrreflexive(a); }
    forall a, b, c | Greater(a, b) && Greater(b, c) ensures Greater(a, c) { LessTransitive(c, b, a); }
    forall a, b | a != b ensures Greater(a, b) || Greater(b, a) { LessTotal(a, b); }
  }

  /**
   * `get_latest_calver_tag` on a fetched listing: the matching tags are
   * sorted in descending order and the first is taken.
   */
  method LatestCalverTag(names: seq<string>) returns (r: Option<string>)
    ensures r == Latest(names)
  {
    var calverTags := Filter(names, Calver);
    if calverTags == [] {
      return None;
    }
    calverTags := InsertionSort(calverTags, Greater);
    GreaterOrder();
    InsertionSortSorted(Filter(names, Calver), Greater);
    GreatestSpec(Filter(names, Calver));
    var v := Greatest(Filter(names, Calver)).value;
    assert calverTags[0] in multiset(Filter(names, Calver));
    assert v in multiset(calverTags);
    r := Some(calverTags[0]);
  }

  /** `all_repos_same_tag`: every tag equals every other, which holds for no tags at all. */
  function AllSame(tags: seq<string>): (r: bool)
    ensures r <==> forall i, j :: 0 <= i < |tags| && 0 <= j < |tags| ==> tags[i] == tags[j]
    ensures tags == [] ==> r
  {
    forall i :: 0 <= i < |tags| ==> tags[i] == tags[0]
  }

  // ---------------------------------------------------------------------------
  // The platforms of an image manifest
  // ---------------------------------------------------------------------------

  /** Python's `sub in s` on strings. */
  predicate Contains(s: string, sub: string)
    decreases |s|
  {
    StartsWith(s, sub) || (s != [] && Contains(s[1..], sub))
  }

  /** What the set comprehension takes from one manifest entry. */
  datatype Platform = NoPlatform | Platform(arch: Option<Json>)

  /** A decoded value that can be put into a Python set: lists and dictionaries cannot. */
  predicate Hashable(j: Json) {
    !j.JArr? && !j.JObj?
  }

  /** The entry's `platform` is an object, so `.get("architecture")` is reached. */
  predicate HasPlatformObject(m: Json) {
    m.JObj? && "platform" in m.fields && m.fields["platform"].JObj?
  }

  /**
   * One entry `m` of `manifests`: skipped unless `"platform" in m`, and
   * otherwise `m.get("platform", {}).get("architecture")`, which the set
   * comprehension then hashes. Only a JSON object has `get`, membership in
   * a number, a boolean or null raises, and hashing a list or dictionary
   * raises `TypeError`.
   */
  function PlatformOf(m: Json): (r: Result<Platform>)
    ensures r == Ok(NoPlatform) <==>
      || (m.JObj? && "platform" !in m.fields)
      || (m.JArr? && JStr("platform") !in m.items)
      || (m.JStr? && !Contains(m.s, "platform"))
    ensures forall a :: r == Ok(Platform(Some(a))) <==>
      HasPlatformObject(m) && Get(m.fields["platform"], "architecture") == Some(a) && Hashable(a)
    ensures r == Ok(Platform(None)) <==> HasPlatformObject(m) && "architecture" !in m.fields["platform"].fields
    ensures HasPlatformObject(m) ==>
      (r.Err? <==> exists a :: Get(m.fields["platform"], "architecture") == Some(a) && !Hashable(a))
    ensures r.Err? ==> r.error == (if HasPlatformObject(m) || !(m.JObj? || m.JArr? || m.JStr?) then TypeError else AttributeError)
  {
    match m
    case JObj(f) =>
      if "platform" !in f then Ok(NoPlatform)
      else if f["platform"].JObj? then
        var arch := Get(f["platform"], "architecture");
        if arch.Some? && !Hashable(arch.value) then Err(TypeError) else Ok(Platform(arch))
      else Err(AttributeError)
    case JArr(items) => if JStr("platform") in items then Err(AttributeError) else Ok(NoPlatform)
    case JStr(s) => if Contains(s, "platform") then Err(AttributeError) else Ok(NoPlatform)
    case _ => Err(TypeError)
  }

  /** The set comprehension over a list of entries; the first entry that raises ends it. */
  function Platforms(items: seq<Json>): Result<set<Option<Json>>>
    decreases |items|
  {
    if items == [] then Ok({})
    else
      match Platforms(items[..|items| - 1])
      case Err(e) => Err(e)
      case Ok(p) =>
        match PlatformOf(items[|items| - 1])
        case Err(e) => Err(e)
        case Ok(NoPlatform) => Ok(p)
        case Ok(Platform(a)) => Ok(p + {a})
  }

  /** A platform is in the set exactly when some entry names it as its architecture. */
  lemma {:induction false} PlatformsMember(items: seq<Json>, a: Json)
    requires Platforms(items).Ok?
    ensures Some(a) in Platforms(items).value <==> exists i :: 0 <= i < |items| && PlatformOf(items[i]) == Ok(Platform(Some(a)))
    decreases |items|
  {
    if items != [] {
      var pre := items[..|items| - 1];
      PlatformsMember(pre, a);
      assert forall i :: 0 <= i < |pre| ==> pre[i] == items[i];
      if exists i :: 0 <= i < |items| && PlatformOf(items[i]) == Ok(Platform(Some(a))) {
        var i :| 0 <= i < |items| && PlatformOf(items[i]) == Ok(Platform(Some(a)));
        if i < |pre| {
          assert PlatformOf(pre[i]) == Ok(Platform(Some(a)));
        }
      }
    }
  }

  /**
   * Iterating over `manifest.get("manifests", [])`: a list yields its
   * entries; an object yields its keys, which are strings and raise when
   * they contain "platform"; the characters of a string never contain it;
   * anything else is not iterable.
   */
  function ManifestPlatforms(manifest: Json): Result<set<Option<Json>>>
    requires manifest.JObj?
  {
    var ms := if "manifests" in manifest.fields then manifest.fields["manifests"] else JArr([]);
    match ms
    case JArr(items) => Platforms(items)
    case JObj(f) => if exists k | k in f :: Contains(k, "platform") then Err(AttributeError) else Ok({})
    case JStr(_) => Ok({})
    case _ => Err(TypeError)
  }

  /** The two architectures a release image must be published for. */
  predicate BothArchitectures(p: set<Option<Json>>) {
    Some(JStr("amd64")) in p && Some(JStr("arm64")) in p
  }

  /**
   * `docker_image_tag_exists` given the outcome of fetching and decoding
   * the manifest (`None` when `oras` or `json.loads` failed). What follows
   * the `try` block is not guarded, so a malformed manifest raises.
   */
  function ImageExists(fetched: Option<Json>): (r: Result<bool>)
    ensures fetched.None? ==> r == Ok(false)
    ensures fetched.Some? && !fetched.value.JObj? ==> r == Err(AttributeError)
    ensures fetched.Some? && fetched.value.JObj? && "manifests" !in fetched.value.fields ==> r == Ok(false)
  {
    match fetched
    case None => Ok(false)
    case Some(manifest) =>
      if !manifest.JObj? then Err(AttributeError)
      else
        match ManifestPlatforms(manifest)
        case Err(e) => Err(e)
        case Ok(p) => Ok(BothArchitectures(p))
  }

  /**
   * For a manifest whose `manifests` is a list the comprehension passes,
   * the image is present exactly when some entry declares amd64 and some
   * entry declares arm64.
   */
  lemma ImagePresent(fields: map<string, Json>, items: seq<Json>)
    requires "manifests" in fields && fields["manifests"] == JArr(items)
    requires Platforms(items).Ok?
    ensures ImageExists(Some(JObj(fields))) == Ok(
      && (exists i :: 0 <= i < |items| && PlatformOf(items[i]) == Ok(Platform(Some(JStr("amd64")))))
      && (exists i :: 0 <= i < |items| && PlatformOf(items[i]) == Ok(Platform(Some(JStr("arm64"))))))
  {
    var p := Platforms(items).value;
    PlatformsMember(items, JStr("amd64"));
    PlatformsMember(items, JStr("arm64"));
    assert ManifestPlatforms(JObj(fields)) == Ok(p);
  }

  /** When the comprehension raises on some entry, so does `docker_image_tag_exists`, with that error. */
  lemma ImageRaises(fields: map<string, Json>, items: seq<Json>)
    requires "manifests" in fields && fields["manifests"] == JArr(items)
    requires Platforms(items).Err?
    ensures ImageExists(Some(JObj(fields))) == Err(Platforms(items).error)
  {
  }

  /** An entry whose architecture is a list makes the check raise, even beside amd64 and arm64 entries. */
  lemma UnhashableRaises()
    ensures var arch := (a: Json) => JObj(map["platform" := JObj(map["architecture" := a])]);
      ImageExists(Some(JObj(map["manifests" := JArr([arch(JStr("amd64")), arch(JStr("arm64")), arch(JArr([]))])]))) == Err(TypeError)
  {
    var arch := (a: Json) => JObj(map["platform" := JObj(map["architecture" := a])]);
    var items := [arch(JStr("amd64")), arch(JStr("arm64")), arch(JArr([]))];
    assert items[..1][..0] == [];
    assert Platforms(items[..1]).Ok?;
    assert items[..2][..1] == items[..1];
    assert Platforms(items[..2]).Ok?;
    assert PlatformOf(items[2]) == Err(TypeError);
  }

  // ---------------------------------------------------------------------------
  // Image references
  // ---------------------------------------------------------------------------

  /** The position of the last `c` in `s`, if any. */
  function LastIndex(s: string, c: char): (r: Option<nat>)
    ensures r.None? ==> forall k :: 0 <= k < |s| ==> s[k] != c
    ensures r.Some? ==> r.value < |s| && s[r.value] == c && forall k :: r.value < k < |s| ==> s[k] != c
    decreases |s|
  {
    if s == [] then None
    else if s[|s| - 1] == c then Some(|s| - 1)
    else LastIndex(s[..|s| - 1], c)
  }

  /**
   * `image_name, tag = image.rsplit(':', 1)`: the text before and after the
   * last colon; without a colon the unpacking raises `ValueError`.
   */
  function RSplitColon(s: string): (r: Result<(string, string)>)
    ensures r.Err? <==> forall k :: 0 <= k < |s| ==> s[k] != ':'
    ensures r.Err? ==> r.error == ValueError
    ensures r.Ok? ==> r.value.0 + ":" + r.value.1 == s && forall k :: 0 <= k < |r.value.1| ==> r.value.1[k] != ':'
  {
    match LastIndex(s, ':')
    case None => Err(ValueError)
    case Some(i) =>
      assert s[..i] + ":" + s[i + 1..] == s;
      Ok((s[..i], s[i + 1..]))
  }

  /** A reference built as name, colon, colon-free tag splits back into that name and tag. */
  lemma SplitImage(name: string, tag: string)
    requires forall k :: 0 <= k < |tag| ==> tag[k] != ':'
    ensures RSplitColon(name + ":" + tag) == Ok((name, tag))
  {
    var s := name + ":" + tag;
    assert s[|name|] == ':';
    var r := RSplitColon(s).value;
    assert |r.1| == |tag|;
    assert r.1 == s[|s| - |tag|..] == tag;
    assert r.0 == s[..|name|] == name;
  }

  // ---------------------------------------------------------------------------
  // The whole check
  // ---------------------------------------------------------------------------

  /** The tag listing of a repository: its tag names, or the failure `github_get` raises. */
  type Listing = string -> Result<seq<string>>

  /** The manifest of an image and tag, `None` when fetching or decoding it failed. */
  type Registry = (string, string) -> Option<Json>

  /** The latest tag of every repository in `repos`, or `None` when a listing fails or has none. */
  function LatestTags(repos: seq<string>, listing: Listing): (r: Option<seq<string>>)
    ensures r.Some? ==> |r.value| == |repos|
    decreases |repos|
  {
    if repos == [] then Some([])
    else
      match LatestTags(repos[..|repos| - 1], listing)
      case None => None
      case Some(ts) =>
        var l := listing(repos[|repos| - 1]);
        if l.Err? || Latest(l.value).None? then None
        else Some(ts + [Latest(l.value).value])
  }

  lemma {:induction false} LatestTagsMeaning(repos: seq<string>, listing: Listing)
    ensures LatestTags(repos, listing).Some? <==>
      forall i :: 0 <= i < |repos| ==> listing(repos[i]).Ok? && Latest(listing(repos[i]).value).Some?
    ensures LatestTags(repos, listing).Some? ==>
      forall i :: 0 <= i < |repos| ==> LatestTags(repos, listing).value[i] == Latest(listing(repos[i]).value).value
    decreases |repos|
  {
    if repos != [] {
      var pre := repos[..|repos| - 1];
      LatestTagsMeaning(pre, listing);
      assert forall i :: 0 <= i < |pre| ==> pre[i] == repos[i];
    }
  }

  /** The version the check is about: the argument, or the common latest tag of the repositories. */
  function Chosen(argv: seq<string>, listing: Listing): Option<string> {
    if |argv| > 1 then
      if Calver(argv[1]) then Some(argv[1]) else None
    else
      match LatestTags(Repos, listing)
      case None => None
      case Some(ts) => if AllSame(ts) then Some(ts[0]) else None
  }

  /** Whether every repository's listing holds `v`; a failed listing raises, which ends the check too. */
  predicate AllHaveTag(listing: Listing, v: string) {
    forall i :: 0 <= i < |Repos| ==> listing(Repos[i]).Ok? && v in listing(Repos[i]).value
  }

  /** The image loop over `prefixes`: whether every image exists, or the exception that ends it. */
  function ImagesExist(prefixes: seq<string>, v: string, registry: Registry): Result<bool>
    decreases |prefixes|
  {
    if prefixes == [] then Ok(true)
    else
      match ImagesExist(prefixes[..|prefixes| - 1], v, registry)
      case Err(e) => Err(e)
      case Ok(all) =>
        match ImageResult(prefixes[|prefixes| - 1], v, registry)
        case Err(e) => Err(e)
        case Ok(b) => Ok(all && b)
  }

  /** One pass of the image loop: split the reference built from `prefix`, then look the image up. */
  function ImageResult(prefix: string, v: string, registry: Registry): Result<bool> {
    match RSplitColon(prefix + v)
    case Err(e) => Err(e)
    case Ok(nt) => ImageExists(registry(nt.0, nt.1))
  }

  /** The exit status of the script; an uncaught exception exits with 1. */
  function Status(argv: seq<string>, listing: Listing, registry: Registry): int {
    match Chosen(argv, listing)
    case None => 1
    case Some(v) =>
      if !AllHaveTag(listing, v) then 1
      else
        match ImagesExist(ImagePrefixes, v, registry)
        case Err(_) => 1
        case Ok(b) => if b then 0 else 2
  }

  /** The checked version always matches the pattern; without an argument it is every repository's latest tag. */
  lemma ChosenMeaning(argv: seq<string>, listing: Listing)
    ensures Chosen(argv, listing).Some? ==> Calver(Chosen(argv, listing).value)
    ensures |argv| > 1 ==> (Chosen(argv, listing).Some? <==> Calver(argv[1]))
    ensures |argv| <= 1 ==> forall v :: Chosen(argv, listing) == Some(v) <==>
      forall i :: 0 <= i < |Repos| ==> listing(Repos[i]).Ok? && Latest(listing(Repos[i]).value) == Some(v)
  {
    LatestTagsMeaning(Repos, listing);
    var r := LatestTags(Repos, listing);
    if |argv| <= 1 && r.Some? {
      LatestMeaning(listing(Repos[0]).value);
    }
  }

  /**
   * The exit status is 0 when the version is settled, every repository has
   * it and every image is present; 2 when only images are missing; and 1
   * for a malformed version, a repository without a calendar-version tag,
   * disagreeing latest tags, a repository without the version, or any
   * exception.
   */
  lemma StatusMeaning(argv: seq<string>, listing: Listing, registry: Registry)
    ensures var s := Status(argv, listing, registry);
      s == 0 || s == 1 || s == 2
    ensures Status(argv, listing, registry) == 0 <==>
      Chosen(argv, listing).Some? && AllHaveTag(listing, Chosen(argv, listing).value)
      && ImagesExist(ImagePrefixes, Chosen(argv, listing).value, registry) == Ok(true)
    ensures Status(argv, listing, registry) == 2 <==>
      Chosen(argv, listing).Some? && AllHaveTag(listing, Chosen(argv, listing).value)
      && ImagesExist(ImagePrefixes, Chosen(argv, listing).value, registry) == Ok(false)
    ensures |argv| > 1 && !Calver(argv[1]) ==> Status(argv, listing, registry) == 1
    ensures |argv| <= 1 && (exists i :: 0 <= i < |Repos| && (listing(Repos[i]).Err? || Latest(listing(Repos[i]).value).None?))
      ==> Status(argv, listing, registry) == 1
  {
    LatestTagsMeaning(Repos, listing);
  }

  /** The image built from `prefix` splits, and its manifest lists both architectures. */
  predicate ImageOk(prefix: string, v: string, registry: Registry) {
    ImageResult(prefix, v, registry) == Ok(true)
  }

  /**
   * The image loop finishes without an exception and reports every image
   * present exactly when each split succeeds and each manifest lists both
   * architectures.
   */
  lemma {:induction false} ImagesExistMeaning(prefixes: seq<string>, v: string, registry: Registry)
    ensures ImagesExist(prefixes, v, registry) == Ok(true) <==>
      forall i :: 0 <= i < |prefixes| ==> ImageOk(prefixes[i], v, registry)
    decreases |prefixes|
  {
    if prefixes != [] {
      var pre := prefixes[..|prefixes| - 1];
      ImagesExistMeaning(pre, v, registry);
      assert forall i :: 0 <= i < |pre| ==> pre[i] == prefixes[i];
    }
  }

  /** `docker_image_tag_exists(image, tag)`, with the registry's answer for that image. */
  method DockerImageTagExists(image: string, tag: string, registry: Registry) returns (r: Result<bool>)
    ensures r == ImageExists(registry(image, tag))
  {
    var fetched := registry(image, tag);
    if fetched.None? {
      return Ok(false);
    }
    var manifest := fetched.value;
    if !manifest.JObj? {
      return Err(AttributeError);
    }
    var platforms := ManifestPlatforms(manifest);
    if platforms.Err? {
      return Err(platforms.error);
    }
    r := Ok(BothArchitectures(platforms.value));
  }

  /**
   * The first part of `main`: the argument when it is given and matches the
   * pattern, otherwise the latest tags of all repositories when they agree.
   * `None` stands for the `sys.exit(1)` calls on that path.
   */
  method ChooseVersion(argv: seq<string>, listing: Listing) returns (version: Option<string>)
    ensures version == Chosen(argv, listing)
  {
    if |argv| > 1 {
      if !Calver(argv[1]) {
        return None;
      }
      return Some(argv[1]);
    }
    var tags: seq<string> := [];
    for i := 0 to |Repos|
      invariant LatestTags(Repos[..i], listing) == Some(tags)
    {
      assert Repos[..i + 1][..i] == Repos[..i];
      var l := listing(Repos[i]);
      if l.Err? {
        LatestTagsNone(Repos, listing, i + 1);
        return None;
      }
      var tag := LatestCalverTag(l.value);
      if tag.None? {
        LatestTagsNone(Repos, listing, i + 1);
        return None;
      }
      tags := tags + [tag.value];
    }
    assert Repos[..|Repos|] == Repos;
    if !AllSame(tags) {
      return None;
    }
    version := Some(tags[0]);
  }

  /** The image loop of `main` over the templates: whether every image exists, or the exception that ends the script. */
  method CheckImages(templates: seq<string>, version: string, registry: Registry) returns (r: Result<bool>)
    ensures r == ImagesExist(templates, version, registry)
  {
    var allExist := true;
    for i := 0 to |templates|
      invariant ImagesExist(templates[..i], version, registry) == Ok(allExist)
    {
      assert templates[..i + 1][..i] == templates[..i];
      var image := templates[i] + version;
      var split := RSplitColon(image);
      if split.Err? {
        assert ImagesExist(templates[..i + 1], version, registry) == Err(split.error);
        ImagesExistErr(templates, version, registry, i + 1);
        return Err(split.error);
      }
      var present := DockerImageTagExists(split.value.0, split.value.1, registry);
      assert present == ImageResult(templates[i], version, registry);
      if present.Err? {
        assert ImagesExist(templates[..i + 1], version, registry) == Err(present.error);
        ImagesExistErr(templates, version, registry, i + 1);
        return Err(present.error);
      }
      if !present.value {
        allExist := false;
      }
    }
    assert templates[..|templates|] == templates;
    r := Ok(allExist);
  }

  /** `main`: the version, the tag check over every repository, the image loop, and the exit status. */
  method CheckRelease(argv: seq<string>, listing: Listing, registry: Registry) returns (status: int)
    ensures status == Status(argv, listing, registry)
  {
    var version := ChooseVersion(argv, listing);
    if version.None? {
      return 1;
    }
    for i := 0 to |Repos|
      invariant forall j :: 0 <= j < i ==> listing(Repos[j]).Ok? && version.value in listing(Repos[j]).value
    {
      var l := listing(Repos[i]);
      if l.Err? || version.value !in l.value {
        return 1;
      }
    }
    var allExist := CheckImages(ImagePrefixes, version.value, registry);
    if allExist.Err? {
      return 1;
    }
    status := if allExist.value then 0 else 2;
  }

  /** A repository that fails leaves the remaining ones without a result. */
  lemma {:induction false} LatestTagsNone(repos: seq<string>, listing: Listing, n: nat)
    requires 0 < n <= |repos|
    requires LatestTags(repos[..n], listing).None?
    ensures LatestTags(repos, listing).None?
    decreases |repos| - n
  {
    if n < |repos| {
      assert repos[..n + 1][..n] == repos[..n];
      LatestTagsNone(repos, listing, n + 1);
    } else {
      assert repos[..n] == repos;
    }
  }

  /** An exception in the image loop ends the whole loop with it. */
  lemma {:induction false} ImagesExistErr(prefixes: seq<string>, v: string, registry: Registry, n: nat)
    requires 0 < n <= |prefixes|
    requires ImagesExist(prefixes[..n], v, registry).Err?
    ensures ImagesExist(prefixes, v, registry) == ImagesExist(prefixes[..n], v, registry)
    decreases |prefixes| - n
  {
    if n < |prefixes| {
      assert prefixes[..n + 1][..n] == prefixes[..n];
      assert ImagesExist(prefixes[..n + 1], v, registry) == ImagesExist(prefixes[..n], v, registry);
      ImagesExistErr(prefixes, v, registry, n + 1);
    } else {
      assert prefixes[..n] == prefixes;
    }
  }
}
