/**
 * The release helper that pins image references: every `:latest` tag of
 * an image reference in the deployment files is replaced with the release
 * tag. The rewrite is `re.subn` with a pattern of the form
 * `(<prefix>[^:]+):latest\b`; the files are a map from path to content and
 * the directory walk is an input.
 */
module ImageTags {
  import opened Wrappers
  import opened Text
  import opened Sorting

  // ---------------------------------------------------------------------------
  // The rewrite
  // ---------------------------------------------------------------------------

  /**
   * The three patterns: `(image:\s*[^:]+):latest\b`,
   * `(--image=[^:]+):latest\b` and `(ghcr\.io/gardenlinux/[^:]+):latest\b`.
   * In the first, `\s*` followed by `[^:]+` matches exactly the non-empty
   * colon-free runs, white space being colon-free, so all three are a
   * literal prefix followed by a non-empty colon-free run.
   */
  datatype Pattern = ImageKey | ImageFlag | GardenlinuxRegistry

  function Prefix(p: Pattern): string {
    match p
    case ImageKey => "image:"
    case ImageFlag => "--image="
    case GardenlinuxRegistry => "ghcr.io/gardenlinux/"
  }

  const Latest: string := ":latest"

  /** A word character of `\b`: an ASCII letter, digit or underscore. */
  predicate WordChar(c: char) {
    ('a' <= c <= 'z') || ('A' <= c <= 'Z') || ('0' <= c <= '9') || c == '_'
  }

  /** The end of the colon-free run that starts at `i`. */
  function RunEnd(t: string, i: nat): (e: nat)
    requires i <= |t|
    ensures i <= e <= |t|
    ensures forall k :: i <= k < e ==> t[k] != ':'
    ensures e < |t| ==> t[e] == ':'
    decreases |t| - i
  {
    if i == |t| || t[i] == ':' then i else RunEnd(t, i + 1)
  }

  /**
   * Where a match that starts at `t[0]` ends: the prefix, the longest
   * colon-free run after it (a shorter run would be followed by a
   * character other than the colon), then `:latest` not followed by a word
   * character. `[^:]+` backtracking to a shorter run can never help, as the
   * character after a shorter run is not a colon.
   */
  function MatchEnd(t: string, p: Pattern): (r: Option<nat>)
    ensures r.Some? ==> |Prefix(p)| < r.value - |Latest| && r.value <= |t|
    ensures r.Some? ==> StartsWith(t, Prefix(p)) && t[r.value - |Latest|..r.value] == Latest
    ensures r.Some? ==> forall k :: |Prefix(p)| <= k < r.value - |Latest| ==> t[k] != ':'
    ensures r.Some? ==> r.value == |t| || !WordChar(t[r.value])
  {
    var n := |Prefix(p)|;
    if !StartsWith(t, Prefix(p)) then None
    else
      var e := RunEnd(t, n);
      if e > n && StartsWith(t[e..], Latest) && (e + 7 == |t| || !WordChar(t[e + 7])) then Some(e + 7) else None
  }

  /**
   * `re.subn(pattern, r"\1:" + tag, t)` for a tag without backslashes: the
   * text scanned from the left, each match replaced by its group, a colon
   * and the tag, and scanning resumed after it; with the number of
   * replacements.
   */
  function Subn(t: string, p: Pattern, tag: string): (r: (string, nat))
    ensures r.1 == 0 ==> r.0 == t
    decreases |t|
  {
    if t == [] then ([], 0)
    else
      match MatchEnd(t, p)
      case Some(e) =>
        var rest := Subn(t[e..], p, tag);
        (t[..e - |Latest|] + ":" + tag + rest.0, rest.1 + 1)
      case None =>
        var rest := Subn(t[1..], p, tag);
        assert rest.1 == 0 ==> [t[0]] + t[1..] == t;
        ([t[0]] + rest.0, rest.1)
  }

  /** The tag `\1:` + tag is a plain replacement for: no backslash. */
  predicate PlainTag(tag: string) { forall k :: 0 <= k < |tag| ==> tag[k] != '\\' }

  /** Nothing is replaced exactly when the pattern matches at no position of the text. */
  lemma {:induction false} SubnNone(t: string, p: Pattern, tag: string)
    ensures Subn(t, p, tag).1 == 0 <==> forall k :: 0 <= k < |t| ==> MatchEnd(t[k..], p).None?
    decreases |t|
  {
    if t != [] {
      SubnNone(t[1..], p, tag);
      assert forall k :: 1 <= k < |t| ==> t[k..] == t[1..][k - 1..];
      if MatchEnd(t, p).None? {
        forall k | 0 <= k < |t[1..]| && MatchEnd(t[1..][k..], p).Some? ensures MatchEnd(t[k + 1..], p).Some? {
          assert t[k + 1..] == t[1..][k..];
        }
      }
      assert t[0..] == t;
    }
  }

  /** The run that starts at `i` ends at the first colon. */
  lemma {:induction false} RunEndAt(t: string, i: nat, e: nat)
    requires i <= e < |t| && t[e] == ':'
    requires forall k :: i <= k < e ==> t[k] != ':'
    ensures RunEnd(t, i) == e
    decreases e - i
  {
    if i < e {
      RunEndAt(t, i + 1, e);
    }
  }

  /** A match at the start, given by the positions of its parts. */
  lemma MatchAt(t: string, p: Pattern, e: nat)
    requires StartsWith(t, Prefix(p)) && |Prefix(p)| < e && e + |Latest| <= |t|
    requires forall k :: |Prefix(p)| <= k < e ==> t[k] != ':'
    requires t[e..e + |Latest|] == Latest
    requires e + |Latest| == |t| || !WordChar(t[e + |Latest|])
    ensures MatchEnd(t, p) == Some(e + |Latest|)
  {
    assert t[e] == t[e..e + |Latest|][0];
    RunEndAt(t, |Prefix(p)|, e);
    assert t[e..][..|Latest|] == t[e..e + |Latest|];
  }

  /**
   * A reference made of the prefix, a non-empty colon-free run and
   * `:latest`, followed by the end or a character that is not a word
   * character, becomes the prefix, the run, a colon and the tag; the rest
   * of the text is rewritten on its own.
   */
  lemma PinOne(p: Pattern, run: string, tag: string, rest: string)
    requires run != [] && forall k :: 0 <= k < |run| ==> run[k] != ':'
    requires rest == [] || !WordChar(rest[0])
    ensures var t := Prefix(p) + (run + (Latest + rest));
      Subn(t, p, tag) == (Prefix(p) + run + ":" + tag + Subn(rest, p, tag).0, Subn(rest, p, tag).1 + 1)
  {
    var t := Prefix(p) + (run + (Latest + rest));
    var e := |Prefix(p)| + |run|;
    Parts(Prefix(p), run, Latest + rest);
    Parts(Latest, rest, []);
    assert t[e..e + |Latest|] == Latest;
    assert e + |Latest| < |t| ==> t[e + |Latest|] == rest[0];
    assert t[..e] == Prefix(p) + run && t[e + |Latest|..] == rest;
    MatchAt(t, p, e);
    PinStep(t, p, tag, e, Prefix(p) + run, rest);
  }

  /** The pieces of `a + (b + c)`. */
  lemma Parts<T>(a: seq<T>, b: seq<T>, c: seq<T>)
    ensures var s := a + (b + c);
      && s[..|a|] == a && s[..|a| + |b|] == a + b && s[|a| + |b|..] == c
      && (forall k :: |a| <= k < |a| + |b| ==> s[k] == b[k - |a|])
      && s[|a|..] == b + c
  {
  }

  /** One replacement at the start of the text, whose group is `group` and whose remainder is `rest`. */
  lemma PinStep(t: string, p: Pattern, tag: string, e: nat, group: string, rest: string)
    requires MatchEnd(t, p) == Some(e + |Latest|)
    requires t[..e] == group && t[e + |Latest|..] == rest
    ensures Subn(t, p, tag) == (group + ":" + tag + Subn(rest, p, tag).0, Subn(rest, p, tag).1 + 1)
  {
    SubnMatch(t, p, tag);
  }

  /** `Subn` at a text the pattern matches at its start. */
  lemma SubnMatch(t: string, p: Pattern, tag: string)
    requires MatchEnd(t, p).Some?
    ensures var m := MatchEnd(t, p).value;
      Subn(t, p, tag) == (t[..m - |Latest|] + ":" + tag + Subn(t[m..], p, tag).0, Subn(t[m..], p, tag).1 + 1)
  {
    assert t != [];
  }

  /** A `:latest` followed by a word character, as in `:latest2`, is not matched. */
  lemma KeepsLongerTag(p: Pattern, run: string, c: char, rest: string)
    requires forall k :: 0 <= k < |run| ==> run[k] != ':'
    requires WordChar(c)
    ensures MatchEnd(Prefix(p) + (run + (Latest + ([c] + rest))), p).None?
  {
    var u := Latest + ([c] + rest);
    var t := Prefix(p) + (run + u);
    var e := |Prefix(p)| + |run|;
    Parts(Prefix(p), run, u);
    assert t[e..] == u;
    assert t[e] == u[0] == ':';
    RunEndAt(t, |Prefix(p)|, e);
    assert t[e + |Latest|] == u[|Latest|] == c;
  }

  // ---------------------------------------------------------------------------
  // Files
  // ---------------------------------------------------------------------------

  /** The contents after `update_file`: written back only when something was replaced. */
  function Rewritten(files: map<string, string>, path: string, p: Pattern, tag: string): (r: map<string, string>)
    requires path in files
    ensures r.Keys == files.Keys
    ensures r[path] == Subn(files[path], p, tag).0
    ensures forall q :: q in files && q != path ==> r[q] == files[q]
  {
    var s := Subn(files[path], p, tag);
    if s.1 > 0 then files[path := s.0] else files
  }

  /** `update_file` on each path in turn. */
  function RewriteAll(files: map<string, string>, paths: seq<string>, p: Pattern, tag: string): (r: map<string, string>)
    requires forall i :: 0 <= i < |paths| ==> paths[i] in files
    ensures r.Keys == files.Keys
    decreases |paths|
  {
    if paths == [] then files
    else
      var pre := RewriteAll(files, paths[..|paths| - 1], p, tag);
      Rewritten(pre, paths[|paths| - 1], p, tag)
  }

  /** With distinct paths each listed file is rewritten once and every other file is kept. */
  lemma {:induction false} RewriteAllMeaning(files: map<string, string>, paths: seq<string>, p: Pattern, tag: string)
    requires forall i :: 0 <= i < |paths| ==> paths[i] in files
    requires forall i, j :: 0 <= i < j < |paths| ==> paths[i] != paths[j]
    ensures forall i :: 0 <= i < |paths| ==> RewriteAll(files, paths, p, tag)[paths[i]] == Subn(files[paths[i]], p, tag).0
    ensures forall q :: q in files && q !in paths ==> RewriteAll(files, paths, p, tag)[q] == files[q]
    decreases |paths|
  {
    if paths != [] {
      var pre := paths[..|paths| - 1];
      RewriteAllMeaning(files, pre, p, tag);
      assert forall i :: 0 <= i < |pre| ==> pre[i] == paths[i];
    }
  }

  /** The file system the script sees: each file's path and content. */
  class Files {
    var files: map<string, string>

    constructor (files: map<string, string>)
      ensures this.files == files
    {
      this.files := files;
    }

    /** `update_file`: rewrite the file's content and write it back when some reference changed. */
    method UpdateFile(path: string, p: Pattern, tag: string) returns (count: nat)
      requires path in files
      modifies this
      ensures count == Subn(old(files)[path], p, tag).1
      ensures files == Rewritten(old(files), path, p, tag)
      ensures count == 0 ==> files == old(files)
    {
      var content := files[path];
      var newContent: string;
      newContent, count := Subn(content, p, tag).0, Subn(content, p, tag).1;
      if count > 0 {
        files := files[path := newContent];
      }
    }

    /** `update_deployment_script` and `update_start_glvd_script`: the rewrite of a script, when it exists. */
    method UpdateScript(path: string, p: Pattern, tag: string)
      modifies this
      ensures files == IfExists(old(files), path, p, tag)
    {
      if path in files {
        var _ := UpdateFile(path, p, tag);
      }
    }

    /** The files of the walk in order, each rewritten with the `image:` pattern. */
    method UpdateYamlFiles(paths: seq<string>, tag: string)
      requires forall i :: 0 <= i < |paths| ==> paths[i] in files
      modifies this
      ensures files == RewriteAll(old(files), paths, ImageKey, tag)
    {
      ghost var files0 := files;
      for i := 0 to |paths|
        invariant files == RewriteAll(files0, paths[..i], ImageKey, tag)
      {
        assert paths[..i + 1][..i] == paths[..i];
        var _ := UpdateFile(paths[i], ImageKey, tag);
      }
      assert paths[..|paths|] == paths;
    }
  }

  /** The rewrite of a file that may be missing: a missing file is skipped. */
  function IfExists(files: map<string, string>, path: string, p: Pattern, tag: string): (r: map<string, string>)
    ensures r.Keys == files.Keys
  {
    if path in files then Rewritten(files, path, p, tag) else files
  }

  // ---------------------------------------------------------------------------
  // The directory walk
  // ---------------------------------------------------------------------------

  /** `os.path.join(root, name)` for a relative name. */
  function PathJoin(root: string, name: string): string {
    if root == [] || EndsWith(root, "/") then root + name else root + "/" + name
  }

  /** One step of `os.walk`: a directory and the names of the files in it. */
  type WalkStep = (string, seq<string>)

  /** The `.yaml` files of one directory, in listing order. */
  function YamlIn(root: string, names: seq<string>): (r: seq<string>)
    ensures |r| <= |names|
    decreases |names|
  {
    if names == [] then []
    else
      var pre := YamlIn(root, names[..|names| - 1]);
      var name := names[|names| - 1];
      if EndsWith(name, ".yaml") then pre + [PathJoin(root, name)] else pre
  }

  /** What `find_yaml_files` yields for a walk. */
  function YamlPaths(walk: seq<WalkStep>): seq<string>
    decreases |walk|
  {
    if walk == [] then [] else YamlPaths(walk[..|walk| - 1]) + YamlIn(walk[|walk| - 1].0, walk[|walk| - 1].1)
  }

  lemma {:induction false} YamlInExact(root: string, names: seq<string>)
    ensures forall x :: x in YamlIn(root, names) <==> exists n :: n in names && EndsWith(n, ".yaml") && x == PathJoin(root, n)
    decreases |names|
  {
    if names != [] {
      var pre := names[..|names| - 1];
      YamlInExact(root, pre);
      assert names == pre + [names[|names| - 1]];
    }
  }

  /** The walk yields a path exactly when a walked directory lists a `.yaml` file under it. */
  lemma {:induction false} YamlPathsExact(walk: seq<WalkStep>)
    ensures forall x :: x in YamlPaths(walk) <==>
      exists i, n :: 0 <= i < |walk| && n in walk[i].1 && EndsWith(n, ".yaml") && x == PathJoin(walk[i].0, n)
    decreases |walk|
  {
    if walk != [] {
      var m := |walk| - 1;
      var pre := walk[..m];
      YamlPathsExact(pre);
      YamlInExact(walk[m].0, walk[m].1);
      assert forall i :: 0 <= i < m ==> pre[i] == walk[i];
      forall x | x in YamlPaths(walk)
        ensures exists i, n :: 0 <= i < |walk| && n in walk[i].1 && EndsWith(n, ".yaml") && x == PathJoin(walk[i].0, n)
      {
        if x in YamlPaths(pre) {
          var i, n :| 0 <= i < m && n in pre[i].1 && EndsWith(n, ".yaml") && x == PathJoin(pre[i].0, n);
          assert walk[i] == pre[i];
        } else {
          assert x in YamlIn(walk[m].0, walk[m].1);
        }
      }
      forall x, i, n | 0 <= i < |walk| && n in walk[i].1 && EndsWith(n, ".yaml") && x == PathJoin(walk[i].0, n)
        ensures x in YamlPaths(walk)
      {
        if i < m {
          assert pre[i] == walk[i];
          assert x in YamlPaths(pre);
        } else {
          assert x in YamlIn(walk[m].0, walk[m].1);
        }
      }
    }
  }

  /** `find_yaml_files`: the nested loops over the walk, collecting what the generator yields. */
  method FindYamlFiles(walk: seq<WalkStep>) returns (paths: seq<string>)
    ensures paths == YamlPaths(walk)
  {
    paths := [];
    for i := 0 to |walk|
      invariant paths == YamlPaths(walk[..i])
    {
      assert walk[..i + 1][..i] == walk[..i];
      var root := walk[i].0;
      var names := walk[i].1;
      ghost var before := paths;
      for j := 0 to |names|
        invariant paths == before + YamlIn(root, names[..j])
      {
        assert names[..j + 1][..j] == names[..j];
        if EndsWith(names[j], ".yaml") {
          paths := paths + [PathJoin(root, names[j])];
        }
      }
      assert names[..|names|] == names;
    }
    assert walk[..|walk|] == walk;
  }

  // ---------------------------------------------------------------------------
  // The script
  // ---------------------------------------------------------------------------

  const DeployScript: string := "deploy-k8s.sh"
  const StartScript: string := "deployment/podman/start-glvd.sh"

  /** The files after the three passes: the walked YAML files, the deploy script, the podman script. */
  function Pinned(files: map<string, string>, walk: seq<WalkStep>, tag: string): map<string, string>
    requires forall i :: 0 <= i < |YamlPaths(walk)| ==> YamlPaths(walk)[i] in files
  {
    var yaml := RewriteAll(files, YamlPaths(walk), ImageKey, tag);
    IfExists(IfExists(yaml, DeployScript, ImageFlag, tag), StartScript, GardenlinuxRegistry, tag)
  }

  /**
   * After the three passes, with the walk yielding each path once: a
   * walked YAML file holds its rewritten content, each script that exists
   * and is not also walked holds its own rewrite, and every other file is
   * as it was; no file is created or removed.
   */
  lemma PinnedMeaning(files: map<string, string>, walk: seq<WalkStep>, tag: string)
    requires forall i :: 0 <= i < |YamlPaths(walk)| ==> YamlPaths(walk)[i] in files
    requires forall i, j :: 0 <= i < j < |YamlPaths(walk)| ==> YamlPaths(walk)[i] != YamlPaths(walk)[j]
    ensures Pinned(files, walk, tag).Keys == files.Keys
    ensures forall x :: x in YamlPaths(walk) && x != DeployScript && x != StartScript ==>
      Pinned(files, walk, tag)[x] == Subn(files[x], ImageKey, tag).0
    ensures DeployScript in files && DeployScript !in YamlPaths(walk) ==>
      Pinned(files, walk, tag)[DeployScript] == Subn(files[DeployScript], ImageFlag, tag).0
    ensures StartScript in files && StartScript !in YamlPaths(walk) ==>
      Pinned(files, walk, tag)[StartScript] == Subn(files[StartScript], GardenlinuxRegistry, tag).0
    ensures forall q :: q in files && q !in YamlPaths(walk) && q != DeployScript && q != StartScript ==>
      Pinned(files, walk, tag)[q] == files[q]
  {
    var paths := YamlPaths(walk);
    RewriteAllMeaning(files, paths, ImageKey, tag);
    forall x | x in paths ensures RewriteAll(files, paths, ImageKey, tag)[x] == Subn(files[x], ImageKey, tag).0 {
      var i :| 0 <= i < |paths| && paths[i] == x;
    }
  }

  /**
   * `main`: without a tag argument it exits with 1 and changes nothing;
   * otherwise it pins the walked YAML files and the two scripts and exits
   * normally. The walk lists files of the file system.
   */
  method PinRelease(fs: Files, argv: seq<string>, walk: seq<WalkStep>) returns (status: int)
    requires forall x :: x in YamlPaths(walk) ==> x in fs.files
    requires |argv| >= 2 ==> PlainTag(argv[1])
    modifies fs
    ensures |argv| < 2 ==> status == 1 && fs.files == old(fs.files)
    ensures |argv| >= 2 ==> status == 0 && fs.files == Pinned(old(fs.files), walk, argv[1])
  {
    if |argv| < 2 {
      return 1;
    }
    var releaseTag := argv[1];
    var paths := FindYamlFiles(walk);
    fs.UpdateYamlFiles(paths, releaseTag);
    fs.UpdateScript(DeployScript, ImageFlag, releaseTag);
    fs.UpdateScript(StartScript, GardenlinuxRegistry, releaseTag);
    status := 0;
  }
}
