/**
 * The older top-level pinning script: the YAML files of the walk and the
 * deploy script, when it exists, both with the `image:` pattern. The
 * rewrite, the file system and the walk are those of the scripts'
 * version.
 */
module RootImageTags {
  import opened ImageTags

  /** The files after both passes: the walked YAML files, then the deploy script. */
  function RootPinned(files: map<string, string>, walk: seq<WalkStep>, tag: string): map<string, string>
    requires forall i :: 0 <= i < |YamlPaths(walk)| ==> YamlPaths(walk)[i] in files
  {
    IfExists(RewriteAll(files, YamlPaths(walk), ImageKey, tag), DeployScript, ImageKey, tag)
  }

  /**
   * With the walk yielding each path once: a walked YAML file holds its
   * rewritten content, the deploy script, when it exists and is not also
   * walked, holds its `image:` rewrite, and every other file is as it was.
   */
  lemma RootPinnedMeaning(files: map<string, string>, walk: seq<WalkStep>, tag: string)
    requires forall i :: 0 <= i < |YamlPaths(walk)| ==> YamlPaths(walk)[i] in files
    requires forall i, j :: 0 <= i < j < |YamlPaths(walk)| ==> YamlPaths(walk)[i] != YamlPaths(walk)[j]
    ensures RootPinned(files, walk, tag).Keys == files.Keys
    ensures forall x :: x in YamlPaths(walk) && x != DeployScript ==>
      RootPinned(files, walk, tag)[x] == Subn(files[x], ImageKey, tag).0
    ensures DeployScript in files && DeployScript !in YamlPaths(walk) ==>
      RootPinned(files, walk, tag)[DeployScript] == Subn(files[DeployScript], ImageKey, tag).0
    ensures forall q :: q in files && q !in YamlPaths(walk) && q != DeployScript ==>
      RootPinned(files, walk, tag)[q] == files[q]
  {
    var paths := YamlPaths(walk);
    RewriteAllMeaning(files, paths, ImageKey, tag);
    forall x | x in paths ensures RewriteAll(files, paths, ImageKey, tag)[x] == Subn(files[x], ImageKey, tag).0 {
      var i :| 0 <= i < |paths| && paths[i] == x;
    }
  }

  /**
   * `main`: without a tag argument it exits with 1 and changes nothing;
   * otherwise it pins the walked YAML files and the deploy script and
   * exits normally.
   */
  method PinRelease(fs: Files, argv: seq<string>, walk: seq<WalkStep>) returns (status: int)
    requires forall x :: x in YamlPaths(walk) ==> x in fs.files
    requires |argv| >= 2 ==> PlainTag(argv[1])
    modifies fs
    ensures |argv| < 2 ==> status == 1 && fs.files == old(fs.files)
    ensures |argv| >= 2 ==> status == 0 && fs.files == RootPinned(old(fs.files), walk, argv[1])
  {
    if |argv| < 2 {
      return 1;
    }
    var releaseTag := argv[1];
    var paths := FindYamlFiles(walk);
    fs.UpdateYamlFiles(paths, releaseTag);
    fs.UpdateScript(DeployScript, ImageKey, releaseTag);
    status := 0;
  }
}
