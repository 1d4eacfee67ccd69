/**
 * The Markdown list of a patch release's fixed CVEs: a header sentence,
 * then for each upgraded source package an upgrade line followed by one
 * indented line per CVE the upgrade fixes. The release-notes document is
 * an input.
 */
module ReleaseNotes {
  import opened Wrappers
  import opened Text

  /** An entry of `packageList`; `fixedCves` is `None` where the document has null. */
  datatype Package = Package(sourcePackageName: string, oldVersion: string, newVersion: string, fixedCves: Option<seq<string>>)

  const Header: string := "The following packages have been upgraded, to address the mentioned CVEs:"

  function UpgradeLine(p: Package): string {
    "- upgrade '" + p.sourcePackageName + "' from `" + p.oldVersion + "` to `" + p.newVersion + "`"
  }

  function CveLine(c: string): string {
    "  - " + c
  }

  /** The CVEs listed for a package: none when `fixedCves` is null or empty. */
  function Cves(p: Package): seq<string> {
    if p.fixedCves.Some? then p.fixedCves.value else []
  }

  /** One line per CVE, in order. */
  function CveLines(cs: seq<string>): (r: seq<string>)
    ensures |r| == |cs|
    decreases |cs|
  {
    if cs == [] then [] else CveLines(cs[..|cs| - 1]) + [CveLine(cs[|cs| - 1])]
  }

  lemma {:induction false} CveLinesAt(cs: seq<string>)
    ensures forall j :: 0 <= j < |cs| ==> CveLines(cs)[j] == CveLine(cs[j])
    decreases |cs|
  {
    if cs != [] {
      CveLinesAt(cs[..|cs| - 1]);
    }
  }

  /** The lines of one package. */
  function PackageLines(p: Package): seq<string> {
    [UpgradeLine(p)] + CveLines(Cves(p))
  }

  /** The lines after the header, package by package. */
  function Body(ps: seq<Package>): seq<string>
    decreases |ps|
  {
    if ps == [] then [] else Body(ps[..|ps| - 1]) + PackageLines(ps[|ps| - 1])
  }

  /** The lines of the output. */
  function Lines(ps: seq<Package>): seq<string> {
    [Header] + Body(ps)
  }

  /** The number of CVE lines of the packages. */
  function CveCount(ps: seq<Package>): nat
    decreases |ps|
  {
    if ps == [] then 0 else CveCount(ps[..|ps| - 1]) + |Cves(ps[|ps| - 1])|
  }

  /** The output has the header, one line per package and one per fixed CVE. */
  lemma {:induction false} LinesCount(ps: seq<Package>)
    ensures |Lines(ps)| == 1 + |ps| + CveCount(ps)
    decreases |ps|
  {
    if ps != [] {
      LinesCount(ps[..|ps| - 1]);
    }
  }

  /** The line that holds the upgrade of package `i`. */
  function Start(ps: seq<Package>, i: nat): nat
    requires i <= |ps|
  {
    1 + i + CveCount(ps[..i])
  }

  /** A package's lines take the upgrade line and one line per CVE before the next package starts. */
  lemma StartStep(ps: seq<Package>, i: nat)
    requires i < |ps|
    ensures Start(ps, i + 1) == Start(ps, i) + 1 + |Cves(ps[i])|
  {
    assert ps[..i + 1][..i] == ps[..i];
  }

  /**
   * The first line is the header; line `Start(ps, i)` is the upgrade line
   * of package `i` and the `j`-th line after it is the line of its `j`-th
   * CVE.
   */
  lemma {:induction false} LineAt(ps: seq<Package>, i: nat, j: nat)
    requires i < |ps| && j <= |Cves(ps[i])|
    ensures Lines(ps)[0] == Header
    ensures Start(ps, i) + j < |Lines(ps)|
    ensures Lines(ps)[Start(ps, i) + j] == if j == 0 then UpgradeLine(ps[i]) else CveLine(Cves(ps[i])[j - 1])
    decreases |ps|
  {
    var n := |ps| - 1;
    var pre := ps[..n];
    assert Lines(ps) == Lines(pre) + PackageLines(ps[n]);
    LinesCount(pre);
    if i == n {
      assert Start(ps, i) == |Lines(pre)|;
      CveLinesAt(Cves(ps[n]));
    } else {
      assert ps[..i] == pre[..i];
      LineAt(pre, i, j);
    }
  }

  /** `generate_formatted_output`: the lines are collected one by one and joined with newlines. */
  method GenerateFormattedOutput(packages: seq<Package>) returns (r: string)
    ensures r == Join(Lines(packages), "\n")
  {
    var output := [Header];
    for i := 0 to |packages|
      invariant output == Lines(packages[..i])
    {
      assert packages[..i + 1][..i] == packages[..i];
      var package := packages[i];
      output := output + [UpgradeLine(package)];
      if package.fixedCves.Some? && package.fixedCves.value != [] {
        var cves := package.fixedCves.value;
        for j := 0 to |cves|
          invariant output == Lines(packages[..i]) + [UpgradeLine(package)] + CveLines(cves[..j])
        {
          assert cves[..j + 1][..j] == cves[..j];
          output := output + [CveLine(cves[j])];
        }
        assert cves[..|cves|] == cves;
      }
    }
    assert packages[..|packages|] == packages;
    r := Join(output, "\n");
  }
}
