/**
 * The two small lists the reader is exercised with: one CVE whose status
 * lines spread over four codename buckets, and four CVEs whose lines all
 * say nothing about a package. Each list is written with the line
 * writers of `DebsecCveText`, which spell out the same characters.
 */
module DebsecCveCases {
  import opened Wrappers
  import opened Text
  import opened DebsecCveFiles
  import opened DebsecCveText

  const Year := "CVE-2023-"
  const Id := Year + "39323"

  lemma AllConcat(a: string, b: string, k: CharClass)
    requires All(a, k) && All(b, k)
    ensures All(a + b, k)
  {
    assert forall i :: 0 <= i < |a + b| ==> (a + b)[i] == if i < |a| then a[i] else b[i - |a|];
  }

  /** A header id of 2023. */
  lemma YearId(n: string)
    requires All(n, IdClass)
    ensures All(Year + n, IdClass)
  {
    assert All(Year, IdClass);
    AllConcat(Year, n, IdClass);
  }

  const L1 := Status(None, "golang-1.21", None, Some("1.21.2-1"), None)
  const L2 := Status(None, "golang-1.20", None, Some("1.20.9-1"), None)
  const L3 := Status(None, "golang-1.19", Some("unfixed"), None, None)
  const L4 := Status(Some("bookworm"), "golang-1.19", Some("no-dsa"), None, Some("Minor issue"))
  const L5 := Status(None, "golang-1.15", Some("removed"), None, None)
  const L6 := Status(Some("bullseye"), "golang-1.15", Some("no-dsa"), None, Some("Minor issue"))
  const L7 := Status(None, "golang-1.11", Some("removed"), None, None)
  const L8 := Status(Some("buster"), "golang-1.11", Some("postponed"), None,
                     Some("Limited support, " + "follow bullseye " + "DSAs/point-releases"))

  /**
   * `CVE-2023-39323 ()`, then `\t- golang-1.21 1.21.2-1`, ...,
   * `\t[buster] - golang-1.11 <postponed> (Limited support, ...)` and
   * `\tNOTE: https://go.dev/issue/63211`, each with its newline.
   */
  const FixedCase: seq<string> := [
    HeaderText(Id, Some("")),
    StatusText(L1), StatusText(L2), StatusText(L3), StatusText(L4),
    StatusText(L5), StatusText(L6), StatusText(L7), StatusText(L8),
    DirectiveText("NOTE", Some("https://go.dev/issue/63211"))
  ]

  /** `CVE-2023-45374 (Bla Bla ..)`, `\tNOT-FOR-US: MediaWiki extension`, ..., `CVE-2023-5312`, `\tREJECTED`. */
  const IgnoredCase: seq<string> := [
    HeaderText(Year + "45374", Some("Bla Bla ..")),
    DirectiveText("NOT-FOR-US", Some("MediaWiki extension")),
    HeaderText(Year + "45364", None),
    DirectiveText("TODO", Some("check")),
    HeaderText(Year + "31289", None),
    DirectiveText("RESERVED", None),
    HeaderText(Year + "5312", None),
    DirectiveText("REJECTED", None)
  ]

  lemma WellFormed1(l: Line)
    requires l == L1
    ensures WellFormed(l)
  {
    assert All(l.source, SourceClass);
  }

  lemma WellFormed2(l: Line)
    requires l == L2
    ensures WellFormed(l)
  {
    assert All(l.source, SourceClass);
  }

  lemma WellFormed3(l: Line)
    requires l == L3
    ensures WellFormed(l)
  {
    assert All(l.source, SourceClass);
  }

  lemma WellFormed4(l: Line)
    requires l == L4
    ensures WellFormed(l)
  {
    assert All(l.source, SourceClass);
  }

  lemma WellFormed5(l: Line)
    requires l == L5
    ensures WellFormed(l)
  {
    assert All(l.source, SourceClass);
  }

  lemma WellFormed6(l: Line)
    requires l == L6
    ensures WellFormed(l)
  {
    assert All(l.source, SourceClass);
  }

  lemma WellFormed7(l: Line)
    requires l == L7
    ensures WellFormed(l)
  {
    assert All(l.source, SourceClass);
  }

  lemma NoNewline(a: string, b: string)
    requires '\n' !in a && '\n' !in b
    ensures '\n' !in a + b
  {
  }

  lemma WellFormed8(l: Line)
    requires l == L8
    ensures WellFormed(l)
  {
    assert All(l.source, SourceClass);
    assert '\n' !in "Limited support, ";
    assert '\n' !in "follow bullseye ";
    assert '\n' !in "DSAs/point-releases";
    NoNewline("Limited support, ", "follow bullseye ");
    NoNewline("Limited support, " + "follow bullseye ", "DSAs/point-releases");
  }

  /** The status and directive lines after the header, as one CVE block. */
  const FixedTail: seq<Option<Line>> := [Some(L1), Some(L2), Some(L3), Some(L4), Some(L5), Some(L6), Some(L7), Some(L8), Some(Ignored)]

  const FixedLines: seq<Option<Line>> := [Some(Header(Id))] + FixedTail

  lemma FixedLine0(s: string)
    requires s == FixedCase[0]
    ensures Classify(s) == FixedLines[0]
  {
    YearId("39323");
    ClassifyHeaderText(Id, Some(""));
  }

  lemma FixedLine1(s: string)
    requires s == FixedCase[1]
    ensures Classify(s) == FixedLines[1]
  {
    WellFormed1(L1);
    ClassifyStatusText(L1);
  }

  lemma FixedLine2(s: string)
    requires s == FixedCase[2]
    ensures Classify(s) == FixedLines[2]
  {
    WellFormed2(L2);
    ClassifyStatusText(L2);
  }

  lemma FixedLine3(s: string)
    requires s == FixedCase[3]
    ensures Classify(s) == FixedLines[3]
  {
    WellFormed3(L3);
    ClassifyStatusText(L3);
  }

  lemma FixedLine4(s: string)
    requires s == FixedCase[4]
    ensures Classify(s) == FixedLines[4]
  {
    WellFormed4(L4);
    ClassifyStatusText(L4);
  }

  lemma FixedLine5(s: string)
    requires s == FixedCase[5]
    ensures Classify(s) == FixedLines[5]
  {
    WellFormed5(L5);
    ClassifyStatusText(L5);
  }

  lemma FixedLine6(s: string)
    requires s == FixedCase[6]
    ensures Classify(s) == FixedLines[6]
  {
    WellFormed6(L6);
    ClassifyStatusText(L6);
  }

  lemma FixedLine7(s: string)
    requires s == FixedCase[7]
    ensures Classify(s) == FixedLines[7]
  {
    WellFormed7(L7);
    ClassifyStatusText(L7);
  }

  lemma FixedLine8(s: string)
    requires s == FixedCase[8]
    ensures Classify(s) == FixedLines[8]
  {
    WellFormed8(L8);
    ClassifyStatusText(L8);
  }

  lemma FixedLine9(s: string)
    requires s == FixedCase[9]
    ensures Classify(s) == FixedLines[9]
  {
    assert Keywords[4] == "NOTE";
    ClassifyDirectiveText(4, Some("https://go.dev/issue/63211"));
  }

  lemma IgnoredLine0(s: string)
    requires s == IgnoredCase[0]
    ensures Classify(s) == Some(Header(Year + "45374"))
  {
    YearId("45374");
    ClassifyHeaderText(Year + "45374", Some("Bla Bla .."));
  }

  lemma IgnoredLine1(s: string)
    requires s == IgnoredCase[1]
    ensures Classify(s) == Some(Ignored)
  {
    assert Keywords[2] == "NOT-FOR-US";
    ClassifyDirectiveText(2, Some("MediaWiki extension"));
  }

  lemma IgnoredLine2(s: string)
    requires s == IgnoredCase[2]
    ensures Classify(s) == Some(Header(Year + "45364"))
  {
    YearId("45364");
    ClassifyHeaderText(Year + "45364", None);
  }

  lemma IgnoredLine3(s: string)
    requires s == IgnoredCase[3]
    ensures Classify(s) == Some(Ignored)
  {
    assert Keywords[3] == "TODO";
    ClassifyDirectiveText(3, Some("check"));
  }

  lemma IgnoredLine4(s: string)
    requires s == IgnoredCase[4]
    ensures Classify(s) == Some(Header(Year + "31289"))
  {
    YearId("31289");
    ClassifyHeaderText(Year + "31289", None);
  }

  lemma IgnoredLine5(s: string)
    requires s == IgnoredCase[5]
    ensures Classify(s) == Some(Ignored)
  {
    assert Keywords[1] == "RESERVED";
    ClassifyDirectiveText(1, None);
  }

  lemma IgnoredLine6(s: string)
    requires s == IgnoredCase[6]
    ensures Classify(s) == Some(Header(Year + "5312"))
  {
    YearId("5312");
    ClassifyHeaderText(Year + "5312", None);
  }

  lemma IgnoredLine7(s: string)
    requires s == IgnoredCase[7]
    ensures Classify(s) == Some(Ignored)
  {
    assert Keywords[0] == "REJECTED";
    ClassifyDirectiveText(0, None);
  }

  /** Reading the second list raises nothing and stores nothing: not even a bucket is created. */
  lemma ReadIgnoredCase(lines: seq<string>)
    requires lines == IgnoredCase
    ensures ReadFile(map[], lines) == (map[], None)
  {
    var ms := Classified(lines);
    forall i | 0 <= i < |ms| ensures ms[i].Some? && !ms[i].value.Status? {
      if i == 0 { IgnoredLine0(lines[0]); }
      else if i == 1 { IgnoredLine1(lines[1]); }
      else if i == 2 { IgnoredLine2(lines[2]); }
      else if i == 3 { IgnoredLine3(lines[3]); }
      else if i == 4 { IgnoredLine4(lines[4]); }
      else if i == 5 { IgnoredLine5(lines[5]); }
      else if i == 6 { IgnoredLine6(lines[6]); }
      else { IgnoredLine7(lines[7]); }
    }
    IgnoredOnly(map[], None, ms);
  }

  /** Every line of the fixed-case list is recognised as the test expects. */
  lemma ClassifiedFixed(lines: seq<string>)
    requires lines == FixedCase
    ensures Classified(lines) == FixedLines
  {
    var ms := Classified(lines);
    forall i | 0 <= i < |ms| ensures ms[i] == FixedLines[i] {
      if i == 0 { FixedLine0(lines[0]); }
      else if i == 1 { FixedLine1(lines[1]); }
      else if i == 2 { FixedLine2(lines[2]); }
      else if i == 3 { FixedLine3(lines[3]); }
      else if i == 4 { FixedLine4(lines[4]); }
      else if i == 5 { FixedLine5(lines[5]); }
      else if i == 6 { FixedLine6(lines[6]); }
      else if i == 7 { FixedLine7(lines[7]); }
      else if i == 8 { FixedLine8(lines[8]); }
      else { FixedLine9(lines[9]); }
    }
  }

  /** Each suffix of a list is its first element before the next suffix. */
  lemma Suffixes(t: seq<Option<Line>>)
    ensures forall k :: 0 <= k < |t| ==> t[k..] == [t[k]] + t[k + 1..]
  {
    forall k | 0 <= k < |t| ensures t[k..] == [t[k]] + t[k + 1..] {
      assert t[k..][1..] == t[k + 1..];
    }
  }

  lemma ConsNames(x: Option<Line>, rest: seq<Option<Line>>)
    ensures Names([x] + rest) == (if x.Some? && x.value.Status? then {BucketName(x.value)} else {}) + Names(rest)
  {
    assert ([x] + rest)[1..] == rest;
  }

  lemma ConsStored(x: Option<Line>, rest: seq<Option<Line>>, id: string, n: string)
    ensures Stored([x] + rest, id, n) ==
      (if x.Some? && x.value.Status? && BucketName(x.value) == n && !Dropped(x.value) then {(id, x.value.source)} else {})
      + Stored(rest, id, n)
  {
    assert ([x] + rest)[1..] == rest;
  }

  /** The status lines of the block name the four buckets the test expects. */
  lemma FixedNames()
    ensures Names(FixedTail) == {"", "bookworm", "bullseye", "buster"}
  {
    var t := FixedTail;
    Suffixes(t);
    assert t[9..] == [];
    ConsNames(t[8], t[9..]);
    ConsNames(t[7], t[8..]);
    ConsNames(t[6], t[7..]);
    ConsNames(t[5], t[6..]);
    ConsNames(t[4], t[5..]);
    ConsNames(t[3], t[4..]);
    ConsNames(t[2], t[3..]);
    ConsNames(t[1], t[2..]);
    ConsNames(t[0], t[1..]);
  }

  lemma FixedIsBlock()
    ensures Block(FixedTail)
  {
  }

  /** The keys the block stores in bucket `n`, one lemma per bucket of the test. */
  lemma FixedStored(n: string)
    requires n in {"", "bookworm", "bullseye", "buster"}
    ensures n == "" ==> Stored(FixedTail, Id, n) == {(Id, "golang-1.21"), (Id, "golang-1.20"), (Id, "golang-1.19")}
    ensures n == "bookworm" ==> Stored(FixedTail, Id, n) == {(Id, "golang-1.19")}
    ensures n == "bullseye" ==> Stored(FixedTail, Id, n) == {(Id, "golang-1.15")}
    ensures n == "buster" ==> Stored(FixedTail, Id, n) == {(Id, "golang-1.11")}
  {
    var t := FixedTail;
    Suffixes(t);
    assert t[9..] == [];
    ConsStored(t[8], t[9..], Id, n);
    ConsStored(t[7], t[8..], Id, n);
    ConsStored(t[6], t[7..], Id, n);
    ConsStored(t[5], t[6..], Id, n);
    ConsStored(t[4], t[5..], Id, n);
    ConsStored(t[3], t[4..], Id, n);
    ConsStored(t[2], t[3..], Id, n);
    ConsStored(t[1], t[2..], Id, n);
    ConsStored(t[0], t[1..], Id, n);
  }

  /** The header line sets `current_id`, and the block follows. */
  lemma FixedRead(lines: seq<string>)
    requires lines == FixedCase
    ensures ReadFile(map[], lines) == Steps(map[], Some(Id), FixedTail)
  {
    ClassifiedFixed(lines);
    assert FixedLines[0] == Some(Header(Id)) && FixedLines[1..] == FixedTail;
  }

  /**
   * Reading the fixed-case list raises nothing and leaves the four buckets
   * `''`, `bookworm`, `bullseye` and `buster` with the keys the test lists;
   * the `removed` lines create their bucket and store nothing.
   */
  lemma ReadFixedCase(lines: seq<string>)
    requires lines == FixedCase
    ensures var r := ReadFile(map[], lines);
      && r.1.None?
      && r.0.Keys == {"", "bookworm", "bullseye", "buster"}
      && r.0[""].Keys == {(Id, "golang-1.19"), (Id, "golang-1.20"), (Id, "golang-1.21")}
      && r.0["bookworm"].Keys == {(Id, "golang-1.19")}
      && r.0["bullseye"].Keys == {(Id, "golang-1.15")}
      && r.0["buster"].Keys == {(Id, "golang-1.11")}
  {
    FixedRead(lines);
    FixedIsBlock();
    ReadBlock(map[], Id, FixedTail);
    var r := Steps(map[], Some(Id), FixedTail);
    forall n ensures Bucket(r.0, n).Keys == Stored(FixedTail, Id, n) {
      assert Bucket(map[], n).Keys == {};
    }
    FixedBuckets(r.0);
  }

  /** What any buckets that the block added to an empty dictionary hold, bucket by bucket. */
  lemma FixedBuckets(b: Buckets)
    requires b.Keys == Names(FixedTail)
    requires forall n :: Bucket(b, n).Keys == Stored(FixedTail, Id, n)
    ensures b.Keys == {"", "bookworm", "bullseye", "buster"}
    ensures b[""].Keys == {(Id, "golang-1.19"), (Id, "golang-1.20"), (Id, "golang-1.21")}
    ensures b["bookworm"].Keys == {(Id, "golang-1.19")}
    ensures b["bullseye"].Keys == {(Id, "golang-1.15")}
    ensures b["buster"].Keys == {(Id, "golang-1.11")}
  {
    FixedNames();
    FixedStored(""); FixedStored("bookworm"); FixedStored("bullseye"); FixedStored("buster");
    assert Bucket(b, "") == b[""] && Bucket(b, "bookworm") == b["bookworm"];
    assert Bucket(b, "bullseye") == b["bullseye"] && Bucket(b, "buster") == b["buster"];
  }
}
