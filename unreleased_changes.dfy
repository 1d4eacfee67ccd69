/**
 * The unreleased-changes report: the latest calendar-version release tag of
 * a repository, chosen by its parsed date, and the commits on `main` that
 * come after it. The GitHub responses are inputs.
 */
module UnreleasedChanges {
  import opened Wrappers
  import opened Text
  import opened Sorting

  // ---------------------------------------------------------------------------
  // Calendar-version tags and their dates
  // ---------------------------------------------------------------------------

  predicate Digits(s: string) { forall i :: 0 <= i < |s| ==> IsDigit(s[i]) }

  /**
   * The filter of `get_latest_release_tag`: ten characters whose slices
   * `[:4]`, `[5:7]` and `[8:10]` are digits. The characters at 4 and 7 are
   * not looked at.
   */
  predicate Shaped(t: string) {
    |t| == 10 && Digits(t[..4]) && Digits(t[5..7]) && Digits(t[8..])
  }

  function Pow10(n: nat): nat {
    if n == 0 then 1 else 10 * Pow10(n - 1)
  }

  /** The value of a decimal numeral, most significant digit first. */
  function Num(s: string): nat
    requires Digits(s)
    decreases |s|
  {
    if s == [] then 0 else ((s[0] as int) - ('0' as int)) * Pow10(|s| - 1) + Num(s[1..])
  }

  lemma {:induction false} NumBound(s: string)
    requires Digits(s)
    ensures Num(s) < Pow10(|s|)
    decreases |s|
  {
    if s != [] {
      NumBound(s[1..]);
      var d := (s[0] as int) - ('0' as int);
      MulMono(d, 9, Pow10(|s| - 1));
    }
  }

  /** On numerals of equal length, string order is numeric order and equal values are equal strings. */
  lemma {:induction false} NumOrder(a: string, b: string)
    requires Digits(a) && Digits(b) && |a| == |b|
    ensures Less(a, b) <==> Num(a) < Num(b)
    ensures a == b <==> Num(a) == Num(b)
    decreases |a|
  {
    if |a| > 0 {
      NumOrder(a[1..], b[1..]);
      NumBound(a[1..]);
      NumBound(b[1..]);
      var p := Pow10(|a| - 1);
      var da, db := (a[0] as int) - ('0' as int), (b[0] as int) - ('0' as int);
      assert Num(a) == da * p + Num(a[1..]);
      assert Num(b) == db * p + Num(b[1..]);
      if a[0] == b[0] {
        assert a == [a[0]] + a[1..] && b == [b[0]] + b[1..];
      } else {
        assert a[0] != b[0];
        if da < db {
          Scale(da, db, p, Num(a[1..]), Num(b[1..]));
        } else {
          Scale(db, da, p, Num(b[1..]), Num(a[1..]));
        }
      }
    }
  }

  /** A smaller leading digit gives a smaller number, whatever follows it. */
  lemma Scale(d: int, e: int, p: nat, x: int, y: int)
    requires 0 <= d < e && 0 <= x < p && 0 <= y
    ensures d * p + x < e * p + y
  {
    MulMono(d + 1, e, p);
    assert (d + 1) * p == d * p + p;
  }

  lemma {:induction false} MulMono(a: nat, b: nat, p: nat)
    requires a <= b
    ensures a * p <= b * p
    decreases b - a
  {
    if a < b {
      MulMono(a, b - 1, p);
      assert b * p == (b - 1) * p + p;
    }
  }

  datatype Date = Date(year: int, month: int, day: int)

  predicate LeapYear(y: int) { y % 4 == 0 && (y % 100 != 0 || y % 400 == 0) }

  function DaysInMonth(y: int, m: int): int {
    if m == 2 then (if LeapYear(y) then 29 else 28)
    else if m == 4 || m == 6 || m == 9 || m == 11 then 30
    else 31
  }

  /**
   * `datetime.strptime(t, "%Y.%m.%d")` on a tag the filter passes: the
   * separators must be dots, the month 01-12 and the day a day of that
   * month; otherwise `ValueError`. Year 0000 is outside `datetime`'s range.
   */
  function ParseDate(t: string): (r: Result<Date>)
    requires Shaped(t)
    ensures t[4] != '.' || t[7] != '.' ==> r == Err(ValueError)
    ensures r.Err? ==> r.error == ValueError
    ensures r.Ok? ==> 1 <= r.value.year <= 9999 && 1 <= r.value.month <= 12
                      && 1 <= r.value.day <= DaysInMonth(r.value.year, r.value.month)
  {
    if t[4] != '.' || t[7] != '.' then Err(ValueError)
    else
      var y, m, d := Num(t[..4]), Num(t[5..7]), Num(t[8..]);
      NumBound(t[..4]);
      assert Pow10(4) == 10000;
      if y < 1 || m < 1 || 12 < m || d < 1 || DaysInMonth(y, m) < d then Err(ValueError)
      else Ok(Date(y, m, d))
  }

  /** `datetime` comparison: by year, then month, then day. */
  predicate DateLess(a: Date, b: Date) {
    a.year < b.year || (a.year == b.year && (a.month < b.month || (a.month == b.month && a.day < b.day)))
  }

  /** A tag whose date parses. */
  predicate Dated(t: string) { Shaped(t) && ParseDate(t).Ok? }

  function DateOf(t: string): Date
    requires Dated(t)
  {
    ParseDate(t).value
  }

  /**
   * For tags whose date parses, the date order is the string order, and
   * the date determines the tag.
   */
  lemma DateOrder(a: string, b: string)
    requires Dated(a) && Dated(b)
    ensures DateLess(DateOf(a), DateOf(b)) <==> Less(a, b)
    ensures DateOf(a) == DateOf(b) <==> a == b
  {
    TagOrder(a, b);
    NumOrder(a[..4], b[..4]);
    NumOrder(a[5..7], b[5..7]);
    NumOrder(a[8..], b[8..]);
  }

  /** Two dotted tags compare by their year digits, then their month digits, then their day digits. */
  lemma TagOrder(a: string, b: string)
    requires Shaped(a) && Shaped(b) && a[4] == b[4] == '.' && a[7] == b[7] == '.'
    ensures Less(a, b) <==> (Less(a[..4], b[..4]) || (a[..4] == b[..4] &&
      (Less(a[5..7], b[5..7]) || (a[5..7] == b[5..7] && Less(a[8..], b[8..])))))
    ensures a == b <==> a[..4] == b[..4] && a[5..7] == b[5..7] && a[8..] == b[8..]
  {
    assert a == a[..4] + (a[4..5] + (a[5..7] + (a[7..8] + a[8..])));
    assert b == b[..4] + (b[4..5] + (b[5..7] + (b[7..8] + b[8..])));
    assert a[4..5] == b[4..5] && a[7..8] == b[7..8];
    LessParts(a[..4], a[4..5], a[5..7], a[7..8], a[8..], b[..4], b[5..7], b[8..]);
  }

  /** Comparison of three fields of fixed width with the same separators between them. */
  lemma LessParts(x1: string, s1: string, x2: string, s2: string, x3: string, y1: string, y2: string, y3: string)
    requires |x1| == |y1| && |x2| == |y2|
    ensures Less(x1 + (s1 + (x2 + (s2 + x3))), y1 + (s1 + (y2 + (s2 + y3)))) <==>
      (Less(x1, y1) || (x1 == y1 && (Less(x2, y2) || (x2 == y2 && Less(x3, y3)))))
    ensures x1 + (s1 + (x2 + (s2 + x3))) == y1 + (s1 + (y2 + (s2 + y3))) <==> x1 == y1 && x2 == y2 && x3 == y3
  {
    LessConcat(x1, s1 + (x2 + (s2 + x3)), y1, s1 + (y2 + (s2 + y3)));
    LessConcat(s1, x2 + (s2 + x3), s1, y2 + (s2 + y3));
    LessConcat(x2, s2 + x3, y2, s2 + y3);
    LessConcat(s2, x3, s2, y3);
    LessIrreflexive(s1);
    LessIrreflexive(s2);
    var a, b := x1 + (s1 + (x2 + (s2 + x3))), y1 + (s1 + (y2 + (s2 + y3)));
    if a == b {
      assert a[..|x1|] == x1 && b[..|x1|] == y1;
      assert a[|x1| + |s1|..][..|x2|] == x2 && b[|x1| + |s1|..][..|x2|] == y2;
      assert a[|x1| + |s1| + |x2| + |s2|..] == x3 && b[|x1| + |s1| + |x2| + |s2|..] == y3;
    }
  }

  // ---------------------------------------------------------------------------
  // The latest release tag
  // ---------------------------------------------------------------------------

  /** The tag with the latest date; among equal dates the later one, as a stable sort leaves it last. */
  function LatestByDate(tags: seq<string>): (r: Option<string>)
    requires forall i :: 0 <= i < |tags| ==> Dated(tags[i])
    ensures r.Some? ==> Dated(r.value)
    decreases |tags|
  {
    if tags == [] then None
    else
      var m := LatestByDate(tags[..|tags| - 1]);
      var t := tags[|tags| - 1];
      if m.None? || !DateLess(DateOf(t), DateOf(m.value)) then Some(t) else m
  }

  lemma {:induction false} LatestByDateSpec(tags: seq<string>)
    requires forall i :: 0 <= i < |tags| ==> Dated(tags[i])
    ensures LatestByDate(tags).None? <==> tags == []
    ensures LatestByDate(tags).Some? ==>
      LatestByDate(tags).value in tags && forall x | x in tags :: !DateLess(DateOf(LatestByDate(tags).value), DateOf(x))
    decreases |tags|
  {
    if tags != [] {
      var pre := tags[..|tags| - 1];
      DateLessOrder();
      LatestByDateSpec(pre);
      assert tags == pre + [tags[|tags| - 1]];
    }
  }

  /** Dates are ordered: the comparison is transitive and any two different dates compare. */
  lemma DateLessOrder()
    ensures forall a, b, c :: DateLess(a, b) && DateLess(b, c) ==> DateLess(a, c)
    ensures forall a, b :: a != b ==> DateLess(a, b) || DateLess(b, a)
  {
  }

  /** `get_latest_release_tag` on a fetched listing: `None` without candidates, `ValueError` when a candidate's date does not parse. */
  function LatestRelease(names: seq<string>): Result<Option<string>> {
    var tags := Filter(names, Shaped);
    if forall i :: 0 <= i < |tags| ==> Dated(tags[i]) then Ok(LatestByDate(tags)) else Err(ValueError)
  }

  /**
   * There is no release tag exactly when no tag passes the filter; the
   * lookup raises exactly when some tag passes the filter but its date does
   * not parse; otherwise the result is a tag of the listing whose date no
   * other candidate's date exceeds, which is also the greatest candidate as
   * a string.
   */
  lemma LatestReleaseMeaning(names: seq<string>)
    ensures LatestRelease(names) == Ok(None) <==> forall x | x in names :: !Shaped(x)
    ensures LatestRelease(names).Err? <==> exists x | x in names :: Shaped(x) && !Dated(x)
    ensures LatestRelease(names).Err? ==> LatestRelease(names).error == ValueError
    ensures LatestRelease(names).Ok? && LatestRelease(names).value.Some? ==>
      var v := LatestRelease(names).value.value;
      && v in names && Dated(v)
      && (forall x | x in names && Shaped(x) :: Dated(x) && !DateLess(DateOf(v), DateOf(x)))
      && (forall x | x in names && Shaped(x) :: !Less(v, x))
  {
    var tags := Filter(names, Shaped);
    FilterExact(names, Shaped);
    if forall i :: 0 <= i < |tags| ==> Dated(tags[i]) {
      LatestByDateSpec(tags);
      if tags != [] {
        var v := LatestByDate(tags).value;
        forall x | x in names && Shaped(x) ensures Dated(x) && !Less(v, x) {
          assert x in tags;
          DateOrder(v, x);
        }
      }
    } else {
      var i :| 0 <= i < |tags| && !Dated(tags[i]);
      assert tags[i] in names;
    }
  }

  /** A candidate written with another separator, such as `2024-01-15`, makes the whole lookup raise. */
  lemma OtherSeparatorRaises(names: seq<string>, t: string)
    requires t in names && Shaped(t) && (t[4] != '.' || t[7] != '.')
    ensures LatestRelease(names) == Err(ValueError)
  {
    LatestReleaseMeaning(names);
  }

  /** The sort key paired with its tag, ordered by the key; the tag only breaks ties of equal dates. */
  predicate KeyedLess(a: (Date, string), b: (Date, string)) {
    DateLess(a.0, b.0) || (a.0 == b.0 && Less(a.1, b.1))
  }

  lemma KeyedOrder()
    ensures StrictTotalOrder(KeyedLess)
  {
    forall a: (Date, string) ensures !KeyedLess(a, a) { LessIrreflexive(a.1); }
    forall a: (Date, string), b: (Date, string), c: (Date, string) | KeyedLess(a, b) && KeyedLess(b, c)
      ensures KeyedLess(a, c)
    {
      if a.0 == b.0 && b.0 == c.0 { LessTransitive(a.1, b.1, c.1); }
    }
    forall a: (Date, string), b: (Date, string) | a != b ensures KeyedLess(a, b) || KeyedLess(b, a) {
      if a.0 == b.0 { LessTotal(a.1, b.1); }
    }
  }

  /**
   * `get_latest_release_tag`: filter the listing, compute every candidate's
   * date (the first that fails raises), sort by date and take the last.
   */
  method GetLatestReleaseTag(names: seq<string>) returns (r: Result<Option<string>>)
    ensures r == LatestRelease(names)
  {
    var calverTags := Filter(names, Shaped);
    if calverTags == [] {
      return Ok(None);
    }
    var keyed: seq<(Date, string)> := [];
    for i := 0 to |calverTags|
      invariant |keyed| == i
      invariant forall j :: 0 <= j < i ==> Dated(calverTags[j]) && keyed[j] == (DateOf(calverTags[j]), calverTags[j])
    {
      FilterExact(names, Shaped);
      assert calverTags[i] in calverTags;
      var key := ParseDate(calverTags[i]);
      if key.Err? {
        return Err(ValueError);
      }
      keyed := keyed + [(key.value, calverTags[i])];
    }
    var sorted := InsertionSort(keyed, KeyedLess);
    KeyedOrder();
    InsertionSortSorted(keyed, KeyedLess);
    r := Ok(Some(sorted[|sorted| - 1].1));
    LastIsLatest(calverTags, keyed, sorted);
  }

  /** The last pair of the sorted keys carries the tag with the latest date. */
  lemma LastIsLatest(tags: seq<string>, keyed: seq<(Date, string)>, sorted: seq<(Date, string)>)
    requires tags != [] && |keyed| == |tags|
    requires forall j :: 0 <= j < |tags| ==> Dated(tags[j]) && keyed[j] == (DateOf(tags[j]), tags[j])
    requires multiset(sorted) == multiset(keyed) && Sorted(sorted, KeyedLess)
    ensures |sorted| > 0 && LatestByDate(tags) == Some(sorted[|sorted| - 1].1)
  {
    LatestByDateSpec(tags);
    var v := LatestByDate(tags).value;
    var j :| 0 <= j < |tags| && tags[j] == v;
    assert keyed[j] in multiset(sorted);
    var k :| 0 <= k < |sorted| && sorted[k] == keyed[j];
    var last := sorted[|sorted| - 1];
    if k < |sorted| - 1 {
      assert !KeyedLess(last, sorted[k]);
    }
    assert last in multiset(keyed);
    var m :| 0 <= m < |keyed| && keyed[m] == last;
    assert tags[m] in tags;
    assert !DateLess(DateOf(v), DateOf(tags[m]));
    DateOrder(v, tags[m]);
  }

  // ---------------------------------------------------------------------------
  // Unreleased commits
  // ---------------------------------------------------------------------------

  datatype Commit = Commit(sha: string, message: string)

  /** The line boundaries of `str.splitlines`. */
  predicate LineBreak(c: char) {
    || c == '\n' || c == '\r' || c == '\U{0b}' || c == '\U{0c}' || c == '\U{1c}' || c == '\U{1d}' || c == '\U{1e}'
    || c == '\U{85}' || c == '\U{2028}' || c == '\U{2029}'
  }

  /** The length of the text before the first line boundary. */
  function LineEnd(s: string): (n: nat)
    ensures n <= |s|
    ensures forall k :: 0 <= k < n ==> !LineBreak(s[k])
    ensures n < |s| ==> LineBreak(s[n])
    decreases |s|
  {
    if s == [] || LineBreak(s[0]) then 0 else 1 + LineEnd(s[1..])
  }

  /** `message.splitlines()[0]`: an empty message has no lines and raises `IndexError`. */
  function FirstLine(message: string): (r: Result<string>)
    ensures r.Err? <==> message == []
    ensures r.Err? ==> r.error == IndexError
    ensures r.Ok? ==> StartsWith(message, r.value) && forall k :: 0 <= k < |r.value| ==> !LineBreak(r.value[k])
    ensures r.Ok? && |r.value| < |message| ==> LineBreak(message[|r.value|])
  {
    if message == [] then Err(IndexError) else Ok(message[..LineEnd(message)])
  }

  /** The report line of a commit: the first seven characters of its sha, a space, its first message line. */
  function Summary(c: Commit): (r: Result<string>)
    ensures r.Err? <==> c.message == []
    ensures r.Ok? ==> var n := if |c.sha| < 7 then |c.sha| else 7;
      r.value == c.sha[..n] + " " + FirstLine(c.message).value
  {
    match FirstLine(c.message)
    case Err(e) => Err(e)
    case Ok(line) => Ok((if |c.sha| < 7 then c.sha else c.sha[..7]) + " " + line)
  }

  /** The loop stops at a commit whose sha is the tag's parent; an absent or empty parent stops nothing. */
  predicate Stops(c: Commit, parent: Option<string>) {
    parent.Some? && parent.value != "" && c.sha == parent.value
  }

  /** The loop of `get_unreleased_commits`: the report lines before the first stopping commit. */
  function Unreleased(commits: seq<Commit>, parent: Option<string>): Result<seq<string>>
    decreases |commits|
  {
    if commits == [] || Stops(commits[0], parent) then Ok([])
    else
      match Summary(commits[0])
      case Err(e) => Err(e)
      case Ok(line) =>
        match Unreleased(commits[1..], parent)
        case Err(e) => Err(e)
        case Ok(lines) => Ok([line] + lines)
  }

  /** The position of the first stopping commit, or the number of commits. */
  function Cut(commits: seq<Commit>, parent: Option<string>): (n: nat)
    ensures n <= |commits|
    ensures forall i :: 0 <= i < n ==> !Stops(commits[i], parent)
    ensures n < |commits| ==> Stops(commits[n], parent)
    decreases |commits|
  {
    if commits == [] || Stops(commits[0], parent) then 0 else 1 + Cut(commits[1..], parent)
  }

  /**
   * The lines are those of the commits before the first one whose sha is
   * the parent, in order, one per commit; all commits are listed without a
   * parent; an empty message among them raises.
   */
  lemma {:induction false} UnreleasedMeaning(commits: seq<Commit>, parent: Option<string>)
    ensures parent.None? ==> Cut(commits, parent) == |commits|
    ensures Unreleased(commits, parent).Ok? ==>
      var lines := Unreleased(commits, parent).value;
      |lines| == Cut(commits, parent) && forall i :: 0 <= i < |lines| ==> Summary(commits[i]) == Ok(lines[i])
    decreases |commits|
  {
    if commits != [] && !Stops(commits[0], parent) {
      var rest := commits[1..];
      UnreleasedMeaning(rest, parent);
      assert forall i :: 0 <= i < |rest| ==> rest[i] == commits[i + 1];
    }
  }

  /** The loop raises exactly when a commit it reaches has an empty message. */
  lemma {:induction false} UnreleasedFails(commits: seq<Commit>, parent: Option<string>)
    ensures Unreleased(commits, parent).Err? <==>
      exists i :: 0 <= i < Cut(commits, parent) && commits[i].message == []
    decreases |commits|
  {
    if commits != [] && !Stops(commits[0], parent) {
      var rest := commits[1..];
      UnreleasedFails(rest, parent);
      if exists i :: 0 <= i < Cut(rest, parent) && rest[i].message == [] {
        var i :| 0 <= i < Cut(rest, parent) && rest[i].message == [];
        assert commits[i + 1].message == [];
      }
      if exists i :: 0 <= i < Cut(commits, parent) && commits[i].message == [] {
        var i :| 0 <= i < Cut(commits, parent) && commits[i].message == [];
        if i > 0 {
          assert rest[i - 1].message == [];
        }
      }
    }
  }

  /**
   * The loop stops at the tagged commit's parent, not at the tagged commit:
   * on a history newest first where the tagged commit comes right before
   * its parent, the tagged commit itself is reported, and nothing older.
   */
  lemma TaggedCommitListed(tagged: Commit, parent: Commit, older: seq<Commit>)
    requires tagged.sha != parent.sha && parent.sha != "" && tagged.message != []
    ensures Unreleased([tagged, parent] + older, Some(parent.sha)) == Ok([Summary(tagged).value])
  {
    var commits := [tagged, parent] + older;
    var rest := commits[1..];
    assert commits[0] == tagged && rest[0] == parent;
    assert Unreleased(rest, Some(parent.sha)) == Ok([]);
    var line := Summary(tagged).value;
    assert [line] + [] == [line];
    assert Unreleased(commits, Some(parent.sha)) == Ok([line] + []);
  }

  /** `get_unreleased_commits` after the parent sha has been resolved: the loop, then the lines joined by newlines. */
  method GetUnreleasedCommits(commits: seq<Commit>, parent: Option<string>) returns (r: Result<string>)
    ensures Unreleased(commits, parent).Err? ==> r == Err(Unreleased(commits, parent).error)
    ensures Unreleased(commits, parent).Ok? ==> r == Ok(Join(Unreleased(commits, parent).value, "\n"))
  {
    var unreleased: seq<string> := [];
    var i := 0;
    assert commits[i..] == commits;
    if Unreleased(commits, parent).Ok? {
      assert [] + Unreleased(commits, parent).value == Unreleased(commits, parent).value;
    }
    while i < |commits|
      invariant 0 <= i <= |commits|
      invariant Unreleased(commits, parent) == Prefixed(unreleased, Unreleased(commits[i..], parent))
    {
      if parent.Some? && parent.value != "" && commits[i].sha == parent.value {
        PrefixedNone(unreleased, commits[i..], parent);
        break;
      }
      var line := Summary(commits[i]);
      UnreleasedStep(commits, parent, i);
      if line.Err? {
        return Err(line.error);
      }
      PrefixedAssoc(unreleased, [line.value], Unreleased(commits[i + 1..], parent));
      unreleased := unreleased + [line.value];
      i := i + 1;
    }
    if i == |commits| {
      PrefixedNone(unreleased, commits[i..], parent);
    }
    r := Ok(Join(unreleased, "\n"));
  }

  /** The lines gathered so far in front of the outcome of the rest of the loop. */
  function Prefixed(lines: seq<string>, rest: Result<seq<string>>): Result<seq<string>> {
    match rest
    case Err(e) => Err(e)
    case Ok(more) => Ok(lines + more)
  }

  /** One turn of the loop: a commit that does not stop it adds its line in front of the rest, or raises. */
  lemma UnreleasedStep(commits: seq<Commit>, parent: Option<string>, i: nat)
    requires i < |commits| && !Stops(commits[i], parent)
    ensures Summary(commits[i]).Err? ==> Unreleased(commits[i..], parent) == Err(Summary(commits[i]).error)
    ensures Summary(commits[i]).Ok? ==>
      Unreleased(commits[i..], parent) == Prefixed([Summary(commits[i]).value], Unreleased(commits[i + 1..], parent))
  {
    assert commits[i..][0] == commits[i];
    assert commits[i..][1..] == commits[i + 1..];
  }

  /** Where the loop ends, the lines gathered so far are the whole outcome. */
  lemma PrefixedNone(lines: seq<string>, rest: seq<Commit>, parent: Option<string>)
    requires rest == [] || Stops(rest[0], parent)
    ensures Prefixed(lines, Unreleased(rest, parent)) == Ok(lines)
  {
    assert lines + [] == lines;
  }

  lemma PrefixedAssoc(a: seq<string>, b: seq<string>, rest: Result<seq<string>>)
    ensures Prefixed(a, Prefixed(b, rest)) == Prefixed(a + b, rest)
  {
    if rest.Ok? {
      assert a + (b + rest.value) == (a + b) + rest.value;
    }
  }

  /** The report has one line per listed commit: splitting it at newlines gives the lines back when no sha holds a newline. */
  lemma ReportLines(commits: seq<Commit>, parent: Option<string>)
    requires Unreleased(commits, parent).Ok? && Unreleased(commits, parent).value != []
    requires forall i :: 0 <= i < |commits| ==> '\n' !in commits[i].sha
    ensures Split(Join(Unreleased(commits, parent).value, "\n"), '\n') == Unreleased(commits, parent).value
  {
    var lines := Unreleased(commits, parent).value;
    UnreleasedMeaning(commits, parent);
    forall k | 0 <= k < |lines| ensures '\n' !in lines[k] {
      var c := commits[k];
      var n := if |c.sha| < 7 then |c.sha| else 7;
      var first := FirstLine(c.message).value;
      assert lines[k] == c.sha[..n] + " " + first;
      assert forall j :: 0 <= j < |first| ==> first[j] != '\n';
      assert forall j :: 0 <= j < n ==> c.sha[..n][j] == c.sha[j];
    }
    JoinSplit(lines, '\n');
  }
}
