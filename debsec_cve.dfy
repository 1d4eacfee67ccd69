/**
 * The Debian security tracker's CVE list (`data/CVE/list`): a header line
 * per CVE, followed by indented lines that either say nothing about a
 * package (REJECTED, NOT-FOR-US, NOTE: ..., {...}) or state the status of
 * one source package, optionally for one release codename:
 *
 *     CVE-2023-39323 (...)
 *         - golang-1.21 1.21.2-1
 *         [bookworm] - golang-1.19 <no-dsa> (Minor issue)
 *
 * The reader collects, per codename ("" for the unqualified line), one
 * advisory per (CVE id, source package).
 */
module DebsecCveFiles {
  import opened Wrappers
  import opened Text
  import opened Database

  // ------------------------------------------------------------ the line grammar

  predicate IdChar(c: char) { 'A' <= c <= 'Z' || '0' <= c <= '9' || c == '-' }

  predicate SourceChar(c: char) { 'a' <= c <= 'z' || 'A' <= c <= 'Z' || '0' <= c <= '9' || c == '.' || c == '+' || c == '-' }

  predicate TagChar(c: char) { 'a' <= c <= 'z' || c == '-' }

  predicate VersionChar(c: char) {
    'a' <= c <= 'z' || 'A' <= c <= 'Z' || '0' <= c <= '9' || c == '.' || c == '+' || c == '~' || c == ':' || c == '-'
  }

  predicate NonSpace(c: char) { !IsSpace(c) }

  /** The character classes of the pattern. */
  datatype CharClass = WhiteSpace | NonWhiteSpace | IdClass | SourceClass | TagClass | VersionClass

  predicate In(k: CharClass, c: char) {
    match k
    case WhiteSpace => IsSpace(c)
    case NonWhiteSpace => NonSpace(c)
    case IdClass => IdChar(c)
    case SourceClass => SourceChar(c)
    case TagClass => TagChar(c)
    case VersionClass => VersionChar(c)
  }

  predicate All(s: string, k: CharClass) { forall i :: 0 <= i < |s| ==> In(k, s[i]) }

  /** The length of the longest run of `p`-characters starting at `i`: what a greedy `[...]+` consumes. */
  function Span(s: string, i: nat, p: CharClass): (n: nat)
    requires i <= |s|
    ensures i + n <= |s|
    decreases |s| - i
  {
    if i < |s| && In(p, s[i]) then 1 + Span(s, i + 1, p) else 0
  }

  /** The run `Span` measures is made of `p`-characters, and the character after it is not one. */
  lemma {:induction false} SpanRun(s: string, i: nat, p: CharClass)
    requires i <= |s|
    ensures forall k :: i <= k < i + Span(s, i, p) ==> In(p, s[k])
    ensures i + Span(s, i, p) == |s| || !In(p, s[i + Span(s, i, p)])
    decreases |s| - i
  {
    if i < |s| && In(p, s[i]) {
      SpanRun(s, i + 1, p);
    }
  }

  /** A run is the longest one exactly when the next character is not in the class. */
  lemma {:induction false} SpanIs(s: string, i: nat, n: nat, p: CharClass)
    requires i + n <= |s| && (forall k :: i <= k < i + n ==> In(p, s[k])) && (i + n == |s| || !In(p, s[i + n]))
    ensures Span(s, i, p) == n
    decreases n
  {
    if n > 0 {
      SpanIs(s, i + 1, n - 1, p);
    }
  }

  /** The run a greedy `[...]+` consumes at `i`. */
  function Token(s: string, i: nat, p: CharClass): (r: string)
    requires i <= |s|
    ensures |r| == Span(s, i, p) && r == s[i..i + |r|] && All(r, p)
  {
    SpanRun(s, i, p);
    s[i..i + Span(s, i, p)]
  }

  /** `$` without MULTILINE: the end of the line, or just before its final newline. */
  predicate AtEnd(s: string, e: nat) {
    e == |s| || (e + 1 == |s| && s[e] == '\n')
  }

  /** Where `$` can hold last: the length of `s` without a final newline. */
  function Body(s: string): nat {
    if |s| > 0 && s[|s| - 1] == '\n' then |s| - 1 else |s|
  }

  /** `.*$` from `k`: the rest of the line holds no newline (a final one is left to `$`). */
  predicate RestOfLine(s: string, k: nat) {
    k == |s| || (k <= Body(s) && '\n' !in s[k..Body(s)])
  }

  /** `.*?[closers]$` from `i`: the line's last character is a closer and no newline comes before it. */
  predicate Closes(s: string, i: nat, closers: set<char>) {
    i < Body(s) && s[Body(s) - 1] in closers && '\n' !in s[i..Body(s) - 1]
  }

  /** The inside of the text a `Closes(s, i, _)` match spans. */
  function Enclosed(s: string, i: nat): string
    requires i < Body(s)
  {
    s[i..Body(s) - 1]
  }

  /** What one line of the list says. */
  datatype Line =
    | Header(id: string)
    | Ignored
    | Status(codename: Option<string>, source: string, tag: Option<string>,
             versionFixed: Option<string>, note: Option<string>)

  /** The shapes the groups of a successful match always have. */
  predicate WellFormed(l: Line) {
    match l
    case Header(id) => id != [] && All(id, IdClass)
    case Ignored => true
    case Status(codename, source, tag, versionFixed, note) =>
      && (codename.Some? ==> codename.value != [] && All(codename.value, NonWhiteSpace))
      && source != [] && All(source, SourceClass)
      && (tag.Some? <==> versionFixed.None?)
      && (tag.Some? ==> tag.value != [] && All(tag.value, TagClass))
      && (versionFixed.Some? ==> versionFixed.value != [] && All(versionFixed.value, VersionClass))
      && (note.Some? ==> '\n' !in note.value)
  }

  const Keywords: seq<string> := ["REJECTED", "RESERVED", "NOT-FOR-US", "TODO", "NOTE"]

  /** `(?:REJECTED|...|NOTE)(?::\s.*)?$` at `p`. */
  predicate KeywordAt(s: string, p: nat, kw: string) {
    && p + |kw| <= |s| && s[p..p + |kw|] == kw
    && (|| AtEnd(s, p + |kw|)
        || (p + |kw| + 1 < |s| && s[p + |kw|] == ':' && IsSpace(s[p + |kw| + 1]) && RestOfLine(s, p + |kw| + 2)))
  }

  predicate Directive(s: string, p: nat) {
    exists i :: 0 <= i < |Keywords| && KeywordAt(s, p, Keywords[i])
  }

  /** `\{.*\}$` at `p`. */
  predicate Braced(s: string, p: nat) {
    p < |s| && s[p] == '{' && Closes(s, p + 1, {'}'})
  }

  /** `\s+[\[(].*?[\])]$` after the id. */
  predicate HeaderTail(s: string, n: nat)
    requires n <= |s|
  {
    var w := Span(s, n, WhiteSpace);
    w >= 1 && n + w < |s| && s[n + w] in "[(" && Closes(s, n + w + 1, {']', ')'})
  }

  /** `(?:\s+\((?P<note>.*?)\))?$` at `k`: `Some(note)` for the note, `Some(None)` for none, `None` for no match. */
  function NoteTail(s: string, k: nat): (r: Option<Option<string>>)
    requires k <= |s|
    ensures r == Some(None) ==> AtEnd(s, k)
    ensures r.Some? && r.value.Some? ==> '\n' !in r.value.value
  {
    var w := Span(s, k, WhiteSpace);
    if w >= 1 && k + w < |s| && s[k + w] == '(' && Closes(s, k + w + 1, {')'}) then
      Some(Some(Enclosed(s, k + w + 1)))
    else if AtEnd(s, k) then Some(None)
    else None
  }

  predicate CodenameOk(codename: Option<string>) {
    codename.Some? ==> codename.value != [] && All(codename.value, NonWhiteSpace)
  }

  /** `<(?P<tag>[a-z-]+)>|(?P<version_fixed>[A-Za-z0-9.+~:-]+)` at `t`: the two groups and where the match ends. */
  function Fixed(s: string, t: nat): (r: Option<(Option<string>, Option<string>, nat)>)
    requires t < |s|
    ensures r.Some? ==> r.value.2 <= |s|
    ensures r.Some? ==> (r.value.0.Some? <==> r.value.1.None?)
    ensures r.Some? && r.value.0.Some? ==> r.value.0.value != [] && All(r.value.0.value, TagClass)
    ensures r.Some? && r.value.1.Some? ==> r.value.1.value != [] && All(r.value.1.value, VersionClass)
  {
    if s[t] == '<' then
      var tag := Token(s, t + 1, TagClass);
      var e := t + 1 + |tag|;
      if tag == [] || e == |s| || s[e] != '>' then None else Some((Some(tag), None, e + 1))
    else
      var v := Token(s, t, VersionClass);
      if v == [] then None else Some((None, Some(v), t + |v|))
  }

  /**
   * Where the matcher stands in the pattern, with the groups captured so
   * far: at the start of the line, after the leading white space, at the
   * `-` of a status line, at its source, at its tag or fixed version.
   */
  datatype Stage =
    | Start
    | Indented
    | DashAt(codename: Option<string>)
    | SourceAt(codename: Option<string>)
    | FixedAt(codename: Option<string>, source: string)

  function Rank(st: Stage): nat {
    match st
    case Start => 4
    case Indented => 3
    case DashAt(_) => 2
    case SourceAt(_) => 1
    case FixedAt(_, _) => 0
  }

  /** The groups captured so far have the shapes of their sub-patterns. */
  predicate StageOk(st: Stage) {
    match st
    case Start => true
    case Indented => true
    case DashAt(c) => CodenameOk(c)
    case SourceAt(c) => CodenameOk(c)
    case FixedAt(c, source) => CodenameOk(c) && source != [] && All(source, SourceClass)
  }

  /**
   * The rest of the pattern from stage `st` at position `i`. Every
   * quantified sub-pattern is followed by something its class excludes,
   * so the greedy runs never give anything back; the lazy `.*?` of the
   * header title and the note can only end at the line's last character.
   */
  function Match(s: string, i: nat, st: Stage): (r: Option<Line>)
    requires i <= |s| && StageOk(st)
    ensures r.Some? ==> WellFormed(r.value)
    ensures r.Some? && st.Start? ==>
      && i < |s| && (r.value.Header? <==> IdChar(s[i])) && (!r.value.Header? <==> IsSpace(s[i]))
      && (r.value.Header? ==> i + |r.value.id| <= |s| && s[i..i + |r.value.id|] == r.value.id)
    ensures r.Some? && st.Indented? ==> !r.value.Header?
    ensures r.Some? && (st.DashAt? || st.SourceAt? || st.FixedAt?) ==> r.value.Status? && r.value.codename == st.codename
    decreases Rank(st), 1
  {
    match st
    case Start => AtStart(s, i)
    case Indented => AtIndent(s, i)
    case DashAt(c) => AtDash(s, i, c)
    case SourceAt(c) => AtSource(s, i, c)
    case FixedAt(c, source) => AtFixed(s, i, c, source)
  }

  /** `(?P<id>[A-Z0-9-]+)(?:\s+[\[(].*?[\])])?$`, or white space and the indented alternatives. */
  function AtStart(s: string, i: nat): (r: Option<Line>)
    requires i <= |s|
    ensures r.Some? ==> WellFormed(r.value)
    ensures r.Some? ==>
      && i < |s| && (r.value.Header? <==> IdChar(s[i])) && (!r.value.Header? <==> IsSpace(s[i]))
      && (r.value.Header? ==> i + |r.value.id| <= |s| && s[i..i + |r.value.id|] == r.value.id)
    decreases Rank(Start), 0
  {
    if i == |s| then None
    else if IdChar(s[i]) then
      var id := Token(s, i, IdClass);
      if AtEnd(s, i + |id|) || HeaderTail(s, i + |id|) then Some(Header(id)) else None
    else if IsSpace(s[i]) then Match(s, i + Span(s, i, WhiteSpace), Indented)
    else None
  }

  /** After the indentation: a directive, a braced list, or an optionally qualified status. */
  function AtIndent(s: string, i: nat): (r: Option<Line>)
    requires i <= |s|
    ensures r.Some? ==> WellFormed(r.value) && !r.value.Header?
    decreases Rank(Indented), 0
  {
    if Directive(s, i) || Braced(s, i) then Some(Ignored)
    else if i < |s| && s[i] == '[' then
      // `\S+` is greedy and `\]\s+` must follow, so the codename ends just before the end of the run
      var run := Token(s, i + 1, NonWhiteSpace);
      var q := i + 1 + |run|;
      if |run| > 1 && run[|run| - 1] == ']' && q < |s| then
        Match(s, q + Span(s, q, WhiteSpace), DashAt(Some(run[..|run| - 1])))
      else None
    else Match(s, i, DashAt(None))
  }

  /** `-\s+` before the source. */
  function AtDash(s: string, i: nat, c: Option<string>): (r: Option<Line>)
    requires i <= |s| && CodenameOk(c)
    ensures r.Some? ==> WellFormed(r.value) && r.value.Status? && r.value.codename == c
    decreases Rank(DashAt(c)), 0
  {
    if i < |s| && s[i] == '-' then
      var w := Span(s, i + 1, WhiteSpace);
      if w == 0 then None else Match(s, i + 1 + w, SourceAt(c))
    else None
  }

  /** `(?P<source>[a-zA-Z0-9.+-]+)\s+`. */
  function AtSource(s: string, i: nat, c: Option<string>): (r: Option<Line>)
    requires i <= |s| && CodenameOk(c)
    ensures r.Some? ==> WellFormed(r.value) && r.value.Status? && r.value.codename == c
    decreases Rank(SourceAt(c)), 0
  {
    var source := Token(s, i, SourceClass);
    var w := Span(s, i + |source|, WhiteSpace);
    if source == [] || w == 0 || i + |source| + w == |s| then None
    else Match(s, i + |source| + w, FixedAt(c, source))
  }

  /** The tag or fixed version, then the optional note and the end of the line. */
  function AtFixed(s: string, i: nat, c: Option<string>, source: string): (r: Option<Line>)
    requires i <= |s| && CodenameOk(c) && source != [] && All(source, SourceClass)
    ensures r.Some? ==> WellFormed(r.value) && r.value.Status? && r.value.codename == c
    decreases Rank(FixedAt(c, source)), 0
  {
    if i == |s| then None
    else
      var f := Fixed(s, i);
      if f.None? then None
      else
        var note := NoteTail(s, f.value.2);
        if note.None? then None else Some(Status(c, source, f.value.0, f.value.1, note.value))
  }

  /**
   * `re.match` of the list's line pattern: `None` when the line has none
   * of the shapes, otherwise what the named groups say. The id and the
   * source are never empty, so the reader's truth tests on them are
   * tests for the alternative that matched.
   */
  function Classify(s: string): (r: Option<Line>)
    ensures r.Some? ==> WellFormed(r.value)
    ensures r.Some? ==> s != [] && (r.value.Header? <==> IdChar(s[0])) && (!r.value.Header? <==> IsSpace(s[0]))
    ensures r.Some? && r.value.Header? ==> StartsWith(s, r.value.id)
  {
    Match(s, 0, Start)
  }

  // ------------------------------------------------------------ the reader

  /** codename -> (cve_id, source) -> advisory. */
  type Buckets = map<string, map<(string, string), DebsecCveRow>>

  /** `match['codename'] or ''`. */
  function BucketName(l: Line): string
    requires l.Status?
  {
    if l.codename.Some? then l.codename.value else ""
  }

  /** The tags that say there is nothing to track. */
  predicate Dropped(l: Line)
    requires l.Status?
  {
    l.tag == Some("removed") || l.tag == Some("not-affected")
  }

  /** The advisory a status line states about `cveId`; it belongs to no distribution yet. */
  function EntryOf(cveId: string, l: Line): (e: DebsecCveRow)
    requires l.Status?
    ensures e.distId.None? && e.lastMod.None? && e.cveId == cveId && e.debSource == l.source
    ensures e.debVersionFixed == l.versionFixed && e.debsecTag == l.tag && e.debsecNote == l.note
  {
    DebsecCveRow(None, cveId, None, l.source, l.versionFixed, l.tag, l.note)
  }

  function Bucket(b: Buckets, name: string): map<(string, string), DebsecCveRow> {
    if name in b then b[name] else map[]
  }

  /** The buckets after `_read_source(cveId, l)`. */
  function AddStatus(b: Buckets, cveId: string, l: Line): (r: Buckets)
    requires l.Status?
  {
    var name := BucketName(l);
    var bucket := Bucket(b, name);
    if Dropped(l) then b[name := bucket] else b[name := bucket[(cveId, l.source) := EntryOf(cveId, l)]]
  }

  /** What the line pattern makes of each line. */
  function Classified(lines: seq<string>): (ms: seq<Option<Line>>)
    ensures |ms| == |lines| && forall i :: 0 <= i < |lines| ==> ms[i] == Classify(lines[i])
  {
    seq(|lines|, i requires 0 <= i < |lines| => Classify(lines[i]))
  }

  /**
   * `read` over the remaining classified lines, with the id of the last
   * header seen (`None` while `current_id` is unbound): the buckets it
   * leaves and the exception it ends with. What was stored before the
   * failing line stays.
   */
  function Steps(b: Buckets, current: Option<string>, ms: seq<Option<Line>>): (Buckets, Option<Exception>)
    decreases |ms|
  {
    if ms == [] then (b, None)
    else
      match ms[0]
      case None => (b, Some(RuntimeError))
      case Some(Header(id)) => Steps(b, Some(id), ms[1..])
      case Some(Ignored) => Steps(b, current, ms[1..])
      case Some(l) =>
        if current.None? then (b, Some(UnboundLocalError))
        else Steps(AddStatus(b, current.value, l), current, ms[1..])
  }

  /** `read(f)` on a dictionary holding `b`, where `lines` is `f.readlines()`. */
  function ReadFile(b: Buckets, lines: seq<string>): (Buckets, Option<Exception>) {
    Steps(b, None, Classified(lines))
  }

  /** `DebsecCveFile`: a dictionary from codename to the advisories stated for it. */
  class DebsecCveFile {
    var buckets: Buckets

    constructor ()
      ensures buckets == map[]
    {
      buckets := map[];
    }

    /** `_read_source`: `setdefault` the bucket, then store the advisory unless the tag drops it. */
    method ReadSource(cveId: string, l: Line)
      requires l.Status?
      modifies this
      ensures buckets == AddStatus(old(buckets), cveId, l)
    {
      var name := if l.codename.Some? then l.codename.value else "";
      var perCodename := if name in buckets then buckets[name] else map[];
      buckets := buckets[name := perCodename];
      if l.tag == Some("removed") || l.tag == Some("not-affected") {
        return;
      }
      perCodename := perCodename[(cveId, l.source) := DebsecCveRow(None, cveId, None, l.source, l.versionFixed, l.tag, l.note)];
      buckets := buckets[name := perCodename];
    }

    /**
     * `read`: the lines of the file (`readlines`, so each ends in its
     * newline) one by one; the exception raised, if any.
     */
    method Read(lines: seq<string>) returns (err: Option<Exception>)
      modifies this
      ensures (buckets, err) == ReadFile(old(buckets), lines)
    {
      var current: Option<string> := None;
      var i := 0;
      ghost var ms := Classified(lines);
      while i < |lines|
        invariant 0 <= i <= |lines|
        invariant ReadFile(old(buckets), lines) == Steps(buckets, current, ms[i..])
      {
        assert ms[i..][1..] == ms[i + 1..];
        var m := Classify(lines[i]);
        assert ms[i..][0] == m;
        if m.None? {
          return Some(RuntimeError);
        }
        var l := m.value;
        if l.Header? {
          current := Some(l.id);
        } else if l.Status? {
          if current.None? {
            return Some(UnboundLocalError);
          }
          ReadSource(current.value, l);
        }
        i := i + 1;
      }
      return None;
    }
  }

  // ------------------------------------------------------------ what reading promises

  /**
   * Every stored advisory sits under its own (cve_id, source), belongs to no
   * distribution yet, has a fixed version exactly when it has no tag, and
   * never carries a dropping tag.
   */
  predicate GoodBuckets(b: Buckets) {
    forall c, k :: c in b && k in b[c] ==>
      && b[c][k].cveId == k.0 && b[c][k].debSource == k.1 && b[c][k].distId.None?
      && (b[c][k].debsecTag.None? <==> b[c][k].debVersionFixed.Some?)
      && b[c][k].debsecTag != Some("removed") && b[c][k].debsecTag != Some("not-affected")
  }

  /** Every classified line is what a match can produce. */
  predicate GoodLines(ms: seq<Option<Line>>) {
    forall i :: 0 <= i < |ms| && ms[i].Some? ==> WellFormed(ms[i].value)
  }

  /**
   * A status line creates its codename's bucket (also when its tag drops
   * it), leaves every other bucket alone, and stores, replacing any earlier
   * one, the advisory for (cveId, source) unless the tag is `removed` or
   * `not-affected`.
   */
  lemma AddStatusSpec(b: Buckets, cveId: string, l: Line)
    requires l.Status? && WellFormed(l)
    ensures var r := AddStatus(b, cveId, l);
      && r.Keys == b.Keys + {BucketName(l)}
      && (forall c :: c in b && c != BucketName(l) ==> r[c] == b[c])
      && (Dropped(l) ==> r[BucketName(l)] == Bucket(b, BucketName(l)))
      && (!Dropped(l) ==> (&& r[BucketName(l)].Keys == Bucket(b, BucketName(l)).Keys + {(cveId, l.source)}
                           && r[BucketName(l)][(cveId, l.source)] == EntryOf(cveId, l)))
      && (GoodBuckets(b) ==> GoodBuckets(r))
  {
  }

  /** Reading keeps the buckets well formed. */
  lemma {:induction false} ReadGood(b: Buckets, current: Option<string>, ms: seq<Option<Line>>)
    requires GoodBuckets(b) && GoodLines(ms)
    ensures GoodBuckets(Steps(b, current, ms).0)
    decreases |ms|
  {
    if ms != [] {
      assert GoodLines(ms[1..]) by {
        forall i | 0 <= i < |ms[1..]| && ms[1..][i].Some? ensures WellFormed(ms[1..][i].value) {
          assert ms[1..][i] == ms[i + 1];
        }
      }
      match ms[0]
      case None =>
      case Some(Header(id)) => ReadGood(b, Some(id), ms[1..]);
      case Some(Ignored) => ReadGood(b, current, ms[1..]);
      case Some(l) =>
        if current.Some? {
          AddStatusSpec(b, current.value, l);
          ReadGood(AddStatus(b, current.value, l), current, ms[1..]);
        }
    }
  }

  /** The buckets a successful or failing read leaves are well formed. */
  lemma ReadFileGood(b: Buckets, lines: seq<string>)
    requires GoodBuckets(b)
    ensures GoodBuckets(ReadFile(b, lines).0)
  {
    ReadGood(b, None, Classified(lines));
  }

  /** Header and ignored lines store nothing: a file of only those leaves the dictionary as it was. */
  lemma {:induction false} IgnoredOnly(b: Buckets, current: Option<string>, ms: seq<Option<Line>>)
    requires forall i :: 0 <= i < |ms| ==> ms[i].Some? && !ms[i].value.Status?
    ensures Steps(b, current, ms) == (b, None)
    decreases |ms|
  {
    if ms != [] {
      assert forall i :: 0 <= i < |ms[1..]| ==> ms[1..][i] == ms[i + 1];
      match ms[0]
      case Some(Header(id)) => IgnoredOnly(b, Some(id), ms[1..]);
      case Some(Ignored) => IgnoredOnly(b, current, ms[1..]);
    }
  }

  /**
   * A line of no recognised shape raises `RuntimeError`; what the lines
   * before it stored stays in the dictionary, and nothing after it is read.
   */
  lemma {:induction false} FailingLine(b: Buckets, current: Option<string>, ms: seq<Option<Line>>, rest: seq<Option<Line>>)
    requires Steps(b, current, ms).1.None?
    ensures Steps(b, current, ms + [None] + rest) == (Steps(b, current, ms).0, Some(RuntimeError))
    decreases |ms|
  {
    var all := ms + [None] + rest;
    if ms == [] {
      assert all[0] == None;
    } else {
      assert all[0] == ms[0];
      assert all[1..] == ms[1..] + [None] + rest;
      match ms[0]
      case Some(Header(id)) => FailingLine(b, Some(id), ms[1..], rest);
      case Some(Ignored) => FailingLine(b, current, ms[1..], rest);
      case Some(l) => FailingLine(AddStatus(b, current.value, l), current, ms[1..], rest);
    }
  }

  /** A status line before the first header finds `current_id` unbound: `UnboundLocalError`, nothing stored. */
  lemma {:induction false} StatusBeforeHeader(b: Buckets, ms: seq<Option<Line>>, i: nat)
    requires i < |ms|
    requires forall j :: 0 <= j < i ==> ms[j] == Some(Ignored)
    requires ms[i].Some? && ms[i].value.Status?
    ensures Steps(b, None, ms) == (b, Some(UnboundLocalError))
    decreases i
  {
    if i > 0 {
      assert forall j :: 0 <= j < i - 1 ==> ms[1..][j] == ms[j + 1];
      StatusBeforeHeader(b, ms[1..], i - 1);
    }
  }

  /** The id of the last header among `ms`, or `current` if there is none. */
  function LastId(current: Option<string>, ms: seq<Option<Line>>): Option<string>
    decreases |ms|
  {
    if ms == [] then current
    else
      match ms[0]
      case Some(Header(id)) => LastId(Some(id), ms[1..])
      case _ => LastId(current, ms[1..])
  }

  /**
   * Reading is a left-to-right pass: reading `xs + ys` is reading `ys` on
   * what `xs` left, with the id of the last header in `xs`.
   */
  lemma {:induction false} StepsAppend(b: Buckets, current: Option<string>, xs: seq<Option<Line>>, ys: seq<Option<Line>>)
    requires Steps(b, current, xs).1.None?
    ensures Steps(b, current, xs + ys) == Steps(Steps(b, current, xs).0, LastId(current, xs), ys)
    decreases |xs|
  {
    if xs == [] {
      assert xs + ys == ys;
    } else {
      assert (xs + ys)[0] == xs[0];
      assert (xs + ys)[1..] == xs[1..] + ys;
      match xs[0]
      case Some(Header(id)) => StepsAppend(b, Some(id), xs[1..], ys);
      case Some(Ignored) => StepsAppend(b, current, xs[1..], ys);
      case Some(l) => StepsAppend(AddStatus(b, current.value, l), current, xs[1..], ys);
    }
  }

  /**
   * A status line is attributed to the id of the last header before it:
   * after a successful pass over `xs`, a status line `l` whose tag does
   * not drop it stores its advisory for that id, replacing any earlier one.
   */
  lemma StatusAttribution(b: Buckets, current: Option<string>, xs: seq<Option<Line>>, l: Line)
    requires Steps(b, current, xs).1.None?
    requires l.Status? && !Dropped(l)
    requires LastId(current, xs).Some?
    ensures var id := LastId(current, xs).value;
      var r := Steps(b, current, xs + [Some(l)]);
      && r.1.None?
      && BucketName(l) in r.0 && (id, l.source) in r.0[BucketName(l)]
      && r.0[BucketName(l)][(id, l.source)] == EntryOf(id, l)
  {
    StepsAppend(b, current, xs, [Some(l)]);
    assert [Some(l)][1..] == [];
  }

  /** The lines of one CVE's block: every one recognised, none a header. */
  predicate Block(ms: seq<Option<Line>>) {
    forall i :: 0 <= i < |ms| ==> ms[i].Some? && !ms[i].value.Header?
  }

  /** The codename buckets the status lines of `ms` name. */
  function Names(ms: seq<Option<Line>>): set<string>
    decreases |ms|
  {
    if ms == [] then {}
    else (if ms[0].Some? && ms[0].value.Status? then {BucketName(ms[0].value)} else {}) + Names(ms[1..])
  }

  /** The keys the status lines of `ms` store for `id` in bucket `name`. */
  function Stored(ms: seq<Option<Line>>, id: string, name: string): set<(string, string)>
    decreases |ms|
  {
    if ms == [] then {}
    else
      var l := ms[0];
      (if l.Some? && l.value.Status? && BucketName(l.value) == name && !Dropped(l.value) then {(id, l.value.source)} else {})
      + Stored(ms[1..], id, name)
  }

  lemma BlockTail(ms: seq<Option<Line>>)
    requires ms != [] && Block(ms)
    ensures Block(ms[1..]) && ms[0].Some? && !ms[0].value.Header?
  {
    forall i | 0 <= i < |ms[1..]| ensures ms[1..][i].Some? && !ms[1..][i].value.Header? {
      assert ms[1..][i] == ms[i + 1];
    }
  }

  /** One status line adds its own key, if any, to its own bucket only. */
  lemma AddStatusKeys(b: Buckets, id: string, l: Line)
    requires l.Status?
    ensures var r := AddStatus(b, id, l);
      && r.Keys == b.Keys + {BucketName(l)}
      && forall n :: Bucket(r, n).Keys == Bucket(b, n).Keys + (if BucketName(l) == n && !Dropped(l) then {(id, l.source)} else {})
  {
  }

  /**
   * Reading one CVE's block after its header raises nothing; it adds a
   * bucket for every codename a status line names (dropped or not), and
   * to each bucket the (id, source) keys of the lines for that codename
   * whose tag does not drop them.
   */
  lemma {:induction false} ReadBlock(b: Buckets, id: string, ms: seq<Option<Line>>)
    requires Block(ms)
    ensures var r := Steps(b, Some(id), ms);
      && r.1.None?
      && r.0.Keys == b.Keys + Names(ms)
      && forall n :: Bucket(r.0, n).Keys == Bucket(b, n).Keys + Stored(ms, id, n)
    decreases |ms|
  {
    if ms != [] {
      BlockTail(ms);
      var l := ms[0].value;
      if l.Status? {
        BlockStatus(b, id, ms);
      } else {
        ReadBlock(b, id, ms[1..]);
        assert Steps(b, Some(id), ms) == Steps(b, Some(id), ms[1..]);
      }
    }
  }

  /** The induction step of `ReadBlock` for a status line. */
  lemma {:induction false} BlockStatus(b: Buckets, id: string, ms: seq<Option<Line>>)
    requires ms != [] && Block(ms) && ms[0].value.Status?
    ensures var r := Steps(b, Some(id), ms);
      && r.1.None?
      && r.0.Keys == b.Keys + Names(ms)
      && forall n :: Bucket(r.0, n).Keys == Bucket(b, n).Keys + Stored(ms, id, n)
    decreases |ms|, 0
  {
    BlockTail(ms);
    var l := ms[0].value;
    var b' := AddStatus(b, id, l);
    AddStatusKeys(b, id, l);
    ReadBlock(b', id, ms[1..]);
    assert Steps(b, Some(id), ms) == Steps(b', Some(id), ms[1..]);
  }
}
