/**
 * CPE 2.3 formatted-string names: the `Cpe` record, its parser (an
 * anchored regular expression with lazy fields and backtracking) and its
 * serialisation, with the escaping of punctuation inside fields.
 */
module CpeNames {
  import opened Wrappers

  datatype CpePart = APPLICATION | OS | HARDWARE

  function PartCode(p: CpePart): char {
    match p
    case APPLICATION => 'a'
    case OS => 'o'
    case HARDWARE => 'h'
  }

  /**
   * A field value: the logical value NA (written "-", `None` in Python),
   * ANY (written "*", the `CpeAny` marker) or a concrete value.
   */
  datatype Comp<T> = Absent | Any | Concrete(value: T)

  datatype Cpe = Cpe(
    part: Comp<CpePart>, vendor: Comp<string>, product: Comp<string>,
    version: Comp<string>, update: Comp<string>, lang: Comp<string>,
    swEdition: Comp<string>, targetSw: Comp<string>, targetHw: Comp<string>,
    other: Comp<string>)

  /** `Cpe()`: every field ANY. */
  function Default(): Cpe {
    Cpe(Any, Any, Any, Any, Any, Any, Any, Any, Any, Any)
  }

  // ---------------------------------------------------------------- escaping

  /** The punctuation the serialiser escapes with a backslash (and the parser un-escapes). */
  predicate IsQuoted(c: char) {
    c in {'!', '"', '#', '$', '%', '&', '\'', '(', ')', '+', ',', '/', ':', ';', '<', '=', '>', '@',
          '[', ']', '^', '`', '{', '|', '}', '~'}
  }

  /** Escape every quoted character with a backslash. */
  function Quote(s: string): (r: string)
    ensures |r| >= |s|
    decreases |s|
  {
    if s == [] then []
    else if IsQuoted(s[0]) then ['\\', s[0]] + Quote(s[1..])
    else [s[0]] + Quote(s[1..])
  }

  /** Drop the backslash in front of every quoted character, scanning left to right. */
  function Unquote(s: string): string
    decreases |s|
  {
    if s == [] then []
    else if |s| >= 2 && s[0] == '\\' && IsQuoted(s[1]) then [s[1]] + Unquote(s[2..])
    else [s[0]] + Unquote(s[1..])
  }

  /** Un-escaping undoes escaping, for every string. */
  lemma {:induction false} UnquoteQuote(s: string)
    ensures Unquote(Quote(s)) == s
    decreases |s|
  {
    if s != [] {
      UnquoteQuote(s[1..]);
      var q := Quote(s[1..]);
      if IsQuoted(s[0]) {
        assert Quote(s) == ['\\', s[0]] + q;
        assert (['\\', s[0]] + q)[2..] == q;
      } else {
        assert Quote(s) == [s[0]] + q;
        if s[0] == '\\' && |q| > 0 {
          QuoteHead(s[1..]);
        }
        assert ([s[0]] + q)[1..] == q;
      }
      assert s == [s[0]] + s[1..];
    }
  }

  /** An escaped string never starts with a bare quoted character. */
  lemma QuoteHead(s: string)
    requires s != []
    ensures !IsQuoted(Quote(s)[0])
  {
  }

  /**
   * An escaped string has no newline unless the original has one, and every
   * colon in it is preceded by a backslash, so it contains no separator.
   */
  lemma {:induction false} QuoteColons(s: string)
    ensures '\n' !in s ==> '\n' !in Quote(s)
    ensures forall j :: 0 <= j < |Quote(s)| && Quote(s)[j] == ':' ==> j > 0 && Quote(s)[j - 1] == '\\'
    decreases |s|
  {
    if s != [] {
      QuoteColons(s[1..]);
      var q := Quote(s[1..]);
      if IsQuoted(s[0]) {
        assert Quote(s) == ['\\', s[0]] + q;
        assert forall j :: 2 <= j < |Quote(s)| ==> Quote(s)[j] == q[j - 2];
      } else {
        assert Quote(s) == [s[0]] + q;
        assert forall j :: 1 <= j < |Quote(s)| ==> Quote(s)[j] == q[j - 1];
      }
    }
  }

  /** Escaping keeps the last character (only ever a backslash is inserted, before a character). */
  lemma {:induction false} QuoteLast(s: string)
    requires s != []
    ensures Quote(s) != [] && Quote(s)[|Quote(s)| - 1] == s[|s| - 1]
    decreases |s|
  {
    if |s| > 1 {
      QuoteLast(s[1..]);
    }
  }

  /** The two one-character markers are only produced by themselves. */
  lemma QuoteMarkers(s: string)
    ensures Quote(s) == "-" ==> s == "-"
    ensures Quote(s) == "*" ==> s == "*"
  {
    if |s| >= 2 {
      assert |Quote(s)| >= 2;
    } else if |s| == 1 {
      assert s == [s[0]];
    }
  }

  // ---------------------------------------------------------------- matching

  /**
   * The regular expression after the part letter, as a list: a lazy field
   * ending at a colon not preceded by a backslash, the literal "*:" of the
   * edition slot, and the last field, which runs to `$`.
   */
  datatype Pattern = Last | Field(next: Pattern) | Star(next: Pattern)

  /** vendor, product, version, update, the edition slot, lang, sw_edition, target_sw, target_hw, other. */
  const Fields: Pattern :=
    Field(Field(Field(Field(Star(Field(Field(Field(Field(Last)))))))))

  /** The number of groups a pattern captures. */
  function Captures(pat: Pattern): nat {
    match pat
    case Last => 1
    case Field(next) => 1 + Captures(next)
    case Star(next) => Captures(next)
  }

  /** `$` without MULTILINE: the end of the string, or just before a final newline. */
  predicate AtEnd(s: string, e: nat) {
    e == |s| || (e + 1 == |s| && s[e] == '\n')
  }

  /**
   * Match `pat` from position `p` of `s` the way the backtracking engine
   * does: each lazy field tries its shortest extent first and only grows
   * (never over a newline) when the rest of the pattern fails. Returns the
   * captured groups.
   */
  function MatchFrom(s: string, pat: Pattern, p: nat): (r: Option<seq<string>>)
    requires 1 <= p <= |s|
    ensures r.Some? ==> |r.value| == Captures(pat)
    decreases pat, |s| - p + 1
  {
    match pat
    case Last => TryLast(s, p, p)
    case Star(next) =>
      if p + 2 <= |s| && s[p] == '*' && s[p + 1] == ':' then MatchFrom(s, next, p + 2) else None
    case Field(_) => TryField(s, pat, p, p)
  }

  /** The field that starts at `p` tries to end at `e`, then at `e + 1`, ... */
  function TryField(s: string, pat: Pattern, p: nat, e: nat): (r: Option<seq<string>>)
    requires pat.Field? && 1 <= p <= e <= |s|
    ensures r.Some? ==> |r.value| == Captures(pat)
    decreases pat, |s| - e
  {
    if e == |s| then None
    else
      var here := if s[e] == ':' && s[e - 1] != '\\' then MatchFrom(s, pat.next, e + 1) else None;
      if here.Some? then Some([s[p..e]] + here.value)
      else if s[e] == '\n' then None
      else TryField(s, pat, p, e + 1)
  }

  /** The last field: the shortest extent after which `$` holds. */
  function TryLast(s: string, p: nat, e: nat): (r: Option<seq<string>>)
    requires p <= e <= |s|
    ensures r.Some? ==> |r.value| == 1
    decreases |s| - e
  {
    if AtEnd(s, e) then Some([s[p..e]])
    else if s[e] == '\n' then None
    else TryLast(s, p, e + 1)
  }

  /** The text a pattern lays out for the given groups. */
  function Layout(pat: Pattern, g: seq<string>): string
    requires |g| == Captures(pat)
  {
    match pat
    case Last => g[0]
    case Star(next) => "*:" + Layout(next, g)
    case Field(next) => g[0] + ":" + Layout(next, g[1..])
  }

  /** A field text that the lazy field reproduces exactly: no newline, only escaped colons, no final backslash. */
  predicate FieldSafe(x: string) {
    && '\n' !in x
    && (forall j :: 0 <= j < |x| && x[j] == ':' ==> j > 0 && x[j - 1] == '\\')
    && (x == [] || x[|x| - 1] != '\\')
  }

  predicate LayoutSafe(pat: Pattern, g: seq<string>)
    requires |g| == Captures(pat)
  {
    match pat
    case Last => '\n' !in g[0]
    case Star(next) => LayoutSafe(next, g)
    case Field(next) => FieldSafe(g[0]) && LayoutSafe(next, g[1..])
  }

  lemma {:induction false} TryLastExact(s: string, p: nat, e: nat)
    requires p <= e <= |s| && '\n' !in s[p..]
    ensures TryLast(s, p, e) == Some([s[p..]])
    decreases |s| - e
  {
    if e < |s| {
      assert s[e] == s[p..][e - p];
      TryLastExact(s, p, e + 1);
    } else {
      assert s[p..e] == s[p..];
    }
  }

  lemma {:induction false} TryFieldSkip(s: string, pat: Pattern, p: nat, e: nat, x: string)
    requires pat.Field? && 1 <= p <= e <= p + |x| < |s|
    requires s[p..p + |x|] == x && FieldSafe(x)
    requires forall k :: p <= k < p + |x| && s[k] == ':' ==> s[k - 1] == '\\'
    ensures TryField(s, pat, p, e) == TryField(s, pat, p, p + |x|)
    decreases p + |x| - e
  {
    if e < p + |x| {
      assert s[e] == x[e - p];
      TryFieldSkip(s, pat, p, e + 1, x);
    }
  }

  /** Completeness: a text laid out from safe groups is matched, and the groups come back. */
  lemma {:induction false} MatchLayout(s: string, pat: Pattern, g: seq<string>, p: nat)
    requires 1 <= p <= |s| && s[p - 1] != '\\'
    requires |g| == Captures(pat) && LayoutSafe(pat, g)
    requires s[p..] == Layout(pat, g)
    ensures MatchFrom(s, pat, p) == Some(g)
    decreases pat
  {
    match pat
    case Last =>
      TryLastExact(s, p, p);
      assert g == [g[0]];
    case Star(next) =>
      assert s[p..][..2] == "*:";
      assert s[p + 2..] == s[p..][2..];
      MatchLayout(s, next, g, p + 2);
    case Field(next) =>
      FieldSplit(s, g[0], Layout(next, g[1..]), p);
      MatchLayout(s, next, g[1..], p + |g[0]| + 1);
      TryFieldSkip(s, pat, p, p, g[0]);
      assert g == [g[0]] + g[1..];
  }

  /** The facts about one safe field at the front of `s[p..]` that the lazy field scan needs. */
  lemma FieldSplit(s: string, x: string, rest: string, p: nat)
    requires 1 <= p <= |s| && s[p - 1] != '\\'
    requires s[p..] == x + ":" + rest && FieldSafe(x)
    ensures p + |x| < |s| && s[p..p + |x|] == x && s[p + |x|] == ':' && s[p + |x| + 1..] == rest
    ensures s[p + |x| - 1] != '\\'
    ensures forall k :: p <= k < p + |x| && s[k] == ':' ==> s[k - 1] == '\\'
  {
    var e := p + |x|;
    assert s[p..][..|x|] == x;
    assert s[p..e] == x;
    assert s[e] == s[p..][|x|] == ':';
    assert s[e + 1..] == s[p..][|x| + 1..];
    forall k | p <= k < e && s[k] == ':'
      ensures s[k - 1] == '\\'
    {
      assert s[k] == x[k - p];
      if k - p > 0 { assert s[k - 1] == x[k - p - 1]; }
    }
    assert s[e - 1] != '\\' by {
      if |x| > 0 { assert s[e - 1] == x[|x| - 1]; }
    }
  }

  /**
   * Soundness: whatever is matched is the layout of the captured groups,
   * possibly followed by the one newline `$` lets through.
   */
  lemma {:induction false} MatchSound(s: string, pat: Pattern, p: nat)
    requires 1 <= p <= |s| && MatchFrom(s, pat, p).Some?
    ensures s[p..] == Layout(pat, MatchFrom(s, pat, p).value)
      || s[p..] == Layout(pat, MatchFrom(s, pat, p).value) + "\n"
    decreases pat, |s| - p + 1, 1
  {
    match pat
    case Last =>
      TryLastSound(s, p, p);
    case Star(next) =>
      MatchSound(s, next, p + 2);
      assert s[p..] == "*:" + s[p + 2..];
    case Field(_) =>
      TryFieldSound(s, pat, p, p);
  }

  lemma {:induction false} TryFieldSound(s: string, pat: Pattern, p: nat, e: nat)
    requires pat.Field? && 1 <= p <= e <= |s| && TryField(s, pat, p, e).Some?
    ensures s[p..] == Layout(pat, TryField(s, pat, p, e).value)
      || s[p..] == Layout(pat, TryField(s, pat, p, e).value) + "\n"
    decreases pat, |s| - e, 0
  {
    var here := if s[e] == ':' && s[e - 1] != '\\' then MatchFrom(s, pat.next, e + 1) else None;
    if here.Some? {
      MatchSound(s, pat.next, e + 1);
      var g := TryField(s, pat, p, e).value;
      assert g == [s[p..e]] + here.value;
      assert g[1..] == here.value;
      assert s[p..] == s[p..e] + ":" + s[e + 1..];
    } else {
      TryFieldSound(s, pat, p, e + 1);
    }
  }

  lemma {:induction false} TryLastSound(s: string, p: nat, e: nat)
    requires p <= e <= |s| && TryLast(s, p, e).Some?
    ensures s[p..] == TryLast(s, p, e).value[0] || s[p..] == TryLast(s, p, e).value[0] + "\n"
    decreases |s| - e
  {
    if !AtEnd(s, e) {
      TryLastSound(s, p, e + 1);
    } else if e + 1 == |s| {
      assert s[p..] == s[p..e] + "\n";
    }
  }

  // ---------------------------------------------------------------- parsing

  /** `^cpe:2.3:` and the part letter, under IGNORECASE; the `.` accepts any character but a newline. */
  predicate PrefixMatches(s: string) {
    && |s| >= 10
    && (s[0] == 'c' || s[0] == 'C') && (s[1] == 'p' || s[1] == 'P') && (s[2] == 'e' || s[2] == 'E')
    && s[3] == ':' && s[4] == '2' && s[5] != '\n' && s[6] == '3' && s[7] == ':'
    && s[8] in "hoaHOA*-" && s[9] == ':'
  }

  /** `_parse_one` for a string field. */
  function ParseOne(v: string): Comp<string> {
    if v == "-" then Absent else if v == "*" then Any else Concrete(Unquote(v))
  }

  /** `_parse_one` for the part: the `CpePart` factory only knows the lower-case letters. */
  function ParsePart(v: string): (r: Result<Comp<CpePart>>)
    ensures r.Ok? <==> v in ["-", "*", "a", "o", "h"]
  {
    if v == "-" then Ok(Absent)
    else if v == "*" then Ok(Any)
    else if v == "a" then Ok(Concrete(APPLICATION))
    else if v == "o" then Ok(Concrete(OS))
    else if v == "h" then Ok(Concrete(HARDWARE))
    else Err(ValueError)
  }

  /** `Cpe.parse`: `ValueError` when the expression does not match or the part is upper case. */
  function Parse(s: string): Result<Cpe> {
    if !PrefixMatches(s) then Err(ValueError)
    else
      match MatchFrom(s, Fields, 10)
      case None => Err(ValueError)
      case Some(g) =>
        match ParsePart(s[8..9])
        case Err(e) => Err(e)
        case Ok(part) =>
          Ok(Cpe(part, ParseOne(g[0]), ParseOne(g[1]), ParseOne(g[2]), ParseOne(g[3]),
                 ParseOne(g[4]), ParseOne(g[5]), ParseOne(g[6]), ParseOne(g[7]), ParseOne(g[8])))
  }

  /** The dataclass fields in declaration order; `match.group(name)` for each. */
  const FieldNames: seq<string> := ["part", "vendor", "product", "version", "update", "lang",
                                    "sw_edition", "target_sw", "target_hw", "other"]

  /** `Cpe.parse` as written: one `_parse_one` per dataclass field, collected into keyword arguments. */
  method ParseCpe(s: string) returns (r: Result<Cpe>)
    ensures r == Parse(s)
  {
    if !PrefixMatches(s) {
      return Err(ValueError);
    }
    var m := MatchFrom(s, Fields, 10);
    if m.None? {
      return Err(ValueError);
    }
    var groups := [s[8..9]] + m.value;
    var part: Comp<CpePart> := Any;
    var kw: map<string, Comp<string>> := map[];
    for i := 0 to |FieldNames|
      invariant i > 0 ==> ParsePart(s[8..9]) == Ok(part)
      invariant forall j :: 1 <= j < i ==> FieldNames[j] in kw && kw[FieldNames[j]] == ParseOne(groups[j])
    {
      if FieldNames[i] == "part" {
        var p := ParsePart(groups[i]);
        if p.Err? {
          return Err(p.error);
        }
        part := p.value;
      } else {
        kw := kw[FieldNames[i] := ParseOne(groups[i])];
      }
    }
    assert FieldNames[1] in kw && FieldNames[2] in kw && FieldNames[3] in kw;
    assert FieldNames[4] in kw && FieldNames[5] in kw && FieldNames[6] in kw;
    assert FieldNames[7] in kw && FieldNames[8] in kw && FieldNames[9] in kw;
    return Ok(Cpe(part, kw["vendor"], kw["product"], kw["version"], kw["update"], kw["lang"],
                  kw["sw_edition"], kw["target_sw"], kw["target_hw"], kw["other"]));
  }

  // ---------------------------------------------------------------- formatting

  function RenderPart(p: Comp<CpePart>): string {
    match p
    case Absent => "-"
    case Any => "*"
    case Concrete(x) => [PartCode(x)]
  }

  function Render(v: Comp<string>): string {
    match v
    case Absent => "-"
    case Any => "*"
    case Concrete(x) => Quote(x)
  }

  /** `str(cpe)`: the CPE 2.3 template with an always-ANY edition slot. */
  function Format(c: Cpe): string {
    "cpe:2.3:" + RenderPart(c.part) + ":"
    + (Render(c.vendor) + ":" + Render(c.product) + ":" + Render(c.version) + ":" + Render(c.update)
       + ":*:" + Render(c.lang) + ":" + Render(c.swEdition) + ":" + Render(c.targetSw) + ":"
       + Render(c.targetHw) + ":" + Render(c.other))
  }

  /** The rendering of field number `i` (in `FieldNames` order). */
  function Rendered(c: Cpe, i: nat): string
    requires i < 10
  {
    if i == 0 then RenderPart(c.part)
    else if i == 1 then Render(c.vendor)
    else if i == 2 then Render(c.product)
    else if i == 3 then Render(c.version)
    else if i == 4 then Render(c.update)
    else if i == 5 then Render(c.lang)
    else if i == 6 then Render(c.swEdition)
    else if i == 7 then Render(c.targetSw)
    else if i == 8 then Render(c.targetHw)
    else Render(c.other)
  }

  /** `Cpe.__str__` as written: render each field into a dictionary, then fill the template. */
  method ToStr(c: Cpe) returns (s: string)
    ensures s == Format(c)
  {
    var m: map<string, string> := map[];
    for i := 0 to |FieldNames|
      invariant forall j :: 0 <= j < i ==> FieldNames[j] in m && m[FieldNames[j]] == Rendered(c, j)
    {
      m := m[FieldNames[i] := Rendered(c, i)];
    }
    assert FieldNames[0] in m && FieldNames[1] in m && FieldNames[2] in m && FieldNames[3] in m;
    assert FieldNames[4] in m && FieldNames[5] in m && FieldNames[6] in m;
    assert FieldNames[7] in m && FieldNames[8] in m && FieldNames[9] in m;
    s := "cpe:2.3:" + m["part"] + ":"
      + (m["vendor"] + ":" + m["product"] + ":" + m["version"] + ":" + m["update"] + ":*:" + m["lang"] + ":"
         + m["sw_edition"] + ":" + m["target_sw"] + ":" + m["target_hw"] + ":" + m["other"]);
  }

  // ---------------------------------------------------------------- round trip

  /** A concrete field value that survives formatting and parsing. */
  predicate FieldValueOk(v: Comp<string>) {
    v.Concrete? ==>
      && v.value != "-" && v.value != "*" && '\n' !in v.value
      && (v.value == [] || v.value[|v.value| - 1] != '\\')
  }

  /** The last field is ended by `$`, not by a separator, so a final backslash does no harm there. */
  predicate LastValueOk(v: Comp<string>) {
    v.Concrete? ==> v.value != "-" && v.value != "*" && '\n' !in v.value
  }

  /**
   * No concrete field is "-" or "*" (they would read back as NA / ANY) or
   * holds a newline (`.` does not match one), and no field but the last
   * ends with a backslash (it would escape the following separator).
   */
  predicate RoundTrips(c: Cpe) {
    FieldValueOk(c.vendor) && FieldValueOk(c.product) && FieldValueOk(c.version)
    && FieldValueOk(c.update) && FieldValueOk(c.lang) && FieldValueOk(c.swEdition)
    && FieldValueOk(c.targetSw) && FieldValueOk(c.targetHw) && LastValueOk(c.other)
  }

  function Groups(c: Cpe): seq<string> {
    [Render(c.vendor), Render(c.product), Render(c.version), Render(c.update), Render(c.lang),
     Render(c.swEdition), Render(c.targetSw), Render(c.targetHw), Render(c.other)]
  }

  lemma RenderSafe(v: Comp<string>)
    requires FieldValueOk(v)
    ensures FieldSafe(Render(v)) && ParseOne(Render(v)) == v
  {
    if v.Concrete? {
      QuotedSafe(v.value);
      QuoteMarkers(v.value);
      UnquoteQuote(v.value);
    }
  }

  /** The last field renders without a newline and decodes back, whatever it ends with. */
  lemma RenderLast(v: Comp<string>)
    requires LastValueOk(v)
    ensures '\n' !in Render(v) && ParseOne(Render(v)) == v
  {
    if v.Concrete? {
      QuoteColons(v.value);
      QuoteMarkers(v.value);
      UnquoteQuote(v.value);
    }
  }

  /** An escaped value without a newline or a final backslash is a safe field. */
  lemma QuotedSafe(x: string)
    requires '\n' !in x && (x == [] || x[|x| - 1] != '\\')
    ensures FieldSafe(Quote(x))
  {
    if x != [] { QuoteLast(x); }
    QuoteColons(x);
  }

  /** The template behind `Fields`, written out. */
  lemma LayoutFieldsText(g: seq<string>)
    requires |g| == 9
    ensures Captures(Fields) == 9
    ensures Layout(Fields, g) == g[0] + ":" + g[1] + ":" + g[2] + ":" + g[3] + ":*:" + g[4] + ":"
                                 + g[5] + ":" + g[6] + ":" + g[7] + ":" + g[8]
  {
    var q1 := Field(Last);
    var q2 := Field(q1);
    var q3 := Field(q2);
    var q4 := Field(q3);
    var q5 := Star(q4);
    var q6 := Field(q5);
    var q7 := Field(q6);
    var q8 := Field(q7);
    assert Fields == Field(q8);
    assert g[7..][1..] == g[8..];
    assert Layout(Last, g[8..]) == g[8];
    var l1 := Layout(q1, g[7..]);
    assert l1 == g[7] + ":" + g[8];
    assert g[6..][1..] == g[7..];
    var l2 := Layout(q2, g[6..]);
    assert l2 == g[6] + ":" + l1;
    assert g[5..][1..] == g[6..];
    var l3 := Layout(q3, g[5..]);
    assert l3 == g[5] + ":" + l2;
    assert g[4..][1..] == g[5..];
    var l4 := Layout(q4, g[4..]);
    assert l4 == g[4] + ":" + l3;
    var l5 := Layout(q5, g[4..]);
    assert l5 == "*:" + l4;
    assert g[3..][1..] == g[4..];
    var l6 := Layout(q6, g[3..]);
    assert l6 == g[3] + ":" + l5;
    assert g[2..][1..] == g[3..];
    var l7 := Layout(q7, g[2..]);
    assert l7 == g[2] + ":" + l6;
    assert g[1..][1..] == g[2..];
    var l8 := Layout(q8, g[1..]);
    assert l8 == g[1] + ":" + l7;
    assert Layout(Fields, g) == g[0] + ":" + l8;
    var p1 := g[0] + ":";
    Shift(p1, g[1], l7);
    var p2 := p1 + g[1] + ":";
    Shift(p2, g[2], l6);
    var p3 := p2 + g[2] + ":";
    Shift(p3, g[3], l5);
    ShiftStar(p3 + g[3], l4);
    var p4 := p3 + g[3] + ":*:";
    Shift(p4, g[4], l3);
    var p5 := p4 + g[4] + ":";
    Shift(p5, g[5], l2);
    var p6 := p5 + g[5] + ":";
    Shift(p6, g[6], l1);
    var p7 := p6 + g[6] + ":";
    Shift(p7, g[7], g[8]);
  }

  /** Moving one field and its colon onto a left-nested prefix. */
  lemma Shift(p: string, x: string, y: string)
    ensures p + (x + ":" + y) == p + x + ":" + y
  {
  }

  lemma ShiftStar(p: string, y: string)
    ensures p + ":" + ("*:" + y) == p + ":*:" + y
  {
  }

  /** The safety condition behind `Fields`, written out. */
  lemma LayoutFieldsSafe(g: seq<string>)
    requires |g| == 9
    ensures Captures(Fields) == 9
    ensures LayoutSafe(Fields, g) <==>
              FieldSafe(g[0]) && FieldSafe(g[1]) && FieldSafe(g[2]) && FieldSafe(g[3]) && FieldSafe(g[4])
              && FieldSafe(g[5]) && FieldSafe(g[6]) && FieldSafe(g[7]) && '\n' !in g[8]
  {
    var q1 := Field(Last);
    var q2 := Field(q1);
    var q3 := Field(q2);
    var q4 := Field(q3);
    var q5 := Star(q4);
    var q6 := Field(q5);
    var q7 := Field(q6);
    var q8 := Field(q7);
    assert Fields == Field(q8);
    var l1 := g[7] + ":" + g[8];
    assert g[7..][1..] == g[8..];
    assert LayoutSafe(q1, g[7..]) <==> FieldSafe(g[7]) && '\n' !in g[8];
    assert g[6..][1..] == g[7..];
    assert LayoutSafe(q2, g[6..]) <==> FieldSafe(g[6]) && LayoutSafe(q1, g[7..]);
    assert g[5..][1..] == g[6..];
    assert LayoutSafe(q3, g[5..]) <==> FieldSafe(g[5]) && LayoutSafe(q2, g[6..]);
    assert g[4..][1..] == g[5..];
    assert LayoutSafe(q4, g[4..]) <==> FieldSafe(g[4]) && LayoutSafe(q3, g[5..]);
    assert LayoutSafe(q5, g[4..]) <==> LayoutSafe(q4, g[4..]);
    assert g[3..][1..] == g[4..];
    assert LayoutSafe(q6, g[3..]) <==> FieldSafe(g[3]) && LayoutSafe(q5, g[4..]);
    assert g[2..][1..] == g[3..];
    assert LayoutSafe(q7, g[2..]) <==> FieldSafe(g[2]) && LayoutSafe(q6, g[3..]);
    assert g[1..][1..] == g[2..];
    assert LayoutSafe(q8, g[1..]) <==> FieldSafe(g[1]) && LayoutSafe(q7, g[2..]);
    assert LayoutSafe(Fields, g) <==> FieldSafe(g[0]) && LayoutSafe(q8, g[1..]);
  }

  lemma FormatLayout(c: Cpe)
    ensures Captures(Fields) == 9
    ensures Format(c)[10..] == Layout(Fields, Groups(c))
    ensures PrefixMatches(Format(c)) && Format(c)[8..9] == RenderPart(c.part)
  {
    var g := Groups(c);
    LayoutFieldsText(g);
    var head := "cpe:2.3:" + RenderPart(c.part) + ":";
    var body := Layout(Fields, g);
    assert |RenderPart(c.part)| == 1;
    assert |head| == 10;
    assert Format(c) == head + body;
    HeadPrefix(head, body, c.part);
  }

  lemma HeadPrefix(head: string, body: string, part: Comp<CpePart>)
    requires head == "cpe:2.3:" + RenderPart(part) + ":"
    ensures PrefixMatches(head + body) && (head + body)[8..9] == RenderPart(part) && (head + body)[10..] == body
  {
    assert |RenderPart(part)| == 1;
    var f := head + body;
    assert f[..10] == head;
  }


  /** Parsing the serialisation gives the record back (the parse/serialise round trip). */
  lemma ParseFormat(c: Cpe)
    requires RoundTrips(c)
    ensures Parse(Format(c)) == Ok(c)
  {
    var s := Format(c);
    FormatLayout(c);
    var g := Groups(c);
    RenderSafe(c.vendor); RenderSafe(c.product); RenderSafe(c.version); RenderSafe(c.update);
    RenderSafe(c.lang); RenderSafe(c.swEdition); RenderSafe(c.targetSw); RenderSafe(c.targetHw);
    RenderLast(c.other);
    LayoutFieldsText(g);
    LayoutFieldsSafe(g);
    MatchLayout(s, Fields, g, 10);
    assert ParsePart(s[8..9]) == Ok(c.part);
  }

  /** And the other way round: a string is its own serialisation once it is the serialisation of anything. */
  lemma FormatParse(s: string, c: Cpe)
    requires RoundTrips(c) && s == Format(c)
    ensures Parse(s).Ok? && Format(Parse(s).value) == s
  {
    ParseFormat(c);
  }

  /**
   * Every accepted string has the 13-field shape: the prefix, the part,
   * four fields, a literal "*" in the edition slot, five more fields (the
   * last possibly followed by one newline).
   */
  lemma ParseShape(s: string)
    requires Parse(s).Ok?
    ensures PrefixMatches(s) && s[8] in "hoa*-"
    ensures exists g :: |g| == 9 && (s[10..] == Layout(Fields, g) || s[10..] == Layout(Fields, g) + "\n")
  {
    var g := MatchFrom(s, Fields, 10).value;
    MatchSound(s, Fields, 10);
    assert s[8..9] == [s[8]];
  }

  /** The default record serialises to the all-ANY name and reads back. */
  lemma DefaultFormat()
    ensures Format(Default()) == "cpe:2.3:*:*:*:*:*:*:*:*:*:*:*"
    ensures Parse("cpe:2.3:*:*:*:*:*:*:*:*:*:*:*") == Ok(Default())
  {
    var c := Default();
    assert RenderPart(c.part) == "*" && Render(c.vendor) == "*";
    DefaultConcat(RenderPart(c.part), Render(c.vendor));
    ParseFormat(c);
  }

  lemma DefaultConcat(p: string, a: string)
    requires p == "*" && a == "*"
    ensures "cpe:2.3:" + p + ":" + (a + ":" + a + ":" + a + ":" + a + ":*:" + a + ":" + a + ":" + a + ":" + a + ":" + a)
         == "cpe:2.3:*:*:*:*:*:*:*:*:*:*:*"
  {
  }

  lemma StarsText(a: string)
    requires a == "*"
    ensures a + ":" + a + ":" + a + ":" + a + ":*:" + a + ":" + a + ":" + a + ":" + a + ":" + a == "*:*:*:*:*:*:*:*:*:*"
  {
  }

  /** The record of the parser test in `tests/data/test_cpe.py`. */
  function ExampleCpe(): Cpe {
    Cpe(Concrete(HARDWARE), Concrete("a"), Concrete("b"), Concrete("c:%\\*;c"), Concrete("d"),
        Absent, Absent, Absent, Any, Any)
  }

  lemma ExampleQuote()
    ensures Quote("c:%\\*;c") == "c\\:\\%\\*\\;c"
  {
    QuoteTail();
    QuoteStep('%', "\\*;c", "\\*\\;c");
    QuoteStep(':', "%\\*;c", "\\%\\*\\;c");
    QuoteStep('c', ":%\\*;c", "\\:\\%\\*\\;c");
  }

  /** The last four characters of the example, escaped. */
  lemma QuoteTail()
    ensures Quote("\\*;c") == "\\*\\;c"
  {
    QuoteStep('c', "", "");
    QuoteStep(';', "c", "c");
    QuoteStep('*', ";c", "\\;c");
    QuoteStep('\\', "*;c", "*\\;c");
  }

  /** One step of `Quote` on a known tail. */
  lemma QuoteStep(c: char, rest: string, q: string)
    requires Quote(rest) == q
    ensures Quote([c] + rest) == (if IsQuoted(c) then ['\\', c] else [c]) + q
  {
    assert ([c] + rest)[1..] == rest;
  }

  lemma ExampleFormat()
    ensures Format(ExampleCpe()) == "cpe:2.3:h:a:b:c\\:\\%\\*\\;c:d:*:-:-:-:*:*"
  {
    ExampleQuote();
    var c := ExampleCpe();
    assert Render(c.vendor) == "a" by { assert Quote("a") == "a"; }
    assert Render(c.product) == "b" by { assert Quote("b") == "b"; }
    assert Render(c.update) == "d" by { assert Quote("d") == "d"; }
    assert Render(c.version) == "c\\:\\%\\*\\;c";
    assert RenderPart(c.part) == "h";
    assert Render(c.lang) == "-" && Render(c.swEdition) == "-" && Render(c.targetSw) == "-";
    assert Render(c.targetHw) == "*" && Render(c.other) == "*";
    ExampleConcat(RenderPart(c.part), Render(c.vendor), Render(c.product), Render(c.version), Render(c.update),
                  Render(c.lang), Render(c.swEdition), Render(c.targetSw), Render(c.targetHw), Render(c.other));
  }

  lemma ExampleConcat(p: string, v: string, d: string, r: string, u: string, l: string, e: string,
                      s: string, h: string, o: string)
    requires p == "h" && v == "a" && d == "b" && r == "c\\:\\%\\*\\;c" && u == "d"
    requires l == "-" && e == "-" && s == "-" && h == "*" && o == "*"
    ensures "cpe:2.3:" + p + ":" + (v + ":" + d + ":" + r + ":" + u + ":*:" + l + ":" + e + ":" + s + ":" + h + ":" + o)
         == "cpe:2.3:h:a:b:c\\:\\%\\*\\;c:d:*:-:-:-:*:*"
  {
  }

  /** The example of the parser test in `tests/data/test_cpe.py`, both directions. */
  lemma ParseExample()
    ensures Parse("cpe:2.3:h:a:b:c\\:\\%\\*\\;c:d:*:-:-:-:*:*") == Ok(ExampleCpe())
    ensures ExampleCpe().version == Concrete("c:%\\*;c")
    ensures Format(Parse("cpe:2.3:h:a:b:c\\:\\%\\*\\;c:d:*:-:-:-:*:*").value)
         == "cpe:2.3:h:a:b:c\\:\\%\\*\\;c:d:*:-:-:-:*:*"
  {
    ExampleFormat();
    ParseFormat(ExampleCpe());
  }

  /** A name whose thirteen components after the part are all `*`: the part alone decides. */
  lemma ParseAllAny(s: string)
    requires PrefixMatches(s) && s[10..] == "*:*:*:*:*:*:*:*:*:*"
    ensures ParsePart(s[8..9]).Ok? ==> Parse(s) == Ok(Default().(part := ParsePart(s[8..9]).value))
    ensures ParsePart(s[8..9]).Err? ==> Parse(s) == Err(ValueError)
  {
    var g := ["*", "*", "*", "*", "*", "*", "*", "*", "*"];
    LayoutFieldsText(g);
    LayoutFieldsSafe(g);
    assert FieldSafe("*");
    StarsText(g[0]);
    assert Layout(Fields, g) == s[10..];
    MatchLayout(s, Fields, g, 10);
  }

  /** IGNORECASE covers the prefix letters. */
  lemma UpperPrefixExample()
    ensures Parse("CPE:2.3:o:*:*:*:*:*:*:*:*:*:*") == Ok(Default().(part := Concrete(OS)))
  {
    var s := "CPE:2.3:o:*:*:*:*:*:*:*:*:*:*";
    assert s[10..] == "*:*:*:*:*:*:*:*:*:*";
    assert s[8..9] == "o";
    assert PrefixMatches(s);
    ParseAllAny(s);
  }

  /** IGNORECASE also lets an upper-case part letter through the pattern, but `CpePart` rejects it. */
  lemma UpperPartExample()
    ensures Parse("cpe:2.3:O:*:*:*:*:*:*:*:*:*:*") == Err(ValueError)
  {
    var u := "cpe:2.3:O:*:*:*:*:*:*:*:*:*:*";
    assert u[10..] == "*:*:*:*:*:*:*:*:*:*";
    assert u[8..9] == "O";
    assert PrefixMatches(u);
    ParseAllAny(u);
  }
}
