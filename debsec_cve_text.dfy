/**
 * The lines of the tracker's list written back from what they say, and
 * the proof that the line pattern reads each such text as the line it
 * was written from.
 */
module DebsecCveText {
  import opened Wrappers
  import opened Text
  import opened DebsecCveFiles


  function NoteText(note: Option<string>): string {
    if note.Some? then " (" + note.value + ")" else ""
  }

  function FixedText(tag: Option<string>, versionFixed: Option<string>): string {
    if tag.Some? then "<" + tag.value + ">" else if versionFixed.Some? then versionFixed.value else ""
  }

  /** The canonical text of a status line: a tab, the optional `[codename] `, `- source fixed (note)`. */
  function StatusText(l: Line): string
    requires l.Status?
  {
    "\t" + (if l.codename.Some? then "[" + l.codename.value + "] " else "")
    + "- " + l.source + " " + FixedText(l.tag, l.versionFixed) + NoteText(l.note) + "\n"
  }

  lemma NoteTailText(s: string, k: nat, note: Option<string>)
    requires k <= |s| && s[k..] == NoteText(note) + "\n"
    requires note.Some? ==> '\n' !in note.value
    ensures NoteTail(s, k) == Some(note)
  {
    if note.Some? {
      var n := note.value;
      assert s[k..] == " (" + n + ")\n";
      assert s[k] == ' ' && s[k + 1] == '(';
      SpanIs(s, k, 1, WhiteSpace);
      assert |s| == k + 4 + |n| && s[|s| - 1] == '\n' && s[|s| - 2] == ')';
      assert Body(s) == |s| - 1;
      assert s[k + 2..Body(s) - 1] == s[k..][2..2 + |n|] == n;
    } else {
      assert s[k] == '\n' && |s| == k + 1;
      SpanIs(s, k, 1, WhiteSpace);
    }
  }

  lemma FixedTag(s: string, t: nat, g: string)
    requires g != [] && All(g, TagClass)
    requires t + |g| + 1 < |s| && s[t] == '<' && s[t + 1..t + 1 + |g|] == g && s[t + 1 + |g|] == '>'
    ensures Fixed(s, t) == Some((Some(g), None, (t + 2 + |g|) as nat))
  {
    assert forall k :: t + 1 <= k < t + 1 + |g| ==> s[k] == g[k - t - 1];
    SpanIs(s, t + 1, |g|, TagClass);
  }

  lemma FixedVersion(s: string, t: nat, v: string)
    requires v != [] && All(v, VersionClass)
    requires t + |v| < |s| && s[t..t + |v|] == v && s[t + |v|] in {' ', '\n'}
    ensures Fixed(s, t) == Some((None, Some(v), (t + |v|) as nat))
  {
    assert forall k :: t <= k < t + |v| ==> s[k] == v[k - t];
    assert VersionChar(v[0]);
    SpanIs(s, t, |v|, VersionClass);
  }

  lemma FixedOf(s: string, t: nat, tag: Option<string>, versionFixed: Option<string>)
    requires tag.Some? <==> versionFixed.None?
    requires tag.Some? ==> tag.value != [] && All(tag.value, TagClass)
    requires versionFixed.Some? ==> versionFixed.value != [] && All(versionFixed.value, VersionClass)
    requires t + |FixedText(tag, versionFixed)| < |s| && s[t..t + |FixedText(tag, versionFixed)|] == FixedText(tag, versionFixed)
    requires s[t + |FixedText(tag, versionFixed)|] in {' ', '\n'}
    ensures Fixed(s, t) == Some((tag, versionFixed, (t + |FixedText(tag, versionFixed)|) as nat))
  {
    var f := FixedText(tag, versionFixed);
    if tag.Some? {
      var g := tag.value;
      assert f == "<" + (g + ">");
      assert f[1..] == g + ">";
      assert f[1..1 + |g|] == (g + ">")[..|g|] == g;
      assert s[t] == f[0];
      assert s[t + 1..t + 1 + |g|] == f[1..1 + |g|];
      assert s[t + 1 + |g|] == f[1 + |g|];
      FixedTag(s, t, g);
    } else {
      FixedVersion(s, t, versionFixed.value);
    }
  }

  lemma SourceOf(s: string, d: nat, src: string)
    requires src != [] && All(src, SourceClass)
    requires d + 3 + |src| < |s| && s[d] == '-' && s[d + 1] == ' ' && s[d + 2..d + 2 + |src|] == src
    requires s[d + 2 + |src|] == ' ' && !IsSpace(s[d + 3 + |src|])
    ensures Span(s, d + 1, WhiteSpace) == 1 && Token(s, d + 2, SourceClass) == src
    ensures Span(s, d + 2 + |src|, WhiteSpace) == 1
  {
    assert forall k :: d + 2 <= k < d + 2 + |src| ==> s[k] == src[k - d - 2];
    assert SourceChar(src[0]);
    SpanIs(s, d + 1, 1, WhiteSpace);
    SpanIs(s, d + 2, |src|, SourceClass);
    SpanIs(s, d + 2 + |src|, 1, WhiteSpace);
  }

  lemma FixedAtSteps(s: string, t: nat, c: Option<string>, src: string, tag: Option<string>, v: Option<string>, k: nat, note: Option<string>)
    requires t < |s| && CodenameOk(c) && src != [] && All(src, SourceClass)
    requires Fixed(s, t) == Some((tag, v, k)) && k <= |s| && NoteTail(s, k) == Some(note)
    ensures AtFixed(s, t, c, src) == Some(Status(c, src, tag, v, note))
  {
  }

  lemma SourceAtSteps(s: string, a: nat, c: Option<string>, src: string)
    requires a + |src| + 1 < |s| && CodenameOk(c) && src != []
    requires Token(s, a, SourceClass) == src && Span(s, a + |src|, WhiteSpace) == 1
    ensures AtSource(s, a, c) == AtFixed(s, a + |src| + 1, c, src)
  {
    assert AtSource(s, a, c) == Match(s, a + |src| + 1, FixedAt(c, src));
  }

  lemma DashedStep(s: string, d: nat, c: Option<string>)
    requires d + 2 <= |s| && CodenameOk(c) && s[d] == '-' && Span(s, d + 1, WhiteSpace) == 1
    ensures AtDash(s, d, c) == AtSource(s, d + 2, c)
  {
    assert AtDash(s, d, c) == Match(s, d + 2, SourceAt(c));
  }

  /** Where the parts of `- source fixed note` sit in a line that ends with it. */
  lemma DashedParts(s: string, d: nat, src: string, f: string, nt: string)
    requires d <= |s| && s[d..] == "- " + src + " " + f + nt + "\n"
    ensures d + 3 + |src| + |f| < |s|
    ensures s[d] == '-' && s[d + 1] == ' ' && s[d + 2..d + 2 + |src|] == src && s[d + 2 + |src|] == ' '
    ensures s[d + 3 + |src|..d + 3 + |src| + |f|] == f && s[d + 3 + |src| + |f|..] == nt + "\n"
  {
    var u := s[d..];
    var t := d + 3 + |src|;
    assert u == "- " + src + " " + (f + nt + "\n");
    assert s[d] == u[0] && s[d + 1] == u[1];
    assert s[d + 2..d + 2 + |src|] == u[2..2 + |src|];
    assert s[t - 1] == u[2 + |src|];
    assert s[t..] == u[3 + |src|..] == f + (nt + "\n");
    assert s[t..t + |f|] == (f + (nt + "\n"))[..|f|];
    assert s[t + |f|..] == (f + (nt + "\n"))[|f|..];
  }

  /** The written tag or fixed version starts with a character that is not white space. */
  lemma FixedHead(tag: Option<string>, versionFixed: Option<string>)
    requires tag.Some? <==> versionFixed.None?
    requires tag.Some? ==> tag.value != []
    requires versionFixed.Some? ==> versionFixed.value != [] && All(versionFixed.value, VersionClass)
    ensures FixedText(tag, versionFixed) != [] && !IsSpace(FixedText(tag, versionFixed)[0])
  {
    if versionFixed.Some? {
      assert VersionChar(versionFixed.value[0]);
    }
  }

  /** The written note, then the newline, starts with a space or is the newline. */
  lemma NoteHead(note: Option<string>)
    ensures (NoteText(note) + "\n")[0] in {' ', '\n'}
  {
  }

  /** The body of a status line from the `-` on reads back as written. */
  lemma DashedOf(s: string, d: nat, l: Line)
    requires l.Status? && WellFormed(l)
    requires d <= |s| && s[d..] == "- " + l.source + " " + FixedText(l.tag, l.versionFixed) + NoteText(l.note) + "\n"
    ensures AtDash(s, d, l.codename) == Some(l)
  {
    DashedParts(s, d, l.source, FixedText(l.tag, l.versionFixed), NoteText(l.note));
    DashedFields(s, d, l);
  }

  /** The same, from where the parts of the line sit. */
  lemma DashedFields(s: string, d: nat, l: Line)
    requires l.Status? && WellFormed(l)
    requires d + 3 + |l.source| + |FixedText(l.tag, l.versionFixed)| < |s|
    requires s[d] == '-' && s[d + 1] == ' ' && s[d + 2..d + 2 + |l.source|] == l.source && s[d + 2 + |l.source|] == ' '
    requires s[d + 3 + |l.source|..d + 3 + |l.source| + |FixedText(l.tag, l.versionFixed)|] == FixedText(l.tag, l.versionFixed)
    requires s[d + 3 + |l.source| + |FixedText(l.tag, l.versionFixed)|..] == NoteText(l.note) + "\n"
    ensures AtDash(s, d, l.codename) == Some(l)
  {
    var src, f, nt := l.source, FixedText(l.tag, l.versionFixed), NoteText(l.note);
    var t := d + 3 + |src|;
    FixedHead(l.tag, l.versionFixed);
    NoteHead(l.note);
    assert s[t] == f[0];
    assert s[t + |f|] == (nt + "\n")[0];
    SourceOf(s, d, src);
    FixedOf(s, t, l.tag, l.versionFixed);
    NoteTailText(s, t + |f|, l.note);
    DashedChain(s, d, l.codename, src, l.tag, l.versionFixed, t + |f|, l.note);
  }

  /** The stages of a status line from the `-` on, chained. */
  lemma DashedChain(s: string, d: nat, c: Option<string>, src: string, tag: Option<string>, v: Option<string>, k: nat, note: Option<string>)
    requires d + 3 + |src| < |s| && CodenameOk(c) && src != [] && All(src, SourceClass) && s[d] == '-' && Span(s, d + 1, WhiteSpace) == 1
    requires Token(s, d + 2, SourceClass) == src && Span(s, d + 2 + |src|, WhiteSpace) == 1
    requires Fixed(s, d + 3 + |src|) == Some((tag, v, k)) && k <= |s| && NoteTail(s, k) == Some(note)
    ensures AtDash(s, d, c) == Some(Status(c, src, tag, v, note))
  {
    FixedAtSteps(s, d + 3 + |src|, c, src, tag, v, k, note);
    SourceAtSteps(s, d + 2, c, src);
    DashedStep(s, d, c);
  }

  /** Neither a directive nor a braced list starts with `-` or `[`. */
  lemma NotIgnored(s: string, i: nat)
    requires i < |s| && (s[i] == '-' || s[i] == '[')
    ensures !Directive(s, i) && !Braced(s, i)
  {
    forall j | 0 <= j < |Keywords| ensures !KeywordAt(s, i, Keywords[j]) {
      var kw := Keywords[j];
      assert kw[0] in "RNT";
      if i + |kw| <= |s| { assert s[i..i + |kw|][0] == s[i]; }
    }
  }

  /** An unqualified status: the indentation is followed by the `-`. */
  lemma PlainIndent(s: string, i: nat)
    requires i < |s| && s[i] == '-'
    ensures AtIndent(s, i) == AtDash(s, i, None)
  {
    NotIgnored(s, i);
    assert AtIndent(s, i) == Match(s, i, DashAt(None));
  }

  /** `[codename] ` before the `-` of a qualified status. */
  lemma QualifiedIndent(s: string, i: nat, c: string, d: nat)
    requires c != [] && All(c, NonWhiteSpace)
    requires d == i + |c| + 3 && d < |s| && s[i..d] == "[" + c + "] " && s[d] == '-'
    ensures AtIndent(s, i) == AtDash(s, d, Some(c))
  {
    NotIgnored(s, i);
    var q := d - 1;
    assert s[i] == '[';
    assert forall k :: i + 1 <= k < q - 1 ==> s[k] == c[k - i - 1];
    assert s[q - 1] == ']' && s[q] == ' ';
    SpanIs(s, i + 1, |c| + 1, NonWhiteSpace);
    var run := Token(s, i + 1, NonWhiteSpace);
    assert run == s[i + 1..q];
    assert run[..|run| - 1] == c;
    SpanIs(s, q, 1, WhiteSpace);
    assert AtIndent(s, i) == Match(s, d, DashAt(Some(c)));
  }

  /** A line that starts with one tab and then a non-space is read from its second character on. */
  lemma TabIndent(s: string)
    requires 1 < |s| && s[0] == '\t' && !IsSpace(s[1])
    ensures Classify(s) == AtIndent(s, 1)
  {
    SpanIs(s, 0, 1, WhiteSpace);
    assert AtStart(s, 0) == Match(s, 1, Indented);
  }

  /** Where the qualifier and the rest sit in a line that starts with a tab. */
  lemma TabParts(pre: string, rest: string)
    requires rest != [] && rest[0] == '-'
    ensures var s := "\t" + pre + rest;
      && s[0] == '\t' && s[1..1 + |pre|] == pre && s[1 + |pre|..] == rest
      && s[1] == (pre + rest)[0] && s[1 + |pre|] == '-'
  {
    var s := "\t" + pre + rest;
    assert s == "\t" + (pre + rest);
    assert s[1..] == pre + rest;
  }

  /** A status line in canonical form reads back as the line it was written from. */
  lemma ClassifyStatusText(l: Line)
    requires l.Status? && WellFormed(l)
    ensures Classify(StatusText(l)) == Some(l)
  {
    var pre := if l.codename.Some? then "[" + l.codename.value + "] " else "";
    var rest := "- " + l.source + " " + FixedText(l.tag, l.versionFixed) + NoteText(l.note) + "\n";
    var s := "\t" + pre + rest;
    assert StatusText(l) == s;
    TabParts(pre, rest);
    DashedOf(s, 1 + |pre|, l);
    TabIndent(s);
    if l.codename.Some? {
      QualifiedIndent(s, 1, l.codename.value, 1 + |pre|);
    } else {
      PlainIndent(s, 1);
    }
  }

  /** The text of a header line: the id, then optionally ` (title)`. */
  function HeaderText(id: string, title: Option<string>): string {
    id + (if title.Some? then " (" + title.value + ")" else "") + "\n"
  }

  /** The text of a directive line: a tab, the keyword, then optionally `: text`. */
  function DirectiveText(kw: string, text: Option<string>): string {
    "\t" + kw + (if text.Some? then ": " + text.value else "") + "\n"
  }

  lemma HeaderParts(id: string, t: string)
    ensures var s := id + " (" + t + ")\n";
      && |s| == |id| + |t| + 4 && s[..|id|] == id && s[|id|] == ' ' && s[|id| + 1] == '('
      && s[|id| + 2..|s| - 2] == t && s[|s| - 2] == ')' && s[|s| - 1] == '\n'
  {
    var s := id + " (" + t + ")\n";
    assert s == id + (" (" + (t + ")\n"));
    assert s[|id|..] == " (" + (t + ")\n");
    assert s[|id| + 2..] == t + ")\n";
    assert s[|id| + 2..|s| - 2] == (t + ")\n")[..|t|];
  }

  /** A header line reads back as its id, with or without a title. */
  lemma ClassifyHeaderText(id: string, title: Option<string>)
    requires id != [] && All(id, IdClass)
    requires title.Some? ==> '\n' !in title.value
    ensures Classify(HeaderText(id, title)) == Some(Header(id))
  {
    var s := HeaderText(id, title);
    var n := |id|;
    if title.Some? {
      HeaderParts(id, title.value);
    } else {
      assert s == id + "\n";
      assert s[..n] == id && s[n] == '\n';
    }
    assert forall k :: 0 <= k < n ==> s[k] == id[k];
    assert IdChar(s[0]);
    SpanIs(s, 0, n, IdClass);
    assert Token(s, 0, IdClass) == id;
    if title.Some? {
      SpanIs(s, n, 1, WhiteSpace);
      assert Body(s) == |s| - 1;
      assert HeaderTail(s, n);
    } else {
      assert AtEnd(s, n);
    }
  }

  lemma DirectiveParts(kw: string, t: string)
    ensures var s := "\t" + kw + ": " + t + "\n";
      && |s| == |kw| + |t| + 4 && s[1..1 + |kw|] == kw && s[1 + |kw|] == ':' && s[2 + |kw|] == ' '
      && s[3 + |kw|..|s| - 1] == t && s[|s| - 1] == '\n'
  {
    var s := "\t" + kw + ": " + t + "\n";
    assert s == "\t" + (kw + (": " + (t + "\n")));
    assert s[1..] == kw + (": " + (t + "\n"));
    assert s[1 + |kw|..] == ": " + (t + "\n");
    assert s[3 + |kw|..] == t + "\n";
  }

  /** A directive line (`REJECTED`, `NOTE: ...`, ...) is recognised and states nothing. */
  lemma ClassifyDirectiveText(j: nat, text: Option<string>)
    requires j < |Keywords|
    requires text.Some? ==> '\n' !in text.value
    ensures Classify(DirectiveText(Keywords[j], text)) == Some(Ignored)
  {
    var kw := Keywords[j];
    var s := DirectiveText(kw, text);
    assert kw[0] in "RNT";
    if text.Some? {
      DirectiveParts(kw, text.value);
      assert Body(s) == |s| - 1;
      assert RestOfLine(s, 3 + |kw|);
    } else {
      assert s == "\t" + (kw + "\n");
      assert s[1..] == kw + "\n";
      assert s[1..1 + |kw|] == kw && |s| == |kw| + 2 && s[1 + |kw|] == '\n';
    }
    assert s[1] == kw[0];
    assert KeywordAt(s, 1, kw);
    assert Directive(s, 1);
    TabIndent(s);
  }
}
