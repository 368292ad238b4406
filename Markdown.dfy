/**
 * The Markdown writer of internal/formatter/markdown.go: the title and file
 * name derived from the video title, the upload-date rewrite, the body built
 * from the transcript segments (prose paragraphs or one block per
 * timestamped segment), the attribution line, the document template, and
 * GenerateMarkdown, which ties them together and writes the file.
 */
module Markdown {
  import opened Text
  import opened Wrap
  import opened Fixup
  import opened Transcriber
  import opened Downloader
  import opened Config

  const MaxLineLength := 80

  // ---------------------------------------------------------------------
  // sanitizeTitle

  /** The character sanitizeTitle puts in place of `c`. */
  function TitleChar(c: char): char
  {
    if c == '"' then '\'' else if c == ':' || c == '\\' || c == '/' then '-' else c
  }

  /** The title after the four character replacements. */
  function Replaced(title: string): string
  {
    ReplaceChar(ReplaceChar(ReplaceChar(ReplaceChar(title, '"', '\''), ':', '-'), '\\', '-'), '/', '-')
  }

  lemma ReplacedChars(title: string)
    ensures |Replaced(title)| == |title|
    ensures forall k :: 0 <= k < |title| ==> Replaced(title)[k] == TitleChar(title[k])
  {
    var a := ReplaceChar(title, '"', '\'');
    var b := ReplaceChar(a, ':', '-');
    var c := ReplaceChar(b, '\\', '-');
    var d := ReplaceChar(c, '/', '-');
    forall k | 0 <= k < |title| ensures d[k] == TitleChar(title[k]) {
      assert d[k] == if c[k] == '/' then '-' else c[k];
      assert c[k] == if b[k] == '\\' then '-' else b[k];
      assert b[k] == if a[k] == ':' then '-' else a[k];
    }
  }

  /**
   * sanitizeTitle: double quotes become single quotes, ':', '\' and '/'
   * become '-', and surrounding white space is removed, so the title can sit
   * inside a double-quoted front-matter value.
   */
  function SanitizeTitle(title: string): (r: string)
    ensures NoChar(r, '"') && NoChar(r, ':') && NoChar(r, '\\') && NoChar(r, '/')
    ensures r == [] || (!IsSpace(r[0]) && !IsSpace(r[|r| - 1]))
    ensures |r| <= |title|
  {
    var t := Replaced(title);
    ReplacedChars(title);
    assert NoChar(t, '"') && NoChar(t, ':') && NoChar(t, '\\') && NoChar(t, '/');
    TrimSpaceNoChar(t, '"');
    TrimSpaceNoChar(t, ':');
    TrimSpaceNoChar(t, '\\');
    TrimSpaceNoChar(t, '/');
    TrimSpace(t)
  }

  lemma TrimSpaceNoChar(s: string, c: char)
    requires NoChar(s, c)
    ensures NoChar(TrimSpace(s), c)
  {
    var i := TrimSpaceSpan(s);
    var r := TrimSpace(s);
    forall k | 0 <= k < |r| ensures r[k] != c {
      assert r[k] == s[i + k];
    }
  }

  /**
   * The sanitised title is the title with every character replaced as
   * TitleChar says, less the white space before and after it.
   */
  lemma SanitizeTitleSpan(title: string) returns (i: nat)
    ensures var r := SanitizeTitle(title);
      && i + |r| <= |title|
      && (forall k :: 0 <= k < |r| ==> r[k] == TitleChar(title[i + k]))
      && (forall k :: 0 <= k < i ==> IsSpace(title[k]))
      && (forall k :: i + |r| <= k < |title| ==> IsSpace(title[k]))
  {
    var t := Replaced(title);
    ReplacedChars(title);
    i := TrimSpaceSpan(t);
    var r := SanitizeTitle(title);
    assert r == TrimSpace(t);
    forall k | 0 <= k < |r| ensures r[k] == TitleChar(title[i + k]) {
      assert r[k] == t[i + k];
    }
    forall k | 0 <= k < i ensures IsSpace(title[k]) {
      assert IsSpace(t[k]);
    }
    forall k | i + |r| <= k < |title| ensures IsSpace(title[k]) {
      assert IsSpace(t[k]);
    }
  }

  lemma ReplaceCharAbsent(s: string, c: char, d: char)
    requires NoChar(s, c)
    ensures ReplaceChar(s, c, d) == s
  {
  }

  lemma TrimSpaceTrimmed(s: string)
    requires s == [] || (!IsSpace(s[0]) && !IsSpace(s[|s| - 1]))
    ensures TrimSpace(s) == s
  {
  }

  /** Sanitising a sanitised title changes nothing. */
  lemma SanitizeTitleIdempotent(title: string)
    ensures SanitizeTitle(SanitizeTitle(title)) == SanitizeTitle(title)
  {
    var r := SanitizeTitle(title);
    assert Replaced(r) == ReplaceChar(ReplaceChar(ReplaceChar(ReplaceChar(r, '"', '\''), ':', '-'), '\\', '-'), '/', '-');
    ReplaceCharAbsent(r, '"', '\'');
    ReplaceCharAbsent(r, ':', '-');
    ReplaceCharAbsent(r, '\\', '-');
    ReplaceCharAbsent(r, '/', '-');
    TrimSpaceTrimmed(r);
  }

  // ---------------------------------------------------------------------
  // slugify

  predicate IsSlugChar(c: char)
  {
    'a' <= c <= 'z' || '0' <= c <= '9'
  }

  predicate SlugChars(s: string)
  {
    forall k :: 0 <= k < |s| ==> IsSlugChar(s[k]) || s[k] == '-'
  }

  predicate NoDoubleDash(s: string)
  {
    forall k :: 0 <= k < |s| - 1 ==> s[k] != '-' || s[k + 1] != '-'
  }

  /** A slug's shape: letters, digits and single dashes, with no dash at either end. */
  predicate SlugShape(s: string)
  {
    SlugChars(s) && NoDoubleDash(s) && (s == [] || (s[0] != '-' && s[|s| - 1] != '-'))
  }

  /** The letters and digits of `s`, in order. */
  function Letters(s: string): string
  {
    if s == [] then [] else (if IsSlugChar(s[0]) then [s[0]] else []) + Letters(s[1..])
  }

  /**
   * Every maximal run of characters outside [a-z0-9] replaced by one '-',
   * as the `[^a-z0-9]+` pattern does: the dash is written at the run's last
   * character.
   */
  function Dashed(s: string): (r: string)
    ensures SlugChars(r) && NoDoubleDash(r)
    ensures r == [] <==> s == []
    ensures r != [] ==> (r[0] == '-' <==> !IsSlugChar(s[0]))
    decreases |s|
  {
    if s == [] then []
    else if IsSlugChar(s[0]) then
      var r := [s[0]] + Dashed(s[1..]);
      assert r[1..] == Dashed(s[1..]);
      r
    else if |s| > 1 && !IsSlugChar(s[1]) then Dashed(s[1..])
    else
      var r := "-" + Dashed(s[1..]);
      assert r[1..] == Dashed(s[1..]);
      r
  }

  /** Dashing keeps every letter and digit, in order. */
  lemma {:induction false} DashedLetters(s: string)
    ensures Letters(Dashed(s)) == Letters(s)
    decreases |s|
  {
    if s != [] {
      DashedLetters(s[1..]);
      var d := Dashed(s[1..]);
      if IsSlugChar(s[0]) {
        assert ([s[0]] + d)[1..] == d;
        assert Letters([s[0]] + d) == [s[0]] + Letters(d);
      } else if !(|s| > 1 && !IsSlugChar(s[1])) {
        assert ("-" + d)[1..] == d;
        assert Letters("-" + d) == Letters(d);
      }
    }
  }

  /** Text made only of letters and digits is left as it is. */
  lemma {:induction false} DashedSlugText(s: string)
    requires forall k :: 0 <= k < |s| ==> IsSlugChar(s[k])
    ensures Dashed(s) == s
    decreases |s|
  {
    if s != [] {
      DashedSlugText(s[1..]);
      assert [s[0]] + s[1..] == s;
    }
  }

  /** A run of other characters, up to a letter or digit or the end, becomes one dash. */
  lemma {:induction false} DashedRunHead(w: string, b: string)
    requires w != [] && forall k :: 0 <= k < |w| ==> !IsSlugChar(w[k])
    requires b == [] || IsSlugChar(b[0])
    ensures Dashed(w + b) == "-" + Dashed(b)
    decreases |w|
  {
    var s := w + b;
    assert s[1..] == w[1..] + b;
    if |w| > 1 {
      assert s[1] == w[1];
      DashedRunHead(w[1..], b);
    } else {
      assert s[1..] == b;
    }
  }

  /** Dashing works piecewise after a letter or digit. */
  lemma {:induction false} DashedAppend(a: string, b: string)
    requires a == [] || IsSlugChar(a[|a| - 1])
    ensures Dashed(a + b) == Dashed(a) + Dashed(b)
    decreases |a|
  {
    if a == [] {
      assert a + b == b;
    } else {
      var s := a + b;
      assert s[1..] == a[1..] + b;
      if |a| > 1 {
        assert s[1] == a[1];
      }
      DashedAppend(a[1..], b);
      if IsSlugChar(a[0]) {
        ConcatAssoc([a[0]], Dashed(a[1..]), Dashed(b));
      } else {
        ConcatAssoc("-", Dashed(a[1..]), Dashed(b));
      }
    }
  }

  /** Between two pieces of text, a maximal run of other characters becomes exactly one dash. */
  lemma DashedRun(a: string, w: string, b: string)
    requires a == [] || IsSlugChar(a[|a| - 1])
    requires w != [] && forall k :: 0 <= k < |w| ==> !IsSlugChar(w[k])
    requires b == [] || IsSlugChar(b[0])
    ensures Dashed(a + w + b) == Dashed(a) + "-" + Dashed(b)
  {
    var wb := w + b;
    assert a + w + b == a + wb;
    assert Dashed(a + wb) == Dashed(a) + Dashed(wb) by {
      DashedAppend(a, wb);
    }
    assert Dashed(wb) == "-" + Dashed(b) by {
      DashedRunHead(w, b);
    }
    ConcatAssoc(Dashed(a), "-", Dashed(b));
  }

  lemma {:induction false} LettersAppend(a: string, b: string)
    ensures Letters(a + b) == Letters(a) + Letters(b)
    decreases |a|
  {
    if a == [] {
      assert a + b == b;
    } else {
      var c := if IsSlugChar(a[0]) then [a[0]] else [];
      assert (a + b)[0] == a[0];
      assert (a + b)[1..] == a[1..] + b;
      assert Letters(a + b) == c + Letters(a[1..] + b);
      LettersAppend(a[1..], b);
      assert Letters(a) == c + Letters(a[1..]);
    }
  }

  lemma {:induction false} LettersOfDashes(s: string)
    requires forall k :: 0 <= k < |s| ==> s[k] == '-'
    ensures Letters(s) == []
    decreases |s|
  {
    if s != [] {
      LettersOfDashes(s[1..]);
    }
  }

  /** The lower-cased title with runs of other characters turned into single dashes, trimmed of dashes. */
  function Cleaned(title: string): string
  {
    Trim(Dashed(ToLower(title)), "-")
  }

  /** The cleaned title keeps its letters and digits, and has no dash at either end. */
  lemma CleanedShape(title: string)
    ensures SlugShape(Cleaned(title))
    ensures Letters(Cleaned(title)) == Letters(ToLower(title))
  {
    var d := Dashed(ToLower(title));
    DashedLetters(ToLower(title));
    TrimDashesShape(d);
    TrimDashesLetters(d);
  }

  lemma TrimDashesShape(d: string)
    requires SlugChars(d) && NoDoubleDash(d)
    ensures SlugShape(Trim(d, "-"))
  {
    TrimLeftDashes(d);
    TrimRightDashes(TrimLeft(d, "-"));
  }

  lemma TrimLeftDashes(d: string)
    requires SlugChars(d) && NoDoubleDash(d)
    ensures var l := TrimLeft(d, "-");
      SlugChars(l) && NoDoubleDash(l) && (l == [] || l[0] != '-')
  {
    var l := TrimLeft(d, "-");
    SliceKeeps(d, |d| - |l|, |d|);
  }

  lemma TrimRightDashes(l: string)
    requires SlugChars(l) && NoDoubleDash(l) && (l == [] || l[0] != '-')
    ensures SlugShape(TrimRight(l, "-"))
  {
    var t := TrimRight(l, "-");
    SliceKeeps(l, 0, |t|);
    assert t == l[0..|t|];
    if t != [] {
      assert t[0] == l[0];
    }
  }

  /** A slice of a text of slug characters without double dashes is one too. */
  lemma SliceKeeps(d: string, i: nat, j: nat)
    requires SlugChars(d) && NoDoubleDash(d) && i <= j <= |d|
    ensures SlugChars(d[i..j]) && NoDoubleDash(d[i..j])
  {
    var t := d[i..j];
    forall k | 0 <= k < |t| ensures IsSlugChar(t[k]) || t[k] == '-' {
      assert t[k] == d[i + k];
    }
    forall k | 0 <= k < |t| - 1 ensures t[k] != '-' || t[k + 1] != '-' {
      assert t[k] == d[i + k] && t[k + 1] == d[i + k + 1];
    }
  }

  lemma TrimDashesLetters(d: string)
    ensures Letters(Trim(d, "-")) == Letters(d)
  {
    TrimLeftLetters(d);
    TrimRightLetters(TrimLeft(d, "-"));
  }

  lemma {:induction false} TrimLeftLetters(d: string)
    ensures Letters(TrimLeft(d, "-")) == Letters(d)
    decreases |d|
  {
    if d != [] && d[0] in "-" {
      TrimLeftLetters(d[1..]);
    }
  }

  lemma {:induction false} TrimRightLetters(d: string)
    ensures Letters(TrimRight(d, "-")) == Letters(d)
    decreases |d|
  {
    if d != [] && d[|d| - 1] in "-" {
      var init := d[..|d| - 1];
      TrimRightLetters(init);
      assert d == init + [d[|d| - 1]];
      LettersAppend(init, [d[|d| - 1]]);
    }
  }

  const MaxSlugLength := 60
  const MinCutLength := 40

  /** The cut applied to a cleaned title longer than 60 characters. */
  function Cut(t: string): string
  {
    if |t| > MaxSlugLength then
      var u := t[..MaxSlugLength];
      var lastDash := LastIndexOf(u, '-');
      if lastDash > MinCutLength then u[..lastDash] else u
    else t
  }

  /**
   * slugify: the file name stem made from a title. It holds only lower-case
   * letters, digits and single dashes, never starts or ends with a dash, and
   * is at most 60 characters long.
   */
  function Slugify(title: string): (r: string)
    ensures SlugShape(r)
    ensures |r| <= MaxSlugLength
  {
    CleanedShape(title);
    CutShape(Cleaned(title));
    Cut(Cleaned(title))
  }

  /**
   * A cleaned title of more than 60 characters is cut to 60, and then back
   * to its last dash when that dash lies after position 40; a shorter one is
   * kept whole.
   */
  lemma CutShape(t: string)
    requires SlugShape(t)
    ensures var r := Cut(t);
      && SlugShape(r) && |r| <= MaxSlugLength && HasPrefix(t, r)
      && (|t| <= MaxSlugLength ==> r == t)
      && (|t| > MaxSlugLength ==>
            (|r| == MaxSlugLength && forall k :: MinCutLength < k < MaxSlugLength ==> t[k] != '-') ||
            (MinCutLength < |r| < MaxSlugLength && t[|r|] == '-' && forall k :: |r| < k < MaxSlugLength ==> t[k] != '-'))
  {
    if |t| > MaxSlugLength {
      var u := t[..MaxSlugLength];
      var lastDash := LastIndexOf(u, '-');
      var r := Cut(t);
      assert r == t[0..|r|];
      SliceKeeps(t, 0, |r|);
      if lastDash > MinCutLength {
        assert t[lastDash] == '-';
        assert t[lastDash - 1] != '-';
      } else {
        assert u[MaxSlugLength - 1] != '-';
      }
    }
  }

  /** A title whose cleaned form fits keeps all its letters and digits, lower-cased. */
  lemma SlugifyKeepsLetters(title: string)
    requires |Cleaned(title)| <= MaxSlugLength
    ensures Letters(Slugify(title)) == Letters(ToLower(title))
  {
    CleanedShape(title);
  }

  // ---------------------------------------------------------------------
  // The upload date

  /** An eight-byte upload date YYYYMMDD is written YYYY-MM-DD; any other value is kept. */
  function NormalizeUploadDate(d: string): (r: string)
    ensures |d| == 8 ==> |r| == 10 && r[4] == '-' && r[7] == '-' && r[..4] + r[5..7] + r[8..] == d
    ensures |d| != 8 ==> r == d
  {
    if |d| == 8 then
      var r := d[..4] + "-" + d[4..6] + "-" + d[6..8];
      assert r[..4] == d[..4] && r[5..7] == d[4..6] && r[8..] == d[6..];
      assert d[..4] + d[4..6] + d[6..] == d;
      r
    else d
  }

  // ---------------------------------------------------------------------
  // The body: timestamp mode

  /** The bold marker put before a segment's text in timestamp mode. */
  function Marker(timestamp: string): string
  {
    "**[" + timestamp + "]**"
  }

  /** One segment in timestamp mode: marker and text wrapped together, then a blank line. */
  function TimestampBlock(seg: Segment): string
  {
    PrefixWrap(Marker(seg.timestamp) + " ", TrimSpace(seg.text), MaxLineLength) + "\n\n"
  }

  function TimestampBody(segments: seq<Segment>): string
    decreases |segments|
  {
    if segments == [] then ""
    else TimestampBody(segments[..|segments| - 1]) + TimestampBlock(segments[|segments| - 1])
  }

  /** Each block of the timestamp body starts with its segment's marker. */
  lemma TimestampBlockStart(seg: Segment)
    ensures HasPrefix(TimestampBlock(seg), Marker(seg.timestamp) + " ")
  {
    var prefix := Marker(seg.timestamp) + " ";
    var text := TrimSpace(seg.text);
    var ws := Fields(text);
    if |prefix| + |text| > MaxLineLength && ws != [] {
      assert PrefixWrap(prefix, text, MaxLineLength) == prefix + (ws[0] + Fill(ws[1..], MaxLineLength, |prefix| + |ws[0]|, "\n"));
    }
  }

  predicate NoSpace(s: string)
  {
    forall k :: 0 <= k < |s| ==> !IsSpace(s[k])
  }

  /** The words of the timestamp body: each segment's marker, then its text's words. */
  function TimestampWords(segments: seq<Segment>): seq<string>
    decreases |segments|
  {
    if segments == [] then []
    else
      var seg := segments[|segments| - 1];
      TimestampWords(segments[..|segments| - 1]) + [Marker(seg.timestamp)] + Fields(seg.text)
  }

  lemma MarkerIsWord(timestamp: string)
    requires NoSpace(timestamp)
    ensures IsWord(Marker(timestamp))
  {
    var m := Marker(timestamp);
    forall k | 0 <= k < |m| ensures !IsSpace(m[k]) {
      if 3 <= k < 3 + |timestamp| {
        assert m[k] == timestamp[k - 3];
      } else if k < 3 {
        assert m[k] == "**["[k];
      } else {
        assert m[k] == "]**"[k - 3 - |timestamp|];
      }
    }
  }

  /** White space after a string adds no word. */
  lemma FieldsSpaceAfter(w: string, sep: string)
    requires |sep| > 0 && AllSpace(sep)
    ensures Fields(w + sep) == Fields(w)
  {
    FieldsJoin(w, sep, "");
    assert w + sep + "" == w + sep;
    FieldsOfSpace("");
    assert Fields(w) + [] == Fields(w);
  }

  lemma TimestampBlockWords(seg: Segment)
    requires NoSpace(seg.timestamp)
    ensures Fields(TimestampBlock(seg)) == [Marker(seg.timestamp)] + Fields(seg.text)
  {
    var m := Marker(seg.timestamp);
    var text := TrimSpace(seg.text);
    MarkerIsWord(seg.timestamp);
    FieldsSpaceAfter(m, " ");
    FieldsOfWord(m);
    WrapTextWithPrefixWords(m + " ", text, MaxLineLength);
    FieldsTrimSpace(seg.text);
    FieldsSpaceAfter(PrefixWrap(m + " ", text, MaxLineLength), "\n\n");
  }

  /** In timestamp mode the body's words are every segment's marker followed by that segment's words. */
  lemma {:induction false} TimestampBodyWords(segments: seq<Segment>)
    requires forall k :: 0 <= k < |segments| ==> NoSpace(segments[k].timestamp)
    ensures Fields(TimestampBody(segments)) == TimestampWords(segments)
    decreases |segments|
  {
    if segments != [] {
      TimestampBodyWords(segments[..|segments| - 1]);
      TimestampBodyWordsStep(segments);
    }
  }

  /** One more segment: its block adds its marker and its words. */
  lemma TimestampBodyWordsStep(segments: seq<Segment>)
    requires segments != [] && NoSpace(segments[|segments| - 1].timestamp)
    requires Fields(TimestampBody(segments[..|segments| - 1])) == TimestampWords(segments[..|segments| - 1])
    ensures Fields(TimestampBody(segments)) == TimestampWords(segments)
  {
    var init := segments[..|segments| - 1];
    var seg := segments[|segments| - 1];
    var b := TimestampBody(init);
    TimestampBlockWords(seg);
    TimestampBodyEnd(init);
    FieldsAppend(b, TimestampBlock(seg));
    ConcatAssoc(TimestampWords(init), [Marker(seg.timestamp)], Fields(seg.text));
  }

  /** The timestamp body is empty or ends in a line break. */
  lemma TimestampBodyEnd(segments: seq<Segment>)
    ensures var b := TimestampBody(segments); b == [] || b[|b| - 1] == '\n'
  {
    if segments != [] {
      var b := TimestampBody(segments);
      var blk := TimestampBlock(segments[|segments| - 1]);
      assert b[|b| - 1] == blk[|blk| - 1];
    }
  }

  /**
   * Timestamps as the transcriber formats them are already bracketed, so the
   * marker of a transcribed segment opens with two brackets: "**[[".
   */
  lemma MarkerDoubleBracket(offset: string)
    ensures HasPrefix(Marker(FormatTimestamp(offset)), "**[[")
  {
    var ts := FormatTimestamp(offset);
    assert Marker(ts)[..4] == "**[" + [ts[0]];
  }

  // ---------------------------------------------------------------------
  // The body: prose mode

  /** A paragraph is closed after a segment ending a sentence, and after every fifth segment. */
  predicate Flushes(text: string, i: nat)
  {
    HasSuffix(text, ".") || HasSuffix(text, "?") || HasSuffix(text, "!") || (i + 1) % 5 == 0
  }

  /** What a closed paragraph adds to the body: nothing when it holds only white space. */
  function Paragraph(p: string, ending: string): string
  {
    var text := TrimSpace(p);
    if text != "" then PlainWrap(text, MaxLineLength) + ending else ""
  }

  /** One segment read in prose mode: it joins the open paragraph, which is closed if the segment flushes. */
  function ProseStep(state: (string, string), seg: Segment, i: nat): (string, string)
  {
    var p := state.1 + seg.text + " ";
    if Flushes(seg.text, i) then (state.0 + Paragraph(p, "\n\n"), "") else (state.0, p)
  }

  /** The body written so far and the open paragraph, after the first `n` segments. */
  function ProseAfter(segments: seq<Segment>, n: nat): (string, string)
    requires n <= |segments|
    decreases n
  {
    if n == 0 then ("", "") else ProseStep(ProseAfter(segments, n - 1), segments[n - 1], n - 1)
  }

  /** The prose body: the closed paragraphs, then what is left open, ended by one newline. */
  function ProseBody(segments: seq<Segment>): string
  {
    var (content, para) := ProseAfter(segments, |segments|);
    if |para| > 0 then content + Paragraph(para, "\n") else content
  }

  function Body(segments: seq<Segment>, timestamps: bool): string
  {
    if timestamps then TimestampBody(segments) else ProseBody(segments)
  }

  lemma ParagraphWords(p: string, ending: string)
    requires |ending| > 0 && AllSpace(ending)
    ensures Fields(Paragraph(p, ending)) == Fields(p)
    ensures Paragraph(p, ending) == [] || IsSpace(Paragraph(p, ending)[|Paragraph(p, ending)| - 1])
  {
    var text := TrimSpace(p);
    FieldsTrimSpace(p);
    if text != "" {
      var w := PlainWrap(text, MaxLineLength);
      WrapTextWords(text, MaxLineLength);
      FieldsJoin(w, ending, "");
      assert w + ending + "" == w + ending;
    }
  }

  lemma {:induction false} AllWordsAppend(a: seq<Segment>, b: seq<Segment>)
    ensures AllWords(a + b) == AllWords(a) + AllWords(b)
    decreases |a|
  {
    if a == [] {
      assert a + b == b;
    } else {
      assert (a + b)[1..] == a[1..] + b;
      AllWordsAppend(a[1..], b);
    }
  }

  /** The body so far is empty or ends in white space, and the open paragraph is empty or ends in a space. */
  predicate ProseShape(state: (string, string))
  {
    (state.0 == [] || IsSpace(state.0[|state.0| - 1])) && (state.1 == [] || state.1[|state.1| - 1] == ' ')
  }

  /** Closing a paragraph after a body that ends in white space appends the paragraph's words. */
  lemma CloseParagraphWords(content: string, p: string)
    requires content == [] || IsSpace(content[|content| - 1])
    ensures var c := content + Paragraph(p, "\n\n");
      (c == [] || IsSpace(c[|c| - 1])) && Fields(c) == Fields(content) + Fields(p)
  {
    ParagraphWords(p, "\n\n");
    var q := Paragraph(p, "\n\n");
    FieldsAppend(content, q);
    if q != [] {
      assert (content + q)[|content + q| - 1] == q[|q| - 1];
    }
  }

  /** A segment's text and a space, added to a paragraph that is empty or ends in a space. */
  lemma OpenParagraphWords(para: string, text: string)
    requires para == [] || para[|para| - 1] == ' '
    ensures Fields(para + text + " ") == Fields(para) + Fields(text)
  {
    FieldsAppend(para, text + " ");
    assert para + (text + " ") == para + text + " ";
    FieldsJoin(text, " ", "");
    assert text + " " + "" == text + " ";
    FieldsOfSpace("");
  }

  /** Reading a segment keeps the shape and adds the segment's words after those already held. */
  lemma ProseStepWords(state: (string, string), seg: Segment, i: nat)
    requires ProseShape(state)
    ensures ProseShape(ProseStep(state, seg, i))
    ensures var next := ProseStep(state, seg, i);
      Fields(next.0) + Fields(next.1) == Fields(state.0) + Fields(state.1) + Fields(seg.text)
  {
    if Flushes(seg.text, i) {
      FlushWords(state.0, state.1, seg.text);
    } else {
      OpenParagraphWords(state.1, seg.text);
      ConcatAssoc(Fields(state.0), Fields(state.1), Fields(seg.text));
    }
  }

  lemma FlushWords(content: string, para: string, text: string)
    requires content == [] || IsSpace(content[|content| - 1])
    requires para == [] || para[|para| - 1] == ' '
    ensures var c := content + Paragraph(para + text + " ", "\n\n");
      (c == [] || IsSpace(c[|c| - 1])) && Fields(c) + Fields("") == Fields(content) + Fields(para) + Fields(text)
  {
    var p := para + text + " ";
    OpenParagraphWords(para, text);
    CloseParagraphWords(content, p);
    FieldsOfSpace("");
    ConcatAssoc(Fields(content), Fields(para), Fields(text));
    assert Fields(content) + Fields(para) + Fields(text) + [] == Fields(content) + Fields(para) + Fields(text);
  }

  /** After any number of segments the body so far and the open paragraph keep their shape. */
  lemma {:induction false} ProseAfterShape(segments: seq<Segment>, n: nat)
    requires n <= |segments|
    ensures ProseShape(ProseAfter(segments, n))
    decreases n
  {
    if n > 0 {
      ProseAfterShape(segments, n - 1);
      ProseAfterShapeStep(segments, n);
    }
  }

  lemma ProseAfterShapeStep(segments: seq<Segment>, n: nat)
    requires 0 < n <= |segments|
    requires ProseShape(ProseAfter(segments, n - 1))
    ensures ProseShape(ProseAfter(segments, n))
  {
    var state := ProseAfter(segments, n - 1);
    assert ProseAfter(segments, n) == ProseStep(state, segments[n - 1], n - 1);
    ProseStepWords(state, segments[n - 1], n - 1);
  }

  /** After `n` segments, the body so far and the open paragraph hold every word read, in order. */
  lemma {:induction false} ProseAfterWords(segments: seq<Segment>, n: nat)
    requires n <= |segments|
    ensures Fields(ProseAfter(segments, n).0) + Fields(ProseAfter(segments, n).1) == AllWords(segments[..n])
    decreases n
  {
    if n == 0 {
      ProseAfterNothing(segments);
    } else {
      ProseAfterWords(segments, n - 1);
      ProseAfterWordsStep(segments, n);
    }
  }

  lemma ProseAfterNothing(segments: seq<Segment>)
    ensures Fields(ProseAfter(segments, 0).0) + Fields(ProseAfter(segments, 0).1) == AllWords(segments[..0])
  {
    FieldsOfSpace("");
    assert segments[..0] == [];
  }

  lemma ProseAfterWordsStep(segments: seq<Segment>, n: nat)
    requires 0 < n <= |segments|
    requires Fields(ProseAfter(segments, n - 1).0) + Fields(ProseAfter(segments, n - 1).1) == AllWords(segments[..n - 1])
    ensures Fields(ProseAfter(segments, n).0) + Fields(ProseAfter(segments, n).1) == AllWords(segments[..n])
  {
    ProseAfterShape(segments, n - 1);
    ProseStepWords(ProseAfter(segments, n - 1), segments[n - 1], n - 1);
    AllWordsSnoc(segments, n - 1);
  }

  lemma AllWordsSnoc(segments: seq<Segment>, n: nat)
    requires n < |segments|
    ensures AllWords(segments[..n + 1]) == AllWords(segments[..n]) + Fields(segments[n].text)
  {
    var seg := segments[n];
    assert segments[..n + 1] == segments[..n] + [seg];
    AllWordsAppend(segments[..n], [seg]);
    assert AllWords([seg]) == Fields(seg.text) + AllWords([]);
    assert Fields(seg.text) + [] == Fields(seg.text);
  }

  /** In prose mode the body holds exactly the words of the segments, in order. */
  lemma ProseBodyWords(segments: seq<Segment>)
    ensures Fields(ProseBody(segments)) == AllWords(segments)
    ensures |Fields(ProseBody(segments))| == TotalWords(segments)
  {
    ProseAfterWords(segments, |segments|);
    ProseAfterShape(segments, |segments|);
    assert segments[..|segments|] == segments;
    var content, para := ProseAfter(segments, |segments|).0, ProseAfter(segments, |segments|).1;
    if |para| > 0 {
      ParagraphWords(para, "\n");
      FieldsAppend(content, Paragraph(para, "\n"));
    } else {
      assert Fields(para) == [];
    }
  }

  /** The body-assembly loop of GenerateMarkdown. */
  method BuildContent(segments: seq<Segment>, timestamps: bool) returns (content: string)
    ensures content == Body(segments, timestamps)
  {
    if timestamps {
      content := BuildTimestampBody(segments);
    } else {
      content := BuildProseBody(segments);
    }
  }

  /** Timestamp mode: each segment's block appended in turn. */
  method BuildTimestampBody(segments: seq<Segment>) returns (content: string)
    ensures content == TimestampBody(segments)
  {
    content := "";
    for i := 0 to |segments|
      invariant content == TimestampBody(segments[..i])
    {
      var seg := segments[i];
      var timestamp := "**[" + seg.timestamp + "]**";
      var text := TrimSpace(seg.text);
      var wrapped := WrapTextWithPrefix(timestamp + " ", text, MaxLineLength);
      assert segments[..i + 1][..i] == segments[..i];
      content := content + wrapped + "\n\n";
    }
    assert segments[..|segments|] == segments;
  }

  /** Prose mode: segments gathered into paragraphs, each wrapped when it is flushed. */
  method BuildProseBody(segments: seq<Segment>) returns (content: string)
    ensures content == ProseBody(segments)
  {
    content := "";
    var paragraph := "";
    for i := 0 to |segments|
      invariant (content, paragraph) == ProseAfter(segments, i)
    {
      var seg := segments[i];
      ghost var before := (content, paragraph);
      paragraph := paragraph + seg.text + " ";
      if HasSuffix(seg.text, ".") || HasSuffix(seg.text, "?") || HasSuffix(seg.text, "!") || (i + 1) % 5 == 0 {
        var text := TrimSpace(paragraph);
        if text != "" {
          var wrapped := WrapText(text, MaxLineLength);
          content := content + wrapped + "\n\n";
        }
        assert content == before.0 + Paragraph(paragraph, "\n\n");
        paragraph := "";
      }
      assert (content, paragraph) == ProseStep(before, seg, i);
    }
    if |paragraph| > 0 {
      var text := TrimSpace(paragraph);
      if text != "" {
        var wrapped := WrapText(text, MaxLineLength);
        content := content + wrapped + "\n";
      }
    }
  }

  // ---------------------------------------------------------------------
  // The document

  /** The attribution line: the channel, linked when its URL is known, and the transcription date. */
  function Attribution(channel: string, channelURL: string, transcribedDate: string): (r: string)
    ensures HasPrefix(r, "Transcribed from ") && HasSuffix(r, " on " + transcribedDate)
    ensures channelURL != "" ==> Contains(r, "[" + channel + "](" + channelURL + ")")
    ensures channelURL == "" ==> HasPrefix(r, "Transcribed from " + channel + " on ")
  {
    if channelURL != "" then
      var r := "Transcribed from [" + channel + "](" + channelURL + ") on " + transcribedDate;
      assert OccursAt(r, "[" + channel + "](" + channelURL + ")", 17);
      r
    else "Transcribed from " + channel + " on " + transcribedDate
  }

  /** The values the template is filled with. */
  datatype MarkdownData = MarkdownData(
    title: string,
    source: string,
    channel: string,
    channelURL: string,
    uploadDate: string,
    transcribedDate: string,
    duration: string,
    model: string,
    attribution: string,
    content: string)

  /** The front matter's lines. */
  function FrontMatter(d: MarkdownData): seq<string>
  {
    [ "---",
      "title: \"" + d.title + "\"",
      "source: \"" + d.source + "\"",
      "channel: \"" + d.channel + "\"",
      "uploaded: \"" + d.uploadDate + "\"",
      "transcribed: \"" + d.transcribedDate + "\"",
      "duration: \"" + d.duration + "\"",
      "model: \"whisper-" + d.model + "\"",
      "---" ]
  }

  /** The lines after the front matter: the heading, the attribution and the transcription. */
  function Sections(d: MarkdownData): seq<string>
  {
    ["", "# " + d.title, "", d.attribution, "", "## Transcription", "", d.content, ""]
  }

  /**
   * The template filled in, line by line: YAML front matter, the title, the
   * attribution and the transcription; the final empty line makes the text
   * end with a newline.
   */
  function Render(d: MarkdownData): string
  {
    Join(FrontMatter(d) + Sections(d), '\n')
  }

  lemma {:induction false} JoinAppend(a: seq<string>, b: seq<string>, c: char)
    requires |a| > 0 && |b| > 0
    ensures Join(a + b, c) == Join(a, c) + [c] + Join(b, c)
    decreases |a|
  {
    if |a| == 1 {
      assert (a + b)[1..] == b;
    } else {
      assert (a + b)[1..] == a[1..] + b;
      JoinAppend(a[1..], b, c);
    }
  }

  lemma QuotedNoChar(key: string, v: string)
    requires NoChar(key, '\n') && NoChar(v, '\n')
    ensures NoChar(key + v + "\"", '\n')
  {
    var s := key + v + "\"";
    forall j | 0 <= j < |s| ensures s[j] != '\n' {
      if j < |key| {
        assert s[j] == key[j];
      } else if j < |key| + |v| {
        assert s[j] == v[j - |key|];
      }
    }
  }

  /**
   * When none of the front-matter values holds a line break, the document's
   * first nine lines are the front matter, one key per line between two
   * "---" lines.
   */
  lemma FrontMatterLines(d: MarkdownData)
    requires NoChar(d.title, '\n') && NoChar(d.source, '\n') && NoChar(d.channel, '\n')
    requires NoChar(d.uploadDate, '\n') && NoChar(d.transcribedDate, '\n')
    requires NoChar(d.duration, '\n') && NoChar(d.model, '\n')
    ensures |Split(Render(d), '\n')| > 9 && Split(Render(d), '\n')[..9] == FrontMatter(d)
  {
    var fm := FrontMatter(d);
    QuotedNoChar("title: \"", d.title);
    QuotedNoChar("source: \"", d.source);
    QuotedNoChar("channel: \"", d.channel);
    QuotedNoChar("uploaded: \"", d.uploadDate);
    QuotedNoChar("transcribed: \"", d.transcribedDate);
    QuotedNoChar("duration: \"", d.duration);
    QuotedNoChar("model: \"whisper-", d.model);
    assert forall k :: 0 <= k < |fm| ==> NoChar(fm[k], '\n');
    JoinAppend(fm, Sections(d), '\n');
    SplitJoinThen(fm, '\n', Join(Sections(d), '\n'));
  }

  /** The values GenerateMarkdown fills the template with. */
  function Data(meta: Metadata, segments: seq<Segment>, cfg: TranscriptionConfig, source: string, transcribedDate: string): MarkdownData
  {
    MarkdownData(
      SanitizeTitle(meta.title), source, meta.channel, meta.channelURL,
      NormalizeUploadDate(meta.uploadDate), transcribedDate, meta.duration, cfg.model,
      QuoteWrap(Attribution(meta.channel, meta.channelURL, transcribedDate), MaxLineLength),
      TrimSpace(Body(segments, cfg.timestamps)))
  }

  /** The text written to the file: the filled template after the clean-up pass. */
  function Document(meta: Metadata, segments: seq<Segment>, cfg: TranscriptionConfig, source: string, transcribedDate: string): string
  {
    Fixed(Render(Data(meta, segments, cfg, source, transcribedDate)))
  }

  /** The file written: the title's slug with ".md", in the output directory. */
  function OutputPath(meta: Metadata, cfg: TranscriptionConfig): string
  {
    JoinPath(cfg.outputDir, Slugify(meta.title) + ".md")
  }

  /**
   * GenerateMarkdown. The clock's date and the source URL are parameters,
   * and the outcomes of creating the output directory and writing the file
   * are given as optional errors. `written` is the text handed to the file
   * write, when it is attempted.
   */
  method GenerateMarkdown(meta: Metadata, segments: seq<Segment>, cfg: TranscriptionConfig, source: string,
                          transcribedDate: string, mkdirError: Option<string>, writeError: Option<string>)
    returns (r: Result<string>, written: Option<string>)
    ensures mkdirError.Some? ==> r == Err("create output dir: " + mkdirError.value) && written == None
    ensures mkdirError.None? ==> written == Some(Document(meta, segments, cfg, source, transcribedDate))
    ensures mkdirError.None? && writeError.Some? ==> r == Err("write file: " + writeError.value)
    ensures mkdirError.None? && writeError.None? ==> r == Ok(OutputPath(meta, cfg))
  {
    var content := BuildContent(segments, cfg.timestamps);
    var uploadDate := NormalizeUploadDate(meta.uploadDate);
    var attribution := Attribution(meta.channel, meta.channelURL, transcribedDate);
    attribution := WrapBlockquote(attribution, MaxLineLength);
    var data := MarkdownData(
      SanitizeTitle(meta.title), source, meta.channel, meta.channelURL, uploadDate, transcribedDate,
      meta.duration, cfg.model, attribution, TrimSpace(content));
    var filename := Slugify(meta.title) + ".md";
    var outputPath := JoinPath(cfg.outputDir, filename);
    if mkdirError.Some? {
      return Err("create output dir: " + mkdirError.value), None;
    }
    var output := FixCommonIssues(Render(data));
    written := Some(output);
    if writeError.Some? {
      return Err("write file: " + writeError.value), written;
    }
    r := Ok(outputPath);
  }

  /**
   * The written document passes the checks the clean-up pass is for: no
   * line ends in a blank, no two blank lines follow each other, and it ends
   * with exactly one newline.
   */
  lemma DocumentClean(meta: Metadata, segments: seq<Segment>, cfg: TranscriptionConfig, source: string, transcribedDate: string)
    ensures var doc := Document(meta, segments, cfg, source, transcribedDate);
      NoTrailingBlank(doc) && !Contains(doc, Triple) && EndsWithOneNewline(doc)
  {
    FixedProperties(Render(Data(meta, segments, cfg, source, transcribedDate)));
  }

  /** The output file is named by the title's slug, with ".md", inside the output directory. */
  lemma OutputPathShape(meta: Metadata, cfg: TranscriptionConfig)
    ensures var path := OutputPath(meta, cfg);
      HasSuffix(path, Slugify(meta.title) + ".md") && HasSuffix(path, ".md")
      && (cfg.outputDir != "" ==> HasPrefix(path, cfg.outputDir) && path[|path| - |Slugify(meta.title)| - 4] == '/')
  {
    SuffixOfSuffix(OutputPath(meta, cfg), Slugify(meta.title), ".md");
  }

  lemma SuffixOfSuffix(s: string, a: string, b: string)
    requires HasSuffix(s, a + b)
    ensures HasSuffix(s, b)
  {
    assert s[|s| - |b|..] == s[|s| - |a + b|..][|a|..];
  }
}
