/**
 * The three greedy word-wrappers of the Markdown formatter
 * (internal/formatter/markdown.go: wrapText, wrapTextWithPrefix,
 * wrapBlockquote). Each splits its text into `strings.Fields` words and
 * appends them one at a time, starting a new line only when the next word
 * would push the current line past the budget. A word is never split: a word
 * longer than the budget sits alone on its own, over-long line.
 */
module Wrap {
  import opened Text

  predicate AreWords(ws: seq<string>)
  {
    forall k :: 0 <= k < |ws| ==> IsWord(ws[k])
  }

  /**
   * What the wrapping loop appends for the words `ws` when the current line
   * already counts `lineLen` characters: each word goes after a single space
   * if it still fits in `budget`, and otherwise after the line break `brk`.
   */
  function Fill(ws: seq<string>, budget: int, lineLen: int, brk: string): string
    decreases |ws|
  {
    if ws == [] then ""
    else if lineLen + 1 + |ws[0]| > budget then brk + ws[0] + Fill(ws[1..], budget, |ws[0]|, brk)
    else " " + ws[0] + Fill(ws[1..], budget, lineLen + 1 + |ws[0]|, brk)
  }

  /**
   * The wrapped form of `ws` after the fixed `head`: the first word follows
   * `head` directly, on a line that counts `lineLen0` characters before it.
   */
  function Layout(head: string, ws: seq<string>, budget: int, lineLen0: int, brk: string): string
  {
    if ws == [] then head else head + ws[0] + Fill(ws[1..], budget, lineLen0 + |ws[0]|, brk)
  }

  /** wrapText: the text itself when it fits, else its words laid out greedily. */
  function PlainWrap(text: string, maxLen: int): string
  {
    if |text| <= maxLen then text else Layout("", Fields(text), maxLen, 0, "\n")
  }

  /** wrapTextWithPrefix: the prefix counts towards the first line only. */
  function PrefixWrap(prefix: string, text: string, maxLen: int): string
  {
    if |prefix| + |text| <= maxLen then prefix + text
    else Layout(prefix, Fields(text), maxLen, |prefix|, "\n")
  }

  /** wrapBlockquote: every line starts with "> ", which is not counted in the budget. */
  function QuoteWrap(text: string, maxLen: int): string
  {
    if |text| <= maxLen - 2 then "> " + text
    else Layout("> ", Fields(text), maxLen - 2, 0, "\n> ")
  }

  // ---------------------------------------------------------------------
  // The loops

  method WrapText(text: string, maxLen: int) returns (r: string)
    ensures r == PlainWrap(text, maxLen)
  {
    if |text| <= maxLen {
      return text;
    }
    var words := Fields(text);
    var result := "";
    var lineLen := 0;
    for i := 0 to |words|
      invariant i == 0 ==> result == ""
      invariant i > 0 ==> result + Fill(words[i..], maxLen, lineLen, "\n") == Layout("", words, maxLen, 0, "\n")
    {
      var word := words[i];
      if i == 0 {
        result := result + word;
        lineLen := |word|;
        assert "" + words[0] == words[0];
        continue;
      }
      assert words[i..][1..] == words[i + 1..];
      if lineLen + 1 + |word| > maxLen {
        result := result + "\n" + word;
        lineLen := |word|;
      } else {
        result := result + " " + word;
        lineLen := lineLen + 1 + |word|;
      }
    }
    r := result;
  }

  method WrapTextWithPrefix(prefix: string, text: string, maxLen: int) returns (r: string)
    ensures r == PrefixWrap(prefix, text, maxLen)
  {
    if |prefix| + |text| <= maxLen {
      return prefix + text;
    }
    var words := Fields(text);
    var result := prefix;
    var lineLen := |prefix|;
    for i := 0 to |words|
      invariant i == 0 ==> result == prefix && lineLen == |prefix|
      invariant i > 0 ==> result + Fill(words[i..], maxLen, lineLen, "\n") == Layout(prefix, words, maxLen, |prefix|, "\n")
    {
      var word := words[i];
      if i == 0 {
        result := result + word;
        lineLen := lineLen + |word|;
        continue;
      }
      assert words[i..][1..] == words[i + 1..];
      if lineLen + 1 + |word| > maxLen {
        result := result + "\n" + word;
        lineLen := |word|;
      } else {
        result := result + " " + word;
        lineLen := lineLen + 1 + |word|;
      }
    }
    r := result;
  }

  method WrapBlockquote(text: string, maxLen: int) returns (r: string)
    ensures r == QuoteWrap(text, maxLen)
  {
    var effectiveLen := maxLen - 2;
    if |text| <= effectiveLen {
      return "> " + text;
    }
    var words := Fields(text);
    var result := "> ";
    var lineLen := 0;
    for i := 0 to |words|
      invariant i == 0 ==> result == "> " && lineLen == 0
      invariant i > 0 ==> result + Fill(words[i..], effectiveLen, lineLen, "\n> ") == Layout("> ", words, effectiveLen, 0, "\n> ")
    {
      var word := words[i];
      if i == 0 {
        result := result + word;
        lineLen := |word|;
        continue;
      }
      assert words[i..][1..] == words[i + 1..];
      if lineLen + 1 + |word| > effectiveLen {
        result := result + "\n> " + word;
        lineLen := |word|;
      } else {
        result := result + " " + word;
        lineLen := lineLen + 1 + |word|;
      }
    }
    r := result;
  }

  // ---------------------------------------------------------------------
  // Words are kept, in order

  /** The length of the current line once the loop has placed `w`. */
  function NextLen(w: string, budget: int, lineLen: int): int
  {
    if lineLen + 1 + |w| > budget then |w| else lineLen + 1 + |w|
  }

  /** The break the loop puts before `w`. */
  function Gap(w: string, budget: int, lineLen: int, brk: string): string
  {
    if lineLen + 1 + |w| > budget then brk else " "
  }

  lemma FillCons(ws: seq<string>, budget: int, lineLen: int, brk: string)
    requires ws != []
    ensures Fill(ws, budget, lineLen, brk) ==
      Gap(ws[0], budget, lineLen, brk) + (ws[0] + Fill(ws[1..], budget, NextLen(ws[0], budget, lineLen), brk))
  {
  }

  lemma {:induction false} FillWords(cur: string, ws: seq<string>, budget: int, lineLen: int)
    requires AreWords(ws)
    ensures Fields(cur + Fill(ws, budget, lineLen, "\n")) == Fields(cur) + ws
    decreases |ws|
  {
    if ws == [] {
      assert cur + "" == cur;
    } else {
      FillWords(ws[0], ws[1..], budget, NextLen(ws[0], budget, lineLen));
      FillWordsStep(cur, ws, budget, lineLen);
    }
  }

  /** One word placed: the words after it are kept if they were kept behind it. */
  lemma FillWordsStep(cur: string, ws: seq<string>, budget: int, lineLen: int)
    requires AreWords(ws) && ws != []
    requires Fields(ws[0] + Fill(ws[1..], budget, NextLen(ws[0], budget, lineLen), "\n")) == Fields(ws[0]) + ws[1..]
    ensures Fields(cur + Fill(ws, budget, lineLen, "\n")) == Fields(cur) + ws
  {
    var w := ws[0];
    var tail := w + Fill(ws[1..], budget, NextLen(w, budget, lineLen), "\n");
    var sep := Gap(w, budget, lineLen, "\n");
    FillCons(ws, budget, lineLen, "\n");
    assert cur + (sep + tail) == cur + sep + tail;
    FieldsJoin(cur, sep, tail);
    FieldsOfWord(w);
    assert [w] + ws[1..] == ws;
  }

  /** The wrapped text has exactly the words of the input, in order. */
  lemma WrapTextWords(text: string, maxLen: int)
    ensures Fields(PlainWrap(text, maxLen)) == Fields(text)
  {
    if |text| > maxLen {
      var ws := Fields(text);
      if ws != [] {
        FillWords(ws[0], ws[1..], maxLen, |ws[0]|);
        FieldsOfWord(ws[0]);
        assert [ws[0]] + ws[1..] == ws;
        assert "" + ws[0] == ws[0];
      }
    }
  }

  /** With a prefix ending in white space, the words are the prefix's followed by the text's. */
  lemma {:induction false} WrapTextWithPrefixWords(prefix: string, text: string, maxLen: int)
    requires prefix == [] || IsSpace(prefix[|prefix| - 1])
    ensures Fields(PrefixWrap(prefix, text, maxLen)) == Fields(prefix) + Fields(text)
  {
    if |prefix| + |text| <= maxLen {
      FieldsAppend(prefix, text);
    } else {
      PrefixLayoutWords(prefix, Fields(text), maxLen);
    }
  }

  lemma PrefixLayoutWords(prefix: string, ws: seq<string>, maxLen: int)
    requires prefix == [] || IsSpace(prefix[|prefix| - 1])
    requires AreWords(ws)
    ensures Fields(Layout(prefix, ws, maxLen, |prefix|, "\n")) == Fields(prefix) + ws
  {
    if ws == [] {
      PrefixNoWords(prefix, maxLen);
    } else {
      PrefixFirstWord(prefix, prefix + ws[0], ws, maxLen);
    }
  }

  lemma PrefixNoWords(prefix: string, maxLen: int)
    ensures Fields(Layout(prefix, [], maxLen, |prefix|, "\n")) == Fields(prefix) + []
  {
    assert Fields(prefix) + [] == Fields(prefix);
  }

  /** The first word joins the prefix; the loop keeps the words after it. */
  lemma PrefixFirstWord(prefix: string, cur: string, ws: seq<string>, maxLen: int)
    requires prefix == [] || IsSpace(prefix[|prefix| - 1])
    requires AreWords(ws) && ws != [] && cur == prefix + ws[0]
    ensures Fields(cur + Fill(ws[1..], maxLen, |prefix| + |ws[0]|, "\n")) == Fields(prefix) + ws
  {
    FillWords(cur, ws[1..], maxLen, |prefix| + |ws[0]|);
    FieldsAppend(prefix, ws[0]);
    FieldsOfWord(ws[0]);
    SplitFirst(Fields(prefix), ws);
  }

  lemma SplitFirst<T>(a: seq<T>, b: seq<T>)
    requires b != []
    ensures a + [b[0]] + b[1..] == a + b
  {
    assert [b[0]] + b[1..] == b;
    ConcatAssoc(a, [b[0]], b[1..]);
  }

  // ---------------------------------------------------------------------
  // Line lengths: the greedy property

  /** A line may exceed the budget only when it is one unbreakable word. */
  predicate LineFits(line: string, budget: int)
  {
    |line| <= budget || IsWord(line)
  }

  /**
   * Lines of `cur + Fill(...)`: the first is `cur` itself or a line within the
   * budget extending `cur`, every later line fits or is one word, and every
   * break was forced: the next line's first word did not fit after the line.
   */
  predicate GreedyLines(cur: string, ws: seq<string>, budget: int)
  {
    var lines := Split(cur + Fill(ws, budget, |cur|, "\n"), '\n');
    && (lines[0] == cur || (|lines[0]| <= budget && HasPrefix(lines[0], cur + " ")))
    && (forall k :: 1 <= k < |lines| ==> LineFits(lines[k], budget))
    && (forall k :: 0 <= k < |lines| - 1 ==> |lines[k]| + 1 + |LeadingWord(lines[k + 1])| > budget)
  }

  lemma {:induction false} FillLines(cur: string, ws: seq<string>, budget: int)
    requires NoChar(cur, '\n') && AreWords(ws)
    ensures GreedyLines(cur, ws, budget)
    decreases |ws|
  {
    if ws == [] {
      assert cur + "" == cur;
      SplitNoChar(cur, '\n');
    } else {
      var w := ws[0];
      assert IsWord(w) && NoChar(w, '\n');
      FillLines(NextLine(cur, w, budget, |cur|), ws[1..], budget);
      if |cur| + 1 + |w| > budget {
        LinesAfterBreak(cur, ws, budget);
      } else {
        LinesAfterSpace(cur, ws, budget);
      }
    }
  }

  /** A forced break before the first word: `cur` becomes a line of its own. */
  lemma LinesAfterBreak(cur: string, ws: seq<string>, budget: int)
    requires NoChar(cur, '\n') && AreWords(ws) && ws != []
    requires |cur| + 1 + |ws[0]| > budget
    requires GreedyLines(ws[0], ws[1..], budget)
    ensures GreedyLines(cur, ws, budget)
  {
    var w := ws[0];
    assert IsWord(w) && NoChar(w, '\n');
    var rest := Fill(ws[1..], budget, |w|, "\n");
    FillCons(ws, budget, |cur|, "\n");
    assert cur + Fill(ws, budget, |cur|, "\n") == cur + ['\n'] + (w + rest);
    SplitAround(cur, '\n', w + rest);
    var more := Split(w + rest, '\n');
    if more[0] == w {
      LeadingWordOfWord(w, []);
      assert w + [] == w;
    } else {
      assert more[0] == w + more[0][|w|..];
      LeadingWordOfWord(w, more[0][|w|..]);
    }
    assert LineFits(more[0], budget);
  }

  /** The first word fits: it joins `cur` after a space. */
  lemma LinesAfterSpace(cur: string, ws: seq<string>, budget: int)
    requires NoChar(cur, '\n') && ws != []
    requires |cur| + 1 + |ws[0]| <= budget
    requires GreedyLines(cur + " " + ws[0], ws[1..], budget)
    ensures GreedyLines(cur, ws, budget)
  {
    var cur' := cur + " " + ws[0];
    FillCons(ws, budget, |cur|, "\n");
    assert cur + Fill(ws, budget, |cur|, "\n") == cur' + Fill(ws[1..], budget, |cur'|, "\n");
    assert HasPrefix(cur', cur + " ");
  }

  /**
   * wrapText: every line fits in `maxLen` unless it is a single over-long
   * word, and a line ends only where its next word would not have fitted.
   */
  lemma WrapTextLines(text: string, maxLen: int)
    requires maxLen >= 0
    ensures var lines := Split(PlainWrap(text, maxLen), '\n');
      && (forall k :: 0 <= k < |lines| ==> LineFits(lines[k], maxLen))
      && (|text| > maxLen ==> forall k :: 0 <= k < |lines| - 1 ==> |lines[k]| + 1 + |LeadingWord(lines[k + 1])| > maxLen)
  {
    var r := PlainWrap(text, maxLen);
    var lines := Split(r, '\n');
    if |text| <= maxLen {
      JoinSplit(r, '\n');
      forall k | 0 <= k < |lines| ensures |lines[k]| <= maxLen {
        LinesShorter(r, k);
      }
    } else {
      var ws := Fields(text);
      if ws == [] {
        assert lines == [""];
      } else {
        assert r == ws[0] + Fill(ws[1..], maxLen, |ws[0]|, "\n");
        FillLines(ws[0], ws[1..], maxLen);
      }
    }
  }

  /** No line of a string is longer than the string. */
  lemma {:induction false} LinesShorter(s: string, k: int)
    requires 0 <= k < |Split(s, '\n')|
    ensures |Split(s, '\n')[k]| <= |s|
    decreases |s|
  {
    if s != [] {
      var rest := Split(s[1..], '\n');
      if s[0] == '\n' {
        if k > 0 { LinesShorter(s[1..], k - 1); }
      } else if k == 0 {
        LinesShorter(s[1..], 0);
      } else {
        LinesShorter(s[1..], k);
      }
    }
  }

  /**
   * wrapTextWithPrefix: the output starts with the prefix; the first line is
   * within `maxLen` or is just the prefix and the first word; every later line
   * fits or is one word, and breaks are greedy.
   */
  lemma WrapTextWithPrefixLines(prefix: string, text: string, maxLen: int)
    requires NoChar(prefix, '\n')
    requires |prefix| + |text| > maxLen && Fields(text) != []
    ensures var lines := Split(PrefixWrap(prefix, text, maxLen), '\n');
      && HasPrefix(lines[0], prefix)
      && (lines[0] == prefix + Fields(text)[0] || |lines[0]| <= maxLen)
      && (forall k :: 1 <= k < |lines| ==> LineFits(lines[k], maxLen))
      && (forall k :: 0 <= k < |lines| - 1 ==> |lines[k]| + 1 + |LeadingWord(lines[k + 1])| > maxLen)
  {
    var ws := Fields(text);
    var cur := prefix + ws[0];
    assert IsWord(ws[0]);
    assert PrefixWrap(prefix, text, maxLen) == cur + Fill(ws[1..], maxLen, |cur|, "\n");
    FillLines(cur, ws[1..], maxLen);
    var lines := Split(PrefixWrap(prefix, text, maxLen), '\n');
    assert HasPrefix(cur, prefix);
    if lines[0] != cur {
      assert HasPrefix(lines[0], cur + " ");
      assert lines[0][..|prefix|] == (cur + " ")[..|prefix|];
    }
  }

  // ---------------------------------------------------------------------
  // Blockquotes: the plain layout with "> " in front of every line

  /** The lines of `lead + cur` and the text after it are those of `cur` and the plain text, each behind `lead`. */
  predicate LeadOnEveryLine(lead: string, cur: string, ws: seq<string>, budget: int, lineLen: int)
  {
    var q := Split(lead + cur + Fill(ws, budget, lineLen, "\n" + lead), '\n');
    var p := Split(cur + Fill(ws, budget, lineLen, "\n"), '\n');
    |q| == |p| && forall k :: 0 <= k < |q| ==> q[k] == lead + p[k]
  }

  /** The current line once the loop has placed `w` after `cur`. */
  function NextLine(cur: string, w: string, budget: int, lineLen: int): string
  {
    if lineLen + 1 + |w| > budget then w else cur + " " + w
  }

  /** Breaking with "\n" + lead instead of "\n" puts `lead` in front of every line. */
  lemma {:induction false} FillLead(lead: string, cur: string, ws: seq<string>, budget: int, lineLen: int)
    requires NoChar(lead, '\n') && NoChar(cur, '\n') && AreWords(ws)
    ensures LeadOnEveryLine(lead, cur, ws, budget, lineLen)
    decreases |ws|
  {
    if ws == [] {
      assert lead + cur + "" == lead + cur;
      assert cur + "" == cur;
      SplitNoChar(lead + cur, '\n');
      SplitNoChar(cur, '\n');
    } else {
      var w := ws[0];
      assert IsWord(w) && NoChar(w, '\n');
      FillLead(lead, NextLine(cur, w, budget, lineLen), ws[1..], budget, NextLen(w, budget, lineLen));
      FillLeadStep(lead, cur, ws, budget, lineLen);
    }
  }

  /** One word placed: `lead` stays in front of every line if it did behind the word. */
  lemma FillLeadStep(lead: string, cur: string, ws: seq<string>, budget: int, lineLen: int)
    requires NoChar(lead, '\n') && NoChar(cur, '\n') && AreWords(ws) && ws != []
    requires LeadOnEveryLine(lead, NextLine(cur, ws[0], budget, lineLen), ws[1..], budget, NextLen(ws[0], budget, lineLen))
    ensures LeadOnEveryLine(lead, cur, ws, budget, lineLen)
  {
    var w := ws[0];
    FillCons(ws, budget, lineLen, "\n" + lead);
    FillCons(ws, budget, lineLen, "\n");
    if lineLen + 1 + |w| > budget {
      assert IsWord(w);
      LeadAfterBreak(lead, cur, w, Fill(ws[1..], budget, |w|, "\n" + lead), Fill(ws[1..], budget, |w|, "\n"));
    } else {
      var cur' := cur + " " + w;
      var l' := lineLen + 1 + |w|;
      assert lead + cur + Fill(ws, budget, lineLen, "\n" + lead) == lead + cur' + Fill(ws[1..], budget, l', "\n" + lead);
      assert cur + Fill(ws, budget, lineLen, "\n") == cur' + Fill(ws[1..], budget, l', "\n");
    }
  }

  /** A line break before the word `w` adds the line `cur` in front, with `lead` in front of it. */
  lemma LeadAfterBreak(lead: string, cur: string, w: string, restQ: string, restP: string)
    requires NoChar(lead, '\n') && NoChar(cur, '\n') && IsWord(w)
    requires var q := Split(lead + w + restQ, '\n');
      var p := Split(w + restP, '\n');
      |q| == |p| && forall k :: 0 <= k < |q| ==> q[k] == lead + p[k]
    ensures var q := Split(lead + cur + ("\n" + lead + (w + restQ)), '\n');
      var p := Split(cur + ("\n" + (w + restP)), '\n');
      |q| == |p| && forall k :: 0 <= k < |q| ==> q[k] == lead + p[k]
  {
    assert lead + cur + ("\n" + lead + (w + restQ)) == (lead + cur) + ['\n'] + (lead + w + restQ);
    assert cur + ("\n" + (w + restP)) == cur + ['\n'] + (w + restP);
    SplitAround(lead + cur, '\n', lead + w + restQ);
    SplitAround(cur, '\n', w + restP);
  }

  /**
   * wrapBlockquote on a text that does not fit: its lines are the lines of
   * wrapText with budget `maxLen - 2`, each behind "> ", so each starts with
   * "> " and fits in `maxLen` unless its content is one over-long word, and
   * the contents keep the words of the text.
   */
  lemma WrapBlockquoteLines(text: string, maxLen: int)
    requires maxLen >= 2 && |text| > maxLen - 2
    ensures var q := Split(QuoteWrap(text, maxLen), '\n');
      var p := Split(Layout("", Fields(text), maxLen - 2, 0, "\n"), '\n');
      && |q| == |p|
      && (forall k :: 0 <= k < |q| ==> q[k] == "> " + p[k])
      && (forall k :: 0 <= k < |q| ==> |q[k]| <= maxLen || IsWord(q[k][2..]))
      && Fields(Layout("", Fields(text), maxLen - 2, 0, "\n")) == Fields(text)
  {
    var ws := Fields(text);
    QuoteWords(ws, maxLen - 2);
    assert QuoteWrap(text, maxLen) == Layout("> ", ws, maxLen - 2, 0, "\n> ");
  }

  /** The quoted layout of words against the plain one, and the words the plain one keeps. */
  lemma QuoteWords(ws: seq<string>, budget: int)
    requires AreWords(ws) && budget >= 0
    ensures Quoted(Split(Layout("> ", ws, budget, 0, "\n> "), '\n'), Split(Layout("", ws, budget, 0, "\n"), '\n'), budget)
    ensures Fields(Layout("", ws, budget, 0, "\n")) == ws
  {
    if ws == [] {
      QuoteNoWords(budget);
      assert Fields("") == [];
    } else {
      QuoteSomeWords(ws, budget);
      WrapTextWordsAfter(ws[0], ws, budget);
    }
  }

  lemma QuoteNoWords(budget: int)
    requires budget >= 0
    ensures Quoted(Split(Layout("> ", [], budget, 0, "\n> "), '\n'), Split(Layout("", [], budget, 0, "\n"), '\n'), budget)
  {
    SplitNoChar("> ", '\n');
    assert Split("", '\n') == [""];
  }

  /** The line correspondence of a blockquote: each line is "> " and a line within the budget, or one word. */
  predicate Quoted(q: seq<string>, p: seq<string>, budget: int)
  {
    && |q| == |p|
    && (forall k :: 0 <= k < |q| ==> q[k] == "> " + p[k])
    && (forall k :: 0 <= k < |q| ==> |q[k]| <= budget + 2 || IsWord(q[k][2..]))
  }

  lemma QuoteSomeWords(ws: seq<string>, budget: int)
    requires AreWords(ws) && ws != []
    ensures Quoted(Split(Layout("> ", ws, budget, 0, "\n> "), '\n'), Split(Layout("", ws, budget, 0, "\n"), '\n'), budget)
  {
    var w := ws[0];
    assert IsWord(w) && NoChar(w, '\n');
    assert "\n" + "> " == "\n> ";
    assert Layout("> ", ws, budget, 0, "\n> ") == "> " + w + Fill(ws[1..], budget, |w|, "\n> ");
    assert Layout("", ws, budget, 0, "\n") == w + Fill(ws[1..], budget, |w|, "\n");
    FillLead("> ", w, ws[1..], budget, |w|);
    FillLines(w, ws[1..], budget);
    QuotedLinesFit(Split(Layout("> ", ws, budget, 0, "\n> "), '\n'), Split(Layout("", ws, budget, 0, "\n"), '\n'), w, budget);
  }

  /** Lines of a greedy layout, each behind "> ", fit in two more than the budget or hold one word. */
  lemma QuotedLinesFit(q: seq<string>, p: seq<string>, w: string, budget: int)
    requires |q| == |p| && forall k :: 0 <= k < |q| ==> q[k] == "> " + p[k]
    requires IsWord(w) && |p| > 0 && (p[0] == w || |p[0]| <= budget)
    requires forall k :: 1 <= k < |p| ==> LineFits(p[k], budget)
    ensures forall k :: 0 <= k < |q| ==> |q[k]| <= budget + 2 || IsWord(q[k][2..])
  {
    forall k | 0 <= k < |q| ensures |q[k]| <= budget + 2 || IsWord(q[k][2..]) {
      assert q[k][2..] == p[k];
      if k > 0 {
        assert LineFits(p[k], budget);
      }
    }
  }

  /** Helper: the plain layout of a non-empty word list keeps the words. */
  lemma WrapTextWordsAfter(w: string, ws: seq<string>, budget: int)
    requires ws != [] && w == ws[0] && AreWords(ws)
    ensures Fields(Layout("", ws, budget, 0, "\n")) == ws
  {
    assert Layout("", ws, budget, 0, "\n") == w + Fill(ws[1..], budget, |w|, "\n");
    FillWords(w, ws[1..], budget, |w|);
    FieldsOfWord(w);
    assert [w] + ws[1..] == ws;
  }

  /** A short blockquote without line breaks is the single line "> " + text. */
  lemma WrapBlockquoteShort(text: string, maxLen: int)
    requires |text| <= maxLen - 2 && NoChar(text, '\n')
    ensures Split(QuoteWrap(text, maxLen), '\n') == ["> " + text]
    ensures |QuoteWrap(text, maxLen)| <= maxLen
  {
    SplitNoChar("> " + text, '\n');
  }

  // ---------------------------------------------------------------------
  // Words are separated by one space or one line break

  /** Undoing a line break `brk` before a word that cannot contain its first character. */
  lemma UnwrapCons(s: string, brk: string)
    requires |brk| > 0 && s != [] && s[0] != brk[0]
    ensures ReplaceAll(s, brk, " ") == [s[0]] + ReplaceAll(s[1..], brk, " ")
  {
    if |s| < |brk| {
      assert [s[0]] + s[1..] == s;
    } else {
      assert s[..|brk|][0] == s[0];
    }
  }

  lemma {:induction false} UnwrapWord(w: string, rest: string, brk: string)
    requires |brk| > 0 && NoChar(w, brk[0])
    ensures ReplaceAll(w + rest, brk, " ") == w + ReplaceAll(rest, brk, " ")
    decreases |w|
  {
    if w != [] {
      var s := w + rest;
      UnwrapCons(s, brk);
      assert s[1..] == w[1..] + rest;
      UnwrapWord(w[1..], rest, brk);
      assert [w[0]] + (w[1..] + ReplaceAll(rest, brk, " ")) == w + ReplaceAll(rest, brk, " ");
    } else {
      assert w + rest == rest;
    }
  }

  lemma UnwrapBreak(brk: string, rest: string)
    requires |brk| > 0
    ensures ReplaceAll(brk + rest, brk, " ") == " " + ReplaceAll(rest, brk, " ")
  {
    assert (brk + rest)[..|brk|] == brk;
    assert (brk + rest)[|brk|..] == rest;
  }

  /**
   * The filled words after `w`, with each line break `brk` turned back into a
   * space, are the words joined by single spaces: every gap the loop leaves
   * is exactly one space or exactly one break.
   */
  lemma {:induction false} FillUnwrapped(w: string, ws: seq<string>, budget: int, lineLen: int, brk: string)
    requires IsWord(w) && AreWords(ws) && |brk| > 0 && brk[0] == '\n'
    ensures ReplaceAll(w + Fill(ws, budget, lineLen, brk), brk, " ") == Join([w] + ws, ' ')
    decreases |ws|
  {
    assert NoChar(w, brk[0]) by {
      forall i | 0 <= i < |w| ensures w[i] != brk[0] {
        assert !IsSpace(w[i]);
      }
    }
    if ws == [] {
      UnwrapWord(w, "", brk);
      assert w + "" == w;
    } else {
      var next := NextLen(ws[0], budget, lineLen);
      var tail := ws[0] + Fill(ws[1..], budget, next, brk);
      var gap := Gap(ws[0], budget, lineLen, brk);
      FillUnwrapped(ws[0], ws[1..], budget, next, brk);
      assert [ws[0]] + ws[1..] == ws;
      FillCons(ws, budget, lineLen, brk);
      UnwrapWord(w, gap + tail, brk);
      if gap == brk {
        UnwrapBreak(brk, tail);
      } else {
        UnwrapCons(" " + tail, brk);
        assert (" " + tail)[1..] == tail;
      }
      assert ([w] + ws)[1..] == ws;
    }
  }

  lemma FillWordsUnwrapped(ws: seq<string>, budget: int, lineLen: int, brk: string)
    requires AreWords(ws) && ws != [] && |brk| > 0 && brk[0] == '\n'
    ensures ReplaceAll(ws[0] + Fill(ws[1..], budget, lineLen, brk), brk, " ") == Join(ws, ' ')
  {
    FillUnwrapped(ws[0], ws[1..], budget, lineLen, brk);
    assert [ws[0]] + ws[1..] == ws;
  }

  /** A layout with its breaks undone is its head followed by the words joined by single spaces. */
  lemma LayoutUnwrapped(head: string, ws: seq<string>, budget: int, lineLen0: int, brk: string)
    requires NoChar(head, '\n') && AreWords(ws) && |brk| > 0 && brk[0] == '\n'
    ensures ReplaceAll(Layout(head, ws, budget, lineLen0, brk), brk, " ") == head + Join(ws, ' ')
  {
    if ws == [] {
      assert Layout(head, ws, budget, lineLen0, brk) == head + "";
      UnwrapWord(head, "", brk);
      assert ReplaceAll("", brk, " ") == "" == Join(ws, ' ');
    } else {
      LayoutWordsUnwrapped(head, ws, budget, lineLen0, brk);
    }
  }

  lemma LayoutWordsUnwrapped(head: string, ws: seq<string>, budget: int, lineLen0: int, brk: string)
    requires NoChar(head, '\n') && AreWords(ws) && ws != [] && |brk| > 0 && brk[0] == '\n'
    ensures ReplaceAll(Layout(head, ws, budget, lineLen0, brk), brk, " ") == head + Join(ws, ' ')
  {
    var fill := Fill(ws[1..], budget, lineLen0 + |ws[0]|, brk);
    var tail := ws[0] + fill;
    FillWordsUnwrapped(ws, budget, lineLen0 + |ws[0]|, brk);
    ConcatAssoc(head, ws[0], fill);
    assert Layout(head, ws, budget, lineLen0, brk) == head + tail;
    UnwrapWord(head, tail, brk);
  }

  /** wrapText separates consecutive words by exactly one space or one newline, and adds nothing else. */
  lemma WrapTextSpacing(text: string, maxLen: int)
    requires |text| > maxLen
    ensures ReplaceAll(PlainWrap(text, maxLen), "\n", " ") == Join(Fields(text), ' ')
  {
    LayoutUnwrapped("", Fields(text), maxLen, 0, "\n");
    assert "" + Join(Fields(text), ' ') == Join(Fields(text), ' ');
  }

  /** wrapTextWithPrefix: the prefix, then the words separated by exactly one space or one newline. */
  lemma WrapTextWithPrefixSpacing(prefix: string, text: string, maxLen: int)
    requires NoChar(prefix, '\n') && |prefix| + |text| > maxLen
    ensures ReplaceAll(PrefixWrap(prefix, text, maxLen), "\n", " ") == prefix + Join(Fields(text), ' ')
  {
    LayoutUnwrapped(prefix, Fields(text), maxLen, |prefix|, "\n");
  }

  /** wrapBlockquote: "> ", then the words separated by exactly one space or by "\n> ". */
  lemma WrapBlockquoteSpacing(text: string, maxLen: int)
    requires |text| > maxLen - 2
    ensures ReplaceAll(QuoteWrap(text, maxLen), "\n> ", " ") == "> " + Join(Fields(text), ' ')
  {
    QuoteUnwrapped(Fields(text), maxLen - 2);
  }

  lemma QuoteUnwrapped(ws: seq<string>, budget: int)
    requires AreWords(ws)
    ensures ReplaceAll(Layout("> ", ws, budget, 0, "\n> "), "\n> ", " ") == "> " + Join(ws, ' ')
  {
    QuoteMarks();
    LayoutUnwrapped("> ", ws, budget, 0, "\n> ");
  }

  lemma QuoteMarks()
    ensures NoChar("> ", '\n') && |"\n> "| == 3 && "\n> "[0] == '\n'
  {
    var lead := "> ";
    assert lead[0] == '>' && lead[1] == ' ';
  }
}
