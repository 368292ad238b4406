/**
 * The pure parts of internal/transcriber/whisper.go: timestamp normalising
 * and display formatting, word counting, and the line loop of Transcribe
 * that turns whisper.cpp's stdout into segments and streamed chunks.
 *
 * The whisper.cpp process is not modelled: its stdout arrives as a sequence
 * of lines already matched against the segment pattern, and its exit status
 * as an optional error message.
 */
module Transcriber {
  import opened Text

  /** A transcribed segment: start and end offsets, its text and its display timestamp. */
  datatype Segment = Segment(start: string, end: string, text: string, timestamp: string)

  /** A chunk streamed to the caller while transcription runs. */
  datatype Chunk = Chunk(text: string, timestamp: string, progress: real)

  /**
   * One line of whisper.cpp output: either it matches
   * `[HH:MM:SS.mmm --> HH:MM:SS.mmm] text` (the two offsets and the text
   * after them), or it does not.
   */
  datatype Line = Match(start: string, end: string, rest: string) | NoMatch

  // ---------------------------------------------------------------------
  // Timestamps

  /** normalizeTimestamp: every ',' becomes '.'. */
  function NormalizeTimestamp(ts: string): (r: string)
    ensures |r| == |ts| && NoChar(r, ',')
    ensures forall i :: 0 <= i < |ts| && ts[i] != ',' ==> r[i] == ts[i]
    ensures forall i :: 0 <= i < |ts| && ts[i] == ',' ==> r[i] == '.'
  {
    ReplaceChar(ts, ',', '.')
  }

  lemma NormalizeTimestampIdempotent(ts: string)
    ensures NormalizeTimestamp(NormalizeTimestamp(ts)) == NormalizeTimestamp(ts)
  {
  }

  /**
   * formatTimestamp: a three-part `H:M:S` offset is shown as `[M:S]` when the
   * hour part is "00" and as `[H:M:S]` otherwise, the seconds cut at their
   * first '.'; anything else is shown normalised inside brackets.
   */
  function FormatTimestamp(ts: string): (r: string)
    ensures |r| >= 2 && r[0] == '[' && r[|r| - 1] == ']'
    ensures NoChar(r, ',')
  {
    var n := NormalizeTimestamp(ts);
    var parts := Split(n, ':');
    if |parts| == 3 then
      var sec := Split(parts[2], '.')[0];
      assert NoChar(sec, ',') && NoChar(parts[0], ',') && NoChar(parts[1], ',') by {
        SplitPieces(parts[2], '.');
        SplitPieces(n, ':');
      }
      if parts[0] == "00" then "[" + parts[1] + ":" + sec + "]"
      else "[" + parts[0] + ":" + parts[1] + ":" + sec + "]"
    else "[" + n + "]"
  }

  /** Every piece of a split is a substring of the input, so keeps its absent characters absent. */
  lemma {:induction false} SplitPieces(s: string, c: char)
    ensures forall k, d :: 0 <= k < |Split(s, c)| && NoChar(s, d) ==> NoChar(Split(s, c)[k], d)
    decreases |s|
  {
    if s != [] {
      SplitPieces(s[1..], c);
      forall d | NoChar(s, d) ensures NoChar(s[1..], d) {
      }
    }
  }

  /**
   * The offsets whisper.cpp prints, `HH:MM:SS.mmm` or `HH:MM:SS,mmm`, are
   * shown as `[MM:SS]` in the first hour and as `[HH:MM:SS]` after it; the
   * milliseconds are dropped.
   */
  lemma FormatWhisperTimestamp(h: string, m: string, s: string, sep: char, ms: string)
    requires sep == '.' || sep == ','
    requires NoChar(h, ':') && NoChar(m, ':') && NoChar(s, ':') && NoChar(ms, ':')
    requires NoChar(h, ',') && NoChar(m, ',') && NoChar(s, ',') && NoChar(ms, ',')
    requires NoChar(s, '.')
    ensures var r := FormatTimestamp(h + ":" + m + ":" + s + [sep] + ms);
      r == if h == "00" then "[" + m + ":" + s + "]" else "[" + h + ":" + m + ":" + s + "]"
  {
    var ts := h + ":" + m + ":" + s + [sep] + ms;
    var tail := s + "." + ms;
    var n := h + ":" + m + ":" + tail;
    assert NormalizeTimestamp(ts) == n;
    assert NoChar(tail, ':');
    SplitThree(h, m, tail);
    assert tail == s + ['.'] + ms;
    SplitAround(s, '.', ms);
  }

  /** A three-part offset without a fraction keeps its seconds whole: `00:01:02` is shown as `[01:02]`. */
  lemma FormatWholeSecondsTimestamp(h: string, m: string, s: string)
    requires NoChar(h, ':') && NoChar(m, ':') && NoChar(s, ':')
    requires NoChar(h, ',') && NoChar(m, ',') && NoChar(s, ',')
    requires NoChar(s, '.')
    ensures var r := FormatTimestamp(h + ":" + m + ":" + s);
      r == if h == "00" then "[" + m + ":" + s + "]" else "[" + h + ":" + m + ":" + s + "]"
  {
    var n := h + ":" + m + ":" + s;
    assert NormalizeTimestamp(n) == n;
    SplitThree(h, m, s);
    SplitNoChar(s, '.');
  }

  lemma SplitThree(h: string, m: string, s: string)
    requires NoChar(h, ':') && NoChar(m, ':') && NoChar(s, ':')
    ensures Split(h + ":" + m + ":" + s, ':') == [h, m, s]
  {
    SplitNoChar(s, ':');
    assert m + ":" + s == m + [':'] + s;
    SplitAround(m, ':', s);
    assert h + ":" + m + ":" + s == h + [':'] + (m + ":" + s);
    SplitAround(h, ':', m + ":" + s);
  }

  /** A timestamp without ':' is shown whole, normalised, inside brackets. */
  lemma FormatTimestampOther(ts: string)
    requires NoChar(ts, ':')
    ensures FormatTimestamp(ts) == "[" + NormalizeTimestamp(ts) + "]"
  {
    SplitNoChar(NormalizeTimestamp(ts), ':');
  }

  // ---------------------------------------------------------------------
  // CountWords

  /** The number of whitespace-separated words over all segment texts. */
  function TotalWords(segments: seq<Segment>): nat
  {
    if segments == [] then 0 else |Fields(segments[0].text)| + TotalWords(segments[1..])
  }

  /** All words of the segment texts, in order. */
  function AllWords(segments: seq<Segment>): (ws: seq<string>)
    ensures |ws| == TotalWords(segments)
  {
    if segments == [] then [] else Fields(segments[0].text) + AllWords(segments[1..])
  }

  lemma {:induction false} TotalWordsAppend(a: seq<Segment>, b: seq<Segment>)
    ensures TotalWords(a + b) == TotalWords(a) + TotalWords(b)
    decreases |a|
  {
    if a != [] {
      assert (a + b)[1..] == a[1..] + b;
      TotalWordsAppend(a[1..], b);
    } else {
      assert a + b == b;
    }
  }

  lemma TotalWordsEmpty()
    ensures TotalWords([]) == 0
  {
  }

  method CountWords(segments: seq<Segment>) returns (count: nat)
    ensures count == TotalWords(segments)
  {
    count := 0;
    for i := 0 to |segments|
      invariant count == TotalWords(segments[..i])
    {
      TotalWordsAppend(segments[..i], [segments[i]]);
      assert segments[..i + 1] == segments[..i] + [segments[i]];
      count := count + |Fields(segments[i].text)|;
    }
    assert segments[..|segments|] == segments;
  }

  // ---------------------------------------------------------------------
  // Transcribe

  /** The segment a matched line yields, kept only when its trimmed text is not empty. */
  function Accept(line: Line): (r: Option<Segment>)
    ensures r.Some? ==> line.Match? && r.value.text != []
    ensures r.Some? ==> !IsSpace(r.value.text[0]) && !IsSpace(r.value.text[|r.value.text| - 1])
    ensures r.Some? <==> line.Match? && TrimSpace(line.rest) != ""
    ensures r.Some? ==> FromLine(r.value, line)
  {
    match line
    case NoMatch => None
    case Match(start, end, rest) =>
      var seg := Segment(NormalizeTimestamp(start), NormalizeTimestamp(end), TrimSpace(rest), FormatTimestamp(start));
      if seg.text != "" then Some(seg) else None
  }

  /** The segments collected from the given lines, in order. */
  function Kept(lines: seq<Line>): seq<Segment>
  {
    if lines == [] then []
    else
      var last := Accept(lines[|lines| - 1]);
      Kept(lines[..|lines| - 1]) + (if last.Some? then [last.value] else [])
  }

  /** The chunks streamed for the given lines; the progress of a chunk is its line number over 100. */
  function Chunks(lines: seq<Line>): seq<Chunk>
  {
    if lines == [] then []
    else
      var last := Accept(lines[|lines| - 1]);
      Chunks(lines[..|lines| - 1])
        + (if last.Some? then [Chunk(last.value.text, last.value.timestamp, |lines| as real / 100.0)] else [])
  }

  /** The error Transcribe returns before reading any output. */
  function SetupError(model: string, binaryFound: bool, modelFound: bool): Option<string>
  {
    if !binaryFound then Some("whisper binary not found in PATH (tried: whisper-cpp, whisper, main)")
    else if !modelFound then Some("model '" + model + "' not found - ensure whisper models are installed")
    else None
  }

  /**
   * Transcribe's line loop and its exit rule. `lines` is what whisper.cpp
   * printed, `exitError` its exit status. Returns the result and the chunks
   * handed to the callback, in order.
   */
  method Transcribe(model: string, binaryFound: bool, modelFound: bool, lines: seq<Line>, exitError: Option<string>)
    returns (r: Result<seq<Segment>>, chunks: seq<Chunk>)
    ensures SetupError(model, binaryFound, modelFound).Some? ==>
      r == Err(SetupError(model, binaryFound, modelFound).value) && chunks == []
    ensures SetupError(model, binaryFound, modelFound).None? ==>
      chunks == Chunks(lines) &&
      r == if exitError.Some? && Kept(lines) == [] then Err("whisper failed: " + exitError.value) else Ok(Kept(lines))
  {
    var setup := SetupError(model, binaryFound, modelFound);
    if setup.Some? {
      return Err(setup.value), [];
    }
    var segments: seq<Segment> := [];
    chunks := [];
    var lineCount := 0;
    while lineCount < |lines|
      invariant 0 <= lineCount <= |lines|
      invariant segments == Kept(lines[..lineCount])
      invariant chunks == Chunks(lines[..lineCount])
    {
      var line := lines[lineCount];
      KeptStep(lines, lineCount);
      ghost var accepted := Accept(line);
      lineCount := lineCount + 1;
      if line.Match? {
        var seg := Segment(NormalizeTimestamp(line.start), NormalizeTimestamp(line.end), TrimSpace(line.rest), FormatTimestamp(line.start));
        if seg.text != "" {
          assert accepted == Some(seg);
          ghost var chunk := Chunk(accepted.value.text, accepted.value.timestamp, lineCount as real / 100.0);
          segments := segments + [seg];
          chunks := chunks + [Chunk(seg.text, seg.timestamp, lineCount as real / 100.0)];
          assert chunks == Chunks(lines[..lineCount - 1]) + [chunk];
        } else {
          assert accepted == None;
        }
      } else {
        assert accepted == None;
      }
    }
    assert lines[..lineCount] == lines;
    if exitError.Some? {
      if |segments| > 0 {
        return Ok(segments), chunks;
      }
      return Err("whisper failed: " + exitError.value), chunks;
    }
    return Ok(segments), chunks;
  }

  /** One more line read: its segment, if any, is kept and its chunk streamed. */
  lemma KeptStep(lines: seq<Line>, n: nat)
    requires n < |lines|
    ensures var a := Accept(lines[n]);
      Kept(lines[..n + 1]) == Kept(lines[..n]) + (if a.Some? then [a.value] else []) &&
      Chunks(lines[..n + 1]) == Chunks(lines[..n]) + (if a.Some? then [Chunk(a.value.text, a.value.timestamp, (n + 1) as real / 100.0)] else [])
  {
    assert lines[..n + 1][..n] == lines[..n];
  }

  /** Every kept segment has non-empty text with no surrounding white space. */
  lemma {:induction false} KeptTrimmed(lines: seq<Line>)
    ensures forall k :: 0 <= k < |Kept(lines)| ==>
      var t := Kept(lines)[k].text; t != [] && !IsSpace(t[0]) && !IsSpace(t[|t| - 1])
    decreases |lines|
  {
    if lines != [] {
      KeptTrimmed(lines[..|lines| - 1]);
    }
  }

  /** `seg` is what the matched `line` yields: offsets normalised, text trimmed. */
  predicate FromLine(seg: Segment, line: Line)
  {
    line.Match? &&
    seg == Segment(NormalizeTimestamp(line.start), NormalizeTimestamp(line.end), TrimSpace(line.rest), FormatTimestamp(line.start))
  }

  /** Each kept segment is the one yielded by some matched line. */
  lemma {:induction false} KeptFromMatches(lines: seq<Line>)
    ensures forall k :: 0 <= k < |Kept(lines)| ==> exists j :: 0 <= j < |lines| && FromLine(Kept(lines)[k], lines[j])
    decreases |lines|
  {
    if lines != [] {
      var init := lines[..|lines| - 1];
      KeptFromMatches(init);
      forall k | 0 <= k < |Kept(lines)|
        ensures exists j :: 0 <= j < |lines| && FromLine(Kept(lines)[k], lines[j])
      {
        if k < |Kept(init)| {
          var j :| 0 <= j < |init| && FromLine(Kept(init)[k], init[j]);
          assert Kept(lines)[k] == Kept(init)[k] && lines[j] == init[j];
          assert FromLine(Kept(lines)[k], lines[j]);
        } else {
          assert FromLine(Kept(lines)[k], lines[|lines| - 1]);
        }
      }
    } else {
      assert Kept(lines) == [];
    }
  }

  /**
   * Every kept segment triggers exactly one chunk with the same text and
   * timestamp, in the same order.
   */
  lemma {:induction false} ChunksMatchSegments(lines: seq<Line>)
    ensures |Chunks(lines)| == |Kept(lines)|
    ensures forall k :: 0 <= k < |Kept(lines)| ==>
      Chunks(lines)[k].text == Kept(lines)[k].text && Chunks(lines)[k].timestamp == Kept(lines)[k].timestamp
    decreases |lines|
  {
    if lines != [] {
      ChunksMatchSegments(lines[..|lines| - 1]);
    }
  }

  /** The chunks' progress strictly rises and never exceeds the number of lines read over 100. */
  lemma {:induction false} ChunkProgress(lines: seq<Line>)
    ensures forall k :: 0 <= k < |Chunks(lines)| ==> 0.0 < Chunks(lines)[k].progress <= |lines| as real / 100.0
    ensures forall k, l :: 0 <= k < l < |Chunks(lines)| ==> Chunks(lines)[k].progress < Chunks(lines)[l].progress
    decreases |lines|
  {
    if lines != [] {
      var init := lines[..|lines| - 1];
      ChunkProgress(init);
      var c := Chunks(lines);
      var p := Chunks(init);
      assert |init| as real / 100.0 < |lines| as real / 100.0;
      assert c[..|p|] == p;
      assert forall k :: 0 <= k < |p| ==> c[k] == p[k];
    }
  }

  /** The positions of the lines that yield a segment, in order. */
  function KeptLines(lines: seq<Line>): seq<nat>
  {
    if lines == [] then []
    else
      KeptLines(lines[..|lines| - 1]) + (if Accept(lines[|lines| - 1]).Some? then [|lines| - 1] else [])
  }

  /** The positions of the accepting lines: each in range, yielding a segment, strictly increasing, none missing. */
  predicate AcceptingPositions(lines: seq<Line>, idx: seq<nat>)
  {
    PositionsAccept(lines, idx) && PositionsIncrease(idx) && PositionsComplete(lines, idx)
  }

  predicate PositionsAccept(lines: seq<Line>, idx: seq<nat>)
  {
    forall k :: 0 <= k < |idx| ==> idx[k] < |lines| && Accept(lines[idx[k]]).Some?
  }

  predicate PositionsIncrease(idx: seq<nat>)
  {
    forall k, l :: 0 <= k < l < |idx| ==> idx[k] < idx[l]
  }

  predicate PositionsComplete(lines: seq<Line>, idx: seq<nat>)
  {
    forall j :: 0 <= j < |lines| && Accept(lines[j]).Some? ==> j in idx
  }

  /**
   * The kept segments are exactly the segments of the accepting lines, in
   * line order: no accepting line is skipped and no other line contributes.
   */
  lemma {:induction false} KeptSubsequence(lines: seq<Line>)
    ensures var idx := KeptLines(lines);
      && AcceptingPositions(lines, idx)
      && |Kept(lines)| == |idx|
      && (forall k :: 0 <= k < |idx| ==> Accept(lines[idx[k]]) == Some(Kept(lines)[k]))
    decreases |lines|
  {
    if lines != [] {
      KeptSubsequence(lines[..|lines| - 1]);
      PositionsStep(lines);
      KeptValuesStep(lines);
    }
  }

  lemma PositionsStep(lines: seq<Line>)
    requires lines != []
    requires AcceptingPositions(lines[..|lines| - 1], KeptLines(lines[..|lines| - 1]))
    ensures AcceptingPositions(lines, KeptLines(lines))
  {
    var n := |lines| - 1;
    var p := KeptLines(lines[..n]);
    var idx := KeptLines(lines);
    assert idx == p + (if Accept(lines[n]).Some? then [n] else []);
    AcceptStep(lines, p, idx);
    IncreaseStep(n, p, idx);
    CompleteStep(lines, p, idx);
  }

  lemma AcceptStep(lines: seq<Line>, p: seq<nat>, idx: seq<nat>)
    requires lines != [] && PositionsAccept(lines[..|lines| - 1], p)
    requires idx == p + (if Accept(lines[|lines| - 1]).Some? then [|lines| - 1] else [])
    ensures PositionsAccept(lines, idx)
  {
    assert forall k :: 0 <= k < |p| ==> lines[p[k]] == lines[..|lines| - 1][p[k]];
  }

  lemma IncreaseStep(n: nat, p: seq<nat>, idx: seq<nat>)
    requires PositionsIncrease(p) && forall k :: 0 <= k < |p| ==> p[k] < n
    requires idx == p || idx == p + [n]
    ensures PositionsIncrease(idx)
  {
  }

  lemma CompleteStep(lines: seq<Line>, p: seq<nat>, idx: seq<nat>)
    requires lines != [] && PositionsComplete(lines[..|lines| - 1], p)
    requires idx == p + (if Accept(lines[|lines| - 1]).Some? then [|lines| - 1] else [])
    ensures PositionsComplete(lines, idx)
  {
    var n := |lines| - 1;
    forall j | 0 <= j < |lines| && Accept(lines[j]).Some? ensures j in idx {
      if j < n {
        assert lines[..n][j] == lines[j];
        assert j in p;
      } else {
        assert idx[|p|] == j;
      }
    }
  }

  lemma KeptValuesStep(lines: seq<Line>)
    requires lines != []
    requires var init := lines[..|lines| - 1];
      |Kept(init)| == |KeptLines(init)| &&
      forall k :: 0 <= k < |KeptLines(init)| ==> KeptLines(init)[k] < |init| && Accept(init[KeptLines(init)[k]]) == Some(Kept(init)[k])
    ensures |Kept(lines)| == |KeptLines(lines)|
    ensures forall k :: 0 <= k < |KeptLines(lines)| ==> KeptLines(lines)[k] < |lines| && Accept(lines[KeptLines(lines)[k]]) == Some(Kept(lines)[k])
  {
    var n := |lines| - 1;
    var init := lines[..n];
    var p := KeptLines(init);
    assert forall k :: 0 <= k < |p| ==> lines[p[k]] == init[p[k]];
    var a := Accept(lines[n]);
    if a.Some? {
      assert KeptLines(lines) == p + [n];
      assert Kept(lines) == Kept(init) + [a.value];
    } else {
      assert KeptLines(lines) == p;
      assert Kept(lines) == Kept(init);
    }
  }

  /** Each chunk's progress is the number of the line that produced it over 100. */
  lemma {:induction false} ChunkLineNumbers(lines: seq<Line>)
    ensures |Chunks(lines)| == |KeptLines(lines)|
    ensures forall k :: 0 <= k < |Chunks(lines)| ==> Chunks(lines)[k].progress == (KeptLines(lines)[k] + 1) as real / 100.0
    decreases |lines|
  {
    if lines != [] {
      var init := lines[..|lines| - 1];
      ChunkLineNumbers(init);
      assert forall k :: 0 <= k < |Chunks(init)| ==> Chunks(lines)[k] == Chunks(init)[k] && KeptLines(lines)[k] == KeptLines(init)[k];
    }
  }
}
