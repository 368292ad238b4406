/**
 * The pure parts of internal/downloader/ytdlp.go: the video metadata record,
 * duration formatting, URL validation, and the stdout loop of Download that
 * picks out the extracted audio file, with its fallback.
 *
 * yt-dlp itself is not modelled: its stdout arrives as a sequence of lines
 * (each with the percentage, if any, that the progress pattern found in it),
 * its exit status as an optional error message, and the `*.wav` files left in
 * the temporary directory as a list.
 */
module Downloader {
  import opened Text

  /** Video information as FetchMetadata returns it. */
  datatype Metadata = Metadata(
    title: string,
    channel: string,
    channelURL: string,
    duration: string,
    durationSec: int,
    uploadDate: string,
    description: string,
    videoID: string)

  // ---------------------------------------------------------------------
  // formatDuration

  /** Go's integer `/`, which truncates toward zero. */
  function GoDiv(a: int, b: int): int
    requires b > 0
  {
    if a >= 0 then a / b else -((-a) / b)
  }

  /** Go's integer `%`, whose remainder takes the sign of the dividend. */
  function GoMod(a: int, b: int): int
    requires b > 0
  {
    a - b * GoDiv(a, b)
  }

  /** Hours, minutes and seconds as formatDuration computes them. */
  function DurationParts(seconds: int): (hms: (int, int, int))
    ensures hms.0 * 3600 + hms.1 * 60 + hms.2 == seconds
    ensures seconds >= 0 ==> hms.0 >= 0 && 0 <= hms.1 < 60 && 0 <= hms.2 < 60
    ensures seconds < 0 ==> hms.0 <= 0 && -60 < hms.1 <= 0 && -60 < hms.2 <= 0
  {
    var n := if seconds >= 0 then seconds else -seconds;
    PartsOfNat(n);
    GoDivNeg(seconds, 3600);
    GoDivNeg(seconds, 60);
    GoDivNeg(GoMod(seconds, 3600), 60);
    (GoDiv(seconds, 3600), GoDiv(GoMod(seconds, 3600), 60), GoMod(seconds, 60))
  }

  /** For a non-negative count, hours, minutes and seconds recompose it. */
  lemma PartsOfNat(n: nat)
    ensures (n / 3600) * 3600 + ((n % 3600) / 60) * 60 + n % 60 == n
    ensures 0 <= (n % 3600) / 60 < 60 && 0 <= n % 60 < 60
  {
    var q, r := n / 3600, n % 3600;
    assert n == q * 3600 + r;
    var m, t := r / 60, r % 60;
    assert r == m * 60 + t;
    assert n == 60 * (q * 60 + m) + t;
    SixtiethParts(q * 60 + m, t);
  }

  /** Division by 60 takes `60 * k + t` apart again. */
  lemma SixtiethParts(k: int, t: int)
    requires 0 <= t < 60
    ensures (60 * k + t) % 60 == t && (60 * k + t) / 60 == k
  {
  }

  /** Go's truncating division and remainder are odd in the dividend. */
  lemma GoDivNeg(a: int, b: int)
    requires b > 0
    ensures GoDiv(a, b) == if a >= 0 then a / b else -((-a) / b)
    ensures GoMod(a, b) == if a >= 0 then a % b else -((-a) % b)
  {
    if a < 0 {
      assert -a == ((-a) / b) * b + (-a) % b;
    } else {
      assert a == (a / b) * b + a % b;
    }
  }

  /** formatDuration: "h:MM:SS" from one hour on, "m:SS" below it. */
  function FormatDuration(seconds: int): string
  {
    var (h, m, s) := DurationParts(seconds);
    if h > 0 then Decimal(h) + ":" + Pad2(m) + ":" + Pad2(s)
    else Decimal(m) + ":" + Pad2(s)
  }

  /** The seconds denoted by the ':'-separated fields "h:MM:SS" or "m:SS", if they are all digits. */
  function DurationValue(parts: seq<string>): Option<int>
  {
    if |parts| == 3 && AllDigits(parts[0]) && AllDigits(parts[1]) && AllDigits(parts[2]) then
      Some(ParseNat(parts[0]) * 3600 + ParseNat(parts[1]) * 60 + ParseNat(parts[2]))
    else if |parts| == 2 && AllDigits(parts[0]) && AllDigits(parts[1]) then
      Some(ParseNat(parts[0]) * 60 + ParseNat(parts[1]))
    else None
  }

  /** Reads back a formatted duration; None when it is not one. */
  function ParseDuration(text: string): Option<int>
  {
    DurationValue(Split(text, ':'))
  }

  predicate AllDigits(s: string)
  {
    forall i :: 0 <= i < |s| ==> IsDigit(s[i])
  }

  lemma PadDigits(n: nat)
    requires n < 60
    ensures AllDigits(Pad2(n)) && ParseNat(Pad2(n)) == n && |Pad2(n)| == 2
  {
    ParseNatDigits(n);
    if n < 10 {
      ParseNatLeadingZero(NatDigits(n));
    } else {
      assert NatDigits(n) == NatDigits(n / 10) + [DigitChar(n % 10)];
    }
  }

  lemma ValueTwo(a: string, b: string)
    requires AllDigits(a) && AllDigits(b)
    ensures DurationValue([a, b]) == Some(ParseNat(a) * 60 + ParseNat(b))
  {
    var parts := [a, b];
    assert parts[0] == a && parts[1] == b;
  }

  lemma ValueThree(a: string, b: string, c: string)
    requires AllDigits(a) && AllDigits(b) && AllDigits(c)
    ensures DurationValue([a, b, c]) == Some(ParseNat(a) * 3600 + ParseNat(b) * 60 + ParseNat(c))
  {
    var parts := [a, b, c];
    assert parts[0] == a && parts[1] == b && parts[2] == c;
  }

  lemma ParseTwo(a: string, b: string)
    requires AllDigits(a) && AllDigits(b)
    ensures ParseDuration(a + ":" + b) == Some(ParseNat(a) * 60 + ParseNat(b))
  {
    assert NoChar(a, ':') && NoChar(b, ':');
    SplitNoChar(b, ':');
    assert a + ":" + b == a + [':'] + b;
    SplitAround(a, ':', b);
    assert Split(a + ":" + b, ':') == [a, b];
    ValueTwo(a, b);
  }

  lemma ParseThree(a: string, b: string, c: string)
    requires AllDigits(a) && AllDigits(b) && AllDigits(c)
    ensures ParseDuration(a + ":" + b + ":" + c) == Some(ParseNat(a) * 3600 + ParseNat(b) * 60 + ParseNat(c))
  {
    assert NoChar(a, ':') && NoChar(b, ':') && NoChar(c, ':');
    SplitNoChar(c, ':');
    SplitAround(b, ':', c);
    assert a + ":" + b + ":" + c == a + [':'] + (b + [':'] + c);
    SplitAround(a, ':', b + [':'] + c);
    assert Split(a + ":" + b + ":" + c, ':') == [a, b, c];
    ValueThree(a, b, c);
  }

  /** A non-negative duration is read back exactly from its formatted text. */
  lemma FormatDurationRoundTrip(seconds: int)
    requires seconds >= 0
    ensures ParseDuration(FormatDuration(seconds)) == Some(seconds)
  {
    var hms := DurationParts(seconds);
    var h, m, s := hms.0, hms.1, hms.2;
    if h > 0 {
      assert FormatDuration(seconds) == Decimal(h) + ":" + Pad2(m) + ":" + Pad2(s);
      HoursRoundTrip(h, m, s);
    } else {
      assert FormatDuration(seconds) == Decimal(m) + ":" + Pad2(s);
      MinutesRoundTrip(m, s);
    }
  }

  lemma HoursRoundTrip(h: nat, m: nat, s: nat)
    requires m < 60 && s < 60
    ensures ParseDuration(Decimal(h) + ":" + Pad2(m) + ":" + Pad2(s)) == Some(h * 3600 + m * 60 + s)
  {
    PadDigits(m);
    PadDigits(s);
    ParseNatDigits(h);
    ParseThree(Decimal(h), Pad2(m), Pad2(s));
  }

  lemma MinutesRoundTrip(m: nat, s: nat)
    requires m < 60 && s < 60
    ensures ParseDuration(Decimal(m) + ":" + Pad2(s)) == Some(m * 60 + s)
  {
    PadDigits(s);
    ParseNatDigits(m);
    ParseTwo(Decimal(m), Pad2(s));
  }

  /** Ten and a half minutes, as the source's own example. */
  lemma FormatDurationExample()
    ensures FormatDuration(630) == "10:30"
  {
    assert DurationParts(630) == (0, 10, 30);
    assert NatDigits(10) == "10";
    assert NatDigits(30) == "30";
  }

  // ---------------------------------------------------------------------
  // ValidateURL

  const WatchPath := "youtube.com/watch"
  const ShortLinkPath := "youtu.be/"
  const ShortsPath := "youtube.com/shorts/"

  /** ValidateURL: None when the URL is accepted, else the error message. */
  function ValidateURL(url: string): (r: Option<string>)
    ensures r.Some? ==> r.value == "URL is required" || r.value == "invalid YouTube URL"
  {
    var u := TrimSpace(url);
    if u == "" then Some("URL is required")
    else if !Contains(u, WatchPath) && !Contains(u, ShortLinkPath) && !Contains(u, ShortsPath) then
      Some("invalid YouTube URL")
    else None
  }

  /**
   * A URL is missing exactly when it is all white space, and accepted exactly
   * when it is not and names a watch page, a short link or a Shorts page.
   */
  lemma ValidateURLVerdict(url: string)
    ensures ValidateURL(url) == Some("URL is required") <==> AllSpace(url)
    ensures ValidateURL(url).None? <==>
      !AllSpace(url) && (Contains(url, WatchPath) || Contains(url, ShortLinkPath) || Contains(url, ShortsPath))
  {
    ContainsTrimSpace(url, WatchPath);
    ContainsTrimSpace(url, ShortLinkPath);
    ContainsTrimSpace(url, ShortsPath);
  }

  /** White space around the URL never changes the verdict. */
  lemma ValidateURLSurround(pre: string, url: string, post: string)
    requires AllSpace(pre) && AllSpace(post)
    ensures ValidateURL(pre + url + post) == ValidateURL(url)
  {
    TrimSpaceSurround(pre, url, post);
  }

  // ---------------------------------------------------------------------
  // Download

  /** A line of yt-dlp's stdout and the percentage the progress pattern found in it, if any. */
  datatype OutputLine = OutputLine(text: string, percent: Option<real>)

  const DestinationMarker := "[ExtractAudio] Destination:"

  /** The audio path a stdout line announces: the trimmed text after its first ": ". */
  function DestinationOf(line: string): (r: Option<string>)
    ensures r.Some? ==> r.value == [] || (!IsSpace(r.value[0]) && !IsSpace(r.value[|r.value| - 1]))
  {
    if Contains(line, DestinationMarker) then
      var i := Index(line, ": ");
      if i >= 0 then Some(TrimSpace(line[i + 2..])) else None
    else None
  }

  /** A Destination line as yt-dlp prints it yields the announced path, trimmed. */
  lemma DestinationLine(path: string)
    ensures DestinationOf(DestinationMarker + " " + path) == Some(TrimSpace(path))
  {
    var line := DestinationMarker + " " + path;
    assert OccursAt(line, DestinationMarker, 0);
    assert OccursAt(line, ": ", 26);
    IndexFirst(line, ": ");
    forall j | 0 <= j < 26 ensures !OccursAt(line, ": ", j) {
      assert line[j] == DestinationMarker[j] != ':';
      assert line[j..j + 2][0] == line[j];
    }
    assert line[28..] == path;
  }

  /** The progress fractions reported for the first `n` lines: each percentage over 100. */
  function ReportsAfter(lines: seq<OutputLine>, n: nat): seq<real>
    requires n <= |lines|
  {
    if n == 0 then []
    else
      var l := lines[n - 1];
      ReportsAfter(lines, n - 1) + (if l.percent.Some? then [l.percent.value / 100.0] else [])
  }

  /** One more line read: its percentage over 100, if it has one, is reported. */
  lemma ReportStep(lines: seq<OutputLine>, n: nat)
    requires n < |lines|
    ensures ReportsAfter(lines, n + 1) ==
      ReportsAfter(lines, n) + (if lines[n].percent.Some? then [lines[n].percent.value / 100.0] else [])
  {
  }

  /** The audio path after reading `lines`: the path the last announcing line gave, or "". */
  function AudioPath(lines: seq<OutputLine>): string
  {
    LastAnnounced(Announcements(lines), |lines|)
  }

  function Reports(lines: seq<OutputLine>): seq<real>
  {
    ReportsAfter(lines, |lines|)
  }

  /** What each stdout line announces. */
  function Announcements(lines: seq<OutputLine>): (ds: seq<Option<string>>)
    ensures |ds| == |lines|
  {
    if lines == [] then []
    else Announcements(lines[..|lines| - 1]) + [DestinationOf(lines[|lines| - 1].text)]
  }

  lemma {:induction false} AnnouncementAt(lines: seq<OutputLine>, k: nat)
    requires k < |lines|
    ensures Announcements(lines)[k] == DestinationOf(lines[k].text)
    decreases |lines|
  {
    if k < |lines| - 1 {
      AnnouncementAt(lines[..|lines| - 1], k);
    }
  }

  /** The value of the last announcement among the first `n`, or "". */
  function LastAnnounced(ds: seq<Option<string>>, n: nat): string
    requires n <= |ds|
  {
    if n == 0 then ""
    else if ds[n - 1].Some? then ds[n - 1].value
    else LastAnnounced(ds, n - 1)
  }

  lemma LastAnnouncedStep(ds: seq<Option<string>>, n: nat)
    requires n < |ds|
    ensures LastAnnounced(ds, n + 1) == if ds[n].Some? then ds[n].value else LastAnnounced(ds, n)
  {
  }

  /** Entry `j`, among the first `n`, announces `path` and no later one of them announces anything. */
  predicate AnnouncedLast(ds: seq<Option<string>>, n: nat, j: int, path: string)
    requires n <= |ds|
  {
    0 <= j < n && ds[j] == Some(path) && forall k :: j < k < n ==> ds[k].None?
  }

  lemma {:induction false} LastAnnouncedIsLast(ds: seq<Option<string>>, n: nat)
    requires n <= |ds|
    ensures (forall k :: 0 <= k < n ==> ds[k].None?) ==> LastAnnounced(ds, n) == ""
    ensures (exists k :: 0 <= k < n && ds[k].Some?) ==> exists j :: AnnouncedLast(ds, n, j, LastAnnounced(ds, n))
    decreases n
  {
    if n > 0 {
      LastAnnouncedIsLast(ds, n - 1);
      if ds[n - 1].Some? {
        assert AnnouncedLast(ds, n, n - 1, LastAnnounced(ds, n));
      } else if exists k :: 0 <= k < n && ds[k].Some? {
        var k :| 0 <= k < n && ds[k].Some?;
        assert k < n - 1;
        var j :| AnnouncedLast(ds, n - 1, j, LastAnnounced(ds, n - 1));
        assert AnnouncedLast(ds, n, j, LastAnnounced(ds, n));
      }
    }
  }

  /**
   * The audio path is the one announced by the last Destination line that
   * has a ": ", and "" when no line does.
   */
  lemma AudioPathLast(lines: seq<OutputLine>)
    ensures (forall k :: 0 <= k < |lines| ==> DestinationOf(lines[k].text).None?) ==> AudioPath(lines) == ""
    ensures (exists k :: 0 <= k < |lines| && DestinationOf(lines[k].text).Some?) ==>
      exists j :: 0 <= j < |lines| && DestinationOf(lines[j].text) == Some(AudioPath(lines)) &&
        forall k :: j < k < |lines| ==> DestinationOf(lines[k].text).None?
  {
    var ds := Announcements(lines);
    forall k | 0 <= k < |lines| ensures ds[k] == DestinationOf(lines[k].text) {
      AnnouncementAt(lines, k);
    }
    LastAnnouncedIsLast(ds, |lines|);
    if exists k :: 0 <= k < |lines| && DestinationOf(lines[k].text).Some? {
      var k :| 0 <= k < |lines| && DestinationOf(lines[k].text).Some?;
      assert ds[k].Some?;
      var j :| AnnouncedLast(ds, |lines|, j, LastAnnounced(ds, |lines|));
    }
  }

  /** What Download returns once yt-dlp has exited. */
  function Outcome(path: string, exitError: Option<string>, wavFiles: seq<string>): Result<string>
  {
    if exitError.Some? then Err("yt-dlp failed: " + exitError.value)
    else if path != "" then Ok(path)
    else if |wavFiles| > 0 then Ok(wavFiles[|wavFiles| - 1])
    else Err("no audio file produced")
  }

  /**
   * Download's stdout loop: reports each percentage over 100 and keeps the
   * path announced by the latest Destination line.
   */
  method ScanOutput(lines: seq<OutputLine>) returns (audioPath: string, reports: seq<real>)
    ensures audioPath == AudioPath(lines)
    ensures reports == Reports(lines)
  {
    audioPath := "";
    reports := [];
    ghost var announcements := Announcements(lines);
    for i := 0 to |lines|
      invariant audioPath == LastAnnounced(announcements, i)
      invariant reports == ReportsAfter(lines, i)
    {
      var line := lines[i];
      LastAnnouncedStep(announcements, i);
      AnnouncementAt(lines, i);
      ReportStep(lines, i);
      if line.percent.Some? {
        reports := reports + [line.percent.value / 100.0];
      }
      var announced := DestinationOf(line.text);
      if announced.Some? {
        audioPath := announced.value;
      }
    }
  }

  /**
   * Download's stdout loop and fallback. `tmpDirError` is a failure to create
   * the temporary directory, `startError` a failure to start yt-dlp; `wavFiles` is what the glob
   * of the temporary directory finds. Returns the result and the progress
   * fractions handed to the callback, in order.
   */
  method Download(tmpDirError: Option<string>, startError: Option<string>, lines: seq<OutputLine>,
                  exitError: Option<string>, wavFiles: seq<string>)
    returns (r: Result<string>, reports: seq<real>)
    ensures tmpDirError.Some? ==> r == Err("create temp dir: " + tmpDirError.value) && reports == []
    ensures tmpDirError.None? && startError.Some? ==> r == Err("start yt-dlp: " + startError.value) && reports == []
    ensures tmpDirError.None? && startError.None? ==> reports == Reports(lines)
    ensures tmpDirError.None? && startError.None? ==> r == Outcome(AudioPath(lines), exitError, wavFiles)
  {
    if tmpDirError.Some? {
      return Err("create temp dir: " + tmpDirError.value), [];
    }
    if startError.Some? {
      return Err("start yt-dlp: " + startError.value), [];
    }
    var audioPath;
    audioPath, reports := ScanOutput(lines);
    if exitError.Some? {
      return Err("yt-dlp failed: " + exitError.value), reports;
    }
    if audioPath == "" {
      if |wavFiles| > 0 {
        audioPath := wavFiles[|wavFiles| - 1];
      } else {
        return Err("no audio file produced"), reports;
      }
    }
    return Ok(audioPath), reports;
  }
}
