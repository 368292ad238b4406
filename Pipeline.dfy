/**
 * The event protocol of internal/pipeline/pipeline.go: Run drives five
 * stages (metadata, download, transcribe, format, validate) in sequence and
 * sends events describing its progress, stopping at the first failing stage.
 *
 * The collaborators are not modelled: what each returns, and what it streams
 * through its callback before returning, is given as an Outcomes value. The
 * event channel is the sequence `events`, appended by a single producer.
 */
module Pipeline {
  import opened Text
  import opened Config
  import opened Downloader
  import opened Transcriber

  /** Statistics reported on completion. */
  datatype Stats = Stats(duration: string, wordCount: int, model: string)

  datatype Event =
    | MetadataEvent(title: string, channel: string, duration: string)
    | ProgressEvent(step: string, progress: real, message: string)
    | TranscriptEvent(text: string, timestamp: string)
    | CompletedEvent(outputPath: string, stats: Stats)
    | ErrorEvent(step: string, err: string)

  predicate IsTerminal(e: Event)
  {
    e.CompletedEvent? || e.ErrorEvent?
  }

  /**
   * What the collaborators do in one run: the metadata fetch's result, the
   * progress fractions the download streams and its result, the chunks the
   * transcriber streams and its result, the formatter's result (the output
   * path) and whether the lint pass finds nothing.
   */
  datatype Outcomes = Outcomes(
    metadata: Result<Metadata>,
    downloadReports: seq<real>,
    download: Result<string>,
    chunks: seq<Chunk>,
    transcription: Result<seq<Segment>>,
    format: Result<string>,
    lintPassed: bool)

  // ---------------------------------------------------------------------
  // The events a run sends

  function DownloadEvents(reports: seq<real>): (es: seq<Event>)
    ensures |es| == |reports|
  {
    if reports == [] then []
    else DownloadEvents(reports[..|reports| - 1]) + [ProgressEvent("download", reports[|reports| - 1], "Downloading...")]
  }

  function ChunkEvents(chunks: seq<Chunk>): (es: seq<Event>)
    ensures |es| == 2 * |chunks|
  {
    if chunks == [] then []
    else
      var c := chunks[|chunks| - 1];
      ChunkEvents(chunks[..|chunks| - 1])
        + [TranscriptEvent(c.text, c.timestamp), ProgressEvent("transcribe", c.progress, "Transcribing...")]
  }

  function LintMessage(passed: bool): string
  {
    if passed then "Passed" else "Warnings found"
  }

  function FormatStage(cfg: TranscriptionConfig, o: Outcomes, meta: Metadata, segments: seq<Segment>): seq<Event>
  {
    [ProgressEvent("format", 0.0, "Generating markdown...")] +
    match o.format
    case Err(e) => [ErrorEvent("format", e)]
    case Ok(path) => FinishEvents(path, Stats(meta.duration, TotalWords(segments), cfg.model), o.lintPassed)
  }

  function TranscribeStage(cfg: TranscriptionConfig, o: Outcomes, meta: Metadata): seq<Event>
  {
    [ProgressEvent("transcribe", 0.0, "Starting transcription...")] + ChunkEvents(o.chunks) +
    match o.transcription
    case Err(e) => [ErrorEvent("transcribe", e)]
    case Ok(segments) => [ProgressEvent("transcribe", 1.0, "Done")] + FormatStage(cfg, o, meta, segments)
  }

  function DownloadStage(cfg: TranscriptionConfig, o: Outcomes, meta: Metadata): seq<Event>
  {
    [ProgressEvent("download", 0.0, "Starting download...")] + DownloadEvents(o.downloadReports) +
    match o.download
    case Err(e) => [ErrorEvent("download", e)]
    case Ok(_) => [ProgressEvent("download", 1.0, "Done")] + TranscribeStage(cfg, o, meta)
  }

  /** The events one run sends, in order. */
  function Trace(cfg: TranscriptionConfig, o: Outcomes): seq<Event>
  {
    [ProgressEvent("metadata", 0.0, "Fetching video info...")] +
    match o.metadata
    case Err(e) => [ErrorEvent("metadata", e)]
    case Ok(meta) =>
      [MetadataEvent(meta.title, meta.channel, meta.duration), ProgressEvent("metadata", 1.0, "Done")]
        + DownloadStage(cfg, o, meta)
  }

  // ---------------------------------------------------------------------
  // Run

  class Pipeline {
    const config: TranscriptionConfig
    /** Every event sent so far, oldest first. */
    var events: seq<Event>

    constructor (cfg: TranscriptionConfig)
      ensures config == cfg && events == []
    {
      config := cfg;
      events := [];
    }

    method Emit(e: Event)
      modifies this
      ensures events == old(events) + [e]
    {
      events := events + [e];
    }

    /** Run: sends the events of one run and nothing else. */
    method Run(o: Outcomes)
      modifies this
      ensures events == old(events) + Trace(config, o)
    {
      ghost var start := events;
      Emit(ProgressEvent("metadata", 0.0, "Fetching video info..."));
      if o.metadata.Err? {
        Emit(ErrorEvent("metadata", o.metadata.msg));
        return;
      }
      var meta := o.metadata.value;
      Emit(MetadataEvent(meta.title, meta.channel, meta.duration));
      Emit(ProgressEvent("metadata", 1.0, "Done"));
      ghost var afterMeta := events;
      assert afterMeta == start + [ProgressEvent("metadata", 0.0, "Fetching video info..."),
        MetadataEvent(meta.title, meta.channel, meta.duration), ProgressEvent("metadata", 1.0, "Done")];

      RunDownload(o, meta);
      assert events == start + Trace(config, o);
    }

    /** The download stage and everything after it. */
    method RunDownload(o: Outcomes, meta: Metadata)
      modifies this
      ensures events == old(events) + DownloadStage(config, o, meta)
    {
      ghost var start := events;
      Emit(ProgressEvent("download", 0.0, "Starting download..."));
      var reports := o.downloadReports;
      for i := 0 to |reports|
        invariant events == start + [ProgressEvent("download", 0.0, "Starting download...")] + DownloadEvents(reports[..i])
      {
        assert reports[..i + 1][..i] == reports[..i];
        Emit(ProgressEvent("download", reports[i], "Downloading..."));
      }
      assert reports[..|reports|] == reports;
      if o.download.Err? {
        Emit(ErrorEvent("download", o.download.msg));
        return;
      }
      Emit(ProgressEvent("download", 1.0, "Done"));
      ghost var mid := events;
      RunTranscribe(o, meta);
      assert events == mid + TranscribeStage(config, o, meta);
    }

    /** The transcribe stage and everything after it. */
    method RunTranscribe(o: Outcomes, meta: Metadata)
      modifies this
      ensures events == old(events) + TranscribeStage(config, o, meta)
    {
      Emit(ProgressEvent("transcribe", 0.0, "Starting transcription..."));
      EmitChunks(o.chunks);
      if o.transcription.Err? {
        Emit(ErrorEvent("transcribe", o.transcription.msg));
        return;
      }
      var segments := o.transcription.value;
      Emit(ProgressEvent("transcribe", 1.0, "Done"));
      ghost var mid := events;
      RunFormat(o, meta, segments);
      assert events == mid + FormatStage(config, o, meta, segments);
    }

    /** Each transcribed chunk as its text and then its progress. */
    method EmitChunks(chunks: seq<Chunk>)
      modifies this
      ensures events == old(events) + ChunkEvents(chunks)
    {
      ghost var start := events;
      for i := 0 to |chunks|
        invariant events == start + ChunkEvents(chunks[..i])
      {
        var c := chunks[i];
        assert chunks[..i + 1][..i] == chunks[..i];
        assert ChunkEvents(chunks[..i + 1]) == ChunkEvents(chunks[..i])
          + [TranscriptEvent(c.text, c.timestamp), ProgressEvent("transcribe", c.progress, "Transcribing...")];
        Emit(TranscriptEvent(c.text, c.timestamp));
        Emit(ProgressEvent("transcribe", c.progress, "Transcribing..."));
      }
      assert chunks[..|chunks|] == chunks;
    }

    /** The format and validate stages, and the completion event. */
    method RunFormat(o: Outcomes, meta: Metadata, segments: seq<Segment>)
      modifies this
      ensures events == old(events) + FormatStage(config, o, meta, segments)
    {
      Emit(ProgressEvent("format", 0.0, "Generating markdown..."));
      if o.format.Err? {
        Emit(ErrorEvent("format", o.format.msg));
        return;
      }
      var outputPath := o.format.value;
      Emit(ProgressEvent("format", 1.0, "Done"));

      Emit(ProgressEvent("validate", 0.0, "Checking markdown..."));
      if !o.lintPassed {
        Emit(ProgressEvent("validate", 1.0, "Warnings found"));
      } else {
        Emit(ProgressEvent("validate", 1.0, "Passed"));
      }

      var wordCount := CountWords(segments);
      Emit(CompletedEvent(outputPath, Stats(meta.duration, wordCount, config.model)));
    }
  }

  // ---------------------------------------------------------------------
  // The grammar of a run, as a recogniser

  /** Where a run stands after the events read so far. */
  datatype Phase =
    | Idle | Fetching | Fetched | MetadataDone
    | Downloading | Downloaded
    | Transcribing | ChunkShown | Transcribed
    | Formatting | Formatted
    | Validating | Validated
    | Completed | Failed | Rejected

  function Next(ph: Phase, e: Event): Phase
  {
    match ph
    case Idle =>
      if e == ProgressEvent("metadata", 0.0, "Fetching video info...") then Fetching else Rejected
    case Fetching =>
      if e.MetadataEvent? then Fetched
      else if e.ErrorEvent? && e.step == "metadata" then Failed
      else Rejected
    case Fetched =>
      if e == ProgressEvent("metadata", 1.0, "Done") then MetadataDone else Rejected
    case MetadataDone =>
      if e == ProgressEvent("download", 0.0, "Starting download...") then Downloading else Rejected
    case Downloading =>
      if e.ProgressEvent? && e.step == "download" && e.message == "Downloading..." then Downloading
      else if e == ProgressEvent("download", 1.0, "Done") then Downloaded
      else if e.ErrorEvent? && e.step == "download" then Failed
      else Rejected
    case Downloaded =>
      if e == ProgressEvent("transcribe", 0.0, "Starting transcription...") then Transcribing else Rejected
    case Transcribing =>
      if e.TranscriptEvent? then ChunkShown
      else if e == ProgressEvent("transcribe", 1.0, "Done") then Transcribed
      else if e.ErrorEvent? && e.step == "transcribe" then Failed
      else Rejected
    case ChunkShown =>
      if e.ProgressEvent? && e.step == "transcribe" && e.message == "Transcribing..." then Transcribing else Rejected
    case Transcribed =>
      if e == ProgressEvent("format", 0.0, "Generating markdown...") then Formatting else Rejected
    case Formatting =>
      if e == ProgressEvent("format", 1.0, "Done") then Formatted
      else if e.ErrorEvent? && e.step == "format" then Failed
      else Rejected
    case Formatted =>
      if e == ProgressEvent("validate", 0.0, "Checking markdown...") then Validating else Rejected
    case Validating =>
      if e == ProgressEvent("validate", 1.0, "Passed") || e == ProgressEvent("validate", 1.0, "Warnings found")
      then Validated else Rejected
    case Validated =>
      if e.CompletedEvent? then Completed else Rejected
    case _ => Rejected
  }

  function Walk(ph: Phase, es: seq<Event>): Phase
    decreases |es|
  {
    if es == [] then ph else Walk(Next(ph, es[0]), es[1..])
  }

  /** A complete run: the recogniser ends in Completed or Failed. */
  predicate Accepted(es: seq<Event>)
  {
    Walk(Idle, es) == Completed || Walk(Idle, es) == Failed
  }

  lemma {:induction false} WalkAppend(ph: Phase, a: seq<Event>, b: seq<Event>)
    ensures Walk(ph, a + b) == Walk(Walk(ph, a), b)
    decreases |a|
  {
    if a == [] {
      assert a + b == b;
    } else {
      assert (a + b)[1..] == a[1..] + b;
      WalkAppend(Next(ph, a[0]), a[1..], b);
    }
  }

  lemma {:induction false} WalkDownloads(reports: seq<real>)
    ensures Walk(Downloading, DownloadEvents(reports)) == Downloading
    decreases |reports|
  {
    if reports != [] {
      var init := reports[..|reports| - 1];
      WalkDownloads(init);
      WalkAppend(Downloading, DownloadEvents(init), [ProgressEvent("download", reports[|reports| - 1], "Downloading...")]);
    }
  }

  lemma {:induction false} WalkChunks(chunks: seq<Chunk>)
    ensures Walk(Transcribing, ChunkEvents(chunks)) == Transcribing
    decreases |chunks|
  {
    if chunks != [] {
      var init := chunks[..|chunks| - 1];
      var c := chunks[|chunks| - 1];
      var shown := TranscriptEvent(c.text, c.timestamp);
      var step := ProgressEvent("transcribe", c.progress, "Transcribing...");
      WalkChunks(init);
      WalkAppend(Transcribing, ChunkEvents(init), [shown, step]);
      WalkCons(Transcribing, shown, [step]);
      WalkCons(ChunkShown, step, []);
    }
  }

  /** The first stage that fails, if any. */
  function FirstFailure(o: Outcomes): Option<string>
  {
    if o.metadata.Err? then Some("metadata")
    else if o.download.Err? then Some("download")
    else if o.transcription.Err? then Some("transcribe")
    else if o.format.Err? then Some("format")
    else None
  }

  lemma WalkCons(ph: Phase, e: Event, rest: seq<Event>)
    ensures Walk(ph, [e] + rest) == Walk(Next(ph, e), rest)
  {
    assert ([e] + rest)[1..] == rest;
  }

  lemma WalkFormat(cfg: TranscriptionConfig, o: Outcomes, meta: Metadata, segments: seq<Segment>)
    ensures Walk(Transcribed, FormatStage(cfg, o, meta, segments)) == if o.format.Ok? then Completed else Failed
  {
    var p0 := ProgressEvent("format", 0.0, "Generating markdown...");
    match o.format
    case Err(e) =>
      WalkCons(Transcribed, p0, [ErrorEvent("format", e)]);
      WalkCons(Formatting, ErrorEvent("format", e), []);
    case Ok(path) =>
      var stats := Stats(meta.duration, TotalWords(segments), cfg.model);
      var tail := FinishEvents(path, stats, o.lintPassed);
      assert FormatStage(cfg, o, meta, segments) == [p0] + tail;
      WalkCons(Transcribed, p0, tail);
      WalkFinish(path, stats, o.lintPassed);
  }

  /** The events after a successful format step. */
  function FinishEvents(path: string, stats: Stats, lintPassed: bool): seq<Event>
  {
    [ ProgressEvent("format", 1.0, "Done"),
      ProgressEvent("validate", 0.0, "Checking markdown..."),
      ProgressEvent("validate", 1.0, LintMessage(lintPassed)),
      CompletedEvent(path, stats) ]
  }

  lemma WalkFinish(path: string, stats: Stats, lintPassed: bool)
    ensures Walk(Formatting, FinishEvents(path, stats, lintPassed)) == Completed
  {
    var es := FinishEvents(path, stats, lintPassed);
    WalkCons(Validated, es[3], []);
    WalkCons(Validating, es[2], [es[3]]);
    WalkCons(Formatted, es[1], es[2..]);
    WalkCons(Formatting, es[0], es[1..]);
  }

  lemma WalkTranscribe(cfg: TranscriptionConfig, o: Outcomes, meta: Metadata)
    ensures Walk(Downloaded, TranscribeStage(cfg, o, meta)) ==
      if o.transcription.Ok? && o.format.Ok? then Completed else Failed
  {
    var t0 := [ProgressEvent("transcribe", 0.0, "Starting transcription...")];
    var shown := ChunkEvents(o.chunks);
    var tail := match o.transcription
      case Err(e) => [ErrorEvent("transcribe", e)]
      case Ok(segments) => [ProgressEvent("transcribe", 1.0, "Done")] + FormatStage(cfg, o, meta, segments);
    assert TranscribeStage(cfg, o, meta) == t0 + shown + tail;
    WalkAppend(Downloaded, t0 + shown, tail);
    WalkAppend(Downloaded, t0, shown);
    WalkCons(Downloaded, t0[0], []);
    WalkChunks(o.chunks);
    match o.transcription
    case Err(e) =>
      WalkCons(Transcribing, ErrorEvent("transcribe", e), []);
    case Ok(segments) =>
      WalkCons(Transcribing, ProgressEvent("transcribe", 1.0, "Done"), FormatStage(cfg, o, meta, segments));
      WalkFormat(cfg, o, meta, segments);
  }

  lemma WalkDownload(cfg: TranscriptionConfig, o: Outcomes, meta: Metadata)
    ensures Walk(MetadataDone, DownloadStage(cfg, o, meta)) ==
      if o.download.Ok? && o.transcription.Ok? && o.format.Ok? then Completed else Failed
  {
    var d0 := [ProgressEvent("download", 0.0, "Starting download...")];
    var reports := DownloadEvents(o.downloadReports);
    var tail := match o.download
      case Err(e) => [ErrorEvent("download", e)]
      case Ok(_) => [ProgressEvent("download", 1.0, "Done")] + TranscribeStage(cfg, o, meta);
    assert DownloadStage(cfg, o, meta) == d0 + reports + tail;
    WalkAppend(MetadataDone, d0 + reports, tail);
    WalkAppend(MetadataDone, d0, reports);
    WalkCons(MetadataDone, d0[0], []);
    WalkDownloads(o.downloadReports);
    match o.download
    case Err(e) =>
      WalkCons(Downloading, ErrorEvent("download", e), []);
    case Ok(_) =>
      WalkCons(Downloading, ProgressEvent("download", 1.0, "Done"), TranscribeStage(cfg, o, meta));
      WalkTranscribe(cfg, o, meta);
  }

  /** Every run follows the grammar, and ends Completed exactly when no stage fails. */
  lemma TraceAccepted(cfg: TranscriptionConfig, o: Outcomes)
    ensures Walk(Idle, Trace(cfg, o)) == if FirstFailure(o).None? then Completed else Failed
  {
    var p0 := ProgressEvent("metadata", 0.0, "Fetching video info...");
    match o.metadata
    case Err(e) =>
      WalkCons(Idle, p0, [ErrorEvent("metadata", e)]);
      WalkCons(Fetching, ErrorEvent("metadata", e), []);
    case Ok(meta) =>
      WalkMetadataOk(cfg, o, meta);
  }

  /** After a successful fetch the walk reaches the download stage, and follows it. */
  lemma WalkMetadataOk(cfg: TranscriptionConfig, o: Outcomes, meta: Metadata)
    requires o.metadata == Ok(meta)
    ensures Walk(Idle, Trace(cfg, o)) == if FirstFailure(o).None? then Completed else Failed
  {
    var p0 := ProgressEvent("metadata", 0.0, "Fetching video info...");
    var got := MetadataEvent(meta.title, meta.channel, meta.duration);
    var m1 := ProgressEvent("metadata", 1.0, "Done");
    var rest := DownloadStage(cfg, o, meta);
    assert Trace(cfg, o) == [p0] + ([got] + ([m1] + rest));
    WalkCons(Idle, p0, [got] + ([m1] + rest));
    WalkCons(Fetching, got, [m1] + rest);
    WalkCons(Fetched, m1, rest);
    WalkDownload(cfg, o, meta);
  }

  /** In an accepted run exactly one event is terminal, and it is the last. */
  lemma {:induction false} AcceptedOneTerminal(ph: Phase, es: seq<Event>)
    requires ph != Completed && ph != Failed && ph != Rejected
    requires Walk(ph, es) == Completed || Walk(ph, es) == Failed
    ensures es != [] && IsTerminal(es[|es| - 1])
    ensures forall k :: 0 <= k < |es| - 1 ==> !IsTerminal(es[k])
    decreases |es|
  {
    var ph1 := Next(ph, es[0]);
    if ph1 == Completed || ph1 == Failed {
      if |es| > 1 {
        RejectedStays(ph1, es[1..]);
        assert false;
      }
    } else {
      if ph1 == Rejected {
        RejectedStays(ph1, es[1..]);
      }
      AcceptedOneTerminal(ph1, es[1..]);
      assert !IsTerminal(es[0]);
      assert forall k :: 1 <= k < |es| ==> es[k] == es[1..][k - 1];
    }
  }

  lemma {:induction false} RejectedStays(ph: Phase, es: seq<Event>)
    requires ph == Rejected || (es != [] && (ph == Completed || ph == Failed))
    ensures Walk(ph, es) == Rejected
    decreases |es|
  {
    if es != [] {
      RejectedStays(Next(ph, es[0]), es[1..]);
    }
  }

  /** Every run sends exactly one terminal event, and it is the last one. */
  lemma OneTerminal(cfg: TranscriptionConfig, o: Outcomes)
    ensures var es := Trace(cfg, o);
      |es| > 0 && IsTerminal(es[|es| - 1]) && forall k :: 0 <= k < |es| - 1 ==> !IsTerminal(es[k])
  {
    TraceAccepted(cfg, o);
    AcceptedOneTerminal(Idle, Trace(cfg, o));
  }

  // ---------------------------------------------------------------------
  // What a run reports

  /** Each download report becomes one progress event carrying its fraction. */
  lemma {:induction false} DownloadEventsAt(reports: seq<real>)
    ensures forall k :: 0 <= k < |reports| ==>
      DownloadEvents(reports)[k] == ProgressEvent("download", reports[k], "Downloading...")
    decreases |reports|
  {
    if reports != [] {
      var init := reports[..|reports| - 1];
      DownloadEventsAt(init);
      forall k | 0 <= k < |init| ensures DownloadEvents(reports)[k] == ProgressEvent("download", reports[k], "Downloading...") {
        assert DownloadEvents(reports)[k] == DownloadEvents(init)[k];
      }
    }
  }

  /** Each chunk becomes a transcript event followed directly by a progress event with its fraction. */
  lemma {:induction false} ChunkEventsAt(chunks: seq<Chunk>)
    ensures forall k :: 0 <= k < |chunks| ==>
      ChunkEvents(chunks)[2 * k] == TranscriptEvent(chunks[k].text, chunks[k].timestamp) &&
      ChunkEvents(chunks)[2 * k + 1] == ProgressEvent("transcribe", chunks[k].progress, "Transcribing...")
    decreases |chunks|
  {
    if chunks != [] {
      var init := chunks[..|chunks| - 1];
      ChunkEventsAt(init);
      forall k | 0 <= k < |init|
        ensures ChunkEvents(chunks)[2 * k] == TranscriptEvent(chunks[k].text, chunks[k].timestamp)
        ensures ChunkEvents(chunks)[2 * k + 1] == ProgressEvent("transcribe", chunks[k].progress, "Transcribing...")
      {
        assert ChunkEvents(chunks)[2 * k] == ChunkEvents(init)[2 * k];
        assert ChunkEvents(chunks)[2 * k + 1] == ChunkEvents(init)[2 * k + 1];
      }
    }
  }

  /** The position of a stage in the run; completion comes after all of them. */
  function StepRank(step: string): nat
  {
    if step == "metadata" then 0
    else if step == "download" then 1
    else if step == "transcribe" then 2
    else if step == "format" then 3
    else 4
  }

  /** The stage an event belongs to. */
  function EventRank(e: Event): nat
  {
    match e
    case MetadataEvent(_, _, _) => 0
    case ProgressEvent(step, _, _) => StepRank(step)
    case TranscriptEvent(_, _) => 2
    case CompletedEvent(_, _) => 5
    case ErrorEvent(step, _) => StepRank(step)
  }

  /** The error a failing stage returned. */
  function FailureOf(o: Outcomes): string
    requires FirstFailure(o).Some?
  {
    if o.metadata.Err? then o.metadata.msg
    else if o.download.Err? then o.download.msg
    else if o.transcription.Err? then o.transcription.msg
    else o.format.msg
  }

  /** No event of `es` belongs to a stage after `rank`. */
  predicate RankedUpTo(es: seq<Event>, rank: nat)
  {
    forall k :: 0 <= k < |es| ==> EventRank(es[k]) <= rank
  }

  lemma RankedAppend(a: seq<Event>, b: seq<Event>, rank: nat)
    requires RankedUpTo(a, rank) && RankedUpTo(b, rank)
    ensures RankedUpTo(a + b, rank)
  {
    forall k | 0 <= k < |a + b| ensures EventRank((a + b)[k]) <= rank {
      if k >= |a| {
        assert (a + b)[k] == b[k - |a|];
      }
    }
  }

  lemma TranscribeFailure(cfg: TranscriptionConfig, o: Outcomes, meta: Metadata)
    requires o.transcription.Err? || o.format.Err?
    ensures var es := TranscribeStage(cfg, o, meta);
      var step := if o.transcription.Err? then "transcribe" else "format";
      var err := if o.transcription.Err? then o.transcription.msg else o.format.msg;
      |es| > 0 && es[|es| - 1] == ErrorEvent(step, err) && RankedUpTo(es, StepRank(step))
  {
    var t0 := [ProgressEvent("transcribe", 0.0, "Starting transcription...")];
    var shown := ChunkEvents(o.chunks);
    ChunkEventsRank(o.chunks);
    var rank := if o.transcription.Err? then 2 else 3;
    RankedAppend(t0, shown, rank);
    if o.transcription.Err? {
      RankedAppend(t0 + shown, [ErrorEvent("transcribe", o.transcription.msg)], rank);
    } else {
      var tail := [ProgressEvent("transcribe", 1.0, "Done"), ProgressEvent("format", 0.0, "Generating markdown..."),
        ErrorEvent("format", o.format.msg)];
      assert TranscribeStage(cfg, o, meta) == t0 + shown + tail;
      RankedAppend(t0 + shown, tail, rank);
    }
  }

  lemma DownloadFailure(cfg: TranscriptionConfig, o: Outcomes, meta: Metadata)
    requires o.download.Err? || o.transcription.Err? || o.format.Err?
    ensures var es := DownloadStage(cfg, o, meta);
      var step := if o.download.Err? then "download" else if o.transcription.Err? then "transcribe" else "format";
      var err := if o.download.Err? then o.download.msg else if o.transcription.Err? then o.transcription.msg else o.format.msg;
      |es| > 0 && es[|es| - 1] == ErrorEvent(step, err) && RankedUpTo(es, StepRank(step))
  {
    var d0 := [ProgressEvent("download", 0.0, "Starting download...")];
    var downloads := DownloadEvents(o.downloadReports);
    DownloadEventsAt(o.downloadReports);
    var rank := if o.download.Err? then 1 else if o.transcription.Err? then 2 else 3;
    assert RankedUpTo(downloads, rank);
    RankedAppend(d0, downloads, rank);
    if o.download.Err? {
      RankedAppend(d0 + downloads, [ErrorEvent("download", o.download.msg)], rank);
    } else {
      var rest := TranscribeStage(cfg, o, meta);
      TranscribeFailure(cfg, o, meta);
      assert DownloadStage(cfg, o, meta) == (d0 + downloads) + ([ProgressEvent("download", 1.0, "Done")] + rest);
      RankedAppend([ProgressEvent("download", 1.0, "Done")], rest, rank);
      RankedAppend(d0 + downloads, [ProgressEvent("download", 1.0, "Done")] + rest, rank);
    }
  }

  /**
   * A failing stage ends the run with an error event naming that stage and
   * carrying its error, and no event of a later stage is sent.
   */
  lemma FailureStops(cfg: TranscriptionConfig, o: Outcomes)
    requires FirstFailure(o).Some?
    ensures var es := Trace(cfg, o);
      |es| > 0 && es[|es| - 1] == ErrorEvent(FirstFailure(o).value, FailureOf(o)) &&
      RankedUpTo(es, StepRank(FirstFailure(o).value))
  {
    if o.metadata.Ok? {
      var meta := o.metadata.value;
      var head := [ProgressEvent("metadata", 0.0, "Fetching video info..."),
        MetadataEvent(meta.title, meta.channel, meta.duration), ProgressEvent("metadata", 1.0, "Done")];
      var rest := DownloadStage(cfg, o, meta);
      var rank := StepRank(FirstFailure(o).value);
      assert Trace(cfg, o) == head + rest;
      DownloadFailure(cfg, o, meta);
      assert rest[|rest| - 1] == ErrorEvent(FirstFailure(o).value, FailureOf(o));
      assert RankedUpTo(rest, rank);
      RankedAppend(head, rest, rank);
      assert (head + rest)[|head + rest| - 1] == rest[|rest| - 1];
    }
  }

  /** A failed metadata fetch sends only the fetch's start and the error: no metadata event. */
  lemma MetadataFailure(cfg: TranscriptionConfig, o: Outcomes)
    requires o.metadata.Err?
    ensures Trace(cfg, o) == [ProgressEvent("metadata", 0.0, "Fetching video info..."), ErrorEvent("metadata", o.metadata.msg)]
    ensures forall k :: 0 <= k < |Trace(cfg, o)| ==> !Trace(cfg, o)[k].MetadataEvent?
  {
  }

  lemma {:induction false} ChunkEventsRank(chunks: seq<Chunk>)
    ensures forall k :: 0 <= k < |ChunkEvents(chunks)| ==> EventRank(ChunkEvents(chunks)[k]) == 2
  {
    ChunkEventsAt(chunks);
    forall k | 0 <= k < |ChunkEvents(chunks)| ensures EventRank(ChunkEvents(chunks)[k]) == 2 {
      if k % 2 == 0 {
        assert ChunkEvents(chunks)[2 * (k / 2)] == TranscriptEvent(chunks[k / 2].text, chunks[k / 2].timestamp);
      } else {
        assert ChunkEvents(chunks)[2 * (k / 2) + 1] == ProgressEvent("transcribe", chunks[k / 2].progress, "Transcribing...");
      }
    }
  }

  /** The events of a successful run before the lint verdict; the lint result plays no part in them. */
  function SuccessPrefix(o: Outcomes): seq<Event>
    requires o.metadata.Ok?
  {
    var meta := o.metadata.value;
    [ ProgressEvent("metadata", 0.0, "Fetching video info..."),
      MetadataEvent(meta.title, meta.channel, meta.duration),
      ProgressEvent("metadata", 1.0, "Done"),
      ProgressEvent("download", 0.0, "Starting download...") ]
    + DownloadEvents(o.downloadReports)
    + [ ProgressEvent("download", 1.0, "Done"), ProgressEvent("transcribe", 0.0, "Starting transcription...") ]
    + ChunkEvents(o.chunks)
    + [ ProgressEvent("transcribe", 1.0, "Done"), ProgressEvent("format", 0.0, "Generating markdown..."),
        ProgressEvent("format", 1.0, "Done"), ProgressEvent("validate", 0.0, "Checking markdown...") ]
  }

  /**
   * A run in which no stage fails ends with the lint verdict and the
   * completion event, which carries the output path, the video's duration,
   * the number of words transcribed and the model.
   */
  lemma SuccessEnds(cfg: TranscriptionConfig, o: Outcomes)
    requires FirstFailure(o).None?
    ensures Trace(cfg, o) == SuccessPrefix(o) + [
      ProgressEvent("validate", 1.0, LintMessage(o.lintPassed)),
      CompletedEvent(o.format.value, Stats(o.metadata.value.duration, TotalWords(o.transcription.value), cfg.model)) ]
  {
    var meta := o.metadata.value;
    var segments := o.transcription.value;
    var stats := Stats(meta.duration, TotalWords(segments), cfg.model);
    var finish := FinishEvents(o.format.value, stats, o.lintPassed);
    var tail := [ProgressEvent("validate", 1.0, LintMessage(o.lintPassed)), CompletedEvent(o.format.value, stats)];
    assert FormatStage(cfg, o, meta, segments) == [ProgressEvent("format", 0.0, "Generating markdown...")] + finish;
    assert finish == [ProgressEvent("format", 1.0, "Done"), ProgressEvent("validate", 0.0, "Checking markdown...")] + tail;
    var chunks := ChunkEvents(o.chunks);
    assert TranscribeStage(cfg, o, meta) ==
      [ProgressEvent("transcribe", 0.0, "Starting transcription...")] + chunks +
      [ ProgressEvent("transcribe", 1.0, "Done"), ProgressEvent("format", 0.0, "Generating markdown..."),
        ProgressEvent("format", 1.0, "Done"), ProgressEvent("validate", 0.0, "Checking markdown...") ] + tail;
  }

  /** Lint warnings do not fail a run: only the verdict's message changes. */
  lemma LintNonFatal(cfg: TranscriptionConfig, o: Outcomes)
    requires FirstFailure(o).None?
    ensures var passed := Trace(cfg, o.(lintPassed := true));
      var warned := Trace(cfg, o.(lintPassed := false));
      |passed| == |warned| && passed[..|passed| - 2] == warned[..|warned| - 2] &&
      passed[|passed| - 1] == warned[|warned| - 1] && passed[|passed| - 1].CompletedEvent? &&
      passed[|passed| - 2] == ProgressEvent("validate", 1.0, "Passed") &&
      warned[|warned| - 2] == ProgressEvent("validate", 1.0, "Warnings found")
  {
    SuccessEnds(cfg, o.(lintPassed := true));
    SuccessEnds(cfg, o.(lintPassed := false));
    var pre := SuccessPrefix(o);
    assert SuccessPrefix(o.(lintPassed := true)) == pre == SuccessPrefix(o.(lintPassed := false));
    var passed := Trace(cfg, o.(lintPassed := true));
    var warned := Trace(cfg, o.(lintPassed := false));
    assert passed[..|passed| - 2] == pre;
    assert warned[..|warned| - 2] == pre;
  }
}
