# whisper-transcribe, modelled in Dafny

whisper-transcribe turns a YouTube video into a Markdown transcript. It runs in
five stages:

1. fetch the video's metadata;
2. extract its audio with yt-dlp;
3. transcribe the audio with whisper.cpp;
4. render a Markdown document with YAML front matter;
5. lint the result.

While it works, it reports progress to a terminal UI as a stream of events.
This project models the core of that program and proves properties of the model.

The modules follow the packages of the program:

| module | file | models |
|---|---|---|
| `Text` | Text.dfy | The parts of Go's `strings`, `strconv` and `path/filepath` that the core relies on, as pure functions with their laws. Covers `strings.Fields`, `TrimSpace`, `Split`, `Join`, `Contains`, `Index`, `ReplaceAll`, `Trim*`, decimal printing and parsing, and `filepath.Join`. |
| `Config` | Config.dfy | The model names offered by the configuration. |
| `Wrap` | Wrap.dfy | The formatter's three greedy word wrappers (`wrapText`, `wrapTextWithPrefix`, `wrapBlockquote`). Each is a loop-based method proved against a recursive layout function. Lemmas show that no word is lost, reordered or split, and that every line either fits or is a single overlong word. A line is broken only when the next word would overflow it. |
| `Fixup` | Fixup.dfy | `FixCommonIssues`. The method is proved against a specification; the cleaned text has no trailing blanks, no blank-line runs and exactly one final newline. The pass only touches blanks and newlines, and it is idempotent. |
| `Markdown` | Markdown.dfy | `sanitizeTitle`, `slugify`, the upload-date rewrite, the two transcript body layouts (timestamped blocks and prose paragraphs), the attribution line, template rendering and `GenerateMarkdown` with its error paths. |
| `Transcriber` | Transcriber.dfy | `normalizeTimestamp`, `formatTimestamp`, `CountWords`, and the `Transcribe` loop over whisper's output lines with its partial-success rule. |
| `Downloader` | Downloader.dfy | `formatDuration`, with Go's truncating division and a parse-back round trip. Also `ValidateURL`, and the `Download` fold over yt-dlp's stdout with its fallback to the last `.wav` file in the glob's (lexical) order. |
| `Models` | Models.dfy | The model table, `GetModelInfo`, `GetModelPath`, and the download progress reader as a class whose counters accumulate. Also `FormatBytes`, with `%.1f`'s round-half-to-even. |
| `Pipeline` | Pipeline.dfy | `Pipeline.Run` as a class that appends events. It is proved against a trace function. An independent automaton over events is the reference grammar that the trace is proved to follow. |

Characters are bytes, and `IsSpace` is the set of ASCII white-space characters.
A Go `(value, error)` pair becomes `Result<T>`, with `Ok(value)` or `Err(msg)`.
An optional error that comes from the environment is an `Option<string>`
parameter. Such errors include a failed `MkdirAll`, a failed write, a
non-zero exit status and a failed process start. The current date
(`time.Now`) and the source label (`cfg.GetSource()`) are parameters too.

## Model

| member | source | states |
|---|---|---|
| Wrap.WrapText | internal/formatter/markdown.go:200-230 | The word-by-word loop produces exactly the greedy layout `PlainWrap`. Short text is returned unchanged. |
| Wrap.WrapTextWords | internal/formatter/markdown.go:200-230 | Wrapping keeps the text's words, in order and unsplit: `Fields` of the result equals `Fields` of the input. |
| Wrap.WrapTextSpacing | internal/formatter/markdown.go:200-230 | When wrapping happens, turning each newline back into a space gives the words joined by single spaces. Consecutive words are separated by exactly one space or one newline, and nothing else is added. |
| Wrap.WrapTextLines | internal/formatter/markdown.go:218-226 | Every output line fits in maxLen or is one overlong word. When wrapping happens, each line break is forced: the next line's first word would not have fitted on the previous line. |
| Wrap.WrapTextWithPrefix | internal/formatter/markdown.go:233-264 | The loop produces the prefixed greedy layout `PrefixWrap`, with the first line's budget reduced by the prefix length. |
| Wrap.WrapTextWithPrefixWords | internal/formatter/markdown.go:233-264 | The words of the result are the prefix's words followed by the text's words. This holds when the prefix is empty or ends in a space. |
| Wrap.WrapTextWithPrefixSpacing | internal/formatter/markdown.go:233-264 | When wrapping happens, turning each newline back into a space gives the prefix followed by the words joined by single spaces. |
| Wrap.WrapTextWithPrefixLines | internal/formatter/markdown.go:233-264 | The first line starts with the prefix and either fits or holds only the prefix and the first word. Every later line fits or is a single word. Every break is forced. |
| Wrap.WrapBlockquote | internal/formatter/markdown.go:267-301 | The loop produces the quoted greedy layout `QuoteWrap`, with budget maxLen-2. |
| Wrap.WrapBlockquoteLines | internal/formatter/markdown.go:267-301 | Each output line is "> " followed by the matching line of a plain wrap of the words at budget maxLen-2. Each line fits in maxLen or carries one overlong word. No word is lost. |
| Wrap.WrapBlockquoteSpacing | internal/formatter/markdown.go:267-301 | When wrapping happens, turning each "\n> " back into a space gives "> " followed by the words joined by single spaces. Words are separated by exactly one space or one quoted line break. |
| Wrap.LayoutUnwrapped | internal/formatter/markdown.go:209-227 | A greedy layout after a head without newlines, with its line breaks undone, is the head followed by the words joined by single spaces. |
| Wrap.WrapBlockquoteShort | internal/formatter/markdown.go:269-273 | Text that fits is one quoted line, "> " + text, of length at most maxLen. |
| Wrap.FillWords | internal/formatter/markdown.go:209-227 | Appending the filled words to a line keeps exactly the line's words followed by the filled words. |
| Wrap.FillLines | internal/formatter/markdown.go:218-226 | Greedy filling yields lines that fit or are single words, and every break is forced. |
| Wrap.FillLead | internal/formatter/markdown.go:289-293 | Filling with the break "\n> " puts the lead on every line after the first. Line for line, the quoted layout is the plain layout with the lead added. |
| Wrap.QuoteWords | internal/formatter/markdown.go:275-300 | For any words, the quoted layout and the plain layout correspond line for line, and the plain layout keeps the words. |
| Fixup.FixCommonIssues | internal/formatter/markdown.go:183-197 | The three passes (trim each line's right end, collapse triple newlines until none remain, end with one newline) compute `Fixed`. |
| Fixup.ReplaceShrinks | internal/formatter/markdown.go:190-192 | One replace pass never grows the text, and it shrinks the text while a triple newline remains. This is why the collapse loop terminates. |
| Fixup.ReplaceSqueeze | internal/formatter/markdown.go:190-192 | A replace pass does not change the squeezed form, so the loop computes `Squeeze` of its input. |
| Fixup.SqueezeIdentity | internal/formatter/markdown.go:190-192 | Text without a triple newline is left unchanged by the collapse. |
| Fixup.SqueezeNoTriple | internal/formatter/markdown.go:190-192 | After the collapse no triple newline remains. |
| Fixup.SqueezeUnlined | internal/formatter/markdown.go:190-192 | The collapse removes only newlines: the text with newlines deleted is unchanged. |
| Fixup.TrimLinesNoTrailingBlank | internal/formatter/markdown.go:184-188 | After trimming each line's right end, no line ends in a space or tab. |
| Fixup.SqueezeNoTrailingBlank | internal/formatter/markdown.go:190-192 | The collapse does not create a line with a trailing blank. |
| Fixup.FinishKeepsNoTriple | internal/formatter/markdown.go:194 | The final trim-and-newline step keeps the text free of triple newlines and leaves exactly one newline at the end. |
| Fixup.FinishUnlined | internal/formatter/markdown.go:194 | The final step removes only trailing newlines. |
| Fixup.FixedProperties | internal/formatter/markdown.go:183-197 | The output has no trailing blanks on any line, no triple newline, and ends in exactly one newline. Apart from newlines, it equals the input with each line's right end trimmed. It is exactly `CollapseRuns` of the trimmed text, with trailing newlines cut and one put back: every newline outside a run of three or more is kept. |
| Fixup.SqueezeCollapse | internal/formatter/markdown.go:190-192 | The replace-until-none loop's result equals `CollapseRuns`, an independent run-by-run definition. Each maximal run of n newlines becomes min(n, 2) newlines, and every other character is kept in order. |
| Fixup.SqueezeRun | internal/formatter/markdown.go:190-192 | A run of n newlines between text that does not touch it becomes min(n, 2) newlines, and the text on either side collapses on its own. |
| Fixup.SqueezeSplit | internal/formatter/markdown.go:190-192 | The collapse works piecewise across a boundary that no run of newlines crosses. |
| Fixup.SqueezeNewlines | internal/formatter/markdown.go:190-192 | A run of n newlines on its own collapses to min(n, 2) newlines. |
| Fixup.FixedIdempotent | internal/formatter/markdown.go:183-197 | Fixing a fixed document changes nothing. |
| Fixup.FixedOfClean | internal/formatter/markdown.go:183-197 | A text that already has the three output properties is returned unchanged. |
| Markdown.SanitizeTitle | internal/formatter/markdown.go:159-165 | The title has no double quote, colon, backslash or slash, no surrounding white space, and is no longer than the input. |
| Markdown.SanitizeTitleSpan | internal/formatter/markdown.go:159-165 | The result is a contiguous slice of the input, with each character mapped by the replacement table; only white space lies outside it. |
| Markdown.ReplacedChars | internal/formatter/markdown.go:160-163 | The four replacements keep the length and map each character independently: `"` becomes `'`, and `:`, `\` and `/` become `-`. |
| Markdown.SanitizeTitleIdempotent | internal/formatter/markdown.go:159-165 | Sanitizing twice is the same as sanitizing once. |
| Markdown.Dashed | internal/formatter/markdown.go:169-170 | Replacing each run of non-slug characters by one dash gives only `[a-z0-9-]`, never two dashes in a row, is empty exactly when the input is, and starts with a dash exactly when the input starts with a non-slug character. |
| Markdown.DashedRun | internal/formatter/markdown.go:169-170 | Between text ending in a letter or digit and text starting with one (or either end), a maximal run of other characters becomes exactly one dash, and each side is dashed on its own. |
| Markdown.DashedSlugText | internal/formatter/markdown.go:169-170 | Text made only of `[a-z0-9]` is left unchanged. |
| Markdown.DashedAppend | internal/formatter/markdown.go:169-170 | Dashing works piecewise after a letter or digit. |
| Markdown.DashedLetters | internal/formatter/markdown.go:169-170 | The dash rewrite keeps the slug letters and digits, in order. |
| Markdown.CleanedShape | internal/formatter/markdown.go:168-171 | After lower-casing, the dash rewrite and trimming dashes, the slug has only `[a-z0-9-]`, no double dash, no leading or trailing dash, and keeps every letter and digit of the lower-cased title. |
| Markdown.Slugify | internal/formatter/markdown.go:167-180 | A slug always has the clean shape and is at most 60 characters long. |
| Markdown.CutShape | internal/formatter/markdown.go:172-178 | A slug over 60 characters is cut to its first 60, then at the last dash of those when that dash lies after position 40. The cut is a prefix and keeps the clean shape. |
| Markdown.SlugifyKeepsLetters | internal/formatter/markdown.go:167-180 | A slug that needs no cut keeps all the title's letters and digits in order. |
| Markdown.NormalizeUploadDate | internal/formatter/markdown.go:97-100 | An 8-character date YYYYMMDD becomes YYYY-MM-DD with the same digits. Every other date is left as it is. |
| Markdown.TimestampBlockStart | internal/formatter/markdown.go:59-66 | Each timestamped block starts with "**[" + timestamp + "]** ". |
| Markdown.TimestampBlockWords | internal/formatter/markdown.go:59-66 | A block's words are its marker followed by the segment's words. |
| Markdown.TimestampBodyWords | internal/formatter/markdown.go:58-67 | The timestamped body's words are, segment by segment, the marker and then the text's words. |
| Markdown.MarkerDoubleBracket | internal/formatter/markdown.go:61 | The segments' timestamps already carry brackets from `formatTimestamp`, so the printed marker starts with "**[[". |
| Markdown.ProseAfterShape | internal/formatter/markdown.go:68-86 | After any number of segments, the content built so far ends in white space and the open paragraph ends in a space. |
| Markdown.ProseStepWords | internal/formatter/markdown.go:70-86 | One segment adds exactly its words: content words plus paragraph words grow by the segment's words. This holds whether or not the paragraph is flushed. |
| Markdown.ProseAfterWords | internal/formatter/markdown.go:68-86 | After n segments, the content and paragraph together hold exactly the words of the first n segments. |
| Markdown.ProseBodyWords | internal/formatter/markdown.go:68-95 | The prose body holds every segment's words, in order, and their number is the transcript's word count. |
| Markdown.BuildContent | internal/formatter/markdown.go:56-95 | The body-building loops produce `Body`: timestamped blocks or prose paragraphs, according to the configuration. |
| Markdown.BuildTimestampBody | internal/formatter/markdown.go:58-67 | The timestamp loop produces the sequence of wrapped blocks, each followed by a blank line. |
| Markdown.BuildProseBody | internal/formatter/markdown.go:68-95 | The prose loop produces the paragraph body: a flush after ".", "?", "!" or every fifth segment, then the remainder. |
| Markdown.Attribution | internal/formatter/markdown.go:104-116 | The line starts "Transcribed from " and ends " on " + date. With a channel URL it contains the link `[channel](url)`. Without one, the channel name follows "Transcribed from " directly, then " on ". |
| Markdown.FrontMatterLines | internal/formatter/markdown.go:21-38 | When no field contains a newline, the rendered document's first nine lines are exactly the YAML front matter, in the template's order. |
| Markdown.GenerateMarkdown | internal/formatter/markdown.go:55-157 | A directory error stops before writing. Otherwise the fixed document is written. A write error is reported, and success returns the output path. |
| Markdown.DocumentClean | internal/formatter/markdown.go:150 | The document written always has the `FixCommonIssues` guarantees. |
| Markdown.OutputPathShape | internal/formatter/markdown.go:133-134 | The output path is the output directory, a separator and the title's slug + ".md". |
| Transcriber.NormalizeTimestamp | internal/transcriber/whisper.go:177-179 | Every comma becomes a dot, every other character is kept, and the length is unchanged. |
| Transcriber.NormalizeTimestampIdempotent | internal/transcriber/whisper.go:177-179 | Normalizing twice is the same as normalizing once. |
| Transcriber.FormatTimestamp | internal/transcriber/whisper.go:181-195 | The display form is always bracketed and contains no comma. |
| Transcriber.FormatWhisperTimestamp | internal/transcriber/whisper.go:181-193 | For HH:MM:SS.mmm or HH:MM:SS,mmm, the milliseconds are dropped, and the hours are dropped when they are "00". |
| Transcriber.FormatWholeSecondsTimestamp | internal/transcriber/whisper.go:181-193 | For HH:MM:SS without a fraction, the seconds are kept whole, and the hours are dropped when they are "00" ("00:01:02" is shown as "[01:02]"). |
| Transcriber.FormatTimestampOther | internal/transcriber/whisper.go:194 | A timestamp without colons is only normalized and bracketed. |
| Transcriber.CountWords | internal/transcriber/whisper.go:198-205 | The loop's count is the total number of `Fields` words over all segments. |
| Transcriber.TotalWordsAppend | internal/transcriber/whisper.go:198-205 | The word count of two runs of segments is the sum of their counts. |
| Transcriber.Accept | internal/transcriber/whisper.go:90-98 | A line yields a segment exactly when it matched the timestamp pattern and its trimmed text is non-empty. The segment's text is then the trimmed text, and its offsets and display timestamp come from the line. |
| Transcriber.Transcribe | internal/transcriber/whisper.go:35-120 | A missing binary or model fails before any output. Otherwise the kept segments and chunk callbacks come from the scanned lines. A failed exit is an error only when no segment was kept (partial success). |
| Transcriber.KeptTrimmed | internal/transcriber/whisper.go:94-99 | Every kept segment's text is non-empty and trimmed. |
| Transcriber.KeptFromMatches | internal/transcriber/whisper.go:86-99 | Every kept segment comes from a matched line, with its start, end and display timestamp derived from that line. |
| Transcriber.KeptSubsequence | internal/transcriber/whisper.go:86-99 | The kept segments are exactly the segments of the accepting lines, one each, in line order: their line positions increase, every position accepts, and every accepting line is among them. |
| Transcriber.ChunkLineNumbers | internal/transcriber/whisper.go:84-107 | The k-th chunk's progress is (line number of the k-th kept segment) / 100, counting lines from 1. |
| Transcriber.ChunksMatchSegments | internal/transcriber/whisper.go:98-107 | There is one chunk per kept segment, with the same text and timestamp, in the same order. |
| Transcriber.ChunkProgress | internal/transcriber/whisper.go:84-107 | Chunk progress is positive, strictly increasing, and at most the line count / 100. |
| Downloader.DurationParts | internal/downloader/ytdlp.go:164-167 | With Go's truncating division, hours*3600 + minutes*60 + seconds equals the input. For a non-negative input, minutes and seconds lie in [0, 60). |
| Downloader.GoDivNeg | internal/downloader/ytdlp.go:165-167 | Go's `/` and `%` agree with Euclidean division on non-negative operands and mirror it on negative ones. |
| Downloader.FormatDurationRoundTrip | internal/downloader/ytdlp.go:164-172 | Parsing the printed duration, H:MM:SS or M:SS, gives back the number of seconds. |
| Downloader.FormatDurationExample | internal/downloader/ytdlp.go:164-172 | 630 seconds print as "10:30". |
| Downloader.ValidateURL | internal/downloader/ytdlp.go:151-162 | The only errors are "URL is required" and "invalid YouTube URL". |
| Downloader.ValidateURLVerdict | internal/downloader/ytdlp.go:151-162 | A URL is required exactly when it is all white space. It is accepted exactly when it is not, and it contains one of the three YouTube path forms. |
| Downloader.ValidateURLSurround | internal/downloader/ytdlp.go:152 | Surrounding white space does not change the verdict. |
| Downloader.DestinationOf | internal/downloader/ytdlp.go:126-131 | A destination announcement yields a trimmed path. |
| Downloader.DestinationLine | internal/downloader/ytdlp.go:126-131 | The line "[ExtractAudio] Destination: p" announces the trimmed p. |
| Downloader.ScanOutput | internal/downloader/ytdlp.go:114-132 | The stdout loop reports each percentage / 100 in order and keeps the last announced path. |
| Downloader.AudioPathLast | internal/downloader/ytdlp.go:114-132 | The kept path is empty when no line announces a destination. When some line does, the path is the one announced by a line after which no line announces. |
| Downloader.Download | internal/downloader/ytdlp.go:71-148 | A temporary-directory or start failure reports no progress. Otherwise progress is reported from the output. A failed exit is an error. An empty path falls back to the last `.wav` file, and with none found reports "no audio file produced". |
| Models.AvailableModels | internal/models/downloader.go:28-43 | The table has twelve models. |
| Models.TableURLs | internal/models/downloader.go:28-43 | Every model's URL is the Hugging Face base URL + "/" + its file name. |
| Models.TableFilenames | internal/models/downloader.go:28-43 | Every model's file is "ggml-" + name + ".bin", except "large", which is the large-v3 file. |
| Models.TableNamesUnique | internal/models/downloader.go:28-43 | No two models share a name. |
| Models.GetModelInfo | internal/models/downloader.go:45-53 | The lookup returns the first table entry with the given name, and fails with "unknown model: " + name exactly when there is none. |
| Models.ModelOptionsKnown | internal/config/config.go:69-72 | Every model name offered by the configuration is in the model table. |
| Models.GetModelPath | internal/models/downloader.go:70-77 | The path is the models directory joined with the model's file name, and exists exactly for known names. |
| Models.ProgressReader.constructor | internal/models/downloader.go:128-132 | A new reader has nothing downloaded and has reported nothing. |
| Models.ProgressReader.Read | internal/models/downloader.go:159-166 | Each read adds its byte count to the running total and returns the count. When a callback is set, the read reports (total so far, content length), and the reader's invariant is kept. |
| Models.RunningTotalsAppend | internal/models/downloader.go:161-163 | One more read extends the reports by the new running total. |
| Models.ReportsMonotone | internal/models/downloader.go:159-166 | With non-negative read counts, reported totals never decrease and always carry the same content length. |
| Models.RoundTenths | internal/models/downloader.go:178-182 | The tenths value is the nearest one to bytes/unit, within half a tenth, with ties rounded to even as `%.1f` does. |
| Models.FormatBytes | internal/models/downloader.go:168-186 | The unit is GB, MB, KB or B exactly according to the thresholds 1024^3, 1024^2 and 1024. Below 1024 the result is the exact integer followed by " B". |
| Pipeline.Pipeline.constructor | internal/pipeline/pipeline.go:75-83 | A new pipeline holds its configuration and has sent no events. |
| Pipeline.Pipeline.Emit | internal/pipeline/pipeline.go:90 | Sending an event appends it to the channel. |
| Pipeline.Pipeline.Run | internal/pipeline/pipeline.go:86-160 | The events sent are exactly `Trace` of the collaborators' outcomes. |
| Pipeline.Pipeline.RunDownload | internal/pipeline/pipeline.go:103-160 | From the download stage on, the events sent are the download stage's trace. |
| Pipeline.Pipeline.RunTranscribe | internal/pipeline/pipeline.go:114-160 | From the transcription stage on, the events sent are the transcription stage's trace. |
| Pipeline.Pipeline.EmitChunks | internal/pipeline/pipeline.go:116-126 | Each chunk sends a transcript event followed by a transcribe progress event. |
| Pipeline.Pipeline.RunFormat | internal/pipeline/pipeline.go:133-159 | From the format stage on, the events sent are the format stage's trace. |
| Pipeline.TraceAccepted | internal/pipeline/pipeline.go:86-160 | Every trace follows the event grammar. It ends Completed exactly when no stage fails, and Failed otherwise. |
| Pipeline.OneTerminal | internal/pipeline/pipeline.go:86-160 | A run ends with exactly one terminal event (completed or error), and it is the last event. |
| Pipeline.FailureStops | internal/pipeline/pipeline.go:86-160 | On the first failing stage the last event is that stage's error event. No event of a later stage is sent. |
| Pipeline.MetadataFailure | internal/pipeline/pipeline.go:90-95 | A metadata failure sends only the start event and the error, and never a metadata event. |
| Pipeline.SuccessEnds | internal/pipeline/pipeline.go:131-159 | A successful run ends with the validate event and a completed event. That event carries the output path, the video duration, the transcript's word count and the model. |
| Pipeline.LintNonFatal | internal/pipeline/pipeline.go:143-149 | The lint result changes only the validate message ("Passed" or "Warnings found"). The run still completes with the same event. |
| Pipeline.WalkDownload | internal/pipeline/pipeline.go:103-160 | The download stage's trace leads the grammar to Completed exactly when download, transcription and formatting succeed. |
| Pipeline.WalkTranscribe | internal/pipeline/pipeline.go:114-160 | The transcription stage's trace leads to Completed exactly when transcription and formatting succeed. |
| Pipeline.WalkFormat | internal/pipeline/pipeline.go:133-159 | The format stage's trace leads to Completed exactly when formatting succeeds. |
| Pipeline.DownloadEventsAt | internal/pipeline/pipeline.go:105-107 | The k-th download progress event carries the k-th reported fraction. |
| Pipeline.ChunkEventsAt | internal/pipeline/pipeline.go:116-126 | For the k-th chunk, events 2k and 2k+1 are its transcript event and its progress event. |
| Pipeline.DownloadFailure | internal/pipeline/pipeline.go:103-139 | A failure from the download stage on ends in the failing stage's error event, after events of earlier stages only. |
| Pipeline.TranscribeFailure | internal/pipeline/pipeline.go:114-139 | A failure from the transcription stage on ends in the failing stage's error event, after events of earlier stages only. |

## Left out

- The terminal UI, the command-line entry point and configuration loading from flags, files and environment. `ModelOptions` is the only configuration function kept.
- The Markdown lint pass (`LintMarkdown`). Its verdict is an input of the pipeline (`lintPassed`).
- `FetchMetadata`: running yt-dlp and decoding its JSON. Its result is an input of the pipeline.
- `ytdlp.go` process handling: the `StdoutPipe`/`StderrPipe` errors and the stderr-draining goroutine. Start and exit failures are kept as optional errors. The `.wav` directory listing is a parameter.
- `whisper.go` process handling: the pipe errors, the "start whisper" failure and the stderr goroutine are not modelled. Which binary and model are found is given as booleans (`findWhisperBinary`, `findModelPath` and `CheckModel`/`ModelExists` are not part of this model).
- `GetModelsDir` and `ModelExists` in the models package: environment and file-system lookups. The models directory is a parameter of `GetModelPath`.
- `models.Download`: the HTTP request, the temporary file and the rename. Only its progress reader is modelled.
- Regular expressions: whisper's and yt-dlp's output lines arrive already matched, as a `Line` with its captured groups or as an `OutputLine` with its parsed percentage.
- Floating point: progress fractions are exact `real`s, and `%.1f` is modelled as round-half-to-even on exact tenths.
- Template parsing and execution cannot fail for the fixed template, so their errors are left out. Rendering is the template's lines joined by newlines.
- Concurrency, `context` cancellation and `Pipeline.Cancel`: the event channel is a sequence with a single producer.
- Unicode: characters are bytes, white space is ASCII white space, and lower-casing is ASCII only. `isWordBoundary` is unused by the program and is left out.
- `filepath.Join` is modelled as joining with one "/" (the directory alone when the file name is empty, the name alone when the directory is empty), without path cleaning.
- Transcriber.Transcribe and Downloader.Download: the chunks and progress fractions they return are what a non-nil `onChunk` or `onProgress` callback receives. The program skips the call when the callback is nil (whisper.go:101, ytdlp.go:120); the pipeline always passes one.
- Models.ProgressReader.Read: does not model `int64` wrap-around of the running total, because a download would need 2^63 bytes to reach it.
- Transcriber.FormatTimestampOther: states the result only for timestamps without any colon; strings with two or four or more colon-separated parts take the same branch in the program but are not covered by a lemma.
- Markdown.SlugifyKeepsLetters: states letter preservation only for slugs that need no cut; a cut slug keeps a prefix of them (Markdown.CutShape).
- Markdown.FrontMatterLines: assumes no metadata field contains a newline; the program does not escape newlines, so such a title would break the YAML front matter.
