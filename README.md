# getOutVideo video processing: a Dafny model

This project models the decision logic of the getOutVideo service in Dafny 4.11 and proves properties about it.
The backend takes a YouTube URL, a list of requested content styles and an output language. It hands the work to
an external processing engine (`GetOutVideoAPI`), reads back the files the engine writes, and answers with a
results record or with one of four typed errors. The front end has two small pieces of logic that are also
modelled: a Markdown block reader, and a demo captions endpoint that renders timed captions as Markdown.

Modules, one per source file, plus two helper modules:

- `Results`: `Option` and `Result`. Python's `None` and raised exceptions become these values.
- `Text`: the library string operations the sources rely on, written out. These are `find`, `lower` (ASCII),
  `strip`, JavaScript `trim`, `join`, `split` on one character, `str(int)` and `padStart`.
- `Schemas` (`backend/app/video_processor/schemas.py`): the three style tables, the request default and the
  response records.
- `VideoErrors` (`backend/app/video_processor/exceptions.py`): the four error kinds, their status codes and the
  error envelope.
- `Service`, `OutputFiles` and `OutputParser` (`backend/app/video_processor/service.py`):
  - the URL gate;
  - style validation and resolution;
  - output-file naming (style detection, title extraction);
  - `_parse_outputs`;
  - the `process_video` pipeline.
- `MainApp` (`backend/app/main.py`): the request-validation message formatter and the path test of the
  validation handler.
- `MarkdownParser` (`frontend/src/components/YouTubeCaptionExtractor.tsx`): `parseMarkdown`, as a class holding
  the closure variables and as a specification function over a state record.
- `CaptionsRoute` (`frontend/src/app/api/youtube-captions/route.ts`): the video-id search, timestamps, the
  Markdown document and the word count.

How the collaborators are represented:

- The processing engine is an `EngineClient` value. It holds the styles `get_available_styles` reports
  (`None` when that call raises) and a function from (URL, styles, language) to an `EngineOutcome`:
  `Completed(entries)`, `TimedOut` or `Failed`.
- The scratch directory is the list of entries the engine wrote, `(name, isFile, content)`, taken in the sorted
  order `_parse_outputs` iterates.
- The configured `OPENAI_API_KEY` is a parameter, and so is the client constructor.
- The clock readings (`processing_time`, `processed_at`) are parameters.
- Regular expressions are explicit scans. The URL patterns, the heading and list patterns and `split(/\s+/)` are
  each proved equal to a reference description of the language the expression denotes. For `split(/\r?\n/)`
  the proof is a round trip instead: lines joined by any mix of LF and CRLF ends split back into the same lines.

Three behaviours of the code worth noting:

- In `_parse_outputs` a later file with the same result key overwrites the earlier content
  (`results[result_key] = content`), so the last file wins.
- The title is taken from the first contributing file whose extracted title is non-empty
  (`if not video_title`), which need not be the first contributing file.
- The URL patterns are case-sensitive on the host too: `re.match` is called without `IGNORECASE`.

## Model

| member | source | states |
|---|---|---|
| `Schemas.AllowedStylesAreTableKeys` | backend/app/video_processor/schemas.py:5-19 | the allowed request styles are exactly the keys of the request-to-engine table, in the same order |
| `Schemas.TableValuesAreResultKeys` | backend/app/video_processor/schemas.py:13-27 | the engine names of the request table are exactly the keys of the result-key table, so every resolved style has a result key |
| `Schemas.TablesAreInjective` | backend/app/video_processor/schemas.py:13-27 | both tables have distinct keys and distinct values, so the inverse the service builds is well defined |
| `Schemas.ResultKeysAreFields` | backend/app/video_processor/schemas.py:21-41 | the result keys are exactly the five optional fields of the results record, in order |
| `Schemas.EngineStyles` | backend/app/video_processor/schemas.py:13-27 | the engine-facing names in catalog order are both the request table's values and the result table's keys, and are distinct |
| `Schemas.ApiStyleOf` | backend/app/video_processor/service.py:117 | an allowed request style translates to the engine name the table pairs it with, which is a catalog engine name |
| `Schemas.Lookup` | backend/app/video_processor/service.py:142 | `dict.get` finds nothing exactly when the key is absent, and otherwise a value paired with the key |
| `Schemas.Invert` | backend/app/video_processor/service.py:130 | the inverse table has exactly the original values as keys |
| `Schemas.InvertDistinct` | backend/app/video_processor/service.py:130 | with distinct values the inverse sends each engine name back to its request name |
| `Schemas.NewRequest` | backend/app/video_processor/schemas.py:30-33 | an omitted `styles` stays absent and an omitted `output_language` becomes "English" |
| `Schemas.ResultsFromMapFields` | backend/app/video_processor/schemas.py:36-41 | each field of the record built with `**results` holds what the map stores under that key |
| `Schemas.ResultsFromMapPopulated` | backend/app/video_processor/service.py:65-76 | a non-empty map of result keys yields a record with at least one populated field |
| `Schemas.SuccessEnvelope` | backend/app/video_processor/schemas.py:58-60 | the success envelope has status "success" and carries the data unchanged |
| `Schemas.ErrorEnvelope` | backend/app/video_processor/schemas.py:63-66 | the error envelope has status "error", the message unchanged and the given code |
| `VideoErrors.StatusCode` | backend/app/video_processor/exceptions.py:28-51 | validation maps to 400, timeout to 422, configuration to 500 and external service to 502, each an if-and-only-if |
| `VideoErrors.KindOfStatusCode` | backend/app/video_processor/exceptions.py:28-51 | the four codes are distinct: the kind is recovered from the code |
| `VideoErrors.ErrorResponseFor` | backend/app/video_processor/exceptions.py:21-25 | `_error_response` uses the code as HTTP status and in the body, with status "error" and the message unchanged |
| `VideoErrors.HandleVideoError` | backend/app/video_processor/exceptions.py:28-51 | each registered handler answers with its kind's code, the error envelope and the exception's message |
| `Service.HeadPrefixMatch` | backend/app/video_processor/service.py:26-31 | for one literal head, the pattern tail matches at the start iff some prefix of the URL matches the tail in full |
| `Service.MatchIsPrefixMatch` | backend/app/video_processor/service.py:167-170 | `re.match` with one pattern succeeds iff some prefix of the URL is in the pattern's language |
| `Service.AnyPatternIsPrefixMatch` | backend/app/video_processor/service.py:91-92 | some pattern matches iff some prefix of the URL fully matches one of the four shapes |
| `Service.ValidateVideoUrl` | backend/app/video_processor/service.py:91-93 | the URL is accepted iff a prefix of it fully matches one of the four shapes; otherwise a validation error "Invalid YouTube URL." |
| `Service.WatchUrlAccepted` | backend/tests/api/routes/test_video_process.py:32-40 | the watch-page URL of the tests is accepted |
| `Service.ShortUrlAccepted` | backend/app/video_processor/service.py:28 | a short-link URL is accepted |
| `Service.OtherHostNoMatch` | backend/app/video_processor/service.py:26-31 | an https URL whose host does not start like YouTube's matches none of the patterns |
| `Service.OtherHostRejected` | backend/tests/api/routes/test_video_process.py:85-98 | `https://example.com/not-youtube` is rejected with "Invalid YouTube URL." |
| `Service.AcceptedUrlNonEmpty` | backend/app/video_processor/service.py:74 | an accepted URL is non-empty, so the title fallback `video_title or video_url` is non-empty |
| `Service.Filter` | backend/app/video_processor/service.py:96 | the comprehension keeps exactly the names whose membership is the one wanted, and keeps all of them when all qualify |
| `Service.FilterAppend` | backend/app/video_processor/service.py:96 | the comprehension preserves input order: filtering a concatenation concatenates the filtered parts |
| `Service.InvalidStylesSnoc` | backend/app/video_processor/service.py:96-98 | a further name is listed last among the invalid names exactly when it is not allowed |
| `Service.ValidateStyles` | backend/app/video_processor/service.py:95-98 | no error iff every name is allowed; otherwise a validation error listing the invalid names, comma-joined, in input order |
| `Service.InvalidStyleNamed` | backend/tests/api/routes/test_video_process.py:101-114 | every rejected name occurs literally in the error message |
| `Service.ToApiStyles` | backend/app/video_processor/service.py:117 | explicit styles map one-to-one, in order, through the request-to-engine table |
| `Service.ResolveDefault` | backend/app/video_processor/service.py:107-115 | with no styles: the catalog engine names the engine advertises, in catalog order, or an external-service error iff there are none |
| `Service.ResolveExplicit` | backend/app/video_processor/service.py:117-123 | with styles: success iff every translated name is advertised, returning them in request order; otherwise a validation error listing the unsupported engine names |
| `Service.ResolveStyles` | backend/app/video_processor/service.py:100-123 | a failed style query is an external-service error; otherwise the default or the explicit resolution |
| `Service.ResolveProcessedStyles` | backend/app/video_processor/service.py:125-131 | explicit styles are echoed; otherwise each catalog engine name maps back to its request name, same length, unknown names passed through |
| `Service.BackToRequestStyle` | backend/app/video_processor/service.py:130-131 | the inverse of a catalog engine name is an allowed style that translates back to it |
| `Service.SummaryRoundTrip` | backend/tests/api/routes/test_video_process.py:32-59 | explicit `["Summary"]` resolves to engine `["Summary"]` and is echoed as `["Summary"]` |
| `Service.GetApiClient` | backend/app/video_processor/service.py:84-89 | the injected client is used; without one, a missing or empty key is the configuration error "OPENAI_API_KEY is not configured.", else a new client from the key |
| `Service.ProcessVideo` | backend/app/video_processor/service.py:38-82 | the checks run in order (URL, style names, client, style resolution, engine call, empty results) and the first failure is the answer; a timeout maps to a timeout error, another engine failure to an external-service error; success carries the parsed results, a title defaulting to the URL, the echoed language and the resolved style list |
| `OutputFiles.FirstNamedFrom` | backend/app/video_processor/service.py:151-156 | the result is the first name, from the given index on, whose lower-case form occurs in the lower-cased file name, or none when no name does |
| `OutputFiles.DetectStyle` | backend/app/video_processor/service.py:151-156 | `_detect_style` returns the first catalog engine name, in catalog order, contained case-insensitively in the file name, else none |
| `OutputFiles.Stem` | backend/app/video_processor/service.py:148 | `Path.stem` drops exactly the final `.`-suffix: the stem is a prefix followed by a dot and a dot-free rest, and the name is kept whole iff no dot other than the first or the last character starts a dot-free rest |
| `OutputFiles.StemOfSuffixed` | backend/app/video_processor/service.py:148 | a name "stem.ext" with a non-empty stem and a non-empty, dot-free extension has stem "stem" |
| `OutputFiles.CleanupTitle` | backend/app/video_processor/service.py:173-174 | a cleaned title contains no `_` or `-` and has no surrounding whitespace; it is one slice of the title, every other character kept in order and each `_` or `-` turned into a space, with only whitespace, `_` and `-` cut from either end |
| `OutputFiles.SpacedSliceOfStrip` | backend/app/video_processor/service.py:174 | a slice of the spaced-out title with only whitespace outside it is the spaced-out slice of the title, and only whitespace, `_` or `-` lay outside it in the title |
| `Text.Trim` | backend/app/video_processor/service.py:174 | `strip()` returns a slice of its input with only stripped characters outside it, adds no character, and starts and ends on a kept character |
| `OutputFiles.ExtractTitle` | backend/app/video_processor/service.py:158-164 | the extracted title never contains `_` or `-` (both become spaces) |
| `OutputFiles.ExtractTitleCases` | backend/app/video_processor/service.py:158-164 | the cleaned stem text before the first case-insensitive occurrence of the style, trailing " -_" removed; the whole stem when there is no occurrence or nothing is left |
| `OutputFiles.ExtractTitleRoundTrip` | backend/app/video_processor/service.py:158-164 | a file named "<title> - <style>" gives back the title |
| `OutputFiles.ResultKeyOfEngineStyle` | backend/app/video_processor/service.py:142-144 | every detected style has a non-empty result key among the five fields, so the key test never skips a file |
| `OutputFiles.ReadEntry` | backend/app/video_processor/service.py:137-148 | an entry contributes iff it is a regular file naming a style; it contributes that style's key, the stripped content and the extracted title |
| `OutputParser.ReadOne` | backend/app/video_processor/service.py:137-148 | the loop body's three skip tests and the read agree with `ReadEntry` |
| `OutputParser.ParseOutputs` | backend/app/video_processor/service.py:133-149 | the loop computes the fold of the entries' reads, and every key of the results is one of the five result fields |
| `OutputParser.ResultsKeys` | backend/app/video_processor/service.py:146 | a key is in the results iff some read contributes to it |
| `OutputParser.ResultsLastWins` | backend/app/video_processor/service.py:146 | the last read of a key decides its content |
| `OutputParser.TitleIsFirst` | backend/app/video_processor/service.py:147-148 | the title is the first non-empty read title, or empty when there is none |
| `OutputParser.ParsedKeysAreFields` | backend/app/video_processor/service.py:142-146 | the parsed result keys are always among the five fields |
| `OutputParser.ParsedKeysFromEntries` | backend/app/video_processor/service.py:136-146 | a key is present iff some regular file in the directory names a style with that key |
| `OutputParser.ParsedLastWins` | backend/app/video_processor/service.py:145-146 | the last file, in sorted order, contributing a key decides its content, which is stored stripped |
| `OutputParser.ParsedTitleIsFirst` | backend/app/video_processor/service.py:147-148 | the title comes from the first contributing file whose title is non-empty; it is empty iff no such file exists |
| `MainApp.StripBody` | backend/app/main.py:69-71 | exactly one item is dropped, and only when the location starts with "body" |
| `MainApp.LocStrings` | backend/app/main.py:72 | without `None` items every item is stringified, in order |
| `MainApp.PartOf` | backend/app/main.py:67-74 | one part per error, in error order: part i is error i's |
| `MainApp.FormatValidationError` | backend/app/main.py:63-75 | the loop computes the specified message: "Invalid request." for no errors, a single error's part alone, otherwise parts joined by "; " |
| `MainApp.SingleErrorMessage` | backend/app/main.py:67-75 | one error gives its part alone |
| `MainApp.PartsAppend` | backend/app/main.py:67-74 | one more error adds its own part at the end and leaves the others unchanged |
| `MainApp.AppendErrorMessage` | backend/app/main.py:67-75 | each further error appends "; " and its own part |
| `MainApp.OnlyLeadingBodyDropped` | backend/app/main.py:69-71 | a leading "body" is removed, a second one stays, and a location without it is unchanged |
| `MainApp.FieldSkipsNull` | backend/app/main.py:72 | `None` location items contribute nothing to the field |
| `MainApp.FieldOfPath` | backend/app/main.py:72 | a name and an index read as "name.index" |
| `MainApp.MissingFieldMessage` | backend/app/main.py:69-74 | a body field error reads "field: msg" without the "body" prefix |
| `MainApp.BareErrorMessage` | backend/app/main.py:73-74 | an error with no location and no message reads "Invalid value" |
| `MainApp.HandleRequestValidation` | backend/app/main.py:39-52 | the 400 envelope with code 400 and the formatted message iff the path is one of the two video-process paths; otherwise the default handler |
| `MainApp.OtherPathFallsThrough` | backend/app/main.py:39-43 | other paths, including longer ones under the video path, fall through |
| `MarkdownParser.SplitLines` | frontend/src/components/YouTubeCaptionExtractor.tsx:24 | the split gives at least one line and no line contains a line feed |
| `MarkdownParser.SplitCRLF` | frontend/src/components/YouTubeCaptionExtractor.tsx:24 | lines joined with CRLF split back into the same lines |
| `MarkdownParser.SplitLF` | frontend/src/components/YouTubeCaptionExtractor.tsx:24 | lines joined with LF split back into the same lines |
| `MarkdownParser.SplitMixed` | frontend/src/components/YouTubeCaptionExtractor.tsx:24 | lines joined by LF and CRLF ends chosen line by line split back into the same lines, when no line before a bare LF ends in CR |
| `MarkdownParser.LineEndingsAlike` | frontend/src/components/YouTubeCaptionExtractor.tsx:24 | LF and CRLF line ends give the same blocks |
| `MarkdownParser.MixedEndingsAlike` | frontend/src/components/YouTubeCaptionExtractor.tsx:24 | any mix of LF and CRLF line ends gives the same blocks as LF alone |
| `MarkdownParser.MatchHeading` | frontend/src/components/YouTubeCaptionExtractor.tsx:70 | a matched heading's text group starts with a non-whitespace character |
| `MarkdownParser.HeadingMatchIsRegex` | frontend/src/components/YouTubeCaptionExtractor.tsx:70-72 | the heading scan matches exactly the lines `^(#{1,6})\s+(\S.*)$` accepts, with level equal to the hash count (1..6) and the same text group |
| `MarkdownParser.ListMatchIsRegex` | frontend/src/components/YouTubeCaptionExtractor.tsx:86-88 | the list scan matches exactly the lines `^[-*]\s+(\S.*)$` accepts, with the same item group |
| `MarkdownParser.Classify` | frontend/src/components/YouTubeCaptionExtractor.tsx:53-107 | a line is a fence iff its trimmed form starts with three backquotes; blank lines trim to ""; text lines carry their trimmed text; heading, item and text are trimmed and non-empty |
| `MarkdownParser.MarkdownReader.FlushParagraph` | frontend/src/components/YouTubeCaptionExtractor.tsx:31-36 | pushes the paragraph joined by spaces only when non-empty, then empties the buffer |
| `MarkdownParser.MarkdownReader.FlushList` | frontend/src/components/YouTubeCaptionExtractor.tsx:38-43 | pushes the list only when non-empty, then empties the buffer |
| `MarkdownParser.MarkdownReader.FlushCode` | frontend/src/components/YouTubeCaptionExtractor.tsx:45-50 | pushes the code lines joined by "\n" only when non-empty, then empties the buffer |
| `MarkdownParser.MarkdownReader.Feed` | frontend/src/components/YouTubeCaptionExtractor.tsx:52-108 | one line changes the closure variables as the state-machine step says |
| `MarkdownParser.MarkdownReader.Close` | frontend/src/components/YouTubeCaptionExtractor.tsx:110-114 | the final flushes give the blocks of `Finish` |
| `MarkdownParser.ParseMarkdown` | frontend/src/components/YouTubeCaptionExtractor.tsx:23-115 | the loop over the lines computes the specified blocks (`ParseMarkdownSpec`; their well-formedness is `BlocksWellFormed`) |
| `MarkdownParser.StepValid` | frontend/src/components/YouTubeCaptionExtractor.tsx:52-108 | each line keeps the invariant: paragraph and list buffers never both non-empty, both empty in code mode, code buffer empty outside it, buffers and blocks well formed |
| `MarkdownParser.RunValid` | frontend/src/components/YouTubeCaptionExtractor.tsx:52-108 | the invariant holds after any sequence of lines |
| `MarkdownParser.BlocksWellFormed` | frontend/src/components/YouTubeCaptionExtractor.tsx:31-50 | no paragraph or list block is empty, and headings and items are trimmed and non-empty |
| `MarkdownParser.CodeLinesVerbatim` | frontend/src/components/YouTubeCaptionExtractor.tsx:65-68 | inside code mode the non-fence lines are kept verbatim, in order |
| `MarkdownParser.FencedBlock` | frontend/src/components/YouTubeCaptionExtractor.tsx:53-68 | a fenced block becomes one code block of its lines joined by "\n", or nothing when it is empty |
| `MarkdownParser.ListLinesGroup` | frontend/src/components/YouTubeCaptionExtractor.tsx:86-94 | consecutive list lines extend one list |
| `MarkdownParser.PlainLinesGroup` | frontend/src/components/YouTubeCaptionExtractor.tsx:97-107 | consecutive plain lines extend one paragraph |
| `MarkdownParser.TextLineClosesList` | frontend/src/components/YouTubeCaptionExtractor.tsx:103-107 | a plain line after a list closes the list and starts the paragraph |
| `MarkdownParser.UnterminatedCodeEmitted` | frontend/src/components/YouTubeCaptionExtractor.tsx:110-112 | an unterminated code block is still emitted as the last block |
| `MarkdownParser.SingleTextLine` | frontend/src/components/YouTubeCaptionExtractor.tsx:97-110 | a single plain line is one paragraph of its trimmed text |
| `CaptionsRoute.ExtractVideoId` | frontend/src/app/api/youtube-captions/route.ts:17-25 | an id is found iff some marker is followed by an accepted character; the id is the maximal run after the leftmost match, non-empty and free of `&`, `\n`, `?`, `#` |
| `CaptionsRoute.FindIdFromLeftmost` | frontend/src/app/api/youtube-captions/route.ts:17 | the unanchored search takes the leftmost start position at which a marker matches |
| `CaptionsRoute.ShortLinkId` | frontend/src/app/api/youtube-captions/route.ts:17 | a short link yields the id that follows it |
| `CaptionsRoute.WatchLinkId` | frontend/src/app/api/youtube-captions/route.ts:17 | a watch link yields the id that follows it |
| `CaptionsRoute.EmbedLinkId` | frontend/src/app/api/youtube-captions/route.ts:17 | an embed link yields the id that follows it |
| `CaptionsRoute.BareMarkerRejected` | frontend/src/app/api/youtube-captions/route.ts:17-23 | a marker with nothing after it is not a match |
| `CaptionsRoute.TimestampRoundTrip` | frontend/src/app/api/youtube-captions/route.ts:60-70 | a timestamp reads back as the number of seconds it shows: minutes, ":", seconds below 60 padded to two digits |
| `CaptionsRoute.ParsedTimestampFields` | frontend/src/app/api/youtube-captions/route.ts:67-69 | a timestamp that reads back shows seconds below 60; its minutes are the value divided by 60 and its seconds the remainder |
| `CaptionsRoute.DemoDuration` | frontend/src/app/api/youtube-captions/route.ts:60-63 | the demo's total duration line reads "1:40" |
| `CaptionsRoute.BuildMarkdown` | frontend/src/app/api/youtube-captions/route.ts:57-78 | the `markdown +=` loop builds the specified document |
| `CaptionsRoute.BuildHeader` | frontend/src/app/api/youtube-captions/route.ts:57-65 | the title, the id line, the duration line (only when there is a last caption, as minutes and two-digit seconds of its end) and a rule, in that order |
| `CaptionsRoute.BuildSection` | frontend/src/app/api/youtube-captions/route.ts:68-72 | one caption's entry is its start time as `m:ss` under "## ", then its text |
| `CaptionsRoute.SectionOf` | frontend/src/app/api/youtube-captions/route.ts:67-72 | one section per caption, in caption order: section i is caption i's |
| `CaptionsRoute.RuleOf` | frontend/src/app/api/youtube-captions/route.ts:74-77 | the text after caption i is a rule exactly when i + 1 is a multiple of five and i is not the last index |
| `CaptionsRoute.LayoutPrefix` | frontend/src/app/api/youtube-captions/route.ts:67-78 | the document only grows: the entries of the first i captions are a prefix of those of the first j, for i <= j |
| `CaptionsRoute.SectionInPlace` | frontend/src/app/api/youtube-captions/route.ts:67-72 | caption i appears as "## ts\n\ntext\n\n" right after the entries of the captions before it |
| `CaptionsRoute.SectionsInOrder` | frontend/src/app/api/youtube-captions/route.ts:67-72 | the sections appear in input order without overlapping |
| `CaptionsRoute.EndsWithLastSection` | frontend/src/app/api/youtube-captions/route.ts:74-77 | no separator follows the last caption |
| `CaptionsRoute.NoCaptions` | frontend/src/app/api/youtube-captions/route.ts:57-65 | with no captions there is no duration line |
| `CaptionsRoute.SeparatorCount` | frontend/src/app/api/youtube-captions/route.ts:74-77 | n captions carry (n - 1) / 5 separators, one after every fifth caption but the last |
| `CaptionsRoute.DemoSeparators` | frontend/src/app/api/youtube-captions/route.ts:28-54 | the 25 demo captions carry four separators and none after the last |
| `CaptionsRoute.SplitCountsRuns` | frontend/src/app/api/youtube-captions/route.ts:80 | the whitespace split has one piece more than there are whitespace runs |
| `CaptionsRoute.SplitJoinsToCollapse` | frontend/src/app/api/youtube-captions/route.ts:80 | the split pieces joined by single spaces give the text with each whitespace run collapsed |
| `CaptionsRoute.CountWords` | frontend/src/app/api/youtube-captions/route.ts:80 | `split(/\s+/).length` is one more than the number of maximal whitespace runs |
| `CaptionsRoute.CaptionsFor` | frontend/src/app/api/youtube-captions/route.ts:56-88 | the success reply carries the specified document, its word count, the id and the number of captions |
| `CaptionsRoute.Post` | frontend/src/app/api/youtube-captions/route.ts:4-96 | 400 "YouTube URL is required" for a missing or empty url; 400 "Invalid YouTube URL" when no id is found; otherwise the document, a word count of runs + 1, the id and the caption count; an unreadable body gives 500 |

## Left out

- The transcript-language selection (`_choose_language_priority`, `_extract_video_id`, the language-preference
  configuration, the "no subtitles" failure) is not part of this model: it does not appear in
  `backend/app/video_processor/service.py`.
- The processing engine (`GetOutVideoAPI.get_available_styles`, `process_youtube_url`) is an abstract
  `EngineClient` value. Any exception from `get_available_styles` is one `None`, and any non-timeout failure of
  the processing call is one `Failed` outcome.
- The scratch directory (`TemporaryDirectory`, `iterdir`, `is_file`, `read_text`) is a list of entries. The
  `sorted(...)` call is not modelled: the list is taken to be in that order already. Its removal after the call
  is not modelled.
- `OutputFiles.ReadEntry`, `OutputParser.ParseOutputs` and `Service.ProcessVideo`: an entry's content is already
  decoded text. `read_text(encoding="utf-8")` at `backend/app/video_processor/service.py:145` raises
  `UnicodeDecodeError` on a file that is not UTF-8 and `OSError` when the read fails. That call sits outside the
  `try` around the engine call, so `process_video` then ends with an exception that is none of the four typed
  errors (the framework's default 500). The model has no such exit.
- `time.perf_counter`, the float `round(..., 2)` and `datetime.now().isoformat()` are not modelled. The
  processing time and the timestamp are parameters passed through unchanged.
- `Text.Lower` lowers ASCII letters only. Python's `str.lower` also lowers other letters, some of which change
  length; in that case the index `_extract_title` takes from the lowered stem could point elsewhere in the stem.
- `OutputFiles.Stem` follows `Path.stem` for plain file names. Names containing a path separator cannot occur in
  a directory listing.
- FastAPI routing, dependency injection, handler registration, Sentry, CORS and the startup hook are not
  modelled. `HandleRequestValidation` returns `None` where the default handler takes over.
- The front-end UI (React hooks, fetch, clipboard, downloads, `renderLinks`, `renderInline`) is not modelled.
- `CaptionsRoute.Post`: a `url` that is present but not a string makes `url.match` throw in the source, which
  gives the 500 reply. The model's body carries a string `url` or none, so that case is not represented.
- `CaptionsRoute.Post`: the falsy test `!url` is modelled for an absent and an empty string only.
- `MarkdownParser.BlocksWellFormed` allows a code block whose text is empty: a fenced block holding one empty
  line pushes `Code("")`, because the flush tests the number of lines, not their text.
