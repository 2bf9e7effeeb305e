# youtube-extractor in Dafny

A functional model of the decision logic of the youtube-extractor service:

- the `POST /extract` handler;
- `extractVideoInfo`, and the tool invocations around it;
- the two display formatters of the result card.

The model covers these parts of the service:

- **Format normaliser** (`Formats`). It filters the tool's raw format list to mp4 video entries labelled 720p or 1080p. A `reduce` folds the candidates into one entry per resolution and prefers an audio-bearing entry. It then picks the URL of the first m4a audio-only format.
- **Caption cleaner** (`Subtitles`, with a worked example in `SubtitleExamples`). `cleanVtt` splits the text into lines and skips header, timing, style and cue-number lines. It strips `<...>` tags, drops lines that become empty and collapses adjacent repeats.
- **Cookie handling** (`Cookies`). It decides between three modes: Netscape cookie-file mode (adding the header line when the text has a tab but lacks the header), `Cookie:` header mode with sanitised text, and no cookies. It also builds the cookie flags of the metadata call and of the subtitle call.
- **Extraction** (`Extraction`). Non-empty cookie text is first written to the cookie file, and a failed write fails the extraction. The metadata call is retried once without the header in header mode. A failure of the subtitle call is absorbed, but a failure of the directory scan or file read after it fails the extraction. The response record is assembled, and tool errors are classified by ordered substring tests.
- **Route** (`VideoRoute`). It maps a missing URL to 400, a result to 200, and an error to 403 or 500.
- **Display** (`Display`). `formatDate` turns `YYYYMMDD` into `YYYY-MM-DD`. `formatDuration` renders seconds as `[h:]mm:ss`.

The string operations the service uses live in `Text`: `includes`, ASCII `trim`, and `split`/`join` on one character. `Wrappers` holds `Option` and `Result`.

The external tool is a function parameter of `FetchMetadata` and `ExtractVideoInfo`, and so are the cookie file write and the subtitle step. The write yields the error it threw, if any. That step is the subtitle invocation plus the scan of the temporary directory, which yields the file content found, no file, or the error the scan threw. The temporary file names are plain string parameters.

Reference definitions and inverses, each connected to the operation by a lemma:

- `Dedup` is compared against `Preferred`/`FirstIndexOf`.
- `CollectLines` (the loop) is compared against `Collapse(Present(Outcomes(...)))`.
- `Split` is checked against `Join`.
- `FormatDuration` is checked against a parser of its own output.
- `FormatDate` is checked by deleting the dashes.
- `DropLineBreaks` is fixed by its one-character case and `DropLineBreaksAppend`.
- `SanitizeCookies` is characterised as a slice of the break-free text with only whitespace outside it (`SanitizeIsTrimmedSlice`).

`cleanVtt` is not idempotent: `<b>12</b>` cleans to `12`, which a second pass drops as a cue number (`SubtitleExamples.CleanVttNotIdempotent`).

## Model

| member | source | states |
|---|---|---|
| Formats.ResolutionOf | api/services/ytDlpService.ts:172-174 | A format gets a label iff it matches 720 or 1080 by `format_note` or `height`. A format gets 720p iff it matches 720 and not 1080. When both match, 1080p wins because it is assigned second. |
| Formats.Candidate | api/services/ytDlpService.ts:165-183 | A raw format yields a candidate iff it is mp4, has a video codec other than "none" and matches a label. The candidate keeps the url, has ext "mp4", and `hasAudio` iff the audio codec is not "none". |
| Formats.CandidatesMembers | api/services/ytDlpService.ts:163-187 | `Candidates` (the `forEach`): the candidate list holds exactly the entries built from qualifying raw formats: every entry comes from some raw format, and every qualifying raw format's entry is in it. |
| Formats.CandidatesAppend | api/services/ytDlpService.ts:165-186 | The `forEach` pushes in source order: one more raw format appends its candidate, if any, at the end. |
| Formats.FindIndex | api/services/ytDlpService.ts:259 | `findIndex` returns the first position holding the resolution, or none when no entry holds it. |
| Formats.Dedup | api/services/ytDlpService.ts:257-269 | The fold leaves no two entries with the same resolution, hence at most two, and keeps only candidates. |
| Formats.MergeKeepsAudioSlot | api/services/ytDlpService.ts:258-268 | `Merge` (the `reduce` callback, whose outcome over the whole list `DedupMeetsSpec` pins): a slot whose entry has audio is never replaced by a later candidate. |
| Formats.DedupMeetsSpec | api/services/ytDlpService.ts:257-269 | For each resolution, the fold keeps the first audio-bearing candidate if there is one, else the first candidate. The resolutions appear in the order their first candidates appeared. |
| Formats.DedupHasAudioWhenAvailable | api/services/ytDlpService.ts:257-269 | A resolution has an entry iff some candidate has it. That entry has audio whenever some candidate of that resolution has audio. |
| Formats.DedupIdempotent | api/services/ytDlpService.ts:257-269 | Folding the fold's output again changes nothing. |
| Formats.AudioUrlPicksFirst | api/services/ytDlpService.ts:190-196 | `AudioUrl` (the `find`): `audio_url` is the url of the first format with audio, no video and ext m4a, and the empty string when there is none. |
| Formats.NormalizeFormats | api/services/ytDlpService.ts:163-269 | The response formats meet the reference description of the fold. There are at most two of them, each an mp4 entry built from some raw format. The audio url is that of the first m4a audio-only format, or empty. |
| Formats.ScenarioMixedFormats | api/services/ytDlpService.ts:163-269 | For a silent 720p mp4 after a 720p mp4 with audio, followed by a silent 1080p mp4, the result is the 720p entry with audio followed by the 1080p entry. |
| Subtitles.StripTags | api/services/ytDlpService.ts:323 | Removing `<...>` tags leaves no `<` that is followed later by `>`, never lengthens the text, and adds no character. |
| Subtitles.StripTagsOfTagFree | api/services/ytDlpService.ts:323 | Text without tags passes through the tag removal unchanged. |
| Subtitles.StripPlainPrefix | api/services/ytDlpService.ts:323 | Text before the first `<` passes through the tag removal unchanged, and what follows is stripped on its own. |
| Subtitles.StripLeadingTag | api/services/ytDlpService.ts:323 | A leading `<...>` with no `>` inside is removed whole, and the rest is stripped on its own. |
| Subtitles.CleanLineShape | api/services/ytDlpService.ts:311-326 | `CleanLine` (one line of the `forEach` before the repeat test): a line contributes text only when its trimmed form passes every skip test. The text is non-empty, trimmed, tag-free and made of the line's characters. A tag-free caption line contributes its trimmed self. |
| Subtitles.Collapse | api/services/ytDlpService.ts:328-332 | The reference de-duplication keeps the first line and leaves no two adjacent lines equal. |
| Subtitles.CollapseKeepsLines | api/services/ytDlpService.ts:328-332 | Collapsing keeps exactly the set of distinct lines. |
| Subtitles.CollapseIsSubsequence | api/services/ytDlpService.ts:328-332 | Collapsing only drops lines; the kept ones stay in source order. |
| Subtitles.CollapseOfCollapsed | api/services/ytDlpService.ts:328-332 | A list without adjacent repeats is left unchanged. |
| Subtitles.CollapseAppend | api/services/ytDlpService.ts:329-331 | A new line is appended exactly when it differs from the last kept line, and the last kept line is then the new one. |
| Subtitles.CleanVttShape | api/services/ytDlpService.ts:299-336 | `CleanVtt`: every output line is non-empty, trimmed, tag-free and newline-free, and comes from a source line that passed the skip tests. No two adjacent lines are equal. The lines keep source order, and every cleaned caption line appears. |
| Subtitles.CleanVttSplits | api/services/ytDlpService.ts:335 | Splitting the cleaned text on newlines gives back exactly the kept lines. |
| Subtitles.CollectLines | api/services/ytDlpService.ts:309-333 | The loop with `lastCleanText` computes the reference: the present cleaned lines with adjacent repeats collapsed. |
| Subtitles.CleanVttLoop | api/services/ytDlpService.ts:299-336 | The imperative `cleanVtt` (split, loop, join) equals the functional `CleanVtt`. |
| SubtitleExamples.ExampleCleans | api/services/ytDlpService.ts:299-336 | The two-cue transcript whose cues are `<c>Hello</c>` and `Hello` cleans to the single line `Hello`. |
| SubtitleExamples.CleanVttNotIdempotent | api/services/ytDlpService.ts:320-326 | `<b>12</b>` cleans to `12`, and cleaning `12` gives the empty text. |
| Cookies.CookieFileContent | api/services/ytDlpService.ts:86-91 | The file content equals the input iff the input has the full Netscape header line or no tab. Otherwise it is the header line, a newline and the input. The input always ends the content, and tab-separated input always yields a file with the header. |
| Cookies.CookieFileContentIdempotent | api/services/ytDlpService.ts:88-90 | Preparing already prepared content changes nothing. |
| Cookies.DropLineBreaks | api/services/ytDlpService.ts:126 | Deleting CR/LF leaves none. It keeps every other character and adds none, and it is the identity on text without line breaks. A single character is deleted iff it is CR or LF. |
| Cookies.DropLineBreaksAppend | api/services/ytDlpService.ts:126 | The deletion of a concatenation is the concatenation of the deletions, so with the one-character case it is determined character by character. |
| Cookies.SanitizeCookies | api/services/ytDlpService.ts:126 | The sanitised cookie text has no CR or LF and is trimmed. |
| Cookies.SanitizeIsTrimmedSlice | api/services/ytDlpService.ts:126 | The sanitised text is a contiguous slice of the text with line breaks deleted, and only whitespace lies before and after that slice. |
| Cookies.SanitizeKeepsContent | api/services/ytDlpService.ts:126 | Sanitising adds no character and keeps every non-whitespace character of the input. |
| Cookies.SanitizeCleanText | api/services/ytDlpService.ts:126 | Trimmed single-line text is passed through unchanged. |
| Cookies.ChooseCookieMode | api/services/ytDlpService.ts:67-133 | Absent or empty text gives no cookies. Header mode holds iff the text is non-empty, has neither `# Netscape` nor a tab, and has `=`; its header is `Cookie:` plus the sanitised text. Anything else gives file mode with the prepared content, and tab-separated text always gives file mode. |
| Cookies.HeaderIsSingleLine | api/services/ytDlpService.ts:126-127 | The header starts with `Cookie:` and holds no CR or LF. After the prefix it is the sanitised, trimmed cookie text. |
| Cookies.MetadataFlagsFor | api/services/ytDlpService.ts:94-127 | The metadata call carries the cookie-file flag iff in file mode, and the header flag iff in header mode, carrying that mode's header. |
| Cookies.SubtitleFlagsFor | api/services/ytDlpService.ts:205-218 | The subtitle call asks for en, zh-Hans and zh-Hant into the template. It has a header iff in header mode, and that header is `Cookie:` plus the raw text. Otherwise it has the cookie file exactly when cookie text was given, and that file is the same path the metadata call uses. |
| Cookies.SubtitleHeaderMatchesWhenClean | api/services/ytDlpService.ts:214-215 | In header mode the two calls send the same header iff sanitising leaves the cookie text unchanged. |
| Extraction.FetchMetadata | api/services/ytDlpService.ts:135-149 | There is one call with the given flags. A second call, with the header removed, happens iff header mode is on and the first failed. The outcome is that of the last call. |
| Extraction.RetryHasNoCookies | api/services/ytDlpService.ts:117-145 | In header mode, when the tool refuses every call carrying the header, the first call fails and is retried with no cookie flag at all. |
| Extraction.NoCookiesNoRetry | api/services/ytDlpService.ts:136-148 | Without cookie text there is exactly one call, with no cookie flags, and its outcome is final. |
| Extraction.KindOf | api/services/ytDlpService.ts:275-287 | The tests are ordered: verification texts first, then the missing interpreter, then exit code 1. Each kind is characterised by an iff over `ErrorText`, which is the stderr when non-empty, else the message (line 275). |
| Extraction.ClassifyError | api/services/ytDlpService.ts:272-289 | Verification and configuration errors become the fixed messages. Exit code 1 becomes the error text, or the fallback when it is empty. Any other error is rethrown unchanged, and a fresh error never has an empty message. |
| Extraction.ExtractVideoInfo | api/services/ytDlpService.ts:66-289 | Success holds iff the cookie file write (`CookieWriteError`: attempted, with the prepared content, for any non-empty cookie text, in every mode) did not throw, the metadata step succeeded, and the subtitle directory scan and file read did not throw. A failure is the classified error of the write, else of the last metadata call, else of the scan. The formats and audio url are the normaliser's. The metadata fields are copied through as they are, absent ones included. Subtitles are the cleaned file content, or empty when no file was found. |
| Extraction.SubtitleContentNeverDecidesSuccess | api/services/ytDlpService.ts:204-243 | As long as the directory scan and file read do not throw, whatever subtitle file the step finds, or none, success and the formats are the same. |
| Extraction.NoCookieTextNoWrite | api/services/ytDlpService.ts:67-92 | Without cookie text no file is written, so the outcome does not depend on the write. |
| Extraction.SignInFailureRequiresVerification | api/services/ytDlpService.ts:272-278 | If the cookie file, when there is one, was written and every call fails with a "Sign in to confirm" text, the extraction fails with `HUMAN_VERIFICATION_REQUIRED` in every cookie mode. |
| VideoRoute.ErrorResponse | api/routes/video.ts:16-25 | The status is 403 iff the message is exactly `HUMAN_VERIFICATION_REQUIRED`, and then the body carries the verification code. Every other error gives 500 with its message, or the fallback when the message is empty. |
| VideoRoute.HandleExtract | api/routes/video.ts:6-26 | The extractor is invoked iff the url is present and non-empty, otherwise the response is 400 `URL is required`. The status is 200 iff the extraction succeeded, with the result as the body. The status is always one of 200, 400, 403 and 500. |
| VideoRoute.ToolErrorResponse | api/routes/video.ts:13-25 | A tool error's response, through classification and mapping: a verification text gives 403; a missing interpreter gives 500 with the configuration message; exit code 1 gives the error text; any other error keeps its message. |
| VideoRoute.SignInGives403 | api/routes/video.ts:13-23 | When the cookie file, if any, was written and every metadata call fails asking to sign in, the handler answers 403 with `VERIFICATION_REQUIRED`. |
| Display.FormatDate | src/components/VideoResult.tsx:28-34 | A length-8 string becomes length 10, with dashes at positions 4 and 7 around the three original pieces. Any other string is returned unchanged. |
| Display.FormatDateRoundTrip | src/components/VideoResult.tsx:30-31 | Deleting the two dashes from a formatted 8-character date gives the input back. |
| Display.PadTwo | src/components/VideoResult.tsx:41 | `padStart(2, '0')` leaves strings of length 2 or more alone. It pads shorter ones with leading zeros to length 2, ending with the input. |
| Display.JsRem | src/components/VideoResult.tsx:39-40 | JavaScript `%` equals the mathematical remainder for non-negative dividends. For negative ones it is non-positive and greater than minus the divisor. In both cases the dividend minus the result is the divisor times the quotient truncated toward zero. |
| Display.FormatDuration | src/components/VideoResult.tsx:36-37 | The duration text is empty iff the seconds are zero. |
| Display.DurationFields | src/components/VideoResult.tsx:38-40 | For positive seconds, `h*3600 + m*60 + s == seconds` with minutes and seconds in [0, 60). Hours are positive iff seconds >= 3600. |
| Display.FormatDurationRoundTrip | src/components/VideoResult.tsx:36-42 | For positive seconds, the text has three colon fields iff seconds >= 3600, and two otherwise. The minutes and seconds fields are two digits standing for a value below 60. An hours field has no leading zero. Parsing the text gives the seconds back. |

## Left out

- Binary path resolution and environment branching (api/services/ytDlpService.ts:6-44). This is start-up configuration made of filesystem probes.
- Temporary files, uuid generation, file writes and unlinks, and the directory scan for the subtitle file (lines 67, 91, 131, 200-243, 290-293). These are I/O. The names are parameters. The cookie file write is a parameter that yields the error it threw, if any. The scan's result (file content, no file, or a thrown error) is what the subtitle-step parameter returns. The unlinks swallow their errors and are left out.
- The flags every metadata call always carries (JSON output, no warnings, no download, IPv4) are constant and not modelled. Neither are the subtitle call's `writeSub`/`writeAutoSub`/`noWarnings`. Only the cookie-related flags are.
- Console logging in the service and in the route.
- Absent JSON fields: the metadata fields copied into the response (title to channel) are `Option`s, and an absent one is `None`, forwarded as is. A `format_note` or `height` is an `Option` too. An absent error text is `""`, since it is only read through `||`. An absent `ext` or codec of a raw format is a value that compares unequal to every literal the service tests. An absent or non-string `url` is not modelled.
- JavaScript numbers: integers only. Floating-point durations, `NaN` and `undefined` seconds are not modelled. String lengths are counted in characters, not UTF-16 code units.
- `trim` removes the ASCII whitespace set only, while JavaScript's also removes Unicode spaces and the byte order mark. A BOM in front of `WEBVTT` is stripped by the service, so that line is skipped, but the model keeps the BOM and emits the line.
- React rendering, clipboard, timers, `toLocaleString` and the remaining UI files.
- Display.FormatDuration: for negative seconds only non-emptiness is stated. The function follows JavaScript's floor division and sign-keeping `%`, but no property about the rendered text is proved.
