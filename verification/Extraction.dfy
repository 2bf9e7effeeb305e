/** `extractVideoInfo`: the metadata call with its retry-once-without-header rule,
    the subtitle call whose failure is absorbed while the directory scan after it
    can still fail the extraction, the assembly of the response record, and the
    ordered classification of tool errors. The tool itself and the subtitle file
    discovery are parameters. */
module Extraction {
  import opened Wrappers
  import opened Text
  import opened Formats
  import opened Subtitles
  import opened Cookies

  /** A thrown error as the service sees it. An absent text field is `""` (the
      service only ever reads them through `||`), an absent or non-numeric code is
      `None`. */
  datatype ToolError = ToolError(stderr: string, message: string, code: Option<int>, exitCode: Option<int>)

  /** `new Error(message)`. */
  function NewError(message: string): ToolError {
    ToolError("", message, None, None)
  }

  /** The fields of the tool's JSON output the service reads. The scalar fields are
      copied into the response verbatim, so an absent (or null) one is `None`. */
  datatype Metadata = Metadata(
    title: Option<string>,
    thumbnail: Option<string>,
    description: Option<string>,
    uploadDate: Option<string>,
    viewCount: Option<int>,
    likeCount: Option<int>,
    commentCount: Option<int>,
    duration: Option<int>,
    channel: Option<string>,
    formats: seq<RawFormat>)

  /** One invocation of the tool: its JSON output or the error it threw. */
  datatype ToolResult = Output(metadata: Metadata) | Failed(error: ToolError)

  /** What the subtitle step leaves behind: the content of the subtitle file found
      after the subtitle invocation (whose own failure is absorbed), no such file, or
      the error thrown by the directory listing or the file read, which sit outside
      the absorbing `try`. */
  datatype SubtitleScan = SubtitleFile(content: string) | NoSubtitleFile | ScanFailed(error: ToolError)

  /** The response record. */
  datatype VideoInfo = VideoInfo(
    title: Option<string>,
    thumbnail: Option<string>,
    description: Option<string>,
    uploadDate: Option<string>,
    viewCount: Option<int>,
    likeCount: Option<int>,
    commentCount: Option<int>,
    duration: Option<int>,
    channel: Option<string>,
    subtitles: string,
    audioUrl: string,
    formats: seq<FormatEntry>)

  /** The outcome of the metadata step and the flags of every call it made. */
  datatype MetadataAttempt = MetadataAttempt(result: ToolResult, calls: seq<MetadataFlags>)

  /** The metadata step: one call; if it fails and the header mechanism is in use,
      exactly one more call without the header, whose outcome is final. Otherwise
      the first failure is final. */
  function FetchMetadata(url: string, flags: MetadataFlags, useHeader: bool,
                         ytDlp: (string, MetadataFlags) -> ToolResult): (a: MetadataAttempt)
    ensures 1 <= |a.calls| <= 2 && a.calls[0] == flags
    ensures |a.calls| == 2 <==> useHeader && ytDlp(url, flags).Failed?
    ensures |a.calls| == 2 ==> a.calls[1] == flags.(addHeader := None)
    ensures a.result == ytDlp(url, a.calls[|a.calls| - 1])
  {
    var first := ytDlp(url, flags);
    if first.Failed? && useHeader then
      var retryFlags := flags.(addHeader := None);
      MetadataAttempt(ytDlp(url, retryFlags), [flags, retryFlags])
    else
      MetadataAttempt(first, [flags])
  }

  /** In header mode, when the tool refuses every call that carries the header, the
      retry happens and carries no cookies at all, since the file flag was already
      removed. */
  lemma RetryHasNoCookies(url: string, cookies: string, cookiePath: string,
                          ytDlp: (string, MetadataFlags) -> ToolResult)
    requires UsesHeader(cookies)
    requires forall f: MetadataFlags :: f.addHeader.Some? ==> ytDlp(url, f).Failed?
    ensures var mode := ChooseCookieMode(Some(cookies));
            var a := FetchMetadata(url, MetadataFlagsFor(mode, cookiePath), mode.CookieHeader?, ytDlp);
            |a.calls| == 2 && a.calls[1] == MetadataFlags(None, None)
  {
  }

  // ---------------------------------------------------------------------------
  // Error classification
  // ---------------------------------------------------------------------------

  const HumanVerificationRequired: string := "HUMAN_VERIFICATION_REQUIRED"
  const ServerConfigurationError: string :=
    "SERVER_CONFIGURATION_ERROR: yt-dlp binary is missing Python dependency or is not the standalone executable."
  const ExitCodeFallback: string :=
    "Failed to extract video info. This might be due to YouTube's restrictions on data center IPs (Vercel)."

  /** `error.stderr || error.message || ''`. */
  function ErrorText(e: ToolError): string {
    if e.stderr != "" then e.stderr else e.message
  }

  /** Sign-in, bot, rate-limit, forbidden and format-unavailable texts. */
  predicate SignalsVerification(t: string) {
    || Contains(t, "Sign in to confirm")
    || Contains(t, "bot")
    || Contains(t, "429")
    || Contains(t, "403")
    || Contains(t, "Requested format is not available")
  }

  /** The tool could not find its Python interpreter. */
  predicate SignalsMissingPython(t: string) {
    Contains(t, "env: 'python3': No such file") || Contains(t, "python3: not found")
  }

  predicate ExitedWithOne(e: ToolError) {
    e.code == Some(1) || e.exitCode == Some(1)
  }

  datatype ErrorKind = VerificationRequired | ServerConfiguration | ExitCodeOne | Unclassified

  /** The tests in their order: verification first, then the missing interpreter,
      then exit code 1. */
  function KindOf(e: ToolError): (k: ErrorKind)
    ensures k == VerificationRequired <==> SignalsVerification(ErrorText(e))
    ensures k == ServerConfiguration <==> !SignalsVerification(ErrorText(e)) && SignalsMissingPython(ErrorText(e))
    ensures k == ExitCodeOne <==>
      !SignalsVerification(ErrorText(e)) && !SignalsMissingPython(ErrorText(e)) && ExitedWithOne(e)
  {
    var t := ErrorText(e);
    if SignalsVerification(t) then VerificationRequired
    else if SignalsMissingPython(t) then ServerConfiguration
    else if ExitedWithOne(e) then ExitCodeOne
    else Unclassified
  }

  /** The `catch` of `extractVideoInfo`: a fresh error for the three recognised
      kinds, the original error otherwise. A fresh error never has an empty
      message. */
  function ClassifyError(e: ToolError): (r: ToolError)
    ensures KindOf(e) == VerificationRequired ==> r == NewError(HumanVerificationRequired)
    ensures KindOf(e) == ServerConfiguration ==> r == NewError(ServerConfigurationError)
    ensures KindOf(e) == ExitCodeOne && ErrorText(e) != "" ==> r == NewError(ErrorText(e))
    ensures KindOf(e) == ExitCodeOne && ErrorText(e) == "" ==> r == NewError(ExitCodeFallback)
    ensures KindOf(e) == Unclassified ==> r == e
    ensures r != e ==> r.message != ""
  {
    match KindOf(e)
    case VerificationRequired => NewError(HumanVerificationRequired)
    case ServerConfiguration => NewError(ServerConfigurationError)
    case ExitCodeOne => NewError(if ErrorText(e) != "" then ErrorText(e) else ExitCodeFallback)
    case Unclassified => e
  }

  // ---------------------------------------------------------------------------
  // The whole extraction
  // ---------------------------------------------------------------------------

  /** The cookie file write: for any non-empty cookie text, in every mode, the
      prepared content is written to `cookiePath` before the mode is decided.
      `writeFile` yields the error the write threw, if any; the result is that
      error, and `None` when the write succeeded or never happened. */
  function CookieWriteError(cookies: Option<string>, cookiePath: string,
                            writeFile: (string, string) -> Option<ToolError>): (e: Option<ToolError>)
    ensures cookies.None? || cookies.value == "" ==> e.None?
    ensures cookies.Some? && cookies.value != "" ==> e == writeFile(cookiePath, CookieFileContent(cookies.value))
  {
    if cookies.Some? && cookies.value != "" then writeFile(cookiePath, CookieFileContent(cookies.value))
    else None
  }

  /** `extractVideoInfo(url, cookies)`. `cookiePath` and `subtitleTemplate` stand for
      the generated temporary names, `writeFile` for the cookie file write, `ytDlp`
      for the metadata invocation, and `fetchSubtitles` for the subtitle invocation
      followed by the directory scan and the read of the file found. */
  function ExtractVideoInfo(
    url: string,
    cookies: Option<string>,
    cookiePath: string,
    subtitleTemplate: string,
    writeFile: (string, string) -> Option<ToolError>,
    ytDlp: (string, MetadataFlags) -> ToolResult,
    fetchSubtitles: (string, SubtitleFlags) -> SubtitleScan): (r: Result<VideoInfo, ToolError>)
    ensures var w := CookieWriteError(cookies, cookiePath, writeFile);
            w.Some? ==> r == Err(ClassifyError(w.value))
    ensures var w := CookieWriteError(cookies, cookiePath, writeFile);
            var mode := ChooseCookieMode(cookies);
            var a := FetchMetadata(url, MetadataFlagsFor(mode, cookiePath), mode.CookieHeader?, ytDlp);
            var scan := fetchSubtitles(url, SubtitleFlagsFor(cookies, cookiePath, subtitleTemplate));
            && (r.Ok? <==> w.None? && a.result.Output? && !scan.ScanFailed?)
            && (w.None? && a.result.Failed? ==> r == Err(ClassifyError(a.result.error)))
            && (w.None? && a.result.Output? && scan.ScanFailed? ==> r == Err(ClassifyError(scan.error)))
            && (r.Ok? ==> NormalizeFormats(a.result.metadata.formats) == (r.value.formats, r.value.audioUrl))
    ensures r.Ok? ==> DistinctResolutions(r.value.formats) && |r.value.formats| <= 2
    ensures r.Ok? ==>
      var m := FetchMetadata(url, MetadataFlagsFor(ChooseCookieMode(cookies), cookiePath),
                             ChooseCookieMode(cookies).CookieHeader?, ytDlp).result.metadata;
      && r.value.title == m.title && r.value.thumbnail == m.thumbnail
      && r.value.description == m.description && r.value.uploadDate == m.uploadDate
      && r.value.viewCount == m.viewCount && r.value.likeCount == m.likeCount
      && r.value.commentCount == m.commentCount && r.value.duration == m.duration
      && r.value.channel == m.channel
    ensures r.Ok? ==>
      var scan := fetchSubtitles(url, SubtitleFlagsFor(cookies, cookiePath, subtitleTemplate));
      && (scan.NoSubtitleFile? ==> r.value.subtitles == "")
      && (scan.SubtitleFile? ==> r.value.subtitles == CleanVtt(scan.content))
  {
    var written := CookieWriteError(cookies, cookiePath, writeFile);
    if written.Some? then Err(ClassifyError(written.value))
    else
      var mode := ChooseCookieMode(cookies);
      var attempt := FetchMetadata(url, MetadataFlagsFor(mode, cookiePath), mode.CookieHeader?, ytDlp);
      match attempt.result
      case Failed(e) => Err(ClassifyError(e))
      case Output(meta) =>
        var normalized := NormalizeFormats(meta.formats);
        var scan := fetchSubtitles(url, SubtitleFlagsFor(cookies, cookiePath, subtitleTemplate));
        if scan.ScanFailed? then Err(ClassifyError(scan.error))
        else
          var subtitles := if scan.SubtitleFile? then CleanVtt(scan.content) else "";
          Ok(VideoInfo(
            meta.title, meta.thumbnail, meta.description, meta.uploadDate,
            meta.viewCount, meta.likeCount, meta.commentCount, meta.duration, meta.channel,
            subtitles, normalized.1, normalized.0))
  }

  /** The subtitle invocation never decides success: as long as listing and reading
      the directory do not throw, whatever file the step finds (or none), success
      and the formats are decided by the metadata step alone. */
  lemma SubtitleContentNeverDecidesSuccess(
    url: string, cookies: Option<string>, cookiePath: string, subtitleTemplate: string,
    writeFile: (string, string) -> Option<ToolError>,
    ytDlp: (string, MetadataFlags) -> ToolResult,
    fetch1: (string, SubtitleFlags) -> SubtitleScan,
    fetch2: (string, SubtitleFlags) -> SubtitleScan)
    requires !fetch1(url, SubtitleFlagsFor(cookies, cookiePath, subtitleTemplate)).ScanFailed?
    requires !fetch2(url, SubtitleFlagsFor(cookies, cookiePath, subtitleTemplate)).ScanFailed?
    ensures ExtractVideoInfo(url, cookies, cookiePath, subtitleTemplate, writeFile, ytDlp, fetch1).Ok?
        == ExtractVideoInfo(url, cookies, cookiePath, subtitleTemplate, writeFile, ytDlp, fetch2).Ok?
    ensures ExtractVideoInfo(url, cookies, cookiePath, subtitleTemplate, writeFile, ytDlp, fetch1).Ok? ==>
      ExtractVideoInfo(url, cookies, cookiePath, subtitleTemplate, writeFile, ytDlp, fetch1).value.formats
        == ExtractVideoInfo(url, cookies, cookiePath, subtitleTemplate, writeFile, ytDlp, fetch2).value.formats
  {
  }

  /** Without cookie text nothing is written, so the file write cannot affect the
      outcome. */
  lemma NoCookieTextNoWrite(
    url: string, cookies: Option<string>, cookiePath: string, subtitleTemplate: string,
    write1: (string, string) -> Option<ToolError>,
    write2: (string, string) -> Option<ToolError>,
    ytDlp: (string, MetadataFlags) -> ToolResult,
    fetchSubtitles: (string, SubtitleFlags) -> SubtitleScan)
    requires cookies == None || cookies == Some("")
    ensures ExtractVideoInfo(url, cookies, cookiePath, subtitleTemplate, write1, ytDlp, fetchSubtitles)
         == ExtractVideoInfo(url, cookies, cookiePath, subtitleTemplate, write2, ytDlp, fetchSubtitles)
  {
  }

  /** Without usable cookie text there is exactly one metadata call, with neither
      cookie flag, and its failure is final. */
  lemma NoCookiesNoRetry(url: string, cookies: Option<string>, cookiePath: string,
                         ytDlp: (string, MetadataFlags) -> ToolResult)
    requires cookies == None || cookies == Some("")
    ensures var mode := ChooseCookieMode(cookies);
            var a := FetchMetadata(url, MetadataFlagsFor(mode, cookiePath), mode.CookieHeader?, ytDlp);
            a.calls == [MetadataFlags(None, None)] && a.result == ytDlp(url, MetadataFlags(None, None))
  {
  }

  /** When the cookie file, if any, was written and the tool's error text asks to
      sign in, on every call, the extraction fails with the verification error,
      whatever the cookie mode. */
  lemma SignInFailureRequiresVerification(
    url: string, cookies: Option<string>, cookiePath: string, subtitleTemplate: string,
    writeFile: (string, string) -> Option<ToolError>,
    ytDlp: (string, MetadataFlags) -> ToolResult,
    fetchSubtitles: (string, SubtitleFlags) -> SubtitleScan)
    requires CookieWriteError(cookies, cookiePath, writeFile).None?
    requires forall f :: ytDlp(url, f).Failed? && Contains(ErrorText(ytDlp(url, f).error), "Sign in to confirm")
    ensures ExtractVideoInfo(url, cookies, cookiePath, subtitleTemplate, writeFile, ytDlp, fetchSubtitles)
      == Err(NewError(HumanVerificationRequired))
  {
    var mode := ChooseCookieMode(cookies);
    var a := FetchMetadata(url, MetadataFlagsFor(mode, cookiePath), mode.CookieHeader?, ytDlp);
    var last := a.calls[|a.calls| - 1];
    assert ytDlp(url, last).Failed?;
    assert KindOf(a.result.error) == VerificationRequired;
  }
}
