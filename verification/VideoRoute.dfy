/** The `POST /extract` handler: a missing URL is refused before extraction; an
    extraction result is sent as the body; errors become 403 or 500. */
module VideoRoute {
  import opened Wrappers
  import opened Text
  import opened Cookies
  import opened Extraction

  const UrlRequired: string := "URL is required"
  const VerificationPrompt: string := "Verification required. Please provide fresh cookies."
  const VerificationCode: string := "VERIFICATION_REQUIRED"
  const ExtractionFallback: string := "Failed to extract video info"

  /** A JSON body: the extraction result, or `{error, code?}`. */
  datatype Body = InfoBody(info: VideoInfo) | ErrorBody(error: string, code: Option<string>)

  datatype Response = Response(status: int, body: Body)

  /** The response, and whether the extractor was invoked to produce it. */
  datatype Exchange = Exchange(response: Response, extractorCalled: bool)

  /** The handler's `catch`: the verification error becomes 403 with a code, every
      other error 500 with its message (or a fallback text when it has none). */
  function ErrorResponse(e: ToolError): (r: Response)
    ensures r.status == 403 <==> e.message == HumanVerificationRequired
    ensures r.status == 403 ==> r.body == ErrorBody(VerificationPrompt, Some(VerificationCode))
    ensures r.status != 403 ==> r.status == 500 && r.body.ErrorBody? && r.body.code.None?
    ensures r.status == 500 ==> r.body.error == (if e.message != "" then e.message else ExtractionFallback)
  {
    if e.message == HumanVerificationRequired then
      Response(403, ErrorBody(VerificationPrompt, Some(VerificationCode)))
    else
      Response(500, ErrorBody(if e.message != "" then e.message else ExtractionFallback, None))
  }

  /** The handler, with the extraction passed in. A falsy URL (absent or empty) is
      answered with 400 and the extractor is not invoked; otherwise it is invoked
      once and its outcome decides between 200, 403 and 500. */
  function HandleExtract(url: Option<string>, cookies: Option<string>,
                         extract: (string, Option<string>) -> Result<VideoInfo, ToolError>): (x: Exchange)
    ensures x.extractorCalled <==> url.Some? && url.value != ""
    ensures !x.extractorCalled ==> x.response == Response(400, ErrorBody(UrlRequired, None))
    ensures x.extractorCalled ==>
      var out := extract(url.value, cookies);
      && (x.response.status == 200 <==> out.Ok?)
      && (out.Ok? ==> x.response.body == InfoBody(out.value))
      && (out.Err? ==> x.response == ErrorResponse(out.error))
    ensures x.response.status in {200, 400, 403, 500}
  {
    match url
    case None => Exchange(Response(400, ErrorBody(UrlRequired, None)), false)
    case Some(u) =>
      if u == "" then Exchange(Response(400, ErrorBody(UrlRequired, None)), false)
      else
        match extract(u, cookies)
        case Ok(info) => Exchange(Response(200, InfoBody(info)), true)
        case Err(e) => Exchange(ErrorResponse(e), true)
  }

  /** What the client sees for a tool error, through the service's classification
      and the handler's mapping. A verification text always yields 403. A missing
      interpreter yields 500 with the configuration message. An exit code of 1
      yields the error text (or the service's fallback), which is 403 only if that
      text is literally the verification marker. Any other error keeps its own
      message. */
  lemma ToolErrorResponse(e: ToolError)
    ensures var r := ErrorResponse(ClassifyError(e));
            var t := ErrorText(e);
            && (SignalsVerification(t) ==>
                  r == Response(403, ErrorBody(VerificationPrompt, Some(VerificationCode))))
            && (!SignalsVerification(t) && SignalsMissingPython(t) ==>
                  r == Response(500, ErrorBody(ServerConfigurationError, None)))
            && (KindOf(e) == ExitCodeOne ==>
                  (r.status == 403 <==> t == HumanVerificationRequired) &&
                  (r.status == 500 ==> r.body.error == if t != "" then t else ExitCodeFallback))
            && (KindOf(e) == Unclassified ==>
                  (r.status == 403 <==> e.message == HumanVerificationRequired) &&
                  (r.status == 500 ==> r.body.error == if e.message != "" then e.message else ExtractionFallback))
  {
    var t := ErrorText(e);
    if !SignalsVerification(t) && SignalsMissingPython(t) {
      assert ServerConfigurationError != HumanVerificationRequired;
    }
  }

  /** End to end: when the cookie file, if any, was written and every metadata call
      fails asking to sign in, the handler answers 403 with the verification code. */
  lemma SignInGives403(
    url: string, cookies: Option<string>, cookiePath: string, subtitleTemplate: string,
    writeFile: (string, string) -> Option<ToolError>,
    ytDlp: (string, MetadataFlags) -> ToolResult,
    fetchSubtitles: (string, SubtitleFlags) -> SubtitleScan)
    requires url != ""
    requires CookieWriteError(cookies, cookiePath, writeFile).None?
    requires forall f :: ytDlp(url, f).Failed? && Contains(ErrorText(ytDlp(url, f).error), "Sign in to confirm")
    ensures var extract := (u, c) => ExtractVideoInfo(u, c, cookiePath, subtitleTemplate, writeFile, ytDlp, fetchSubtitles);
            HandleExtract(Some(url), cookies, extract).response
              == Response(403, ErrorBody(VerificationPrompt, Some(VerificationCode)))
  {
    SignInFailureRequiresVerification(url, cookies, cookiePath, subtitleTemplate, writeFile, ytDlp, fetchSubtitles);
  }
}
