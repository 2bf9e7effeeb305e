/** How `extractVideoInfo` turns the user's cookie text into tool flags: Netscape
    cookie-file mode (with the header line added when it is missing) or a
    `Cookie:` request header built from `key=value` text. */
module Cookies {
  import opened Wrappers
  import opened Text

  /** The full header line a Netscape cookie file starts with (without newline). */
  const NetscapeHeader: string := "# Netscape HTTP Cookie File"

  /** The shorter marker the mode decision looks for. */
  const NetscapeMarker: string := "# Netscape"

  /** The prefix of the request header built from cookie text. */
  const CookieHeaderPrefix: string := "Cookie:"

  /** The content written to the cookie file: the input, prefixed with the header
      line when the input has a tab but lacks the header. The input always ends
      the file unchanged, and tab-separated input always yields a file that carries
      the header. */
  function CookieFileContent(cookies: string): (r: string)
    ensures |r| >= |cookies| && r[|r| - |cookies|..] == cookies
    ensures r == cookies <==> Contains(cookies, NetscapeHeader) || '\t' !in cookies
    ensures r != cookies ==> r == NetscapeHeader + "\n" + cookies
    ensures '\t' in cookies ==> Contains(r, NetscapeHeader)
  {
    if !Contains(cookies, NetscapeHeader) && '\t' in cookies then
      var r := NetscapeHeader + "\n" + cookies;
      assert OccursAt(r, NetscapeHeader, 0) by {
        assert r[..|NetscapeHeader|] == NetscapeHeader;
      }
      r
    else cookies
  }

  /** Writing the content again would change nothing: the prefixed file already
      carries the header. */
  lemma CookieFileContentIdempotent(cookies: string)
    ensures CookieFileContent(CookieFileContent(cookies)) == CookieFileContent(cookies)
  {
  }

  /** Looks like a Netscape cookie file: has the marker or a tab. */
  predicate IsNetscapeStyle(cookies: string) {
    Contains(cookies, NetscapeMarker) || '\t' in cookies
  }

  /** Header mode: non-empty text that is not Netscape-style and has an `=`. */
  predicate UsesHeader(cookies: string) {
    cookies != "" && !IsNetscapeStyle(cookies) && '=' in cookies
  }

  /** The text with every carriage return and line feed deleted (`/[\r\n]+/g`). */
  function DropLineBreaks(s: string): (r: string)
    ensures '\r' !in r && '\n' !in r
    ensures |r| <= |s|
    ensures forall c :: c in r ==> c in s
    ensures forall i :: 0 <= i < |s| && s[i] != '\r' && s[i] != '\n' ==> s[i] in r
    ensures '\r' !in s && '\n' !in s ==> r == s
    ensures |s| == 1 ==> r == if s[0] == '\r' || s[0] == '\n' then "" else s
  {
    if |s| == 0 then ""
    else
      var rest := DropLineBreaks(s[1..]);
      assert forall i :: 1 <= i < |s| ==> s[i] == s[1..][i - 1];
      if s[0] == '\r' || s[0] == '\n' then rest else [s[0]] + rest
  }

  /** Deletion works piecewise: the text of a concatenation is the concatenation of
      the texts. With the one-character case of the contract above, this determines
      the result, so kept characters keep their order and number. */
  lemma {:induction false} DropLineBreaksAppend(a: string, b: string)
    ensures DropLineBreaks(a + b) == DropLineBreaks(a) + DropLineBreaks(b)
  {
    if |a| > 0 {
      var s := a + b;
      assert s[0] == a[0];
      assert s[1..] == a[1..] + b;
      DropLineBreaksAppend(a[1..], b);
      DropStep(s);
      DropStep(a);
    } else {
      assert a + b == b;
    }
  }

  function KeptPart(c: char): string {
    if c == '\r' || c == '\n' then "" else [c]
  }

  lemma DropStep(s: string)
    requires |s| > 0
    ensures DropLineBreaks(s) == KeptPart(s[0]) + DropLineBreaks(s[1..])
  {
  }

  /** The header value's cookie text: line breaks deleted, then trimmed. */
  function SanitizeCookies(cookies: string): (r: string)
    ensures '\r' !in r && '\n' !in r
    ensures IsTrimmed(r)
  {
    var d := DropLineBreaks(cookies);
    TrimKeepsContent(d);
    Trim(d)
  }

  /** The sanitised text is the line-break-free text with only whitespace cut from
      both ends. */
  lemma SanitizeIsTrimmedSlice(cookies: string) returns (off: nat)
    ensures var d := DropLineBreaks(cookies);
            var r := SanitizeCookies(cookies);
            && off + |r| <= |d| && r == d[off..off + |r|]
            && (forall i :: 0 <= i < off ==> IsWhitespace(d[i]))
            && (forall i :: off + |r| <= i < |d| ==> IsWhitespace(d[i]))
  {
    var d := DropLineBreaks(cookies);
    assert SanitizeCookies(cookies) == Trim(d);
    off := TrimIsSlice(d);
  }

  /** Sanitising only deletes: it keeps every character of the input that is not
      whitespace, and adds none. */
  lemma SanitizeKeepsContent(cookies: string)
    ensures forall c :: c in SanitizeCookies(cookies) ==> c in cookies
    ensures forall i :: 0 <= i < |cookies| && !IsWhitespace(cookies[i]) ==> cookies[i] in SanitizeCookies(cookies)
  {
    var d := DropLineBreaks(cookies);
    TrimKeepsContent(d);
    forall i | 0 <= i < |cookies| && !IsWhitespace(cookies[i])
      ensures cookies[i] in Trim(d)
    {
      var k :| 0 <= k < |d| && d[k] == cookies[i];
    }
  }

  /** Clean single-line text is passed through unchanged. */
  lemma SanitizeCleanText(cookies: string)
    requires '\r' !in cookies && '\n' !in cookies && IsTrimmed(cookies)
    ensures SanitizeCookies(cookies) == cookies
  {
    TrimmedIsFixed(cookies);
  }

  /** Which cookie mechanism a request uses. */
  datatype CookieMode =
    | NoCookies
    | CookieFile(content: string)
    | CookieHeader(header: string)

  /** The request header built from `key=value` cookie text. */
  function HeaderLine(cookies: string): string {
    CookieHeaderPrefix + SanitizeCookies(cookies)
  }

  /** The decision of the service: no cookies for absent or empty text; header mode
      for `key=value` text; a cookie file for anything else. */
  function ChooseCookieMode(cookies: Option<string>): (m: CookieMode)
    ensures m.NoCookies? <==> cookies == None || cookies == Some("")
    ensures m.CookieHeader? <==> cookies.Some? && UsesHeader(cookies.value)
    ensures m.CookieHeader? ==> m.header == HeaderLine(cookies.value)
    ensures m.CookieFile? ==> m.content == CookieFileContent(cookies.value)
    ensures cookies.Some? && '\t' in cookies.value ==> m.CookieFile?
  {
    match cookies
    case None => NoCookies
    case Some(c) =>
      if c == "" then NoCookies
      else if UsesHeader(c) then CookieHeader(HeaderLine(c))
      else CookieFile(CookieFileContent(c))
  }

  /** The header is one clean line: it starts with `Cookie:`, holds no line break,
      and after the prefix it is the trimmed cookie text with line breaks removed. */
  lemma HeaderIsSingleLine(cookies: string)
    ensures CookieHeaderPrefix <= HeaderLine(cookies)
    ensures '\r' !in HeaderLine(cookies) && '\n' !in HeaderLine(cookies)
    ensures HeaderLine(cookies)[|CookieHeaderPrefix|..] == SanitizeCookies(cookies)
    ensures IsTrimmed(HeaderLine(cookies)[|CookieHeaderPrefix|..])
  {
    var t := SanitizeCookies(cookies);
    assert HeaderLine(cookies) == CookieHeaderPrefix + t;
    PrefixHasNoBreak();
    PrefixedLine(CookieHeaderPrefix, t);
  }

  lemma PrefixHasNoBreak()
    ensures '\r' !in CookieHeaderPrefix && '\n' !in CookieHeaderPrefix
  {
  }

  lemma PrefixedLine(p: string, t: string)
    requires '\r' !in p && '\n' !in p && '\r' !in t && '\n' !in t && IsTrimmed(t)
    ensures p <= p + t
    ensures '\r' !in p + t && '\n' !in p + t
    ensures (p + t)[|p|..] == t
  {
    assert (p + t)[|p|..] == t;
  }

  /** The cookie-related part of the metadata call's flags (the call always also
      asks for JSON output, no warnings, no download and IPv4). */
  datatype MetadataFlags = MetadataFlags(cookies: Option<string>, addHeader: Option<string>)

  /** Flags of the first metadata call; `cookiePath` is the temporary file's path. */
  function MetadataFlagsFor(mode: CookieMode, cookiePath: string): (f: MetadataFlags)
    ensures f.cookies.Some? <==> mode.CookieFile?
    ensures f.cookies.Some? ==> f.cookies.value == cookiePath
    ensures f.addHeader.Some? <==> mode.CookieHeader?
    ensures f.addHeader.Some? ==> f.addHeader.value == mode.header
  {
    match mode
    case NoCookies => MetadataFlags(None, None)
    case CookieFile(_) => MetadataFlags(Some(cookiePath), None)
    case CookieHeader(h) => MetadataFlags(None, Some(h))
  }

  /** The subtitle call's flags: languages, output template and cookies. */
  datatype SubtitleFlags = SubtitleFlags(
    subLang: string,
    output: string,
    cookies: Option<string>,
    addHeader: Option<string>)

  const SubtitleLanguages: string := "en,zh-Hans,zh-Hant"

  /** Flags of the subtitle call. In header mode the header carries the raw cookie
      text, not the sanitised one; otherwise the cookie file path is passed whenever
      cookie text was given. */
  function SubtitleFlagsFor(cookies: Option<string>, cookiePath: string, template: string): (f: SubtitleFlags)
    ensures f.subLang == SubtitleLanguages && f.output == template
    ensures f.addHeader.Some? <==> cookies.Some? && UsesHeader(cookies.value)
    ensures f.addHeader.Some? ==> f.addHeader.value == CookieHeaderPrefix + cookies.value
    ensures f.cookies.Some? <==> f.addHeader.None? && cookies.Some? && cookies.value != ""
    ensures f.cookies.Some? ==> f.cookies.value == cookiePath
  {
    var header := cookies.Some? && UsesHeader(cookies.value);
    var cookieFile := if cookies.Some? && cookies.value != "" then Some(cookiePath) else None;
    if header then SubtitleFlags(SubtitleLanguages, template, None, Some(CookieHeaderPrefix + cookies.value))
    else SubtitleFlags(SubtitleLanguages, template, cookieFile, None)
  }

  /** The two calls send the same header exactly when the cookie text is already a
      clean single line; otherwise the subtitle call sends the unsanitised text. */
  lemma SubtitleHeaderMatchesWhenClean(cookies: string, cookiePath: string, template: string)
    requires UsesHeader(cookies)
    ensures var m := MetadataFlagsFor(ChooseCookieMode(Some(cookies)), cookiePath);
            var s := SubtitleFlagsFor(Some(cookies), cookiePath, template);
            m.addHeader == s.addHeader <==> SanitizeCookies(cookies) == cookies
  {
    var m := MetadataFlagsFor(ChooseCookieMode(Some(cookies)), cookiePath);
    var s := SubtitleFlagsFor(Some(cookies), cookiePath, template);
    if m.addHeader == s.addHeader {
      var h := m.addHeader.value;
      assert h[|CookieHeaderPrefix|..] == cookies;
    }
  }
}
