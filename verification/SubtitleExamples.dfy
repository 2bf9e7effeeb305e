/** Worked examples of the caption cleaner, evaluated through small general facts
    about tag stripping and the line pipeline. */
module SubtitleExamples {
  import opened Wrappers
  import opened Text
  import opened Subtitles

  // ---------------------------------------------------------------------------
  // General evaluation steps
  // ---------------------------------------------------------------------------

  /** A text without `-` holds no timing arrow. */
  lemma NoArrowWithoutDash(s: string)
    requires '-' !in s
    ensures !Contains(s, "-->")
  {
    forall i: nat | i + 3 <= |s|
      ensures !OccursAt(s, "-->", i)
    {
      assert s[i..i + 3][0] == s[i] != '-';
    }
  }

  /** A word wrapped in one opening and one closing tag is stripped to the word. */
  lemma StripWrapped(open: string, word: string, close: string)
    requires |open| >= 2 && open[0] == '<' && open[|open| - 1] == '>' && '>' !in open[1..|open| - 1]
    requires |close| >= 2 && close[0] == '<' && close[|close| - 1] == '>' && '>' !in close[1..|close| - 1]
    requires '<' !in word
    ensures StripTags(open + word + close) == word
  {
    var empty := "";
    assert open + word + close == open + (word + close);
    assert close == close + empty;
    StripLeadingTag(open, word + close);
    StripPlainPrefix(word, close);
    StripLeadingTag(close, empty);
    assert word + empty == word;
  }

  /** A line that is already trimmed and passes the skip tests is emitted as its
      stripped, re-trimmed text. */
  lemma CueLine(s: string, text: string)
    requires IsTrimmed(s) && IsCueText(s)
    requires StripTags(s) == text && text != "" && IsTrimmed(text)
    ensures CleanLine(s) == Some(text)
  {
    TrimmedIsFixed(s);
    TrimmedIsFixed(text);
  }

  /** A caption line that is one word wrapped in an opening and a closing tag, with
      no `-` anywhere, is emitted as the word. */
  lemma WrappedCueLine(open: string, word: string, close: string)
    requires |open| >= 2 && open[0] == '<' && open[|open| - 1] == '>' && '>' !in open[1..|open| - 1]
    requires |close| >= 2 && close[0] == '<' && close[|close| - 1] == '>' && '>' !in close[1..|close| - 1]
    requires '<' !in word && word != "" && IsTrimmed(word)
    requires '-' !in open + word + close
    ensures CleanLine(open + word + close) == Some(word)
  {
    var l := open + word + close;
    assert l[0] == '<' && l[|l| - 1] == '>';
    assert IsTrimmed(l) && !IsDigit(l[0]);
    assert !IsNumeric(l);
    assert !("Style:" <= l) && !("::cue" <= l) && l != "WEBVTT";
    NoArrowWithoutDash(l);
    StripWrapped(open, word, close);
    CueLine(l, word);
  }

  /** A trimmed line made only of digits is dropped as a cue number. */
  lemma NumericLine(s: string)
    requires IsTrimmed(s) && IsNumeric(s)
    ensures CleanLine(s) == None
  {
    TrimmedIsFixed(s);
  }

  /** A trimmed line holding a timing arrow is dropped. */
  lemma TimingLine(a: string, b: string)
    requires IsTrimmed(a + "-->" + b)
    ensures CleanLine(a + "-->" + b) == None
  {
    TrimmedIsFixed(a + "-->" + b);
    ContainsInside(a, "-->", b);
  }

  /** A one-line text is cleaned to the cleaned line, or to nothing. */
  lemma SingleLine(s: string)
    requires '\n' !in s
    ensures CleanVttLines(s) == if CleanLine(s).Some? then [CleanLine(s).value] else []
  {
    assert Split(s, '\n') == [s];
    assert Outcomes(CleanLine, [s]) == [CleanLine(s)];
  }

  lemma {:induction false} OutcomesAt(clean: string -> Option<string>, lines: seq<string>)
    ensures forall k :: 0 <= k < |lines| ==> Outcomes(clean, lines)[k] == clean(lines[k])
  {
    if |lines| > 0 {
      OutcomesAt(clean, lines[1..]);
    }
  }

  // ---------------------------------------------------------------------------
  // A transcript with a marked-up caption repeated plainly in the next cue
  // ---------------------------------------------------------------------------

  /** The lines of the worked example: a header, two numbered cues whose texts are
      the same caption once with and once without inline markup, and a final
      empty line after the trailing newline. */
  const ExampleLines: seq<string> := [
    "WEBVTT", "",
    "1", "00:00:00.000 --> 00:00:02.000", "<c>Hello</c>", "",
    "2", "00:00:02.000 --> 00:00:04.000", "Hello", ""]

  const ExampleOutcomes: seq<Option<string>> :=
    [None, None, None, None, Some("Hello"), None, None, None, Some("Hello"), None]

  /** The caption text of the worked example: its lines joined by newlines, so it
      ends with a newline after the last caption. */
  const ExampleText: string := Join(ExampleLines, '\n')

  lemma ExampleHeaderOrBlank(k: nat)
    requires k in {0, 1, 5, 9}
    ensures CleanLine(ExampleLines[k]) == ExampleOutcomes[k]
  {
    var l := ExampleLines[k];
    assert ExampleOutcomes[k] == None;
    assert IsTrimmed(l);
    TrimmedIsFixed(l);
  }

  lemma ExampleIndex(k: nat)
    requires k in {2, 6}
    ensures CleanLine(ExampleLines[k]) == ExampleOutcomes[k]
  {
    var l := ExampleLines[k];
    assert ExampleOutcomes[k] == None;
    assert IsTrimmed(l) && IsNumeric(l);
    NumericLine(l);
  }

  lemma ExampleTiming(k: nat)
    requires k in {3, 7}
    ensures CleanLine(ExampleLines[k]) == ExampleOutcomes[k]
  {
    var l := ExampleLines[k];
    assert ExampleOutcomes[k] == None;
    var a, b := l[..13], l[16..];
    assert l == a + "-->" + b;
    assert IsTrimmed(l);
    TimingLine(a, b);
  }

  lemma PlainHelloLine(l: string)
    requires l == "Hello"
    ensures CleanLine(l) == Some("Hello")
  {
    assert IsTrimmed(l) && !IsDigit(l[0]) && '-' !in l && '<' !in l;
    NoArrowWithoutDash(l);
    StripPlainPrefix(l, "");
    assert l + "" == l;
    CueLine(l, l);
  }

  lemma ExampleCaption(k: nat)
    requires k in {4, 8}
    ensures CleanLine(ExampleLines[k]) == ExampleOutcomes[k]
  {
    var l := ExampleLines[k];
    assert ExampleOutcomes[k] == Some("Hello");
    if k == 4 {
      var open, word, close := "<c>", "Hello", "</c>";
      assert '>' !in open[1..|open| - 1] && '>' !in close[1..|close| - 1];
      assert l == open + word + close && '-' !in l;
      assert IsTrimmed(word) && '<' !in word;
      WrappedCueLine(open, word, close);
    } else {
      PlainHelloLine(l);
    }
  }

  lemma ExampleLineCleans(k: nat)
    requires k < |ExampleLines|
    ensures CleanLine(ExampleLines[k]) == ExampleOutcomes[k]
  {
    if k in {0, 1, 5, 9} {
      ExampleHeaderOrBlank(k);
    } else if k in {2, 6} {
      ExampleIndex(k);
    } else if k in {3, 7} {
      ExampleTiming(k);
    } else {
      ExampleCaption(k);
    }
  }

  /** The outcomes of the example's lines under any cleaner that treats each line as
      the real one does. */
  lemma ExampleOutcomesFor(clean: string -> Option<string>)
    requires forall k :: 0 <= k < |ExampleLines| ==> clean(ExampleLines[k]) == ExampleOutcomes[k]
    ensures Outcomes(clean, ExampleLines) == ExampleOutcomes
  {
    OutcomesAt(clean, ExampleLines);
  }

  lemma ExampleLineOutcomes()
    ensures Outcomes(CleanLine, ExampleLines) == ExampleOutcomes
  {
    forall k | 0 <= k < |ExampleLines|
      ensures CleanLine(ExampleLines[k]) == ExampleOutcomes[k]
    {
      ExampleLineCleans(k);
    }
    ExampleOutcomesFor(CleanLine);
  }

  lemma ExamplePresent()
    ensures Present(ExampleOutcomes) == ["Hello", "Hello"]
  {
  }

  lemma ExampleSplits()
    ensures Split(ExampleText, '\n') == ExampleLines
  {
    var L := ExampleLines;
    forall k | 0 <= k < |L|
      ensures '\n' !in L[k]
    {
    }
    SplitJoin(L, '\n');
  }

  lemma HelloTwiceCollapses()
    ensures Collapse(["Hello", "Hello"]) == ["Hello"]
  {
    var xs := ["Hello", "Hello"];
    assert xs[1..] == ["Hello"];
  }

  /** The worked example: the header, indices and timing lines are dropped, the
      marked-up caption is stripped to its text, and the identical caption of the
      next cue is dropped as an adjacent duplicate. */
  lemma ExampleCleans()
    ensures CleanVtt(ExampleText) == "Hello"
  {
    ExampleSplits();
    ExampleLineOutcomes();
    ExamplePresent();
    HelloTwiceCollapses();
  }

  // ---------------------------------------------------------------------------
  // Cleaning twice
  // ---------------------------------------------------------------------------

  lemma BoldNumberCleans(s: string)
    requires s == "<b>12</b>"
    ensures CleanVtt(s) == "12"
  {
    var open, word, close := "<b>", "12", "</b>";
    assert '>' !in open[1..|open| - 1] && '>' !in close[1..|close| - 1];
    assert s == open + word + close && '-' !in s && '\n' !in s;
    assert IsTrimmed(word) && '<' !in word;
    WrappedCueLine(open, word, close);
    SingleLine(s);
  }

  lemma NumberCleansAway(t: string)
    requires t == "12"
    ensures CleanVtt(t) == ""
  {
    assert IsTrimmed(t) && IsNumeric(t) && '\n' !in t;
    NumericLine(t);
    SingleLine(t);
  }

  /** Cleaning is not idempotent: a caption whose text is a number once its markup
      is stripped survives the first pass and is dropped as a cue number by the
      second. */
  lemma CleanVttNotIdempotent(s: string)
    requires s == "<b>12</b>"
    ensures CleanVtt(s) == "12"
    ensures CleanVtt(CleanVtt(s)) == ""
  {
    BoldNumberCleans(s);
    NumberCleansAway(CleanVtt(s));
  }
}
