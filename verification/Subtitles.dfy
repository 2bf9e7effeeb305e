/** The caption cleaner `cleanVtt`: a WebVTT transcript is split into lines, header,
    timing, style and cue-number lines are dropped, inline tags are stripped, and a
    line equal to the previously kept line is dropped. */
module Subtitles {
  import opened Wrappers
  import opened Text

  /** No `'<'` is followed, anywhere later, by a `'>'`: nothing tag-shaped is left. */
  predicate NoTag(s: string) {
    forall i, j :: 0 <= i < j < |s| ==> !(s[i] == '<' && s[j] == '>')
  }

  /** `s.replace(/<[^>]*>/g, '')`: scanning left to right, each `'<'` that has a
      `'>'` after it is removed together with everything up to the first such `'>'`. */
  function StripTags(s: string): (r: string)
    ensures NoTag(r)
    ensures |r| <= |s|
    ensures forall c :: c in r ==> c in s
    decreases |s|
  {
    if |s| == 0 then ""
    else if s[0] == '<' && '>' in s[1..] then
      var rest := StripTags(s[IndexOf(s[1..], '>') + 2..]);
      assert forall c :: c in s[IndexOf(s[1..], '>') + 2..] ==> c in s;
      rest
    else
      var rest := StripTags(s[1..]);
      assert forall c :: c in s[1..] ==> c in s;
      assert s[0] == '<' ==> '>' !in rest;
      [s[0]] + rest
  }

  /** Text without tags passes through the stripper unchanged. */
  lemma {:induction false} StripTagsOfTagFree(s: string)
    requires NoTag(s)
    ensures StripTags(s) == s
  {
    if |s| > 0 {
      assert s[0] == '<' ==> '>' !in s[1..] by {
        assert forall j :: 1 <= j < |s| ==> s[j] == s[1..][j - 1];
      }
      StripTagsOfTagFree(s[1..]);
    }
  }

  /** Text before the first `<` passes through the stripper. */
  lemma {:induction false} StripPlainPrefix(p: string, rest: string)
    requires '<' !in p
    ensures StripTags(p + rest) == p + StripTags(rest)
  {
    if |p| == 0 {
      assert p + rest == rest;
    } else {
      var s := p + rest;
      var tail := p[1..] + rest;
      assert s[0] == p[0] != '<';
      assert s[1..] == tail;
      StripPlainPrefix(p[1..], rest);
      StripPlainStep(s);
      assert [p[0]] + (p[1..] + StripTags(rest)) == p + StripTags(rest);
    }
  }

  /** A text not starting with `<` keeps its first character. */
  lemma StripPlainStep(s: string)
    requires |s| > 0 && s[0] != '<'
    ensures StripTags(s) == [s[0]] + StripTags(s[1..])
  {
  }

  /** A leading tag is removed whole. */
  lemma StripLeadingTag(tag: string, rest: string)
    requires |tag| >= 2 && tag[0] == '<' && tag[|tag| - 1] == '>'
    requires '>' !in tag[1..|tag| - 1]
    ensures StripTags(tag + rest) == StripTags(rest)
  {
    var s := tag + rest;
    var body := tag[1..];
    assert s[1..] == body + rest;
    assert body[|body| - 1] == '>' && '>' !in body[..|body| - 1];
    IndexOfPrefix(body, rest, '>');
    assert s[|tag|..] == rest;
  }

  lemma TrimKeepsNoTag(x: string)
    requires NoTag(x)
    ensures NoTag(Trim(x))
  {
    var off := TrimIsSlice(x);
    NoTagSlice(x, off, off + |Trim(x)|);
  }

  lemma NoTagSlice(x: string, a: nat, b: nat)
    requires NoTag(x) && a <= b <= |x|
    ensures NoTag(x[a..b])
  {
    var u := x[a..b];
    forall i, j | 0 <= i < j < |u|
      ensures !(u[i] == '<' && u[j] == '>')
    {
      assert u[i] == x[a + i] && u[j] == x[a + j];
    }
  }

  /** The skip tests of the cleaner, applied to an already trimmed line: a line is
      caption text when it is non-empty, is not the header, holds no timing arrow,
      is not a style line and is not a cue number. */
  predicate IsCueText(t: string) {
    && t != ""
    && t != "WEBVTT"
    && !Contains(t, "-->")
    && !("Style:" <= t)
    && !("::cue" <= t)
    && !IsNumeric(t)
  }

  /** What one source line contributes before the adjacent-duplicate test: the
      trimmed, tag-stripped, re-trimmed text of a caption line, if non-empty. */
  function CleanLine(line: string): Option<string> {
    var t := Trim(line);
    if !IsCueText(t) then None
    else
      var c := Trim(StripTags(t));
      if c == "" then None else Some(c)
  }

  /** A line is emitted only when its trimmed form passes the skip tests, and what is
      emitted is non-empty, trimmed, tag-free and made of the line's characters;
      a tag-free caption line is emitted as its trimmed self. */
  lemma CleanLineShape(line: string)
    ensures CleanLine(line).Some? ==> IsCueText(Trim(line))
    ensures CleanLine(line).Some? ==>
      var x := CleanLine(line).value; x != "" && IsTrimmed(x) && NoTag(x) && forall c :: c in x ==> c in line
    ensures IsCueText(Trim(line)) && NoTag(Trim(line)) ==> CleanLine(line) == Some(Trim(line))
  {
    var t := Trim(line);
    TrimKeepsContent(line);
    if IsCueText(t) {
      TrimKeepsContent(StripTags(t));
      TrimKeepsNoTag(StripTags(t));
      if NoTag(t) {
        StripTagsOfTagFree(t);
        TrimmedIsFixed(t);
      }
    }
  }

  /** The per-line outcomes of a transcript, in source order, for a given line
      cleaner (the cleaner is a parameter so that facts about the list do not
      depend on what the cleaner does). */
  function Outcomes(clean: string -> Option<string>, lines: seq<string>): (r: seq<Option<string>>)
    ensures |r| == |lines|
  {
    if |lines| == 0 then [] else [clean(lines[0])] + Outcomes(clean, lines[1..])
  }

  lemma {:induction false} OutcomeOrigin(clean: string -> Option<string>, lines: seq<string>, o: Option<string>)
    requires o in Outcomes(clean, lines)
    ensures exists l :: l in lines && clean(l) == o
  {
    if o != clean(lines[0]) {
      OutcomeOrigin(clean, lines[1..], o);
      var l :| l in lines[1..] && clean(l) == o;
      assert l in lines;
    }
  }

  lemma {:induction false} OutcomesAppend(clean: string -> Option<string>, lines: seq<string>, l: string)
    ensures Outcomes(clean, lines + [l]) == Outcomes(clean, lines) + [clean(l)]
  {
    if |lines| > 0 {
      assert (lines + [l])[1..] == lines[1..] + [l];
      OutcomesAppend(clean, lines[1..], l);
    }
  }

  /** The present values of a list of outcomes, in order. */
  function Present(opts: seq<Option<string>>): (r: seq<string>)
    ensures |r| <= |opts|
    ensures forall x :: x in r ==> Some(x) in opts
  {
    if |opts| == 0 then []
    else
      var rest := Present(opts[1..]);
      assert forall o :: o in opts[1..] ==> o in opts;
      if opts[0].Some? then [opts[0].value] + rest else rest
  }

  lemma {:induction false} PresentAppend(opts: seq<Option<string>>, o: Option<string>)
    ensures Present(opts + [o]) == Present(opts) + (if o.Some? then [o.value] else [])
  {
    if |opts| == 0 {
      assert opts + [o] == [o];
    } else {
      assert (opts + [o])[1..] == opts[1..] + [o];
      PresentAppend(opts[1..], o);
    }
  }

  /** The cleaned lines of a transcript before collapsing. */
  function CueLines(lines: seq<string>): seq<string> {
    Present(Outcomes(CleanLine, lines))
  }

  // ---------------------------------------------------------------------------
  // Collapsing adjacent duplicates
  // ---------------------------------------------------------------------------

  predicate NoAdjacentDuplicates(xs: seq<string>) {
    forall i :: 0 <= i < |xs| - 1 ==> xs[i] != xs[i + 1]
  }

  /** Reference definition: a line equal to its predecessor is dropped. */
  function Collapse(xs: seq<string>): (r: seq<string>)
    ensures |r| <= |xs|
    ensures |xs| > 0 ==> |r| > 0 && r[0] == xs[0]
    ensures NoAdjacentDuplicates(r)
  {
    if |xs| <= 1 then xs
    else if xs[0] == xs[1] then Collapse(xs[1..])
    else [xs[0]] + Collapse(xs[1..])
  }

  /** Collapsing keeps exactly the set of lines. */
  lemma {:induction false} CollapseKeepsLines(xs: seq<string>)
    ensures forall x :: x in Collapse(xs) <==> x in xs
  {
    if |xs| > 1 {
      CollapseKeepsLines(xs[1..]);
      assert xs == [xs[0]] + xs[1..];
    }
  }

  /** `a` is `b` with some elements left out. */
  predicate IsSubsequence(a: seq<string>, b: seq<string>) {
    |a| == 0 || (|b| > 0 && ((a[0] == b[0] && IsSubsequence(a[1..], b[1..])) || IsSubsequence(a, b[1..])))
  }

  /** Collapsing only drops lines; the kept ones stay in order. */
  lemma {:induction false} CollapseIsSubsequence(xs: seq<string>)
    ensures IsSubsequence(Collapse(xs), xs)
  {
    if |xs| <= 1 {
      SubsequenceRefl(xs);
    } else {
      CollapseIsSubsequence(xs[1..]);
      if xs[0] != xs[1] {
        assert ([xs[0]] + Collapse(xs[1..]))[1..] == Collapse(xs[1..]);
      }
    }
  }

  lemma {:induction false} SubsequenceRefl(xs: seq<string>)
    ensures IsSubsequence(xs, xs)
  {
    if |xs| > 0 {
      SubsequenceRefl(xs[1..]);
    }
  }

  /** A list without adjacent duplicates is left alone, so collapsing is idempotent. */
  lemma {:induction false} CollapseOfCollapsed(xs: seq<string>)
    requires NoAdjacentDuplicates(xs)
    ensures Collapse(xs) == xs
  {
    if |xs| > 1 {
      CollapseOfCollapsed(xs[1..]);
    }
  }

  /** Appending a line: it is kept exactly when it differs from the last line. */
  lemma {:induction false} CollapseAppend(xs: seq<string>, x: string)
    ensures Collapse(xs + [x]) ==
      if |xs| > 0 && xs[|xs| - 1] == x then Collapse(xs) else Collapse(xs) + [x]
    ensures Collapse(xs + [x])[|Collapse(xs + [x])| - 1] == x
  {
    if |xs| == 0 {
      assert xs + [x] == [x];
    } else if |xs| == 1 {
      assert xs + [x] == [xs[0], x];
      assert [xs[0], x][1..] == [x];
    } else {
      var ys := xs + [x];
      assert ys[1..] == xs[1..] + [x];
      assert ys[0] == xs[0] && ys[1] == xs[1];
      CollapseAppend(xs[1..], x);
      if xs[0] == xs[1] {
        assert Collapse(ys) == Collapse(xs[1..] + [x]);
        assert Collapse(xs) == Collapse(xs[1..]);
      } else {
        assert Collapse(ys) == [xs[0]] + Collapse(xs[1..] + [x]);
        assert Collapse(xs) == [xs[0]] + Collapse(xs[1..]);
      }
    }
  }

  // ---------------------------------------------------------------------------
  // The cleaner
  // ---------------------------------------------------------------------------

  /** The lines of the cleaned transcript. */
  function CleanVttLines(content: string): seq<string> {
    Collapse(CueLines(Split(content, '\n')))
  }

  /** `cleanVtt(content)`: the kept lines joined with newlines. */
  function CleanVtt(content: string): string {
    Join(CleanVttLines(content), '\n')
  }

  /** Every emitted line is non-empty, trimmed, tag-free, single-line and comes from a
      source line that passed the skip tests; no two adjacent lines are equal; the
      emitted lines keep source order and include every distinct caption line. */
  lemma CleanVttShape(content: string)
    ensures forall x :: x in CleanVttLines(content) ==>
      x != "" && IsTrimmed(x) && NoTag(x) && '\n' !in x
    ensures forall x :: x in CleanVttLines(content) ==>
      exists l :: l in Split(content, '\n') && IsCueText(Trim(l)) && CleanLine(l) == Some(x)
    ensures NoAdjacentDuplicates(CleanVttLines(content))
    ensures IsSubsequence(CleanVttLines(content), CueLines(Split(content, '\n')))
    ensures forall x :: x in CueLines(Split(content, '\n')) ==> x in CleanVttLines(content)
  {
    var lines := Split(content, '\n');
    var cues := CueLines(lines);
    CollapseKeepsLines(cues);
    CollapseIsSubsequence(cues);
    forall x | x in CleanVttLines(content)
      ensures x != "" && IsTrimmed(x) && NoTag(x) && '\n' !in x
      ensures exists l :: l in lines && IsCueText(Trim(l)) && CleanLine(l) == Some(x)
    {
      assert Some(x) in Outcomes(CleanLine, lines);
      OutcomeOrigin(CleanLine, lines, Some(x));
      var l :| l in lines && CleanLine(l) == Some(x);
      CleanLineShape(l);
      var k :| 0 <= k < |lines| && lines[k] == l;
    }
  }

  /** The cleaned text splits back into exactly the cleaned lines. */
  lemma CleanVttSplits(content: string)
    requires CleanVttLines(content) != []
    ensures Split(CleanVtt(content), '\n') == CleanVttLines(content)
  {
    CleanVttShape(content);
    var xs := CleanVttLines(content);
    forall k | 0 <= k < |xs| ensures '\n' !in xs[k] {
      assert xs[k] in xs;
    }
    SplitJoin(xs, '\n');
  }

  /** The `forEach` of the source over already split lines, with `lastCleanText`
      tracking the last kept line; the per-line cleaner is a parameter. */
  method CollectLines(clean: string -> Option<string>, lines: seq<string>) returns (result: seq<string>)
    requires forall l :: clean(l).Some? ==> clean(l).value != ""
    ensures result == Collapse(Present(Outcomes(clean, lines)))
  {
    result := [];
    var lastCleanText := "";
    for i := 0 to |lines|
      invariant result == Collapse(Present(Outcomes(clean, lines[..i])))
      invariant lastCleanText == if result == [] then "" else result[|result| - 1]
    {
      var cleaned := clean(lines[i]);
      CollapseStep(clean, lines, i);
      if cleaned.Some? && cleaned.value != lastCleanText {
        result := result + [cleaned.value];
        lastCleanText := cleaned.value;
      }
    }
    assert lines[..|lines|] == lines;
  }

  /** `cleanVtt`: split on newlines, collect the cleaned lines, join with newlines. */
  method CleanVttLoop(content: string) returns (text: string)
    ensures text == CleanVtt(content)
  {
    forall l ensures CleanLine(l).Some? ==> CleanLine(l).value != "" {
      CleanLineShape(l);
    }
    var lines := CollectLines(CleanLine, Split(content, '\n'));
    text := Join(lines, '\n');
  }

  /** One iteration of the loop: a cleaned line is appended unless it repeats the
      last kept line. */
  lemma CollapseStep(clean: string -> Option<string>, lines: seq<string>, i: nat)
    requires i < |lines|
    requires clean(lines[i]).Some? ==> clean(lines[i]).value != ""
    ensures clean(lines[i]).None? ==>
      Collapse(Present(Outcomes(clean, lines[..i + 1]))) == Collapse(Present(Outcomes(clean, lines[..i])))
    ensures clean(lines[i]).Some? ==>
      var before := Collapse(Present(Outcomes(clean, lines[..i])));
      var c := clean(lines[i]).value;
      Collapse(Present(Outcomes(clean, lines[..i + 1]))) ==
        if before != [] && before[|before| - 1] == c then before else before + [c]
  {
    var prev := lines[..i];
    var line := lines[i];
    assert lines[..i + 1] == prev + [line];
    OutcomesAppend(clean, prev, line);
    var outs := Outcomes(clean, prev);
    PresentAppend(outs, clean(line));
    var cues := Present(outs);
    if clean(line).Some? {
      var c := clean(line).value;
      CollapseAppend(cues, c);
      if cues != [] {
        CollapseLast(cues);
      }
    } else {
      assert Present(outs + [clean(line)]) == cues + [];
      assert cues + [] == cues;
    }
  }

  lemma CollapseLast(xs: seq<string>)
    requires |xs| > 0
    ensures Collapse(xs)[|Collapse(xs)| - 1] == xs[|xs| - 1]
  {
    var init := xs[..|xs| - 1];
    assert xs == init + [xs[|xs| - 1]];
    CollapseAppend(init, xs[|xs| - 1]);
  }
}
