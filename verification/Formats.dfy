/** The format normaliser of `extractVideoInfo`: the tool's raw format list is
    filtered to mp4 video entries labelled 720p or 1080p, those candidates are
    folded into at most one entry per resolution (preferring one with audio), and
    the first m4a audio-only entry supplies the standalone audio URL. */
module Formats {
  import opened Wrappers

  /** One entry of the tool's `formats` list. An absent codec field is any value
      other than "none"; an absent `format_note` or `height` is `None`. */
  datatype RawFormat = RawFormat(
    ext: string,
    vcodec: string,
    acodec: string,
    formatNote: Option<string>,
    height: Option<int>,
    url: string)

  datatype Resolution = P720 | P1080

  /** The `resolution` label the service writes into the response. */
  function Label(res: Resolution): string {
    match res
    case P720 => "720p"
    case P1080 => "1080p"
  }

  /** One downloadable video format of the response. */
  datatype FormatEntry = FormatEntry(resolution: Resolution, url: string, ext: string, hasAudio: bool)

  predicate Matches720(f: RawFormat) {
    f.formatNote == Some("720p") || f.height == Some(720)
  }

  predicate Matches1080(f: RawFormat) {
    f.formatNote == Some("1080p") || f.height == Some(1080)
  }

  /** The label assignment: the 1080p test runs second, so it wins when both match. */
  function ResolutionOf(f: RawFormat): (r: Option<Resolution>)
    ensures r.Some? <==> Matches720(f) || Matches1080(f)
    ensures r == Some(P720) <==> Matches720(f) && !Matches1080(f)
    ensures Matches1080(f) ==> r == Some(P1080)
  {
    if Matches1080(f) then Some(P1080)
    else if Matches720(f) then Some(P720)
    else None
  }

  /** The per-format body of the `forEach` that builds the candidate list. */
  function Candidate(f: RawFormat): (r: Option<FormatEntry>)
    ensures r.Some? <==> f.ext == "mp4" && f.vcodec != "none" && (Matches720(f) || Matches1080(f))
    ensures r.Some? ==> r.value.ext == "mp4" && r.value.url == f.url
    ensures r.Some? ==> (r.value.hasAudio <==> f.acodec != "none")
    ensures r.Some? ==> Some(r.value.resolution) == ResolutionOf(f)
  {
    if f.ext == "mp4" && f.vcodec != "none" then
      match ResolutionOf(f)
      case Some(res) => Some(FormatEntry(res, f.url, "mp4", f.acodec != "none"))
      case None => None
    else None
  }

  /** The candidate list, in the order of the raw list. */
  function Candidates(fs: seq<RawFormat>): (cs: seq<FormatEntry>)
    ensures |cs| <= |fs|
  {
    if |fs| == 0 then []
    else
      match Candidate(fs[0])
      case Some(e) => [e] + Candidates(fs[1..])
      case None => Candidates(fs[1..])
  }

  /** The candidates are exactly the entries built from qualifying raw formats. */
  lemma {:induction false} CandidatesMembers(fs: seq<RawFormat>)
    ensures forall e :: e in Candidates(fs) ==> e.ext == "mp4"
    ensures forall e :: e in Candidates(fs) ==> exists f :: f in fs && Candidate(f) == Some(e)
    ensures forall f :: f in fs && Candidate(f).Some? ==> Candidate(f).value in Candidates(fs)
  {
    if |fs| > 0 {
      CandidatesMembers(fs[1..]);
      assert forall f :: f in fs[1..] ==> f in fs;
      assert forall f :: f in fs ==> f == fs[0] || f in fs[1..];
    }
  }

  lemma {:induction false} CandidatesAppend(fs: seq<RawFormat>, f: RawFormat)
    ensures Candidates(fs + [f]) == Candidates(fs) + (if Candidate(f).Some? then [Candidate(f).value] else [])
  {
    if |fs| == 0 {
      assert fs + [f] == [f];
    } else {
      assert (fs + [f])[1..] == fs[1..] + [f];
      CandidatesAppend(fs[1..], f);
    }
  }

  // ---------------------------------------------------------------------------
  // De-duplication by resolution (the `reduce` over the candidates)
  // ---------------------------------------------------------------------------

  /** `acc.findIndex(item => item.resolution === res)`. */
  function FindIndex(acc: seq<FormatEntry>, res: Resolution): (r: Option<nat>)
    ensures r.Some? ==> r.value < |acc| && acc[r.value].resolution == res
    ensures r.Some? ==> forall j :: 0 <= j < r.value ==> acc[j].resolution != res
    ensures r.None? ==> forall j :: 0 <= j < |acc| ==> acc[j].resolution != res
  {
    if |acc| == 0 then None
    else if acc[0].resolution == res then Some(0)
    else match FindIndex(acc[1..], res)
      case Some(i) => Some(i + 1)
      case None => None
  }

  /** The entry a list holds for a resolution, if any. */
  function SlotOf(acc: seq<FormatEntry>, res: Resolution): Option<FormatEntry> {
    match FindIndex(acc, res)
    case Some(i) => Some(acc[i])
    case None => None
  }

  /** No two entries share a resolution. */
  predicate DistinctResolutions(acc: seq<FormatEntry>) {
    forall i, j :: 0 <= i < j < |acc| ==> acc[i].resolution != acc[j].resolution
  }

  /** One step of the fold: a new resolution is appended; a known one is replaced
      only when the held entry is silent and the new one has audio. */
  function Merge(acc: seq<FormatEntry>, cur: FormatEntry): seq<FormatEntry> {
    match FindIndex(acc, cur.resolution)
    case None => acc + [cur]
    case Some(i) =>
      if !acc[i].hasAudio && cur.hasAudio then acc[i := cur] else acc
  }

  /** `candidates.reduce(Merge, [])`: a left fold, so it peels the last candidate. */
  function Dedup(cs: seq<FormatEntry>): (r: seq<FormatEntry>)
    ensures DistinctResolutions(r)
    ensures |r| <= 2
    ensures forall e :: e in r ==> e in cs
  {
    if |cs| == 0 then []
    else
      var acc := Dedup(cs[..|cs| - 1]);
      var cur := cs[|cs| - 1];
      assert forall e :: e in cs[..|cs| - 1] ==> e in cs;
      var r := Merge(acc, cur);
      MergeKeepsDistinct(acc, cur);
      AtMostTwo(r);
      r
  }

  lemma MergeKeepsDistinct(acc: seq<FormatEntry>, cur: FormatEntry)
    requires DistinctResolutions(acc)
    ensures DistinctResolutions(Merge(acc, cur))
  {
  }

  /** Two resolution labels leave room for at most two distinct entries. */
  lemma AtMostTwo(acc: seq<FormatEntry>)
    requires DistinctResolutions(acc)
    ensures |acc| <= 2
  {
    if |acc| > 2 {
      Pigeonhole(acc[0].resolution, acc[1].resolution, acc[2].resolution);
    }
  }

  lemma Pigeonhole(a: Resolution, b: Resolution, c: Resolution)
    ensures a == b || a == c || b == c
  {
  }

  /** A slot that already has audio is never replaced by a later candidate. */
  lemma MergeKeepsAudioSlot(acc: seq<FormatEntry>, cur: FormatEntry, i: nat)
    requires i < |acc| && acc[i].hasAudio
    ensures i < |Merge(acc, cur)| && Merge(acc, cur)[i] == acc[i]
  {
  }

  // ---------------------------------------------------------------------------
  // Reference definition of the fold's outcome
  // ---------------------------------------------------------------------------

  /** The first candidate of a resolution. */
  function FirstOf(cs: seq<FormatEntry>, res: Resolution): (r: Option<FormatEntry>)
    ensures r.Some? ==> r.value in cs && r.value.resolution == res
    ensures r.None? <==> forall e :: e in cs ==> e.resolution != res
  {
    if |cs| == 0 then None
    else if cs[0].resolution == res then Some(cs[0])
    else FirstOf(cs[1..], res)
  }

  /** The first audio-bearing candidate of a resolution. */
  function FirstAudioOf(cs: seq<FormatEntry>, res: Resolution): (r: Option<FormatEntry>)
    ensures r.Some? ==> r.value in cs && r.value.resolution == res && r.value.hasAudio
    ensures r.None? <==> forall e :: e in cs ==> e.resolution != res || !e.hasAudio
  {
    if |cs| == 0 then None
    else if cs[0].resolution == res && cs[0].hasAudio then Some(cs[0])
    else FirstAudioOf(cs[1..], res)
  }

  /** The entry the response should hold for a resolution: the first candidate with
      audio if there is one, otherwise the first candidate. */
  function Preferred(cs: seq<FormatEntry>, res: Resolution): Option<FormatEntry> {
    if FirstAudioOf(cs, res).Some? then FirstAudioOf(cs, res) else FirstOf(cs, res)
  }

  /** Position of the first candidate of a resolution (`|cs|` when there is none). */
  function FirstIndexOf(cs: seq<FormatEntry>, res: Resolution): (i: nat)
    ensures i <= |cs|
    ensures i < |cs| ==> cs[i].resolution == res
    ensures forall j :: 0 <= j < i ==> cs[j].resolution != res
  {
    if |cs| == 0 then 0
    else if cs[0].resolution == res then 0
    else FirstIndexOf(cs[1..], res) + 1
  }

  lemma {:induction false} FirstOfAppend(cs: seq<FormatEntry>, c: FormatEntry, res: Resolution)
    ensures FirstOf(cs + [c], res) ==
      if FirstOf(cs, res).Some? then FirstOf(cs, res)
      else if c.resolution == res then Some(c) else None
  {
    if |cs| == 0 {
      assert cs + [c] == [c];
    } else {
      assert (cs + [c])[1..] == cs[1..] + [c];
      FirstOfAppend(cs[1..], c, res);
    }
  }

  lemma {:induction false} FirstAudioOfAppend(cs: seq<FormatEntry>, c: FormatEntry, res: Resolution)
    ensures FirstAudioOf(cs + [c], res) ==
      if FirstAudioOf(cs, res).Some? then FirstAudioOf(cs, res)
      else if c.resolution == res && c.hasAudio then Some(c) else None
  {
    if |cs| == 0 {
      assert cs + [c] == [c];
    } else {
      assert (cs + [c])[1..] == cs[1..] + [c];
      FirstAudioOfAppend(cs[1..], c, res);
    }
  }

  lemma {:induction false} FirstIndexOfAppend(cs: seq<FormatEntry>, c: FormatEntry, res: Resolution)
    ensures FirstIndexOf(cs + [c], res) ==
      if FirstIndexOf(cs, res) < |cs| then FirstIndexOf(cs, res)
      else if c.resolution == res then |cs| else |cs| + 1
  {
    if |cs| == 0 {
      assert cs + [c] == [c];
    } else {
      assert (cs + [c])[1..] == cs[1..] + [c];
      FirstIndexOfAppend(cs[1..], c, res);
    }
  }

  /** The outcome of the fold is fully described by `Preferred` and `FirstIndexOf`. */
  predicate DedupSpec(cs: seq<FormatEntry>, r: seq<FormatEntry>) {
    && DistinctResolutions(r)
    && (forall res :: SlotOf(r, res) == Preferred(cs, res))
    && (forall i, j :: 0 <= i < j < |r| ==>
          FirstIndexOf(cs, r[i].resolution) < FirstIndexOf(cs, r[j].resolution))
  }

  lemma SlotOfDistinct(acc: seq<FormatEntry>, i: nat)
    requires DistinctResolutions(acc) && i < |acc|
    ensures SlotOf(acc, acc[i].resolution) == Some(acc[i])
  {
  }

  /** The fold keeps, for each resolution, the preferred candidate, and lists the
      resolutions in the order their first candidates appeared. */
  lemma {:induction false} DedupMeetsSpec(cs: seq<FormatEntry>)
    ensures DedupSpec(cs, Dedup(cs))
  {
    if |cs| == 0 {
      forall res ensures SlotOf([], res) == Preferred(cs, res) {
      }
    } else {
      var prefix := cs[..|cs| - 1];
      var c := cs[|cs| - 1];
      assert cs == prefix + [c];
      DedupMeetsSpec(prefix);
      var acc := Dedup(prefix);
      var r := Dedup(cs);
      assert r == Merge(acc, c);
      forall res ensures SlotOf(r, res) == Preferred(cs, res) {
        MergeSlot(prefix, acc, c, res);
      }
      forall i, j | 0 <= i < j < |r|
        ensures FirstIndexOf(cs, r[i].resolution) < FirstIndexOf(cs, r[j].resolution)
      {
        MergeOrder(prefix, acc, c, i, j);
      }
    }
  }

  /** Every resolution held by the accumulator has a first candidate in the prefix. */
  lemma HeldIsSeen(prefix: seq<FormatEntry>, acc: seq<FormatEntry>, i: nat)
    requires DedupSpec(prefix, acc) && i < |acc|
    ensures FirstIndexOf(prefix, acc[i].resolution) < |prefix|
  {
    SlotOfDistinct(acc, i);
    assert Preferred(prefix, acc[i].resolution).Some?;
    assert FirstOf(prefix, acc[i].resolution).Some?;
  }

  lemma MergeOrder(prefix: seq<FormatEntry>, acc: seq<FormatEntry>, c: FormatEntry, i: nat, j: nat)
    requires DedupSpec(prefix, acc)
    requires i < j < |Merge(acc, c)|
    ensures FirstIndexOf(prefix + [c], Merge(acc, c)[i].resolution)
          < FirstIndexOf(prefix + [c], Merge(acc, c)[j].resolution)
  {
    var r := Merge(acc, c);
    var ri := r[i].resolution;
    var rj := r[j].resolution;
    assert |r| == |acc| || |r| == |acc| + 1;
    assert ri == acc[i].resolution;
    HeldIsSeen(prefix, acc, i);
    FirstIndexOfAppend(prefix, c, ri);
    FirstIndexOfAppend(prefix, c, rj);
    if j < |acc| {
      assert rj == acc[j].resolution;
      HeldIsSeen(prefix, acc, j);
    } else {
      NewResolutionUnseen(prefix, acc, c);
    }
  }

  /** When the fold appends, no earlier candidate had that resolution. */
  lemma NewResolutionUnseen(prefix: seq<FormatEntry>, acc: seq<FormatEntry>, c: FormatEntry)
    requires DedupSpec(prefix, acc)
    requires |Merge(acc, c)| > |acc|
    ensures Merge(acc, c)[|acc|] == c
    ensures FirstIndexOf(prefix, c.resolution) == |prefix|
  {
    assert FindIndex(acc, c.resolution).None?;
    assert SlotOf(acc, c.resolution).None?;
    assert FirstOf(prefix, c.resolution).None?;
  }

  lemma MergeSlot(prefix: seq<FormatEntry>, acc: seq<FormatEntry>, c: FormatEntry, res: Resolution)
    requires DedupSpec(prefix, acc)
    ensures SlotOf(Merge(acc, c), res) == Preferred(prefix + [c], res)
  {
    match FindIndex(acc, c.resolution)
    case None => MergeSlotNew(prefix, acc, c, res);
    case Some(k) => MergeSlotHeld(prefix, acc, c, res, k);
  }

  /** Merging a candidate of a resolution the accumulator does not hold yet. */
  lemma MergeSlotNew(prefix: seq<FormatEntry>, acc: seq<FormatEntry>, c: FormatEntry, res: Resolution)
    requires DedupSpec(prefix, acc)
    requires FindIndex(acc, c.resolution).None?
    ensures SlotOf(Merge(acc, c), res) == Preferred(prefix + [c], res)
  {
    FirstOfAppend(prefix, c, res);
    FirstAudioOfAppend(prefix, c, res);
    var r := Merge(acc, c);
    assert SlotOf(acc, res) == Preferred(prefix, res);
    assert r == acc + [c];
    if c.resolution == res {
      assert FirstOf(prefix, res).None?;
      assert FirstAudioOf(prefix, res).None?;
      assert FindIndex(r, res) == Some(|acc|);
    } else {
      FindIndexAppend(acc, c, res);
      assert FindIndex(r, res) == FindIndex(acc, res);
    }
  }

  /** Merging a candidate of a resolution the accumulator holds at position `k`. */
  lemma MergeSlotHeld(prefix: seq<FormatEntry>, acc: seq<FormatEntry>, c: FormatEntry, res: Resolution, k: nat)
    requires DedupSpec(prefix, acc)
    requires FindIndex(acc, c.resolution) == Some(k)
    ensures SlotOf(Merge(acc, c), res) == Preferred(prefix + [c], res)
  {
    FirstOfAppend(prefix, c, res);
    FirstAudioOfAppend(prefix, c, res);
    var r := Merge(acc, c);
    assert SlotOf(acc, res) == Preferred(prefix, res);
    if c.resolution == res {
      SlotOfDistinct(acc, k);
      var p := acc[k];
      assert Preferred(prefix, res) == Some(p);
      if p.hasAudio {
        assert FirstAudioOf(prefix, res).Some?;
        assert r == acc;
      } else {
        assert FirstAudioOf(prefix, res).None?;
        if c.hasAudio {
          assert r == acc[k := c];
          SlotOfDistinct(r, k);
        } else {
          assert r == acc;
        }
      }
    } else {
      if !acc[k].hasAudio && c.hasAudio {
        FindIndexUpdate(acc, k, c, res);
      }
    }
  }


  lemma {:induction false} FindIndexAppend(acc: seq<FormatEntry>, c: FormatEntry, res: Resolution)
    requires c.resolution != res
    ensures FindIndex(acc + [c], res) == FindIndex(acc, res)
  {
    if |acc| == 0 {
    } else {
      assert (acc + [c])[1..] == acc[1..] + [c];
      FindIndexAppend(acc[1..], c, res);
    }
  }

  lemma FindIndexUpdate(acc: seq<FormatEntry>, k: nat, c: FormatEntry, res: Resolution)
    requires k < |acc| && acc[k].resolution == c.resolution && c.resolution != res
    ensures SlotOf(acc[k := c], res) == SlotOf(acc, res)
  {
    var u := acc[k := c];
    match FindIndex(acc, res)
    case None =>
      assert forall j :: 0 <= j < |u| ==> u[j].resolution != res;
    case Some(i) =>
      assert i != k;
      assert u[i].resolution == res;
      assert forall j :: 0 <= j < i ==> u[j].resolution != res;
      assert FindIndex(u, res) == Some(i);
  }

  /** For each resolution the response holds an entry exactly when some candidate
      has that resolution, and the entry has audio whenever any such candidate does. */
  lemma DedupHasAudioWhenAvailable(cs: seq<FormatEntry>, res: Resolution)
    ensures SlotOf(Dedup(cs), res).Some? <==> exists e :: e in cs && e.resolution == res
    ensures (exists e :: e in cs && e.resolution == res && e.hasAudio) ==>
              SlotOf(Dedup(cs), res).Some? && SlotOf(Dedup(cs), res).value.hasAudio
  {
    DedupMeetsSpec(cs);
    if exists e :: e in cs && e.resolution == res && e.hasAudio {
      assert FirstAudioOf(cs, res).Some?;
    }
  }

  /** Folding an already de-duplicated list changes nothing, so de-duplication is
      idempotent. */
  lemma {:induction false} DedupOfDistinct(xs: seq<FormatEntry>)
    requires DistinctResolutions(xs)
    ensures Dedup(xs) == xs
  {
    if |xs| > 0 {
      var prefix := xs[..|xs| - 1];
      var x := xs[|xs| - 1];
      DedupOfDistinct(prefix);
      assert FindIndex(prefix, x.resolution).None?;
      assert prefix + [x] == xs;
    }
  }

  lemma DedupIdempotent(cs: seq<FormatEntry>)
    ensures Dedup(Dedup(cs)) == Dedup(cs)
  {
    DedupOfDistinct(Dedup(cs));
  }

  // ---------------------------------------------------------------------------
  // The standalone audio track
  // ---------------------------------------------------------------------------

  /** The `find` predicate for the audio track: audio, no video, m4a container. */
  predicate IsAudioOnlyM4a(f: RawFormat) {
    f.acodec != "none" && f.vcodec == "none" && f.ext == "m4a"
  }

  /** `audio_url`: the URL of the first audio-only m4a format, or the empty string
      when there is none. */
  function AudioUrl(fs: seq<RawFormat>): string {
    if |fs| == 0 then ""
    else if IsAudioOnlyM4a(fs[0]) then fs[0].url
    else AudioUrl(fs[1..])
  }

  /** The audio url is the url of the first audio-only m4a format, and empty when
      there is none. */
  lemma {:induction false} AudioUrlPicksFirst(fs: seq<RawFormat>)
    ensures (forall i :: 0 <= i < |fs| ==> !IsAudioOnlyM4a(fs[i])) ==> AudioUrl(fs) == ""
    ensures forall i ::
              (0 <= i < |fs| && IsAudioOnlyM4a(fs[i]) && forall j :: 0 <= j < i ==> !IsAudioOnlyM4a(fs[j]))
              ==> AudioUrl(fs) == fs[i].url
  {
    if |fs| > 0 && !IsAudioOnlyM4a(fs[0]) {
      var rest := fs[1..];
      AudioUrlPicksFirst(rest);
      assert forall i :: 1 <= i < |fs| ==> fs[i] == rest[i - 1];
    }
  }


  /** The pair of values the normaliser contributes to the response. */
  function NormalizeFormats(fs: seq<RawFormat>): (r: (seq<FormatEntry>, string))
    ensures DedupSpec(Candidates(fs), r.0)
    ensures |r.0| <= 2
    ensures forall e :: e in r.0 ==> e.ext == "mp4" && exists f :: f in fs && Candidate(f) == Some(e)
    ensures (forall i :: 0 <= i < |fs| ==> !IsAudioOnlyM4a(fs[i])) ==> r.1 == ""
    ensures forall i ::
              (0 <= i < |fs| && IsAudioOnlyM4a(fs[i]) && forall j :: 0 <= j < i ==> !IsAudioOnlyM4a(fs[j]))
              ==> r.1 == fs[i].url
  {
    AudioUrlPicksFirst(fs);
    var cs := Candidates(fs);
    CandidatesMembers(fs);
    DedupMeetsSpec(cs);
    (Dedup(cs), AudioUrl(fs))
  }

  /** Three mp4 formats: a 720p one with audio, a silent 720p one and a silent
      1080p one. The 720p slot keeps the first, audio-bearing entry. */
  lemma ScenarioMixedFormats()
    ensures NormalizeFormats(ScenarioFormats()).0
      == [FormatEntry(P720, "a", "mp4", true), FormatEntry(P1080, "c", "mp4", false)]
  {
    ScenarioCandidates();
    ScenarioDedup();
  }

  function ScenarioFormats(): seq<RawFormat> {
    [RawFormat("mp4", "h264", "aac", None, Some(720), "a"),
     RawFormat("mp4", "h264", "none", None, Some(720), "b"),
     RawFormat("mp4", "h264", "none", None, Some(1080), "c")]
  }

  lemma ScenarioCandidates()
    ensures Candidates(ScenarioFormats()) == [
      FormatEntry(P720, "a", "mp4", true),
      FormatEntry(P720, "b", "mp4", false),
      FormatEntry(P1080, "c", "mp4", false)]
  {
    var fs := ScenarioFormats();
    var a := FormatEntry(P720, "a", "mp4", true);
    var b := FormatEntry(P720, "b", "mp4", false);
    var c := FormatEntry(P1080, "c", "mp4", false);
    assert Candidate(fs[0]) == Some(a);
    assert Candidate(fs[1]) == Some(b);
    assert Candidate(fs[2]) == Some(c);
    assert Candidates(fs[3..]) == [];
    assert Candidates(fs[2..]) == [c];
    assert Candidates(fs[1..]) == [b, c];
  }

  lemma ScenarioDedup()
    ensures Dedup([
      FormatEntry(P720, "a", "mp4", true),
      FormatEntry(P720, "b", "mp4", false),
      FormatEntry(P1080, "c", "mp4", false)])
      == [FormatEntry(P720, "a", "mp4", true), FormatEntry(P1080, "c", "mp4", false)]
  {
    var a := FormatEntry(P720, "a", "mp4", true);
    var b := FormatEntry(P720, "b", "mp4", false);
    var c := FormatEntry(P1080, "c", "mp4", false);
    assert [a, b, c][..2] == [a, b];
    assert [a, b][..1] == [a];
    assert Dedup([a]) == [a] by {
      assert [a][..0] == [];
    }
    assert FindIndex([a], P720) == Some(0);
    assert Dedup([a, b]) == [a];
    assert FindIndex([a], P1080) == None;
  }
}
