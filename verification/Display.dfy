/** The two display helpers of the result view: `formatDate` turns `YYYYMMDD` into
    `YYYY-MM-DD`, and `formatDuration` renders seconds as `[h:]mm:ss`. */
module Display {
  import opened Wrappers
  import opened Text

  /** `formatDate`: an eight-character date code gets dashes after the year and the
      month; any other string is returned as it is. */
  function FormatDate(s: string): (r: string)
    ensures |s| == 8 ==> |r| == 10 && r[4] == '-' && r[7] == '-'
    ensures |s| == 8 ==> r[..4] == s[..4] && r[5..7] == s[4..6] && r[8..] == s[6..]
    ensures |s| != 8 ==> r == s
  {
    if |s| == 8 then s[..4] + "-" + s[4..6] + "-" + s[6..] else s
  }

  /** Deleting the two inserted dashes gives the date code back. */
  lemma FormatDateRoundTrip(s: string)
    requires |s| == 8
    ensures var r := FormatDate(s); r[..4] + r[5..7] + r[8..] == s
  {
    var r := FormatDate(s);
    assert s == s[..4] + s[4..6] + s[6..];
  }

  // ---------------------------------------------------------------------------
  // Integer rendering with JavaScript semantics
  // ---------------------------------------------------------------------------

  function DigitChar(d: nat): (c: char)
    requires d < 10
    ensures IsDigit(c)
  {
    "0123456789"[d]
  }

  function DigitValue(c: char): nat
    requires IsDigit(c)
  {
    (c as int - '0' as int) as nat
  }

  lemma DigitRoundTrip(d: nat)
    requires d < 10
    ensures DigitValue(DigitChar(d)) == d
  {
  }

  /** `n.toString()` for a non-negative integer: decimal digits, no leading zero. */
  function NatToString(n: nat): (r: string)
    ensures |r| >= 1 && forall i :: 0 <= i < |r| ==> IsDigit(r[i])
    ensures |r| == 1 <==> n < 10
    ensures n < 100 ==> |r| <= 2
    ensures r[0] == '0' <==> n == 0
  {
    if n < 10 then [DigitChar(n)] else NatToString(n / 10) + [DigitChar(n % 10)]
  }

  predicate AllDigits(s: string) {
    forall i :: 0 <= i < |s| ==> IsDigit(s[i])
  }

  /** The value of a string of decimal digits. */
  function ParseNat(s: string): nat
    requires AllDigits(s)
  {
    if |s| == 0 then 0 else ParseNat(s[..|s| - 1]) * 10 + DigitValue(s[|s| - 1])
  }

  lemma {:induction false} ParseNatToString(n: nat)
    ensures ParseNat(NatToString(n)) == n
  {
    DigitRoundTrip(n % 10);
    if n >= 10 {
      var r := NatToString(n);
      assert r[..|r| - 1] == NatToString(n / 10);
      ParseNatToString(n / 10);
    }
  }

  /** `n.toString()` for any integer. */
  function IntToString(n: int): string {
    if n < 0 then "-" + NatToString(-n) else NatToString(n)
  }

  /** `str.padStart(2, '0')`. */
  function PadTwo(str: string): (r: string)
    ensures |str| >= 2 ==> r == str
    ensures |str| < 2 ==> |r| == 2 && r[2 - |str|..] == str && forall i :: 0 <= i < 2 - |str| ==> r[i] == '0'
  {
    if |str| >= 2 then str else seq(2 - |str|, _ => '0') + str
  }

  /** JavaScript's `%`: the remainder of the division truncated toward zero, so the
      result takes the sign of the dividend. */
  function JsRem(a: int, b: int): (r: int)
    requires b > 0
    ensures a >= 0 ==> r == a % b
    ensures a < 0 ==> -b < r <= 0
    ensures a - r == b * (if a >= 0 then a / b else -((-a) / b))
  {
    if a >= 0 then a % b
    else
      var n := -a;
      assert n == b * (n / b) + n % b;
      -(n % b)
  }

  /** `formatDuration`: empty for zero; otherwise optional unpadded hours and a colon,
      then minutes and seconds padded to two places. `Math.floor` of a quotient by a
      positive divisor is Dafny's `/`. */
  function FormatDuration(seconds: int): (r: string)
    ensures r == "" <==> seconds == 0
  {
    if seconds == 0 then ""
    else
      var h := seconds / 3600;
      var m := JsRem(seconds, 3600) / 60;
      var s := JsRem(seconds, 60);
      (if h > 0 then IntToString(h) + ":" else "") + PadTwo(IntToString(m)) + ":" + PadTwo(IntToString(s))
  }

  /** The three fields of a positive duration: hours, minutes below 60 and seconds
      below 60 that add back up to the input. */
  lemma DurationFields(seconds: int)
    requires seconds > 0
    ensures var h := seconds / 3600;
            var m := JsRem(seconds, 3600) / 60;
            var s := JsRem(seconds, 60);
            && h >= 0 && 0 <= m < 60 && 0 <= s < 60
            && h * 3600 + m * 60 + s == seconds
            && (h > 0 <==> seconds >= 3600)
  {
    var h, r := seconds / 3600, seconds % 3600;
    assert JsRem(seconds, 3600) == r && seconds == 3600 * h + r;
    var m, s := r / 60, r % 60;
    assert r == 60 * m + s && 0 <= s < 60;
    assert seconds == 60 * (60 * h + m) + s;
    assert seconds % 60 == s;
  }

  /** Two-digit rendering of a number below 60. */
  lemma PadTwoDigits(n: nat)
    requires n < 60
    ensures |PadTwo(NatToString(n))| == 2
    ensures forall i :: 0 <= i < 2 ==> IsDigit(PadTwo(NatToString(n))[i])
    ensures ParseNat(PadTwo(NatToString(n))) == n
  {
    ParseNatToString(n);
    var p := PadTwo(NatToString(n));
    if n < 10 {
      DigitRoundTrip(n);
      assert p == ['0', DigitChar(n)];
      assert p[..1] == ['0'];
      assert ['0'][..0] == [];
    }
  }

  /** The value of a rendered duration: two or three colon-separated digit fields. */
  function ParseDuration(str: string): Option<int> {
    FieldsValue(Split(str, ':'))
  }

  /** The number of seconds `mm:ss` or `h:mm:ss` fields stand for. */
  function FieldsValue(parts: seq<string>): Option<int> {
    if |parts| == 2 && AllDigits(parts[0]) && AllDigits(parts[1]) then
      Some(ParseNat(parts[0]) * 60 + ParseNat(parts[1]))
    else if |parts| == 3 && AllDigits(parts[0]) && AllDigits(parts[1]) && AllDigits(parts[2]) then
      Some(ParseNat(parts[0]) * 3600 + ParseNat(parts[1]) * 60 + ParseNat(parts[2]))
    else None
  }

  lemma DigitsHaveNoColon(s: string)
    requires AllDigits(s)
    ensures ':' !in s
  {
  }

  /** The colon-separated fields of a positive duration. */
  function DurationParts(seconds: int): seq<string>
    requires seconds > 0
  {
    var h := seconds / 3600;
    var m := JsRem(seconds, 3600) / 60;
    var s := JsRem(seconds, 60);
    (if h > 0 then [NatToString(h)] else []) + [PadTwo(NatToString(m)), PadTwo(NatToString(s))]
  }

  lemma DurationIsJoinOfParts(seconds: int)
    requires seconds > 0
    ensures FormatDuration(seconds) == Join(DurationParts(seconds), ':')
  {
    var h := seconds / 3600;
    var m := JsRem(seconds, 3600) / 60;
    var s := JsRem(seconds, 60);
    DurationFields(seconds);
    var mm := PadTwo(IntToString(m));
    var ss := PadTwo(IntToString(s));
    if h > 0 {
      var hh := IntToString(h);
      assert FormatDuration(seconds) == hh + ":" + mm + ":" + ss;
      assert DurationParts(seconds) == [hh, mm, ss];
      JoinThree(hh, mm, ss, ':');
    } else {
      assert FormatDuration(seconds) == mm + ":" + ss;
      assert DurationParts(seconds) == [mm, ss];
      JoinTwo(mm, ss, ':');
    }
  }

  lemma PartsAreDigits(seconds: int)
    requires seconds > 0
    ensures forall k :: 0 <= k < |DurationParts(seconds)| ==> AllDigits(DurationParts(seconds)[k])
  {
    DurationFields(seconds);
    PadTwoDigits(JsRem(seconds, 3600) / 60);
    PadTwoDigits(JsRem(seconds, 60));
  }

  lemma JoinTwo(a: string, b: string, d: char)
    ensures Join([a, b], d) == a + [d] + b
  {
    assert [a, b][1..] == [b];
  }

  lemma JoinThree(a: string, b: string, c: string, d: char)
    ensures Join([a, b, c], d) == a + [d] + b + [d] + c
  {
    assert [a, b, c][1..] == [b, c];
    JoinTwo(b, c, d);
  }

  lemma PartsValue(seconds: int)
    requires seconds > 0
    ensures FieldsValue(DurationParts(seconds)) == Some(seconds)
  {
    DurationFields(seconds);
    var h := seconds / 3600;
    var m := JsRem(seconds, 3600) / 60;
    var s := JsRem(seconds, 60);
    PadTwoDigits(m);
    PadTwoDigits(s);
    var mm := PadTwo(NatToString(m));
    var ss := PadTwo(NatToString(s));
    var p := DurationParts(seconds);
    if h > 0 {
      var hh := NatToString(h);
      ParseNatToString(h);
      assert p == [hh, mm, ss];
      ThreeFields(p, h, m, s, seconds);
    } else {
      assert p == [mm, ss];
      TwoFields(p, m, s, seconds);
    }
  }

  lemma TwoFields(p: seq<string>, m: nat, s: nat, v: int)
    requires |p| == 2 && AllDigits(p[0]) && AllDigits(p[1])
    requires ParseNat(p[0]) == m && ParseNat(p[1]) == s && m * 60 + s == v
    ensures FieldsValue(p) == Some(v)
  {
  }

  lemma ThreeFields(p: seq<string>, h: nat, m: nat, s: nat, v: int)
    requires |p| == 3 && AllDigits(p[0]) && AllDigits(p[1]) && AllDigits(p[2])
    requires ParseNat(p[0]) == h && ParseNat(p[1]) == m && ParseNat(p[2]) == s
    requires h * 3600 + m * 60 + s == v
    ensures FieldsValue(p) == Some(v)
  {
  }

  /** The fields of a positive duration: three from an hour on, two below; the last
      two are two digits standing for a value below 60; the hours field has no
      leading zero; none holds a colon. */
  lemma PartsShape(seconds: int)
    requires seconds > 0
    ensures var p := DurationParts(seconds);
            && (|p| == 3 <==> seconds >= 3600)
            && (|p| == 2 <==> seconds < 3600)
            && |p[|p| - 1]| == 2 && |p[|p| - 2]| == 2
            && (forall k :: 0 <= k < |p| ==> ':' !in p[k])
            && AllDigits(p[|p| - 1]) && ParseNat(p[|p| - 1]) < 60
            && AllDigits(p[|p| - 2]) && ParseNat(p[|p| - 2]) < 60
            && (|p| == 3 ==> p[0][0] != '0')
  {
    DurationFields(seconds);
    PartsAreDigits(seconds);
    PadTwoDigits(JsRem(seconds, 3600) / 60);
    PadTwoDigits(JsRem(seconds, 60));
    var p := DurationParts(seconds);
    forall k | 0 <= k < |p| ensures ':' !in p[k] {
      DigitsHaveNoColon(p[k]);
    }
  }

  /** A positive duration is rendered as `mm:ss` below an hour and as `h:mm:ss` from
      an hour on; minutes and seconds are exactly two digits standing for a value
      below 60; hours are not padded; and reading the fields back gives the number
      of seconds. */
  lemma FormatDurationRoundTrip(seconds: int)
    requires seconds > 0
    ensures var parts := Split(FormatDuration(seconds), ':');
            && (|parts| == 3 <==> seconds >= 3600)
            && (|parts| == 2 <==> seconds < 3600)
            && |parts[|parts| - 1]| == 2 && |parts[|parts| - 2]| == 2
            && AllDigits(parts[|parts| - 1]) && ParseNat(parts[|parts| - 1]) < 60
            && AllDigits(parts[|parts| - 2]) && ParseNat(parts[|parts| - 2]) < 60
            && (|parts| == 3 ==> parts[0][0] != '0')
    ensures ParseDuration(FormatDuration(seconds)) == Some(seconds)
  {
    var p := DurationParts(seconds);
    PartsShape(seconds);
    DurationIsJoinOfParts(seconds);
    PartsValue(seconds);
    SplitJoin(p, ':');
  }

}
