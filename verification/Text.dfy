/** The few JavaScript string operations the service relies on, over `seq<char>`:
    `includes`, `trim`, `split` and `join`. Whitespace and digits are the ASCII sets. */
module Text {

  /** The ASCII characters `String.prototype.trim` removes. */
  predicate IsWhitespace(c: char) {
    c == ' ' || c == '\t' || c == '\n' || c == '\r' || c == '\U{000B}' || c == '\U{000C}'
  }

  predicate IsDigit(c: char) {
    '0' <= c <= '9'
  }

  /** The regular expression `^[0-9]+$`: a non-empty run of ASCII digits. */
  predicate IsNumeric(s: string) {
    |s| > 0 && forall i :: 0 <= i < |s| ==> IsDigit(s[i])
  }

  /** `sub` starts at position `i` of `s`. */
  predicate OccursAt(s: string, sub: string, i: nat) {
    i + |sub| <= |s| && s[i..i + |sub|] == sub
  }

  /** `s.includes(sub)`. */
  function Contains(s: string, sub: string): (r: bool)
    ensures r <==> exists i: nat :: OccursAt(s, sub, i)
  {
    if sub <= s then
      assert OccursAt(s, sub, 0);
      true
    else if |s| == 0 then
      false
    else
      var r := Contains(s[1..], sub);
      if r then
        var i: nat :| OccursAt(s[1..], sub, i);
        assert OccursAt(s, sub, i + 1) by {
          assert s[1..][i..i + |sub|] == s[i + 1..i + 1 + |sub|];
        }
        true
      else
        assert forall i: nat :: OccursAt(s, sub, i) ==> i > 0 && OccursAt(s[1..], sub, i - 1) by {
          forall i: nat | OccursAt(s, sub, i)
            ensures i > 0 && OccursAt(s[1..], sub, i - 1)
          {
            if i > 0 {
              assert s[1..][i - 1..i - 1 + |sub|] == s[i..i + |sub|];
            }
          }
        }
        false
  }

  /** Anything that contains a string contains it with more text around it. */
  lemma ContainsInside(a: string, sub: string, b: string)
    requires Contains(sub, sub)
    ensures Contains(a + sub + b, sub)
  {
    assert (a + sub + b)[|a|..|a| + |sub|] == sub;
    assert OccursAt(a + sub + b, sub, |a|);
  }

  /** Leading whitespace removed. */
  function TrimStart(s: string): (r: string)
    ensures |r| <= |s| && r == s[|s| - |r|..]
    ensures forall i :: 0 <= i < |s| - |r| ==> IsWhitespace(s[i])
    ensures r == [] || !IsWhitespace(r[0])
  {
    if |s| > 0 && IsWhitespace(s[0]) then TrimStart(s[1..]) else s
  }

  /** Trailing whitespace removed. */
  function TrimEnd(s: string): (r: string)
    ensures |r| <= |s| && r == s[..|r|]
    ensures forall i :: |r| <= i < |s| ==> IsWhitespace(s[i])
    ensures r == [] || !IsWhitespace(r[|r| - 1])
  {
    if |s| > 0 && IsWhitespace(s[|s| - 1]) then TrimEnd(s[..|s| - 1]) else s
  }

  /** Neither starts nor ends with whitespace. */
  predicate IsTrimmed(s: string) {
    s == [] || (!IsWhitespace(s[0]) && !IsWhitespace(s[|s| - 1]))
  }

  /** `s.trim()`: leading and trailing whitespace removed. */
  function Trim(s: string): (r: string)
    ensures IsTrimmed(r)
    ensures |r| <= |s|
  {
    TrimEnd(TrimStart(s))
  }

  /** Every character of the trimmed string comes from `s`, and only whitespace was
      taken away. */
  lemma TrimKeepsContent(s: string)
    ensures forall c :: c in Trim(s) ==> c in s
    ensures forall i :: 0 <= i < |s| && !IsWhitespace(s[i]) ==> s[i] in Trim(s)
  {
    TrimAddsNothing(s);
    TrimKeepsVisible(s);
  }

  lemma TrimAddsNothing(s: string)
    ensures forall c :: c in Trim(s) ==> c in s
  {
    var off := TrimIsSlice(s);
    var n := |Trim(s)|;
    forall c | c in Trim(s)
      ensures c in s
    {
      var k :| 0 <= k < n && Trim(s)[k] == c;
      assert s[off + k] == c;
    }
  }

  lemma TrimKeepsVisible(s: string)
    ensures forall i :: 0 <= i < |s| && !IsWhitespace(s[i]) ==> s[i] in Trim(s)
  {
    forall i | 0 <= i < |s| && !IsWhitespace(s[i])
      ensures s[i] in Trim(s)
    {
      TrimKeepsAt(s, i);
    }
  }

  lemma TrimKeepsAt(s: string, i: nat)
    requires i < |s| && !IsWhitespace(s[i])
    ensures s[i] in Trim(s)
  {
    var t := TrimStart(s);
    var off := |s| - |t|;
    var u := TrimEnd(t);
    assert Trim(s) == u;
    assert off <= i;
    var k := i - off;
    assert t[k] == s[i];
    assert k < |u|;
    assert u[k] == s[i];
  }

  /** The trimmed string is the slice of `s` between its leading and trailing
      whitespace: everything before and after the slice is whitespace. With
      `IsTrimmed(Trim(s))` this determines `Trim(s)`. */
  lemma TrimIsSlice(s: string) returns (off: nat)
    ensures off + |Trim(s)| <= |s|
    ensures Trim(s) == s[off..off + |Trim(s)|]
    ensures forall i :: 0 <= i < off ==> IsWhitespace(s[i])
    ensures forall i :: off + |Trim(s)| <= i < |s| ==> IsWhitespace(s[i])
  {
    var t := TrimStart(s);
    off := |s| - |t|;
    var u := TrimEnd(t);
    assert Trim(s) == u;
    SliceOfSuffix(s, off, |u|);
    forall i | off + |u| <= i < |s|
      ensures IsWhitespace(s[i])
    {
      assert s[i] == t[i - off];
    }
  }

  lemma SliceOfSuffix(s: string, off: nat, n: nat)
    requires off + n <= |s|
    ensures s[off..][..n] == s[off..off + n]
  {
  }

  lemma TrimmedIsFixed(s: string)
    requires IsTrimmed(s)
    ensures Trim(s) == s
  {
  }

  /** Index of the first `c` in `s`. */
  function IndexOf(s: string, c: char): (i: nat)
    requires c in s
    ensures i < |s| && s[i] == c && c !in s[..i]
  {
    if s[0] == c then 0 else IndexOf(s[1..], c) + 1
  }

  /** `s.split(d)` for a one-character separator: there is always at least one piece,
      no piece holds the separator, and joining the pieces gives `s` back. */
  function Split(s: string, d: char): (pieces: seq<string>)
    ensures |pieces| >= 1
    ensures forall k :: 0 <= k < |pieces| ==> d !in pieces[k]
    ensures Join(pieces, d) == s
    decreases |s|
  {
    if d !in s then [s]
    else
      var i := IndexOf(s, d);
      var rest := Split(s[i + 1..], d);
      assert s == s[..i] + [d] + s[i + 1..];
      [s[..i]] + rest
  }

  /** `xs.join(d)`. */
  function Join(xs: seq<string>, d: char): string {
    if |xs| == 0 then ""
    else if |xs| == 1 then xs[0]
    else xs[0] + [d] + Join(xs[1..], d)
  }

  /** Splitting a joined list of separator-free pieces gives the pieces back. */
  lemma {:induction false} SplitJoin(xs: seq<string>, d: char)
    requires |xs| >= 1
    requires forall k :: 0 <= k < |xs| ==> d !in xs[k]
    ensures Split(Join(xs, d), d) == xs
  {
    if |xs| == 1 {
    } else {
      var s := Join(xs, d);
      assert s == xs[0] + [d] + Join(xs[1..], d);
      assert s[|xs[0]|] == d;
      assert d in s;
      var i := IndexOf(s, d);
      assert i == |xs[0]| by {
        assert s[..|xs[0]|] == xs[0];
      }
      assert s[..i] == xs[0];
      assert s[i + 1..] == Join(xs[1..], d);
      SplitJoin(xs[1..], d);
    }
  }

  /** Every character of a join comes from a piece or is the separator. */
  lemma {:induction false} JoinChars(xs: seq<string>, d: char, c: char)
    requires c in Join(xs, d)
    ensures c == d || exists k :: 0 <= k < |xs| && c in xs[k]
  {
    if |xs| == 0 {
    } else if |xs| == 1 {
      assert c in xs[0];
    } else {
      var rest := Join(xs[1..], d);
      assert Join(xs, d) == xs[0] + [d] + rest;
      if c in xs[0] || c == d {
      } else {
        assert c in rest;
        JoinChars(xs[1..], d, c);
        var k :| 0 <= k < |xs[1..]| && c in xs[1..][k];
        assert c in xs[k + 1];
      }
    }
  }

  /** The first occurrence of `c` is found where `c` does not occur before. */
  lemma IndexOfUnique(s: string, c: char, i: nat)
    requires i < |s| && s[i] == c && c !in s[..i]
    ensures IndexOf(s, c) == i
  {
  }

  /** Text appended after an occurrence does not move the first one. */
  lemma IndexOfPrefix(a: string, b: string, c: char)
    requires c in a
    ensures c in a + b && IndexOf(a + b, c) == IndexOf(a, c)
  {
    var i := IndexOf(a, c);
    var s := a + b;
    assert s[i] == c;
    assert s[..i] == a[..i];
    IndexOfUnique(s, c, i);
  }
}
