/**
 * The pieces of Python's `str` behaviour the bot relies on: `splitlines()`,
 * `strip()`, `"\n".join(...)`, `isdigit()`, `int(...)` of a digit string and
 * `str(...)` of a non-negative integer.
 *
 * Whitespace and line boundaries are the exact character sets Python uses
 * (`str.isspace` and `str.splitlines`); digits are the ASCII digits only.
 */
module Strings {

  /** Python's `str.isspace` for a single character. */
  predicate IsSpace(c: char) {
    var n := c as int;
    || 0x09 <= n <= 0x0D
    || 0x1C <= n <= 0x20
    || n == 0x85 || n == 0xA0 || n == 0x1680
    || 0x2000 <= n <= 0x200A
    || n == 0x2028 || n == 0x2029 || n == 0x202F || n == 0x205F || n == 0x3000
  }

  /** The characters at which Python's `str.splitlines` ends a line
      (`\r\n` is one boundary, handled in SplitLines). */
  predicate IsLineBreak(c: char) {
    var n := c as int;
    || n == 0x0A || n == 0x0B || n == 0x0C || n == 0x0D
    || n == 0x1C || n == 0x1D || n == 0x1E
    || n == 0x85 || n == 0x2028 || n == 0x2029
  }

  predicate AllSpace(s: string) {
    forall i :: 0 <= i < |s| ==> IsSpace(s[i])
  }

  predicate NoLineBreak(s: string) {
    forall i :: 0 <= i < |s| ==> !IsLineBreak(s[i])
  }

  /** Neither the first nor the last character is whitespace: what `strip()` leaves. */
  predicate NoSpaceAtEnds(s: string) {
    |s| == 0 || (!IsSpace(s[0]) && !IsSpace(s[|s| - 1]))
  }

  /** `r` is `s` with a whitespace-only head and a whitespace-only tail cut off. */
  ghost predicate IsInnerSlice(r: string, s: string) {
    exists a, b :: AllSpace(a) && AllSpace(b) && s == a + r + b
  }

  /** A piece of a break-free string is break-free. */
  lemma SliceNoLineBreak(s: string, i: nat, j: nat)
    requires i <= j <= |s|
    ensures NoLineBreak(s) ==> NoLineBreak(s[i..j])
  {
    if NoLineBreak(s) {
      forall k | 0 <= k < j - i
        ensures !IsLineBreak(s[i..j][k])
      {
        assert s[i..j][k] == s[i + k];
      }
    }
  }

  /** Python's `s.strip()`: whitespace is dropped from the front, then from
      the back, one character at a time. */
  function Strip(s: string): (r: string)
    ensures |r| <= |s|
    ensures NoSpaceAtEnds(r)
    decreases |s|
  {
    if |s| > 0 && IsSpace(s[0]) then Strip(s[1..])
    else if |s| > 0 && IsSpace(s[|s| - 1]) then Strip(s[..|s| - 1])
    else s
  }

  lemma AllSpaceCons(c: char, a: string)
    requires IsSpace(c) && AllSpace(a)
    ensures AllSpace([c] + a)
  {
    forall j | 0 <= j < |[c] + a|
      ensures IsSpace(([c] + a)[j])
    {
      if j > 0 {
        assert ([c] + a)[j] == a[j - 1];
      }
    }
  }

  lemma AllSpaceSnoc(b: string, c: char)
    requires IsSpace(c) && AllSpace(b)
    ensures AllSpace(b + [c])
  {
    forall j | 0 <= j < |b + [c]|
      ensures IsSpace((b + [c])[j])
    {
      if j < |b| {
        assert (b + [c])[j] == b[j];
      }
    }
  }

  lemma InnerSliceCons(c: char, t: string, r: string)
    requires IsSpace(c) && IsInnerSlice(r, t)
    ensures IsInnerSlice(r, [c] + t)
  {
    var a, b :| AllSpace(a) && AllSpace(b) && t == a + r + b;
    AllSpaceCons(c, a);
    assert [c] + t == ([c] + a) + r + b;
  }

  lemma InnerSliceSnoc(t: string, c: char, r: string)
    requires IsSpace(c) && IsInnerSlice(r, t)
    ensures IsInnerSlice(r, t + [c])
  {
    var a, b :| AllSpace(a) && AllSpace(b) && t == a + r + b;
    AllSpaceSnoc(b, c);
    assert t + [c] == a + r + (b + [c]);
  }

  lemma InnerSliceSelf(s: string)
    ensures IsInnerSlice(s, s)
  {
    assert AllSpace("");
    assert s == "" + s + "";
  }

  /** What `strip()` keeps is a piece of the string with nothing but
      whitespace before it and after it. */
  lemma {:induction false} StripInner(s: string)
    ensures IsInnerSlice(Strip(s), s)
    decreases |s|
  {
    if |s| > 0 && IsSpace(s[0]) {
      StripInner(s[1..]);
      InnerSliceCons(s[0], s[1..], Strip(s));
      assert [s[0]] + s[1..] == s;
    } else if |s| > 0 && IsSpace(s[|s| - 1]) {
      StripInner(s[..|s| - 1]);
      InnerSliceSnoc(s[..|s| - 1], s[|s| - 1], Strip(s));
      assert s[..|s| - 1] + [s[|s| - 1]] == s;
    } else {
      InnerSliceSelf(s);
    }
  }

  /** Stripping never introduces a line boundary. */
  lemma {:induction false} StripNoLineBreak(s: string)
    requires NoLineBreak(s)
    ensures NoLineBreak(Strip(s))
    decreases |s|
  {
    if |s| > 0 && IsSpace(s[0]) {
      SliceNoLineBreak(s, 1, |s|);
      StripNoLineBreak(s[1..]);
    } else if |s| > 0 && IsSpace(s[|s| - 1]) {
      SliceNoLineBreak(s, 0, |s| - 1);
      StripNoLineBreak(s[..|s| - 1]);
    }
  }

  /** Stripping a string that has no whitespace at its ends returns it unchanged. */
  lemma StripClean(s: string)
    requires NoSpaceAtEnds(s)
    ensures Strip(s) == s
  {
  }

  /** Index of the first line boundary in `s`, or `|s|` when there is none. */
  function FirstBreak(s: string): (i: nat)
    ensures i <= |s|
    ensures NoLineBreak(s[..i])
    ensures i < |s| ==> IsLineBreak(s[i])
    decreases |s|
  {
    if |s| == 0 || IsLineBreak(s[0]) then 0
    else
      var j := FirstBreak(s[1..]);
      assert s[..1 + j] == [s[0]] + s[1..][..j];
      1 + j
  }

  /** The first line boundary is the one at `p` when nothing before `p` is one. */
  lemma FirstBreakAt(s: string, p: nat)
    requires p < |s| && NoLineBreak(s[..p]) && IsLineBreak(s[p])
    ensures FirstBreak(s) == p
  {
  }

  /** One line boundary as `splitlines()` consumes it: `\r\n`, or a single
      boundary character. */
  predicate IsBoundary(sep: string) {
    sep == "\r\n" || (|sep| == 1 && IsLineBreak(sep[0]))
  }

  /** The width of the boundary `splitlines()` consumes at the break at `i`:
      2 for `\r\n`, 1 otherwise. */
  function BoundaryWidth(s: string, i: nat): (w: nat)
    requires i < |s| && IsLineBreak(s[i])
    ensures 1 <= w <= 2 && i + w <= |s| && IsBoundary(s[i..i + w])
  {
    if s[i] == '\r' && i + 1 < |s| && s[i + 1] == '\n' then 2 else 1
  }

  /** Python's `s.splitlines()`: the text between line boundaries, a final
      boundary not starting a further (empty) line, `\r\n` counted once. */
  function SplitLines(s: string): (r: seq<string>)
    ensures forall k :: 0 <= k < |r| ==> NoLineBreak(r[k])
    ensures |s| == 0 <==> |r| == 0
    decreases |s|
  {
    if |s| == 0 then []
    else
      var i := FirstBreak(s);
      if i == |s| then [s]
      else
        [s[..i]] + SplitLines(s[i + BoundaryWidth(s, i)..])
  }

  /** The text the lines and the boundaries after them spell out. */
  function Rejoin(lines: seq<string>, seps: seq<string>): string
    requires |lines| == |seps|
    decreases |lines|
  {
    if |lines| == 0 then "" else lines[0] + seps[0] + Rejoin(lines[1..], seps[1..])
  }

  /** `lines`, each followed by the boundary in `seps`, is a reading of a text
      as `splitlines()` reads it: lines hold no boundary, every line but the
      last ends at a boundary, the last ends at one or at the end of a text
      that does not end in a boundary, and a `\r` is never split from the
      `\n` right after it. */
  predicate LineBreaking(lines: seq<string>, seps: seq<string>)
    decreases |lines|
  {
    && |lines| == |seps|
    && (|lines| > 0 ==>
      && NoLineBreak(lines[0])
      && (if |lines| == 1 then IsBoundary(seps[0]) || (seps[0] == "" && lines[0] != "")
          else
            && IsBoundary(seps[0])
            && !(seps[0] == "\r" && lines[1] == "" && seps[1] == "\n")
            && LineBreaking(lines[1..], seps[1..])))
  }

  lemma RejoinCons(x: string, sep: string, lines: seq<string>, seps: seq<string>)
    requires |lines| == |seps|
    ensures Rejoin([x] + lines, [sep] + seps) == x + sep + Rejoin(lines, seps)
  {
    assert ([x] + lines)[1..] == lines && ([sep] + seps)[1..] == seps;
  }

  lemma LineBreakingCons(x: string, sep: string, lines: seq<string>, seps: seq<string>)
    requires NoLineBreak(x) && IsBoundary(sep) && LineBreaking(lines, seps)
    requires |lines| > 0 && sep == "\r" ==> !(lines[0] == "" && seps[0] == "\n")
    ensures LineBreaking([x] + lines, [sep] + seps)
  {
    assert ([x] + lines)[1..] == lines && ([sep] + seps)[1..] == seps;
  }

  /** A reading starts with `\n` only when its first line is empty and ends
      at a `\n`. */
  lemma RejoinFirst(lines: seq<string>, seps: seq<string>)
    requires LineBreaking(lines, seps) && |lines| > 0
    ensures |Rejoin(lines, seps)| > 0
    ensures Rejoin(lines, seps)[0] == '\n' <==> lines[0] == "" && seps[0] == "\n"
  {
    var r := Rejoin(lines, seps);
    assert r == lines[0] + seps[0] + Rejoin(lines[1..], seps[1..]);
    if lines[0] != "" {
      assert r[0] == lines[0][0];
    } else {
      assert r[0] == seps[0][0];
      assert "\r\n"[0] == '\r';
    }
  }

  /** A `\r` the splitter takes alone is not followed by `\n`. */
  lemma BoundaryWidthCr(s: string, i: nat)
    requires i < |s| && s[i] == '\r' && BoundaryWidth(s, i) == 1
    ensures i + 1 == |s| || s[i + 1] != '\n'
  {
  }

  /** A reading of the text after the break at `i` extends to the whole text
      by the break-free line before `i` and the boundary at `i`. */
  lemma RejoinStep(s: string, i: nat, more: seq<string>, seps: seq<string>)
    requires i < |s| && NoLineBreak(s[..i]) && IsLineBreak(s[i])
    requires LineBreaking(more, seps) && Rejoin(more, seps) == s[i + BoundaryWidth(s, i)..]
    ensures LineBreaking([s[..i]] + more, [s[i..i + BoundaryWidth(s, i)]] + seps)
    ensures Rejoin([s[..i]] + more, [s[i..i + BoundaryWidth(s, i)]] + seps) == s
  {
    var j := i + BoundaryWidth(s, i);
    var sep := s[i..j];
    if |more| > 0 && sep == "\r" {
      RejoinFirst(more, seps);
      BoundaryWidthCr(s, i);
    }
    LineBreakingCons(s[..i], sep, more, seps);
    RejoinCons(s[..i], sep, more, seps);
    assert s[..i] + sep == s[..j];
    assert s[..j] + s[j..] == s;
  }

  /** The boundaries `splitlines()` consumes, one after each line it returns
      (`""` after a last line that runs to the end of the text). */
  ghost function Boundaries(s: string): seq<string>
    decreases |s|
  {
    if |s| == 0 then []
    else
      var i := FirstBreak(s);
      if i == |s| then [""]
      else [s[i..i + BoundaryWidth(s, i)]] + Boundaries(s[i + BoundaryWidth(s, i)..])
  }

  /** The lines `splitlines()` returns, with the boundaries it consumed after
      each, give back the text. */
  lemma {:induction false} SplitLinesRejoin(s: string)
    ensures LineBreaking(SplitLines(s), Boundaries(s)) && Rejoin(SplitLines(s), Boundaries(s)) == s
    decreases |s|
  {
    if |s| > 0 {
      var i := FirstBreak(s);
      if i == |s| {
        SplitLinesOne(s);
      } else {
        var rest := s[i + BoundaryWidth(s, i)..];
        SplitLinesRejoin(rest);
        SplitLinesAt(s, i);
        RejoinStep(s, i, SplitLines(rest), Boundaries(rest));
      }
    }
  }

  /** In a text read as a break-free line, a boundary and the reading of
      the rest, `splitlines()` finds that line and that boundary first. */
  lemma ReadingStep(x: string, sep: string, more: seq<string>, seps: seq<string>)
    requires NoLineBreak(x) && IsBoundary(sep) && LineBreaking(more, seps)
    requires |more| > 0 && sep == "\r" ==> !(more[0] == "" && seps[0] == "\n")
    ensures var s := x + sep + Rejoin(more, seps);
      && FirstBreak(s) == |x| && BoundaryWidth(s, |x|) == |sep|
      && s[..|x|] == x && s[|x| + |sep|..] == Rejoin(more, seps)
  {
    var rest := Rejoin(more, seps);
    var s := x + sep + rest;
    assert s[..|x|] == x;
    assert s[|x|] == sep[0];
    FirstBreakAt(s, |x|);
    assert s[|x| + |sep|..] == rest;
    if |sep| == 2 {
      assert s[|x| + 1] == sep[1];
    } else if |more| > 0 {
      RejoinFirst(more, seps);
      assert s[|x| + 1] == rest[0];
    }
  }

  /** Any reading of a text as lines and boundaries is the one `splitlines()`
      returns. */
  lemma {:induction false} SplitLinesUnique(s: string, lines: seq<string>, seps: seq<string>)
    requires LineBreaking(lines, seps) && Rejoin(lines, seps) == s
    ensures SplitLines(s) == lines
    decreases |lines|
  {
    if |lines| > 0 {
      var x := lines[0];
      var rest := Rejoin(lines[1..], seps[1..]);
      assert s == x + seps[0] + rest;
      if seps[0] == "" {
        assert s == x;
        SplitLinesOne(x);
      } else {
        ReadingStep(x, seps[0], lines[1..], seps[1..]);
        SplitLinesAt(s, |x|);
        SplitLinesUnique(rest, lines[1..], seps[1..]);
      }
    }
  }

  /** `splitlines()` of a text is exactly the one reading of it as lines
      and boundaries. */
  lemma SplitLinesIff(s: string, lines: seq<string>)
    ensures SplitLines(s) == lines <==> exists seps :: LineBreaking(lines, seps) && Rejoin(lines, seps) == s
  {
    SplitLinesRejoin(s);
    assert LineBreaking(SplitLines(s), Boundaries(s)) && Rejoin(SplitLines(s), Boundaries(s)) == s;
    if exists seps :: LineBreaking(lines, seps) && Rejoin(lines, seps) == s {
      var seps :| LineBreaking(lines, seps) && Rejoin(lines, seps) == s;
      SplitLinesUnique(s, lines, seps);
    }
  }

  /** `splitlines()` of a non-empty line without boundaries is that line. */
  lemma SplitLinesOne(x: string)
    requires x != "" && NoLineBreak(x)
    ensures SplitLines(x) == [x]
  {
    assert x[..|x|] == x;
  }

  /** `splitlines()` takes the text up to the break at `i`, then goes on after
      the boundary there. */
  lemma SplitLinesAt(s: string, i: nat)
    requires i < |s| && FirstBreak(s) == i
    ensures SplitLines(s) == [s[..i]] + SplitLines(s[i + BoundaryWidth(s, i)..])
  {
  }

  /** Python's `sep.join(xs)`. */
  function Join(xs: seq<string>, sep: string): string
    decreases |xs|
  {
    if |xs| == 0 then ""
    else if |xs| == 1 then xs[0]
    else xs[0] + sep + Join(xs[1..], sep)
  }

  /** Joining non-empty, break-free lines with `\n` and splitting the result
      again gives back exactly the same lines. */
  lemma {:induction false} SplitJoinRoundTrip(xs: seq<string>)
    requires forall k :: 0 <= k < |xs| ==> |xs[k]| > 0 && NoLineBreak(xs[k])
    ensures SplitLines(Join(xs, "\n")) == xs
    decreases |xs|
  {
    if |xs| == 0 {
    } else if |xs| == 1 {
    } else {
      var x := xs[0];
      var rest := Join(xs[1..], "\n");
      var s := x + "\n" + rest;
      assert Join(xs, "\n") == s;
      assert s[..|x|] == x;
      FirstBreakAt(s, |x|);
      assert s[|x| + 1..] == rest;
      SplitJoinRoundTrip(xs[1..]);
    }
  }

  predicate IsDigit(c: char) {
    '0' <= c <= '9'
  }

  /** Python's `s.isdigit()`, restricted to ASCII digits: false on the empty string. */
  predicate IsDigitString(s: string) {
    |s| > 0 && forall i :: 0 <= i < |s| ==> IsDigit(s[i])
  }

  /** The way `str(n)` writes a number: no leading zero unless it is "0". */
  predicate IsCanonical(s: string) {
    IsDigitString(s) && (s[0] != '0' || |s| == 1)
  }

  function DigitValue(c: char): (d: nat)
    requires IsDigit(c)
    ensures d < 10
  {
    (c as int) - ('0' as int)
  }

  function DigitChar(d: nat): (c: char)
    requires d < 10
    ensures IsDigit(c) && DigitValue(c) == d
  {
    (('0' as int) + d) as char
  }

  /** Python's `int(s)` for a string of ASCII digits (leading zeros allowed). */
  function ParseNat(s: string): nat
    requires forall i :: 0 <= i < |s| ==> IsDigit(s[i])
    decreases |s|
  {
    if |s| == 0 then 0
    else 10 * ParseNat(s[..|s| - 1]) + DigitValue(s[|s| - 1])
  }

  /** Python's `str(n)` for a non-negative integer. */
  function NatToString(n: nat): (r: string)
    ensures IsCanonical(r)
    decreases n
  {
    if n < 10 then [DigitChar(n)]
    else NatToString(n / 10) + [DigitChar(n % 10)]
  }

  /** `int(str(n)) == n`. */
  lemma {:induction false} ParseNatToString(n: nat)
    ensures ParseNat(NatToString(n)) == n
    decreases n
  {
    var r := NatToString(n);
    if n >= 10 {
      assert r[..|r| - 1] == NatToString(n / 10);
      ParseNatToString(n / 10);
    }
  }

  /** A digit string whose first digit is not zero denotes a positive number. */
  lemma {:induction false} ParseNatPositive(s: string)
    requires IsDigitString(s) && s[0] != '0'
    ensures ParseNat(s) > 0
    decreases |s|
  {
    if |s| > 1 {
      ParseNatPositive(s[..|s| - 1]);
    }
  }

  /** `str(int(s)) == s` exactly when `s` has no superfluous leading zero. */
  lemma {:induction false} NatToStringParse(s: string)
    requires IsDigitString(s)
    ensures NatToString(ParseNat(s)) == s <==> IsCanonical(s)
    decreases |s|
  {
    if IsCanonical(s) {
      if |s| > 1 {
        var a := s[..|s| - 1];
        ParseNatPositive(a);
        NatToStringParse(a);
        var n := ParseNat(s);
        assert n / 10 == ParseNat(a);
        assert n % 10 == DigitValue(s[|s| - 1]);
        assert s == a + [s[|s| - 1]];
      }
    }
  }

  /** Different numbers are written differently. */
  lemma NatToStringInjective(a: nat, b: nat)
    requires NatToString(a) == NatToString(b)
    ensures a == b
  {
    ParseNatToString(a);
    ParseNatToString(b);
  }
}
