/**
 * Turning pasted or uploaded text into the list of numbers the bot works
 * with (bot.py, `handle_file` and the Admin/Neavy branch of `handle_text`),
 * and the `+` that is put in front of every number written to a vCard.
 */
module Numbers {
  import opened Strings

  /** What extraction keeps: a non-empty line without surrounding whitespace. */
  predicate IsNumberLine(s: string) {
    |s| > 0 && NoSpaceAtEnds(s) && NoLineBreak(s)
  }

  /** `[line.strip() for line in lines if line.strip()]`. */
  function CleanLines(lines: seq<string>): (r: seq<string>)
    requires forall k :: 0 <= k < |lines| ==> NoLineBreak(lines[k])
    ensures |r| <= |lines|
    ensures forall k :: 0 <= k < |r| ==> IsNumberLine(r[k])
    decreases |lines|
  {
    if |lines| == 0 then []
    else
      var t := Strip(lines[0]);
      StripNoLineBreak(lines[0]);
      var rest := CleanLines(lines[1..]);
      if t == "" then rest
      else
        var r := [t] + rest;
        assert forall k :: 1 <= k < |r| ==> r[k] == rest[k - 1];
        r
  }

  /** A string is kept by CleanLines exactly when it is the non-empty
      stripped form of one of the lines. */
  lemma {:induction false} CleanLinesMembers(lines: seq<string>)
    requires forall k :: 0 <= k < |lines| ==> NoLineBreak(lines[k])
    ensures forall x :: x in CleanLines(lines) <==> x != "" && exists l :: l in lines && Strip(l) == x
    decreases |lines|
  {
    if |lines| > 0 {
      var t := Strip(lines[0]);
      var rest := lines[1..];
      assert CleanLines(lines) == if t == "" then CleanLines(rest) else [t] + CleanLines(rest);
      CleanLinesMembers(rest);
      forall x
        ensures x in CleanLines(lines) <==> x != "" && exists l :: l in lines && Strip(l) == x
      {
        if x in CleanLines(lines) {
          if t != "" && x == t {
            assert lines[0] in lines;
          } else {
            var l :| l in rest && Strip(l) == x;
            assert l in lines;
          }
        }
        if x != "" && exists l :: l in lines && Strip(l) == x {
          var l :| l in lines && Strip(l) == x;
          if l != lines[0] {
            assert l in rest;
          }
        }
      }
    }
  }

  /** The filter distributes over concatenation: the numbers kept from
      `a + b` are those kept from `a` followed by those kept from `b`. */
  lemma {:induction false} CleanLinesOrder(lines: seq<string>, a: seq<string>, b: seq<string>)
    requires forall k :: 0 <= k < |lines| ==> NoLineBreak(lines[k])
    requires lines == a + b
    ensures forall k :: 0 <= k < |a| ==> NoLineBreak(a[k])
    ensures forall k :: 0 <= k < |b| ==> NoLineBreak(b[k])
    ensures CleanLines(lines) == CleanLines(a) + CleanLines(b)
    decreases |a|
  {
    assert forall k :: 0 <= k < |a| ==> a[k] == lines[k];
    assert forall k :: 0 <= k < |b| ==> b[k] == lines[|a| + k];
    if |a| > 0 {
      assert lines[1..] == a[1..] + b;
      CleanLinesOrder(lines[1..], a[1..], b);
    } else {
      assert lines == b;
    }
  }

  /** A single line is kept, stripped, exactly when it is not blank. */
  lemma CleanLinesOne(line: string)
    requires NoLineBreak(line)
    ensures CleanLines([line]) == if Strip(line) == "" then [] else [Strip(line)]
  {
    assert [line][1..] == [];
  }

  /** The numbers found in a text: its trimmed, non-blank lines, in order. */
  function ExtractNumbers(text: string): (r: seq<string>)
    ensures forall k :: 0 <= k < |r| ==> IsNumberLine(r[k])
  {
    CleanLines(SplitLines(text))
  }

  /** A string is extracted exactly when it is the non-empty stripped form of
      a line of the text. */
  lemma ExtractMembers(text: string)
    ensures forall x :: x in ExtractNumbers(text) <==> x != "" && exists l :: l in SplitLines(text) && Strip(l) == x
  {
    assert ExtractNumbers(text) == CleanLines(SplitLines(text));
    CleanLinesMembers(SplitLines(text));
  }

  /** Lines that are already clean pass through CleanLines untouched. */
  lemma {:induction false} CleanLinesOfClean(xs: seq<string>)
    requires forall k :: 0 <= k < |xs| ==> IsNumberLine(xs[k])
    requires forall k :: 0 <= k < |xs| ==> NoLineBreak(xs[k])
    ensures CleanLines(xs) == xs
    decreases |xs|
  {
    if |xs| > 0 {
      StripClean(xs[0]);
      CleanLinesOfClean(xs[1..]);
    }
  }

  /** Writing numbers one per line (the Admin/Neavy `.txt` copy) and
      extracting again returns exactly those numbers, in the same order. */
  lemma ExtractJoinRoundTrip(xs: seq<string>)
    requires forall k :: 0 <= k < |xs| ==> IsNumberLine(xs[k])
    ensures ExtractNumbers(Join(xs, "\n")) == xs
  {
    SplitJoinRoundTrip(xs);
    CleanLinesOfClean(xs);
  }

  /** Extracting the newline-joined result of an extraction changes nothing. */
  lemma ExtractIdempotent(text: string)
    ensures ExtractNumbers(Join(ExtractNumbers(text), "\n")) == ExtractNumbers(text)
  {
    ExtractJoinRoundTrip(ExtractNumbers(text));
  }

  predicate StartsWithPlus(s: string) {
    |s| > 0 && s[0] == '+'
  }

  /** `if not n.startswith("+"): n = "+" + n`. */
  function Normalize(n: string): (r: string)
    ensures StartsWithPlus(r)
    ensures r == n || r == "+" + n
    ensures r == n <==> StartsWithPlus(n)
  {
    if StartsWithPlus(n) then n else "+" + n
  }

  /** Normalising twice is normalising once. */
  lemma NormalizeIdempotent(n: string)
    ensures Normalize(Normalize(n)) == Normalize(n)
  {
  }

  /** The `+` is the only thing normalisation ever adds: dropping the first
      character of a number that lacked it gives the number back. */
  lemma NormalizeAddsOnlyPlus(n: string)
    requires !StartsWithPlus(n)
    ensures Normalize(n)[1..] == n && |Normalize(n)| == |n| + 1
  {
  }
}
