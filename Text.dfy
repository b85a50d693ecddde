/** A stand-in for a possibly-null reference: `None` is C#'s `null`. */
module Wrappers {
  datatype Option<+T> = None | Some(value: T)
}

/**
 * The string operations of the .NET base library that the bundler relies on:
 * ordinal case-insensitive comparison, `char.IsWhiteSpace`, reading a file
 * line by line (`File.ReadAllLines`) and `string.Join`.
 */
module Text {

  /** `Environment.NewLine`: "\n" on Unix, "\r\n" on Windows. */
  predicate IsNewLine(nl: string) {
    nl == "\n" || nl == "\r\n"
  }

  /** The characters that end a line for `StreamReader.ReadLine`. */
  predicate IsLineBreak(c: char) {
    c == '\r' || c == '\n'
  }

  predicate HasNoLineBreak(s: string) {
    '\r' !in s && '\n' !in s
  }

  // ---------------------------------------------------------------------
  // Ordinal case-insensitive comparison (ASCII letters fold together)
  // ---------------------------------------------------------------------

  function FoldCase(c: char): char {
    if 'A' <= c <= 'Z' then (c as int + 32) as char else c
  }

  /** `string.ToLower()` as far as the letters of the sort mode go. */
  function LowerAscii(s: string): (r: string)
    ensures |r| == |s|
    ensures forall i :: 0 <= i < |s| ==> r[i] == FoldCase(s[i])
  {
    seq(|s|, i requires 0 <= i < |s| => FoldCase(s[i]))
  }

  predicate EqualsIgnoreCase(a: string, b: string) {
    |a| == |b| && forall i :: 0 <= i < |a| ==> FoldCase(a[i]) == FoldCase(b[i])
  }

  predicate StartsWithIgnoreCase(s: string, prefix: string) {
    |prefix| <= |s| && EqualsIgnoreCase(s[..|prefix|], prefix)
  }

  /** `s.EndsWith(suffix, StringComparison.OrdinalIgnoreCase)` */
  predicate EndsWithIgnoreCase(s: string, suffix: string) {
    |suffix| <= |s| && EqualsIgnoreCase(s[|s| - |suffix|..], suffix)
  }

  /** `needle` occurs in `s` at position `i`, ignoring case. */
  predicate OccursIgnoreCaseAt(s: string, needle: string, i: int) {
    0 <= i && i + |needle| <= |s| && EqualsIgnoreCase(s[i..i + |needle|], needle)
  }

  /** `s.Contains(needle, StringComparison.OrdinalIgnoreCase)`, scanning left to right. */
  function ContainsIgnoreCase(s: string, needle: string): bool
    decreases |s|
  {
    if |s| < |needle| then false
    else if StartsWithIgnoreCase(s, needle) then true
    else ContainsIgnoreCase(s[1..], needle)
  }

  /** The scan finds `needle` exactly when it occurs at some position. */
  lemma {:induction false} ContainsIgnoreCaseIff(s: string, needle: string)
    ensures ContainsIgnoreCase(s, needle) <==> exists i :: OccursIgnoreCaseAt(s, needle, i)
    decreases |s|
  {
    if |s| < |needle| {
      assert forall i :: !OccursIgnoreCaseAt(s, needle, i);
    } else if StartsWithIgnoreCase(s, needle) {
      assert s[0..0 + |needle|] == s[..|needle|];
      assert OccursIgnoreCaseAt(s, needle, 0);
    } else {
      assert s[0..0 + |needle|] == s[..|needle|];
      assert !OccursIgnoreCaseAt(s, needle, 0);
      ContainsIgnoreCaseIff(s[1..], needle);
      forall i | OccursIgnoreCaseAt(s[1..], needle, i)
        ensures OccursIgnoreCaseAt(s, needle, i + 1)
      {
        assert s[1..][i..i + |needle|] == s[i + 1..i + 1 + |needle|];
      }
      forall i | OccursIgnoreCaseAt(s, needle, i)
        ensures OccursIgnoreCaseAt(s[1..], needle, i - 1)
      {
        assert s[1..][i - 1..i - 1 + |needle|] == s[i..i + |needle|];
      }
    }
  }

  // ---------------------------------------------------------------------
  // char.IsWhiteSpace and string.IsNullOrWhiteSpace
  // ---------------------------------------------------------------------

  /** The Unicode white-space characters (categories Zs, Zl, Zp, the
      controls U+0009..U+000D and U+0085) that `char.IsWhiteSpace` accepts. */
  predicate IsWhiteSpace(c: char) {
    var n := c as int;
    n == 0x20 || 0x09 <= n <= 0x0D || n == 0x85 || n == 0xA0 || n == 0x1680
    || 0x2000 <= n <= 0x200A || n == 0x2028 || n == 0x2029 || n == 0x202F
    || n == 0x205F || n == 0x3000
  }

  /** `string.IsNullOrWhiteSpace` for a line that is never null. */
  predicate IsBlank(line: string) {
    forall i :: 0 <= i < |line| ==> IsWhiteSpace(line[i])
  }

  predicate IsNotBlank(line: string) {
    !IsBlank(line)
  }

  // ---------------------------------------------------------------------
  // Reading lines: File.ReadAllLines
  // ---------------------------------------------------------------------

  /** Index of the first line break in `s`, or `|s|` when there is none. */
  function LineEnd(s: string): (i: nat)
    ensures i <= |s|
  {
    if s == [] then 0
    else if IsLineBreak(s[0]) then 0
    else 1 + LineEnd(s[1..])
  }

  /** The first line is free of breaks and is ended by one, if anything follows it. */
  lemma {:induction false} LineEndIsFirstBreak(s: string)
    ensures HasNoLineBreak(s[..LineEnd(s)])
    ensures LineEnd(s) < |s| ==> IsLineBreak(s[LineEnd(s)])
  {
    if s != [] && !IsLineBreak(s[0]) {
      LineEndIsFirstBreak(s[1..]);
      assert s[..LineEnd(s)] == [s[0]] + s[1..][..LineEnd(s[1..])];
    }
  }

  /**
   * The lines `File.ReadAllLines` returns for a file holding `s`: a line ends
   * at "\r\n", "\r" or "\n"; a terminator at the very end does not open
   * another (empty) line, and an empty file has no lines.
   */
  function SplitLines(s: string): seq<string>
    decreases |s|
  {
    if s == [] then []
    else
      var i := LineEnd(s);
      if i == |s| then [s]
      else if s[i] == '\r' && i + 1 < |s| && s[i + 1] == '\n' then [s[..i]] + SplitLines(s[i + 2..])
      else [s[..i]] + SplitLines(s[i + 1..])
  }

  /** No line read from a file contains a line break. */
  lemma {:induction false} SplitLinesHaveNoBreaks(s: string)
    ensures forall l :: l in SplitLines(s) ==> HasNoLineBreak(l)
    decreases |s|
  {
    if s != [] {
      var i := LineEnd(s);
      LineEndIsFirstBreak(s);
      if i < |s| {
        if s[i] == '\r' && i + 1 < |s| && s[i + 1] == '\n' {
          SplitLinesHaveNoBreaks(s[i + 2..]);
        } else {
          SplitLinesHaveNoBreaks(s[i + 1..]);
        }
      }
    }
  }

  lemma {:induction false} LineEndAfter(a: string, t: string)
    requires HasNoLineBreak(a)
    ensures LineEnd(a + t) == |a| + LineEnd(t)
    decreases |a|
  {
    if a != [] {
      assert (a + t)[0] == a[0];
      assert (a + t)[1..] == a[1..] + t;
      LineEndAfter(a[1..], t);
    } else {
      assert a + t == t;
    }
  }

  /** A line without breaks followed by a newline is read back as that line. */
  lemma SplitLinesCons(a: string, nl: string, rest: string)
    requires HasNoLineBreak(a) && IsNewLine(nl)
    ensures SplitLines(a + nl + rest) == [a] + SplitLines(rest)
  {
    var s := a + nl + rest;
    assert s == a + (nl + rest);
    LineEndAfter(a, nl + rest);
    assert LineEnd(s) == |a|;
    assert s[..|a|] == a;
    if nl == "\n" {
      assert s[|a| + 1..] == rest;
    } else {
      assert s[|a| + 2..] == rest;
    }
  }

  /** A last line without a terminator is read back as itself, if it is not empty. */
  lemma SplitLinesLast(a: string)
    requires a != [] && HasNoLineBreak(a)
    ensures SplitLines(a) == [a]
  {
    LineEndAfter(a, []);
    assert a + [] == a;
  }

  // ---------------------------------------------------------------------
  // Writing lines: string.Join and StreamWriter.WriteLine
  // ---------------------------------------------------------------------

  /** `string.Join(sep, parts)` */
  function Join(sep: string, parts: seq<string>): string {
    if |parts| == 0 then ""
    else if |parts| == 1 then parts[0]
    else parts[0] + sep + Join(sep, parts[1..])
  }

  /** The text a sequence of `WriteLine` calls leaves in a file. */
  function WriteLines(lines: seq<string>, nl: string): string {
    if lines == [] then "" else lines[0] + nl + WriteLines(lines[1..], nl)
  }

  lemma {:induction false} WriteLinesSnoc(lines: seq<string>, line: string, nl: string)
    ensures WriteLines(lines + [line], nl) == WriteLines(lines, nl) + line + nl
    decreases |lines|
  {
    if lines == [] {
      assert lines + [line] == [line];
    } else {
      assert (lines + [line])[1..] == lines[1..] + [line];
      WriteLinesSnoc(lines[1..], line, nl);
    }
  }

  /** Lines written one per `WriteLine` are read back unchanged by `ReadAllLines`. */
  lemma {:induction false} WriteLinesRoundTrip(lines: seq<string>, nl: string)
    requires IsNewLine(nl)
    requires forall l :: l in lines ==> HasNoLineBreak(l)
    ensures SplitLines(WriteLines(lines, nl)) == lines
    decreases |lines|
  {
    if lines != [] {
      assert lines[0] in lines;
      SplitLinesCons(lines[0], nl, WriteLines(lines[1..], nl));
      WriteLinesRoundTrip(lines[1..], nl);
      assert [lines[0]] + lines[1..] == lines;
    }
  }

  /** Non-empty lines without breaks, joined by the newline, are read back unchanged. */
  lemma {:induction false} JoinRoundTrip(lines: seq<string>, nl: string)
    requires IsNewLine(nl)
    requires forall l :: l in lines ==> l != [] && HasNoLineBreak(l)
    ensures SplitLines(Join(nl, lines)) == lines
    decreases |lines|
  {
    if |lines| == 1 {
      assert lines[0] in lines;
      SplitLinesLast(lines[0]);
    } else if |lines| > 1 {
      assert lines[0] in lines;
      assert forall l :: l in lines[1..] ==> l in lines;
      SplitLinesCons(lines[0], nl, Join(nl, lines[1..]));
      JoinRoundTrip(lines[1..], nl);
      assert [lines[0]] + lines[1..] == lines;
    }
  }
}
