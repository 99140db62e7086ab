/** The text operations of Python that the bridge's parsers and encoders use. */
module Texts {

  // ---- strip ----

  function TrimLeft(s: string, drop: char -> bool): string {
    if s != "" && drop(s[0]) then TrimLeft(s[1..], drop) else s
  }

  function TrimRight(s: string, drop: char -> bool): string {
    if s != "" && drop(s[|s| - 1]) then TrimRight(s[..|s| - 1], drop) else s
  }

  function Strip(s: string, drop: char -> bool): string {
    TrimRight(TrimLeft(s, drop), drop)
  }

  /** What stripping leaves: a contiguous part with kept characters at both ends,
      everything outside it dropped. */
  lemma {:induction false} TrimLeftSplits(s: string, drop: char -> bool) returns (k: nat)
    ensures k <= |s| && TrimLeft(s, drop) == s[k..] && (forall i :: 0 <= i < k ==> drop(s[i]))
    ensures k < |s| ==> !drop(s[k])
  {
    if s != "" && drop(s[0]) {
      k := TrimLeftSplits(s[1..], drop);
      assert forall i :: 1 <= i < k + 1 ==> s[i] == s[1..][i - 1];
      assert s[1..][k..] == s[k + 1..];
      k := k + 1;
    } else {
      k := 0;
    }
  }

  lemma {:induction false} TrimRightSplits(s: string, drop: char -> bool) returns (k: nat)
    ensures k <= |s| && TrimRight(s, drop) == s[..k] && (forall i :: k <= i < |s| ==> drop(s[i]))
    ensures k > 0 ==> !drop(s[k - 1])
  {
    if s != "" && drop(s[|s| - 1]) {
      k := TrimRightSplits(s[..|s| - 1], drop);
      assert s[..|s| - 1][..k] == s[..k];
    } else {
      k := |s|;
    }
  }

  predicate EndsKept(s: string, drop: char -> bool) {
    s == "" || (!drop(s[0]) && !drop(s[|s| - 1]))
  }

  lemma StripKeepsEnds(s: string, drop: char -> bool)
    ensures EndsKept(Strip(s, drop), drop)
    ensures Strip(s, drop) == s <==> EndsKept(s, drop)
  {
    var i := TrimLeftSplits(s, drop);
    var k := TrimRightSplits(s[i..], drop);
  }

  // ---- splitlines and join ----

  /** Line boundaries of `str.splitlines`. */
  predicate IsBreak(c: char) {
    c == '\n' || c == '\r' || c == '\U{0B}' || c == '\U{0C}' || c == '\U{1C}' || c == '\U{1D}' || c == '\U{1E}'
    || c == '\U{85}' || c == '\U{2028}' || c == '\U{2029}'
  }

  /** Whitespace of `str.strip()`. */
  predicate IsSpace(c: char) {
    IsBreak(c) || c == ' ' || c == '\t' || c == '\U{1F}' || c == '\U{A0}' || c == '\U{1680}'
    || '\U{2000}' <= c <= '\U{200A}' || c == '\U{202F}' || c == '\U{205F}' || c == '\U{3000}'
  }

  predicate IsQuote(c: char) { c == '"' || c == '\'' }

  predicate NoBreaks(s: string) {
    forall i :: 0 <= i < |s| ==> !IsBreak(s[i])
  }

  /** Number of characters before the first line boundary. */
  function LineLength(s: string): (n: nat)
    ensures n <= |s| && NoBreaks(s[..n]) && (n < |s| ==> IsBreak(s[n]))
  {
    if s == "" || IsBreak(s[0]) then 0
    else
      var n := 1 + LineLength(s[1..]);
      assert s[..n] == [s[0]] + s[1..][..n - 1];
      n
  }

  /** `str.splitlines()`; a carriage return with its line feed is one boundary. */
  function SplitLines(s: string): (lines: seq<string>)
    ensures forall i :: 0 <= i < |lines| ==> NoBreaks(lines[i])
    decreases |s|
  {
    if s == "" then []
    else
      var n := LineLength(s);
      if n == |s| then [s[..n]]
      else
        var width := if s[n] == '\r' && n + 1 < |s| && s[n + 1] == '\n' then 2 else 1;
        [s[..n]] + SplitLines(s[n + width..])
  }

  /** Every line followed by a line feed: `"\n".join(lines) + "\n"` for a
      nonempty list. */
  function JoinLines(lines: seq<string>): string {
    if lines == [] then "" else lines[0] + "\n" + JoinLines(lines[1..])
  }

  lemma LineLengthUnique(s: string, n: nat)
    requires n <= |s| && NoBreaks(s[..n]) && (n < |s| ==> IsBreak(s[n]))
    ensures LineLength(s) == n
  {
    var m := LineLength(s);
    assert forall i :: 0 <= i < n ==> s[i] == s[..n][i];
    assert forall i :: 0 <= i < m ==> s[i] == s[..m][i];
  }

  /** Splitting undoes joining, for lines that are lines. */
  lemma {:induction false} SplitJoin(lines: seq<string>)
    requires forall i :: 0 <= i < |lines| ==> NoBreaks(lines[i])
    ensures SplitLines(JoinLines(lines)) == lines
  {
    if lines != [] {
      var rest := JoinLines(lines[1..]);
      var s := lines[0] + "\n" + rest;
      assert s[..|lines[0]|] == lines[0];
      LineLengthUnique(s, |lines[0]|);
      assert s[|lines[0]| + 1..] == rest;
      SplitJoin(lines[1..]);
    }
  }

  /** A line ends at its first boundary; a carriage return with its line feed is one. */
  lemma SplitFirst(line: string, ending: string, rest: string)
    requires NoBreaks(line)
    requires || ending == "\r\n"
             || (|ending| == 1 && IsBreak(ending[0]) && (ending == "\r" ==> rest == "" || rest[0] != '\n'))
    ensures SplitLines(line + ending + rest) == [line] + SplitLines(rest)
  {
    var s := line + ending + rest;
    assert s[..|line|] == line && s[|line|] == ending[0];
    LineLengthUnique(s, |line|);
    assert s[|line| + |ending|..] == rest;
    assert ending == "\r\n" ==> s[|line| + 1] == '\n';
    assert ending == "\r" && rest != "" ==> s[|line| + 1] == rest[0];
  }

  lemma SplitOnly(line: string)
    requires NoBreaks(line)
    ensures SplitLines(line) == if line == "" then [] else [line]
  {
    assert line[..|line|] == line;
    LineLengthUnique(line, |line|);
  }

  // ---- decimal text of an integer ----

  function Digit(d: nat): char
    requires d < 10
  {
    "0123456789"[d]
  }

  function NatText(n: nat): (s: string)
    ensures s != ""
    ensures forall i :: 0 <= i < |s| ==> '0' <= s[i] <= '9'
  {
    if n < 10 then [Digit(n)] else NatText(n / 10) + [Digit(n % 10)]
  }

  function IntText(n: int): string {
    if n < 0 then "-" + NatText(-n) else NatText(n)
  }

  lemma NatTextShort(n: nat)
    ensures |NatText(n)| == 1 <==> n < 10
  {
  }

  lemma {:induction false} NatTextInjective(m: nat, n: nat)
    requires NatText(m) == NatText(n)
    ensures m == n
  {
    var s, t := NatText(m), NatText(n);
    NatTextShort(m);
    NatTextShort(n);
    if m >= 10 {
      assert s[..|s| - 1] == NatText(m / 10) && t[..|t| - 1] == NatText(n / 10);
      NatTextInjective(m / 10, n / 10);
      assert s[|s| - 1] == Digit(m % 10) && t[|t| - 1] == Digit(n % 10);
    }
  }

  lemma IntTextInjective(m: int, n: int)
    requires IntText(m) == IntText(n)
    ensures m == n
  {
    assert m < 0 <==> IntText(m)[0] == '-';
    assert n < 0 <==> IntText(n)[0] == '-';
    if m < 0 {
      assert NatText(-m) == IntText(m)[1..] && NatText(-n) == IntText(n)[1..];
      NatTextInjective(-m, -n);
    } else {
      NatTextInjective(m, n);
    }
  }
}
