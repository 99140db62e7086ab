/** The env-file reader and the one-line editor under secret rotation
    (src/hermes_mcp_bridge/secret_rotation.py). */
module EnvFile {
  import opened Wrappers
  import opened Texts

  // ---- the reader ----

  /** Number of characters before the first `=`; the length when there is none. */
  function EqualsAt(s: string): (n: nat)
    ensures n <= |s| && (forall i :: 0 <= i < n ==> s[i] != '=') && (n < |s| ==> s[n] == '=')
  {
    if s == "" || s[0] == '=' then 0 else 1 + EqualsAt(s[1..])
  }

  /** What one line contributes: a key and its value, or nothing. */
  function ParseLine(raw: string): Option<(string, string)> {
    var line := Strip(raw, IsSpace);
    var n := EqualsAt(line);
    if line == "" || line[0] == '#' || n == |line| then None
    else Some((Strip(line[..n], IsSpace), Strip(Strip(line[n + 1..], IsSpace), IsQuote)))
  }

  /** The value of the last line that parses to `key`. */
  function LastValue(lines: seq<string>, key: string): Option<string> {
    if lines == [] then None
    else
      var p := ParseLine(lines[|lines| - 1]);
      if p.Some? && p.value.0 == key then Some(p.value.1) else LastValue(lines[..|lines| - 1], key)
  }

  /** `_read_env_file`: an absent, unreadable or relative path reads as empty. */
  method ReadEnvFile(absolute: bool, text: Option<string>) returns (r: map<string, string>)
    ensures forall key :: key in r <==> absolute && text.Some? && LastValue(SplitLines(text.value), key).Some?
    ensures forall key :: key in r ==> LastValue(SplitLines(text.value), key) == Some(r[key])
  {
    r := map[];
    if !absolute || text.None? { return; }
    var lines := SplitLines(text.value);
    for i := 0 to |lines|
      invariant forall key :: key in r <==> LastValue(lines[..i], key).Some?
      invariant forall key :: key in r ==> LastValue(lines[..i], key) == Some(r[key])
    {
      assert lines[..i + 1][..i] == lines[..i];
      var p := ParseLine(lines[i]);
      if p.Some? { r := r[p.value.0 := p.value.1]; }
    }
    assert lines[..|lines|] == lines;
  }

  // ---- the editor ----

  function Assignment(key: string, value: string): string { key + "=" + value }

  /** Index of the first line that starts with the prefix, as a count. */
  function FirstWith(lines: seq<string>, prefix: string): (n: nat)
    ensures n <= |lines|
    ensures forall i :: 0 <= i < n ==> !(prefix <= lines[i])
    ensures n < |lines| ==> prefix <= lines[n]
  {
    if lines == [] || prefix <= lines[0] then 0 else 1 + FirstWith(lines[1..], prefix)
  }

  method FindKeyLineIndex(lines: seq<string>, prefix: string) returns (index: int)
    ensures -1 <= index < |lines|
    ensures index >= 0 ==> prefix <= lines[index] && forall i :: 0 <= i < index ==> !(prefix <= lines[i])
    ensures index == -1 ==> forall i :: 0 <= i < |lines| ==> !(prefix <= lines[i])
  {
    for i := 0 to |lines|
      invariant forall k :: 0 <= k < i ==> !(prefix <= lines[k])
    {
      if prefix <= lines[i] { return i; }
    }
    return -1;
  }

  function Edit(lines: seq<string>, key: string, value: string): seq<string> {
    var n := FirstWith(lines, key + "=");
    if n < |lines| then lines[n := Assignment(key, value)] else lines + [Assignment(key, value)]
  }

  function Rewrite(text: string, key: string, value: string): string {
    JoinLines(Edit(SplitLines(text), key, value))
  }

  method RewriteText(text: string, key: string, value: string) returns (r: string)
    ensures r == Rewrite(text, key, value)
  {
    var lines := SplitLines(text);
    var idx := FindKeyLineIndex(lines, key + "=");
    if idx >= 0 {
      lines := lines[idx := Assignment(key, value)];
    } else {
      lines := lines + [Assignment(key, value)];
    }
    r := JoinLines(lines);
  }

  // ---- what a KEY= line parses to ----

  /** A name that survives parsing; both rotated names do. */
  ghost predicate KeyName(key: string) {
    key != "" && NoBreaks(key) && EndsKept(key, IsSpace) && key[0] != '#' && EqualsAt(key) == |key|
  }

  predicate IsNameChar(c: char) { 'A' <= c <= 'Z' || c == '_' }

  lemma PlainNameIsKeyName(key: string)
    requires key != "" && forall i :: 0 <= i < |key| ==> IsNameChar(key[i])
    ensures KeyName(key)
  {
  }

  lemma ServerNameIsPlain()
    ensures forall i :: 0 <= i < |"API_SERVER_KEY"| ==> IsNameChar("API_SERVER_KEY"[i])
  {
  }

  lemma ClientNameIsPlain()
    ensures forall i :: 0 <= i < |"HERMES_API_KEY"| ==> IsNameChar("HERMES_API_KEY"[i])
  {
  }

  lemma RotatedNamesAreKeyNames()
    ensures KeyName("API_SERVER_KEY") && KeyName("HERMES_API_KEY")
  {
    ServerNameIsPlain();
    ClientNameIsPlain();
    PlainNameIsKeyName("API_SERVER_KEY");
    PlainNameIsKeyName("HERMES_API_KEY");
  }

  lemma {:induction false} TrimRightCons(c: char, s: string, drop: char -> bool)
    ensures TrimRight([c] + s, drop) == if TrimRight(s, drop) == "" && drop(c) then "" else [c] + TrimRight(s, drop)
    decreases |s|
  {
    if s != "" && drop(s[|s| - 1]) {
      assert ([c] + s)[..|s|] == [c] + s[..|s| - 1];
      TrimRightCons(c, s[..|s| - 1], drop);
    } else if s == "" {
      assert [c] + s == [c];
      assert TrimRight([c], drop) == if drop(c) then TrimRight([c][..0], drop) else [c];
    }
  }

  lemma {:induction false} TrimRightAppend(a: string, s: string, drop: char -> bool)
    requires a != "" && !drop(a[|a| - 1])
    ensures TrimRight(a + s, drop) == a + TrimRight(s, drop)
  {
    assert a + s == [a[0]] + (a[1..] + s);
    TrimRightCons(a[0], a[1..] + s, drop);
    if |a| == 1 {
      assert a[1..] + s == s;
    } else {
      TrimRightAppend(a[1..], s, drop);
      assert [a[0]] + (a[1..] + TrimRight(s, drop)) == a + TrimRight(s, drop);
    }
  }

  lemma {:induction false} StripAfterTrimRight(s: string, drop: char -> bool)
    ensures Strip(TrimRight(s, drop), drop) == Strip(s, drop)
  {
    if s != "" {
      assert s == [s[0]] + s[1..];
      TrimRightCons(s[0], s[1..], drop);
      StripAfterTrimRight(s[1..], drop);
      var t := TrimRight(s, drop);
      if t != "" {
        assert t[1..] == TrimRight(s[1..], drop);
        if !drop(s[0]) { TrimRightTwice(s, drop); }
      } else {
        assert TrimRight(s[1..], drop) == "";
      }
    }
  }

  lemma {:induction false} TrimRightTwice(s: string, drop: char -> bool)
    ensures TrimRight(TrimRight(s, drop), drop) == TrimRight(s, drop)
  {
    var k := TrimRightSplits(s, drop);
  }

  /** What the reader makes of a value. */
  function Bare(value: string): string { Strip(Strip(value, IsSpace), IsQuote) }

  lemma AssignmentParses(key: string, value: string)
    requires KeyName(key)
    ensures ParseLine(Assignment(key, value)) == Some((key, Bare(value)))
  {
    var a := key + "=";
    var line := a + TrimRight(value, IsSpace);
    assert TrimLeft(Assignment(key, value), IsSpace) == Assignment(key, value) == a + value;
    TrimRightAppend(a, value, IsSpace);
    assert Strip(Assignment(key, value), IsSpace) == line;
    EqualsAfterKey(key, TrimRight(value, IsSpace));
    assert line[..|key|] == key && line[|key| + 1..] == TrimRight(value, IsSpace);
    StripKeepsEnds(key, IsSpace);
    StripAfterTrimRight(value, IsSpace);
  }

  ghost predicate Blank(s: string) { forall i :: 0 <= i < |s| ==> IsSpace(s[i]) }

  lemma {:induction false} TrimLeftBlank(w: string, s: string)
    requires Blank(w)
    ensures TrimLeft(w + s, IsSpace) == TrimLeft(s, IsSpace)
  {
    if w == "" {
      assert w + s == s;
    } else {
      assert (w + s)[1..] == w[1..] + s;
      TrimLeftBlank(w[1..], s);
    }
  }

  lemma {:induction false} TrimRightBlank(s: string, w: string)
    requires Blank(w)
    ensures TrimRight(s + w, IsSpace) == TrimRight(s, IsSpace)
    decreases |w|
  {
    if w == "" {
      assert s + w == s;
    } else {
      assert (s + w)[..|s + w| - 1] == s + w[..|w| - 1];
      TrimRightBlank(s, w[..|w| - 1]);
    }
  }

  /** Main result about a line that sets a key: white space may stand before the key and
      between it and the `=`, and around the value, whose outer quotes go too. */
  lemma SpacedAssignmentParses(before: string, key: string, between: string, value: string)
    requires KeyName(key) && Blank(before) && Blank(between)
    ensures ParseLine(before + (key + between + "=" + value)) == Some((key, Bare(value)))
  {
    var a := key + between + "=";
    var line := a + TrimRight(value, IsSpace);
    TrimLeftBlank(before, a + value);
    assert TrimLeft(a + value, IsSpace) == a + value;
    TrimRightAppend(a, value, IsSpace);
    assert Strip(before + (a + value), IsSpace) == line;
    StrippedParses(before + (a + value), key, between, TrimRight(value, IsSpace));
    StripAfterTrimRight(value, IsSpace);
  }

  lemma StrippedParses(raw: string, key: string, between: string, rest: string)
    requires KeyName(key) && Blank(between) && Strip(raw, IsSpace) == key + between + "=" + rest
    ensures ParseLine(raw) == Some((key, Bare(rest)))
  {
    var line := Strip(raw, IsSpace);
    EqualsAfterBlank(key, between, rest);
    assert line[..|key + between|] == key + between && line[|key + between| + 1..] == rest;
    assert line[0] == key[0];
    KeyBeforeBlank(key, between);
  }

  lemma EqualsAfterBlank(key: string, between: string, rest: string)
    requires EqualsAt(key) == |key| && Blank(between)
    ensures EqualsAt(key + between + "=" + rest) == |key + between|
  {
    var s, n := key + between + "=" + rest, |key + between|;
    assert forall i :: 0 <= i < |key| ==> s[i] == key[i];
    assert forall i :: 0 <= i < |between| ==> s[|key| + i] == between[i];
    assert forall i :: 0 <= i < n ==> s[i] == if i < |key| then key[i] else between[i - |key|];
    assert s[n] == '=';
  }

  lemma KeyBeforeBlank(key: string, between: string)
    requires key != "" && EndsKept(key, IsSpace) && Blank(between)
    ensures Strip(key + between, IsSpace) == key
  {
    assert TrimLeft(key + between, IsSpace) == key + between;
    TrimRightBlank(key, between);
    StripKeepsEnds(key, IsSpace);
  }

  /** Comments, blank lines and lines without a `=` set nothing. */
  lemma OtherLinesParseToNothing(before: string, rest: string)
    requires Blank(before)
    ensures ParseLine(before + ("#" + rest)) == None && ParseLine(before) == None
    ensures '=' !in rest ==> ParseLine(rest) == None
  {
    var line := "#" + rest;
    TrimLeftBlank(before, line);
    assert TrimLeft(line, IsSpace) == line;
    TrimRightCons('#', rest, IsSpace);
    assert line == ['#'] + rest;
    TrimLeftBlank(before, "");
    assert before + "" == before;
    if '=' !in rest { StrippedHasNoEquals(rest); }
  }

  lemma StrippedHasNoEquals(s: string)
    requires '=' !in s
    ensures EqualsAt(Strip(s, IsSpace)) == |Strip(s, IsSpace)|
  {
    var i := TrimLeftSplits(s, IsSpace);
    var k := TrimRightSplits(s[i..], IsSpace);
  }

  lemma EqualsAfterKey(key: string, rest: string)
    requires EqualsAt(key) == |key|
    ensures EqualsAt(key + "=" + rest) == |key|
  {
    var s := key + "=" + rest;
    assert forall i :: 0 <= i < |key| ==> s[i] == key[i];
    assert s[|key|] == '=';
  }

  lemma PrefixedLineParses(line: string, key: string)
    requires KeyName(key) && key + "=" <= line
    ensures ParseLine(line).Some? && ParseLine(line).value.0 == key
  {
    var rest := line[|key| + 1..];
    assert line == (key + "=") + rest == Assignment(key, rest);
    AssignmentParses(key, rest);
  }

  // ---- rewriting and re-reading ----

  lemma {:induction false} LastValueAppend(a: seq<string>, b: seq<string>, key: string)
    ensures LastValue(a + b, key) == if LastValue(b, key).Some? then LastValue(b, key) else LastValue(a, key)
    decreases |b|
  {
    if b == [] {
      assert a + b == a;
    } else {
      assert (a + b)[..|a + b| - 1] == a + b[..|b| - 1];
      LastValueAppend(a, b[..|b| - 1], key);
    }
  }

  lemma LastValueOne(line: string, key: string)
    ensures LastValue([line], key) ==
            if ParseLine(line).Some? && ParseLine(line).value.0 == key then Some(ParseLine(line).value.1) else None
  {
    assert [line][..0] == [];
  }

  /** The lines after the edited one. */
  function LinesAfterEdit(lines: seq<string>, key: string): seq<string> {
    var n := FirstWith(lines, key + "=");
    if n < |lines| then lines[n + 1..] else []
  }

  /** What any key reads after the edit. */
  lemma EditReadsAny(lines: seq<string>, key: string, value: string, k: string)
    requires KeyName(key)
    ensures var later := LastValue(LinesAfterEdit(lines, key), k);
            LastValue(Edit(lines, key, value), k) ==
            if later.Some? then later else if k == key then Some(Bare(value))
            else LastValue(lines[..FirstWith(lines, key + "=")], k)
  {
    var n := FirstWith(lines, key + "=");
    var added := [Assignment(key, value)];
    AssignmentParses(key, value);
    LastValueOne(Assignment(key, value), k);
    assert Edit(lines, key, value) == lines[..n] + added + LinesAfterEdit(lines, key);
    LastValueAppend(lines[..n] + added, LinesAfterEdit(lines, key), k);
    LastValueAppend(lines[..n], added, k);
  }

  /** What any other key read before. */
  lemma LinesRead(lines: seq<string>, key: string, other: string)
    requires KeyName(key) && other != key
    ensures var later := LastValue(LinesAfterEdit(lines, key), other);
            LastValue(lines, other)
            == if later.Some? then later else LastValue(lines[..FirstWith(lines, key + "=")], other)
  {
    var n := FirstWith(lines, key + "=");
    if n < |lines| {
      PrefixedLineParses(lines[n], key);
      LastValueOne(lines[n], other);
      assert lines == lines[..n] + [lines[n]] + lines[n + 1..];
      LastValueAppend(lines[..n] + [lines[n]], lines[n + 1..], other);
      LastValueAppend(lines[..n], [lines[n]], other);
    } else {
      assert lines[..n] == lines;
    }
  }

  lemma EditReads(lines: seq<string>, key: string, value: string, other: string)
    requires KeyName(key)
    ensures other != key ==> LastValue(Edit(lines, key, value), other) == LastValue(lines, other)
    ensures var later := LastValue(LinesAfterEdit(lines, key), key);
            LastValue(Edit(lines, key, value), key) == if later.Some? then later else Some(Bare(value))
  {
    EditReadsAny(lines, key, value, key);
    if other != key {
      EditReadsAny(lines, key, value, other);
      LinesRead(lines, key, other);
    }
  }

  lemma EditKeepsLines(lines: seq<string>, key: string, value: string)
    requires NoBreaks(key) && NoBreaks(value) && forall i :: 0 <= i < |lines| ==> NoBreaks(lines[i])
    ensures forall i :: 0 <= i < |Edit(lines, key, value)| ==> NoBreaks(Edit(lines, key, value)[i])
  {
    assert NoBreaks(Assignment(key, value)) by {
      var s := key + "=" + value;
      forall i | 0 <= i < |s| ensures !IsBreak(s[i]) {
        assert s[i] == if i < |key| then key[i] else if i == |key| then '=' else value[i - |key| - 1];
      }
    }
  }

  /** The lines of a rewritten text are the edited lines. */
  lemma RewriteLines(text: string, key: string, value: string)
    requires NoBreaks(key) && NoBreaks(value)
    ensures SplitLines(Rewrite(text, key, value)) == Edit(SplitLines(text), key, value)
  {
    EditKeepsLines(SplitLines(text), key, value);
    SplitJoin(Edit(SplitLines(text), key, value));
  }

  /** Main result: every other key reads as before, for a one-line value. */
  lemma OtherKeysUnchanged(text: string, key: string, value: string, other: string)
    requires KeyName(key) && NoBreaks(value) && other != key
    ensures LastValue(SplitLines(Rewrite(text, key, value)), other) == LastValue(SplitLines(text), other)
  {
    RewriteLines(text, key, value);
    EditReads(SplitLines(text), key, value, other);
  }

  /** A value that reads back as itself: one line, no whitespace or quotes around it. */
  ghost predicate CleanValue(value: string) {
    NoBreaks(value) && EndsKept(value, IsSpace) && EndsKept(value, IsQuote)
  }

  lemma BareFixed(value: string)
    ensures Bare(value) == value <==> EndsKept(value, IsSpace) && EndsKept(value, IsQuote)
  {
    StripKeepsEnds(value, IsSpace);
    StripKeepsEnds(value, IsQuote);
    StripShortens(value, IsSpace);
    StripShortens(Strip(value, IsSpace), IsQuote);
  }

  lemma StripShortens(s: string, drop: char -> bool)
    ensures |Strip(s, drop)| <= |s|
    ensures |Strip(s, drop)| == |s| ==> Strip(s, drop) == s
    ensures NoBreaks(s) ==> NoBreaks(Strip(s, drop))
  {
    var i := TrimLeftSplits(s, drop);
    var k := TrimRightSplits(s[i..], drop);
  }

  lemma ParsedValueIsLine(raw: string)
    requires NoBreaks(raw)
    ensures ParseLine(raw).Some? ==> NoBreaks(ParseLine(raw).value.1)
  {
    var line := Strip(raw, IsSpace);
    StripShortens(raw, IsSpace);
    var n := EqualsAt(line);
    if n < |line| {
      StripShortens(line[n + 1..], IsSpace);
      StripShortens(Strip(line[n + 1..], IsSpace), IsQuote);
    }
  }

  lemma {:induction false} ReadValuesAreLines(lines: seq<string>, key: string)
    requires forall i :: 0 <= i < |lines| ==> NoBreaks(lines[i])
    ensures LastValue(lines, key).Some? ==> NoBreaks(LastValue(lines, key).value)
  {
    if lines != [] {
      ReadValuesAreLines(lines[..|lines| - 1], key);
      ParsedValueIsLine(lines[|lines| - 1]);
    }
  }

  /** Main result, exact for every text and value: re-reading gives the new value
      when it is clean and no line after the edited one also sets the key, or when
      the last such line happens to set that very value; never otherwise. */
  lemma RereadGivesNewValue(text: string, key: string, value: string)
    requires KeyName(key)
    ensures var later := LastValue(LinesAfterEdit(SplitLines(text), key), key);
            LastValue(SplitLines(Rewrite(text, key, value)), key) == Some(value)
            <==> (later.None? && CleanValue(value)) || later == Some(value)
  {
    var after := LinesAfterEdit(SplitLines(text), key);
    ReadValuesAreLines(after, key);
    ReadValuesAreLines(SplitLines(Rewrite(text, key, value)), key);
    if NoBreaks(value) {
      RewriteLines(text, key, value);
      EditReads(SplitLines(text), key, value, key);
      BareFixed(value);
    }
  }

  lemma SpacedLineParses()
    ensures ParseLine("K =2") == Some(("K", "2"))
  {
    var raw := "K =2";
    StripKeepsEnds(raw, IsSpace);
    assert raw[1..] == " =2" && raw[1..][1..] == "=2";
    assert EqualsAt(raw) == 2 && raw[..2] == "K " && raw[3..] == "2";
    assert "K "[..1] == "K" && TrimRight("K ", IsSpace) == TrimRight("K", IsSpace) == "K";
    StripKeepsEnds("2", IsSpace);
    StripKeepsEnds("2", IsQuote);
  }

  lemma SpacedLineIsAfter()
    ensures LinesAfterEdit(["K=1", "K =2"], "K") == ["K =2"]
  {
    var lines := ["K=1", "K =2"];
    assert "K" + "=" == "K=" && "K=" <= lines[0];
  }

  /** A later line with space before the `=` is not found by the editor and wins. */
  lemma LaterLineWins()
    ensures LastValue(LinesAfterEdit(["K=1", "K =2"], "K"), "K") == Some("2")
    ensures LastValue(Edit(["K=1", "K =2"], "K", "3"), "K") == Some("2")
  {
    SpacedLineIsAfter();
    SpacedLineParses();
    LastValueOne("K =2", "K");
    EditReads(["K=1", "K =2"], "K", "3", "K");
  }

  /** Main result: rewriting twice is rewriting once, for a one-line value. */
  lemma RewriteIdempotent(text: string, key: string, value: string)
    requires NoBreaks(key) && NoBreaks(value)
    ensures Rewrite(Rewrite(text, key, value), key, value) == Rewrite(text, key, value)
  {
    var lines := SplitLines(text);
    var once := Edit(lines, key, value);
    var n := FirstWith(lines, key + "=");
    RewriteLines(text, key, value);
    assert once[n] == (key + "=") + value;
    assert forall i :: 0 <= i < n ==> once[i] == lines[i];
    assert FirstWith(once, key + "=") == n;
    assert Edit(once, key, value) == once;
  }
}
