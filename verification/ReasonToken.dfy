/** The sanitiser that turns any reason into a short stable token
    (scripts/v2_phase2_direct_read_acceptance.py). `upper` stands for
    `str.upper` on full Unicode text. */
module ReasonToken {
  import opened Wrappers
  import opened Texts

  const REASON_MAX_LENGTH := 64
  const UNSPECIFIED := "UNSPECIFIED"

  predicate IsUnderscore(c: char) { c == '_' }

  predicate InVocabulary(c: char) { 'A' <= c <= 'Z' || '0' <= c <= '9' || c == '_' }

  function Mapped(text: string): (r: string)
    ensures |r| == |text| && forall i :: 0 <= i < |r| ==> InVocabulary(r[i])
  {
    seq(|text|, i requires 0 <= i < |text| => if InVocabulary(text[i]) then text[i] else '_')
  }

  /** `"__" in s`. */
  predicate HasDouble(s: string) {
    exists i :: 0 <= i < |s| - 1 && DoubleAt(s, i)
  }

  predicate DoubleAt(s: string, i: nat)
    requires i < |s| - 1
  {
    s[i] == '_' && s[i + 1] == '_'
  }

  /** `s.replace("__", "_")`: left to right, without overlap. */
  function ReplaceDouble(s: string): string {
    if |s| < 2 then s
    else if s[0] == '_' && s[1] == '_' then "_" + ReplaceDouble(s[2..])
    else [s[0]] + ReplaceDouble(s[1..])
  }

  /** Every run of underscores becomes one. */
  function Collapse(s: string): string {
    if |s| < 2 then s
    else if s[0] == '_' && s[1] == '_' then Collapse(s[1..])
    else [s[0]] + Collapse(s[1..])
  }

  /** The characters other than underscores, in order. */
  function Letters(s: string): string {
    if s == "" then "" else if s[0] == '_' then Letters(s[1..]) else [s[0]] + Letters(s[1..])
  }

  lemma {:induction false} ReplaceShortens(s: string)
    ensures |ReplaceDouble(s)| <= |s|
    ensures HasDouble(s) ==> |ReplaceDouble(s)| < |s|
    decreases |s|
  {
    if |s| >= 2 {
      if s[0] == '_' && s[1] == '_' {
        ReplaceShortens(s[2..]);
      } else {
        ReplaceShortens(s[1..]);
        if HasDouble(s) {
          var i :| 0 <= i < |s| - 1 && DoubleAt(s, i);
          assert DoubleAt(s[1..], i - 1);
        }
      }
    }
  }

  lemma {:induction false} ReplaceKeepsFirst(s: string)
    ensures (s == "" <==> ReplaceDouble(s) == "") && (s != "" ==> ReplaceDouble(s)[0] == s[0])
  {
  }

  /** One rewriting step does not change what the runs collapse to. */
  lemma {:induction false} ReplaceThenCollapse(s: string)
    ensures Collapse(ReplaceDouble(s)) == Collapse(s)
    decreases |s|
  {
    if |s| >= 2 {
      var rest := if s[0] == '_' && s[1] == '_' then s[2..] else s[1..];
      ReplaceThenCollapse(rest);
      ReplaceKeepsFirst(rest);
      var r := ReplaceDouble(s);
      assert r == [s[0]] + ReplaceDouble(rest);
      assert r[1..] == ReplaceDouble(rest);
      if s[0] == '_' && s[1] == '_' {
        CollapsePrepend(rest);
        CollapsePrepend(ReplaceDouble(rest));
        assert s[1..] == "_" + rest;
      }
    }
  }

  lemma {:induction false} CollapsePrepend(s: string)
    ensures Collapse("_" + s) == if s != "" && s[0] == '_' then Collapse(s) else "_" + Collapse(s)
  {
    assert ("_" + s)[1..] == s;
  }

  lemma {:induction false} CollapseFixed(s: string)
    requires !HasDouble(s)
    ensures Collapse(s) == s
    decreases |s|
  {
    if |s| >= 2 {
      assert !DoubleAt(s, 0);
      forall i | 0 <= i < |s[1..]| - 1 ensures !DoubleAt(s[1..], i) {
        assert !DoubleAt(s, i + 1);
      }
      CollapseFixed(s[1..]);
    }
  }

  lemma {:induction false} CollapseClean(s: string)
    ensures !HasDouble(Collapse(s))
    ensures (s == "" <==> Collapse(s) == "")
        && (s != "" ==> Collapse(s)[0] == s[0] && Collapse(s)[|Collapse(s)| - 1] == s[|s| - 1])
    ensures Letters(Collapse(s)) == Letters(s)
    ensures (forall i :: 0 <= i < |s| ==> InVocabulary(s[i])) ==>
              forall i :: 0 <= i < |Collapse(s)| ==> InVocabulary(Collapse(s)[i])
    decreases |s|
  {
    if |s| >= 2 {
      CollapseClean(s[1..]);
      if !(s[0] == '_' && s[1] == '_') {
        assert Collapse(s)[1..] == Collapse(s[1..]);
        forall i | 0 <= i < |Collapse(s)| - 1 ensures !DoubleAt(Collapse(s), i) {
          if i > 0 { assert !DoubleAt(Collapse(s[1..]), i - 1); }
        }
      }
    }
  }

  /** What the sanitiser computes, with the rewriting loop replaced by one pass. */
  function Token(text: string, upper: string -> string): string {
    var t := Collapse(Strip(Mapped(upper(text)), IsUnderscore));
    var cut := Strip(if |t| <= REASON_MAX_LENGTH then t else t[..REASON_MAX_LENGTH], IsUnderscore);
    if cut == "" then UNSPECIFIED else cut
  }

  method SanitizeReason(value: Option<string>, upper: string -> string) returns (r: string)
    ensures r == Token(if value.Some? then value.value else "", upper)
  {
    var text := if value.Some? then value.value else "";
    var normalized := Strip(Mapped(upper(text)), IsUnderscore);
    ghost var whole := normalized;
    while HasDouble(normalized)
      invariant Collapse(normalized) == Collapse(whole)
      decreases |normalized|
    {
      ReplaceShortens(normalized);
      ReplaceThenCollapse(normalized);
      normalized := ReplaceDouble(normalized);
    }
    CollapseFixed(normalized);
    normalized := Strip(if |normalized| <= REASON_MAX_LENGTH then normalized else normalized[..REASON_MAX_LENGTH],
                        IsUnderscore);
    r := if normalized == "" then UNSPECIFIED else normalized;
  }

  /** `^[A-Z0-9_]{1,64}$` with no leading, trailing or doubled underscore. */
  ghost predicate IsToken(r: string) {
    && 1 <= |r| <= REASON_MAX_LENGTH
    && (forall i :: 0 <= i < |r| ==> InVocabulary(r[i]))
    && EndsKept(r, IsUnderscore)
    && !HasDouble(r)
  }

  lemma {:induction false} LettersAppend(a: string, b: string)
    ensures Letters(a + b) == Letters(a) + Letters(b)
  {
    if a == "" {
      assert a + b == b;
    } else {
      assert (a + b)[1..] == a[1..] + b;
      LettersAppend(a[1..], b);
    }
  }

  lemma {:induction false} LettersOfUnderscores(s: string)
    requires forall i :: 0 <= i < |s| ==> s[i] == '_'
    ensures Letters(s) == ""
  {
    if s != "" { LettersOfUnderscores(s[1..]); }
  }

  /** Stripping underscores leaves a part of the text with the same letters. */
  lemma TrimLeftLetters(s: string) returns (i: nat)
    ensures i <= |s| && TrimLeft(s, IsUnderscore) == s[i..]
    ensures Letters(s[i..]) == Letters(s)
  {
    i := TrimLeftSplits(s, IsUnderscore);
    assert s == s[..i] + s[i..];
    LettersOfUnderscores(s[..i]);
    LettersAppend(s[..i], s[i..]);
  }

  lemma TrimRightLetters(s: string) returns (k: nat)
    ensures k <= |s| && TrimRight(s, IsUnderscore) == s[..k]
    ensures Letters(s[..k]) == Letters(s)
  {
    k := TrimRightSplits(s, IsUnderscore);
    assert s == s[..k] + s[k..];
    LettersOfUnderscores(s[k..]);
    LettersAppend(s[..k], s[k..]);
  }

  lemma StripUnderscores(s: string) returns (i: nat, j: nat)
    ensures i <= j <= |s| && Strip(s, IsUnderscore) == s[i..j]
    ensures Letters(Strip(s, IsUnderscore)) == Letters(s)
  {
    i := TrimLeftLetters(s);
    var k := TrimRightLetters(s[i..]);
    j := i + k;
    assert s[i..][..k] == s[i..j];
  }

  ghost predicate AllInVocabulary(s: string) {
    forall i :: 0 <= i < |s| ==> InVocabulary(s[i])
  }

  lemma PartIsClean(s: string, i: nat, j: nat)
    requires i <= j <= |s| && !HasDouble(s) && AllInVocabulary(s)
    ensures !HasDouble(s[i..j]) && AllInVocabulary(s[i..j])
  {
    forall k | 0 <= k < j - i - 1 ensures !DoubleAt(s[i..j], k) {
      assert !DoubleAt(s, i + k);
    }
  }

  /** Cutting to the maximum length and stripping again. */
  lemma CutIsToken(t: string, cut: string)
    requires !HasDouble(t) && AllInVocabulary(t)
    requires cut == Strip(if |t| <= REASON_MAX_LENGTH then t else t[..REASON_MAX_LENGTH], IsUnderscore)
    ensures cut != "" ==> IsToken(cut)
    ensures Letters(cut) <= Letters(t)
  {
    var head := if |t| <= REASON_MAX_LENGTH then t else t[..REASON_MAX_LENGTH];
    var i, j := StripUnderscores(head);
    StripKeepsEnds(head, IsUnderscore);
    assert head[i..j] == t[i..j];
    PartIsClean(t, i, j);
    assert t == head + t[|head|..];
    LettersAppend(head, t[|head|..]);
  }

  lemma UnspecifiedIsToken()
    ensures IsToken(UNSPECIFIED)
  {
    assert forall i :: 0 <= i < |UNSPECIFIED| - 1 ==> !DoubleAt(UNSPECIFIED, i);
  }

  /** Main result: always a token, and its letters are a prefix of the reason's. */
  lemma {:induction false} TokenIsToken(text: string, upper: string -> string)
    ensures IsToken(Token(text, upper))
    ensures Token(text, upper) == UNSPECIFIED || Letters(Token(text, upper)) <= Letters(Mapped(upper(text)))
  {
    var m := Mapped(upper(text));
    var i, j := StripUnderscores(m);
    var stripped := Strip(m, IsUnderscore);
    var t := Collapse(stripped);
    CollapseClean(stripped);
    assert AllInVocabulary(stripped);
    CutIsToken(t, Strip(if |t| <= REASON_MAX_LENGTH then t else t[..REASON_MAX_LENGTH], IsUnderscore));
    UnspecifiedIsToken();
  }

  /** A token passes through unchanged, so sanitising twice is sanitising once. */
  lemma {:induction false} TokenFixed(r: string, upper: string -> string)
    requires IsToken(r) && upper(r) == r
    ensures Token(r, upper) == r
  {
    assert Mapped(r) == r;
    StripKeepsEnds(r, IsUnderscore);
    CollapseFixed(r);
  }

  lemma TokenIdempotent(text: string, upper: string -> string)
    requires forall r :: IsToken(r) ==> upper(r) == r
    ensures Token(Token(text, upper), upper) == Token(text, upper)
  {
    TokenIsToken(text, upper);
    TokenFixed(Token(text, upper), upper);
  }

  // ---- which token ----

  lemma MappedAt(text: string, i: nat)
    requires i < |text|
    ensures Mapped(text)[i] == if InVocabulary(text[i]) then text[i] else '_'
  {
  }

  /** The words between underscores, in order. */
  function Words(s: string): (ws: seq<string>)
    ensures s != "" && s[0] != '_' ==> ws != []
  {
    if s == "" then []
    else if s[0] == '_' then Words(s[1..])
    else if |s| > 1 && s[1] != '_' then
      var rest := Words(s[1..]);
      [[s[0]] + rest[0]] + rest[1..]
    else [[s[0]]] + Words(s[1..])
  }

  /** `"_".join(words)`. */
  function JoinWords(ws: seq<string>): string {
    if ws == [] then "" else if |ws| == 1 then ws[0] else ws[0] + "_" + JoinWords(ws[1..])
  }

  lemma {:induction false} CollapseKeepsWords(s: string)
    ensures Words(Collapse(s)) == Words(s)
    decreases |s|
  {
    if |s| >= 2 {
      CollapseKeepsWords(s[1..]);
      CollapseClean(s[1..]);
      if !(s[0] == '_' && s[1] == '_') {
        assert Collapse(s)[1..] == Collapse(s[1..]);
      }
    }
  }

  lemma {:induction false} TrimLeftKeepsWords(s: string)
    ensures Words(TrimLeft(s, IsUnderscore)) == Words(s)
  {
    if s != "" && s[0] == '_' { TrimLeftKeepsWords(s[1..]); }
  }

  lemma {:induction false} LastUnderscore(s: string)
    ensures Words(s + "_") == Words(s)
  {
    if s != "" {
      assert (s + "_")[1..] == s[1..] + "_";
      LastUnderscore(s[1..]);
    } else {
      assert ("_")[1..] == "";
    }
  }

  lemma {:induction false} TrimRightKeepsWords(s: string)
    ensures Words(TrimRight(s, IsUnderscore)) == Words(s)
    decreases |s|
  {
    if s != "" && s[|s| - 1] == '_' {
      assert s == s[..|s| - 1] + "_";
      LastUnderscore(s[..|s| - 1]);
      TrimRightKeepsWords(s[..|s| - 1]);
    }
  }

  lemma JoinCons(c: char, ws: seq<string>)
    requires ws != []
    ensures JoinWords([[c] + ws[0]] + ws[1..]) == [c] + JoinWords(ws)
  {
    var joined := [[c] + ws[0]] + ws[1..];
    assert joined[1..] == ws[1..];
  }

  /** Clean text is its words joined. */
  lemma {:induction false} CleanIsJoined(r: string)
    requires !HasDouble(r) && EndsKept(r, IsUnderscore)
    ensures JoinWords(Words(r)) == r
    decreases |r|
  {
    if |r| == 1 {
      assert r == [r[0]];
    } else if |r| > 1 && r[1] != '_' {
      TailClean(r, 1);
      CleanIsJoined(r[1..]);
      JoinCons(r[0], Words(r[1..]));
      assert r == [r[0]] + r[1..];
    } else if |r| > 1 {
      assert !DoubleAt(r, 1);
      TailClean(r, 2);
      CleanIsJoined(r[2..]);
      assert r[1..][1..] == r[2..];
      assert Words(r) == [[r[0]]] + Words(r[2..]);
      assert ([[r[0]]] + Words(r[2..]))[1..] == Words(r[2..]);
      assert r == [r[0]] + "_" + r[2..];
    }
  }

  lemma TailClean(r: string, k: nat)
    requires k < |r| && r[k] != '_' && !HasDouble(r) && EndsKept(r, IsUnderscore)
    ensures !HasDouble(r[k..]) && EndsKept(r[k..], IsUnderscore)
  {
    forall i | 0 <= i < |r[k..]| - 1 ensures !DoubleAt(r[k..], i) {
      assert !DoubleAt(r, k + i);
    }
  }

  /** The reason as words joined by single underscores. */
  function Phrase(text: string, upper: string -> string): string { JoinWords(Words(Mapped(upper(text)))) }

  lemma PhraseIsCollapsed(text: string, upper: string -> string)
    ensures Collapse(Strip(Mapped(upper(text)), IsUnderscore)) == Phrase(text, upper)
    ensures !HasDouble(Phrase(text, upper)) && EndsKept(Phrase(text, upper), IsUnderscore)
  {
    var m := Mapped(upper(text));
    var stripped := Strip(m, IsUnderscore);
    TrimLeftKeepsWords(m);
    TrimRightKeepsWords(TrimLeft(m, IsUnderscore));
    CollapseKeepsWords(stripped);
    StripKeepsEnds(m, IsUnderscore);
    CollapseClean(stripped);
    CleanIsJoined(Collapse(stripped));
  }

  /** Main result, exact: the token is the words of the reason, its letters and digits in
      capitals with anything else between them, joined by single underscores; cut to 64
      characters, and to 63 where the cut would end in an underscore; and UNSPECIFIED if
      there are none. */
  lemma TokenExact(text: string, upper: string -> string)
    ensures var phrase := Phrase(text, upper);
            Token(text, upper) ==
            if phrase == "" then "UNSPECIFIED"
            else if |phrase| <= 64 then phrase
            else if phrase[63] == '_' then phrase[..63]
            else phrase[..64]
  {
    var phrase := Phrase(text, upper);
    PhraseIsCollapsed(text, upper);
    StripKeepsEnds(phrase, IsUnderscore);
    if |phrase| > 64 {
      var cut := phrase[..64];
      assert TrimLeft(cut, IsUnderscore) == cut;
      if phrase[63] == '_' {
        assert !DoubleAt(phrase, 62);
        assert cut[..63] == phrase[..63];
        assert TrimRight(phrase[..63], IsUnderscore) == phrase[..63];
      }
    }
  }
}
