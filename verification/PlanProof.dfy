/** The proof that binds a rotation plan token to the content of its plan
    (src/hermes_mcp_bridge/_rotation_plans.py). Times are monotonic-clock readings
    in microseconds. */
module PlanProof {
  import opened Wrappers
  import opened Sorting
  import opened Texts

  /** The canonical content of a plan. */
  datatype Content = Content(
    key: string, newValue: Option<string>, paths: seq<string>, digests: seq<string>,
    activeRuns: int, requiresRestart: bool)

  /** SHA-256 of a secret or value, and the truncated SHA-256 a token is. */
  datatype Hashes = Hashes(digest: string -> string, token: string -> string)

  ghost predicate Ideal(h: Hashes) {
    && (forall a, b {:trigger h.digest(a), h.digest(b)} :: h.digest(a) == h.digest(b) ==> a == b)
    && (forall a, b {:trigger h.token(a), h.token(b)} :: h.token(a) == h.token(b) ==> a == b)
    && (forall a :: h.digest(a) != "none" && OneLine(h.digest(a)))
  }

  ghost predicate OneLine(s: string) { '\n' !in s }

  function Tagged(tag: string, values: seq<string>): (r: seq<string>)
    ensures |r| == |values| && forall i :: 0 <= i < |r| ==> r[i] == tag + values[i]
  {
    seq(|values|, i requires 0 <= i < |values| => tag + values[i])
  }

  /** `f"{t:.6f}"` for a reading of `t` microseconds. */
  function Fixed6(t: nat): string {
    NatText(t / 1_000_000) + "." + NatText(1_000_000 + t % 1_000_000)[1..]
  }

  function HashOrNone(h: Hashes, value: Option<string>): string {
    if value.None? then "none" else h.digest(value.value)
  }

  /** The lines after the paths and digests. */
  function Tail(h: Hashes, c: Content, nonce: string, created: nat, secret: Option<string>): (r: seq<string>)
    ensures |r| == 6
  {
    ["new=" + HashOrNone(h, c.newValue), "runs=" + IntText(c.activeRuns),
     "restart=" + (if c.requiresRestart then "1" else "0"), "nonce=" + nonce,
     "created_at=" + Fixed6(created), "hmac=" + HashOrNone(h, secret)]
  }

  function Head(c: Content): seq<string> { ["rotation-plan-v1", "key=" + c.key] }

  function Body(c: Content): seq<string> {
    Tagged("path=", SortBy(c.paths, Itself)) + Tagged("src=", SortBy(c.digests, Itself))
  }

  /** The tagged lines fed to the hash. */
  function Lines(h: Hashes, c: Content, nonce: string, created: nat, secret: Option<string>): seq<string> {
    Head(c) + Body(c) + Tail(h, c, nonce, created, secret)
  }

  function ContentProof(h: Hashes, c: Content, nonce: string, created: nat, secret: Option<string>): string {
    h.token(JoinLines(Lines(h, c, nonce, created, secret)))
  }

  /** One loop of the feed. */
  method FeedTagged(fed: seq<string>, tag: string, values: seq<string>) returns (r: seq<string>)
    ensures r == fed + Tagged(tag, values)
  {
    r := fed;
    for i := 0 to |values|
      invariant r == fed + Tagged(tag, values)[..i]
    {
      assert Tagged(tag, values)[..i + 1] == Tagged(tag, values)[..i] + [tag + values[i]];
      r := r + [tag + values[i]];
    }
    assert Tagged(tag, values)[..|values|] == Tagged(tag, values);
  }

  /** The same feed, line by line and loop by loop. */
  method HashContent(h: Hashes, c: Content, nonce: string, created: nat, secret: Option<string>) returns (proof: string)
    ensures proof == ContentProof(h, c, nonce, created, secret)
  {
    var withPaths := FeedTagged(Head(c), "path=", SortBy(c.paths, Itself));
    var fed := FeedTagged(withPaths, "src=", SortBy(c.digests, Itself));
    Regroup(Head(c), Tagged("path=", SortBy(c.paths, Itself)), Tagged("src=", SortBy(c.digests, Itself)));
    proof := h.token(JoinLines(fed + Tail(h, c, nonce, created, secret)));
  }

  lemma Regroup(a: seq<string>, b: seq<string>, c: seq<string>)
    ensures a + b + c == a + (b + c)
  {
  }

  /** The same plan, whatever the order of its paths and of its digests. */
  ghost predicate SameContent(c: Content, d: Content) {
    && c.key == d.key && c.newValue == d.newValue
    && multiset(c.paths) == multiset(d.paths) && multiset(c.digests) == multiset(d.digests)
    && c.activeRuns == d.activeRuns && c.requiresRestart == d.requiresRestart
  }

  ghost predicate PlainContent(c: Content) {
    && OneLine(c.key) && (forall p :: p in c.paths ==> OneLine(p)) && (forall d :: d in c.digests ==> OneLine(d))
  }

  lemma {:induction false} JoinLinesInjective(a: seq<string>, b: seq<string>)
    requires AllOneLine(a) && AllOneLine(b)
    requires JoinLines(a) == JoinLines(b)
    ensures a == b
    decreases |a|
  {
    if a != [] && b != [] {
      var s, t := JoinLines(a), JoinLines(b);
      assert s == a[0] + "\n" + JoinLines(a[1..]) && t == b[0] + "\n" + JoinLines(b[1..]);
      assert s[|a[0]|] == '\n' && t[|b[0]|] == '\n';
      assert forall i :: 0 <= i < |a[0]| ==> s[i] == a[0][i] && a[0][i] != '\n';
      assert forall i :: 0 <= i < |b[0]| ==> t[i] == b[0][i] && b[0][i] != '\n';
      assert |a[0]| == |b[0]|;
      assert a[0] == s[..|a[0]|] && b[0] == t[..|b[0]|];
      assert JoinLines(a[1..]) == s[|a[0]| + 1..] && JoinLines(b[1..]) == t[|b[0]| + 1..];
      JoinLinesInjective(a[1..], b[1..]);
      assert a == [a[0]] + a[1..] && b == [b[0]] + b[1..];
    }
  }

  ghost predicate AllOneLine(xs: seq<string>) {
    forall i :: 0 <= i < |xs| ==> OneLine(xs[i])
  }

  lemma {:induction false} DigitsOneLine(n: nat)
    ensures OneLine(NatText(n))
  {
  }

  lemma TaggedOneLine(tag: string, values: seq<string>)
    requires OneLine(tag) && forall v :: v in values ==> OneLine(v)
    ensures AllOneLine(Tagged(tag, SortBy(values, Itself)))
  {
    var sorted := SortBy(values, Itself);
    forall i | 0 <= i < |sorted| ensures OneLine(tag + sorted[i]) {
      assert sorted[i] in multiset(sorted);
      assert sorted[i] in values;
    }
  }

  lemma LinesAreLines(h: Hashes, c: Content, nonce: string, created: nat, secret: Option<string>)
    requires Ideal(h) && PlainContent(c) && OneLine(nonce)
    ensures AllOneLine(Lines(h, c, nonce, created, secret))
  {
    BodyIsLines(c);
    HeadIsLines(c);
    TailIsLines(h, c, nonce, created, secret);
    OneLineAppend(Head(c), Body(c));
    OneLineAppend(Head(c) + Body(c), Tail(h, c, nonce, created, secret));
  }

  lemma HeadIsLines(c: Content)
    requires OneLine(c.key)
    ensures AllOneLine(Head(c))
  {
    assert OneLine("rotation-plan-v1") && OneLine("key=");
  }

  lemma BodyIsLines(c: Content)
    requires PlainContent(c)
    ensures AllOneLine(Body(c))
  {
    TaggedOneLine("path=", c.paths);
    TaggedOneLine("src=", c.digests);
    OneLineAppend(Tagged("path=", SortBy(c.paths, Itself)), Tagged("src=", SortBy(c.digests, Itself)));
  }

  lemma OneLineAppend(a: seq<string>, b: seq<string>)
    requires AllOneLine(a) && AllOneLine(b)
    ensures AllOneLine(a + b)
  {
  }

  lemma Fixed6OneLine(created: nat)
    ensures OneLine(Fixed6(created))
  {
    DigitsOneLine(created / 1_000_000);
    DigitsOneLine(1_000_000 + created % 1_000_000);
  }

  lemma IntOneLine(n: int)
    ensures OneLine(IntText(n))
  {
    DigitsOneLine(if n < 0 then -n else n);
  }

  lemma OneLinePrefixed(tag: string, s: string)
    requires OneLine(tag) && OneLine(s)
    ensures OneLine(tag + s)
  {
  }

  lemma TailIsLines(h: Hashes, c: Content, nonce: string, created: nat, secret: Option<string>)
    requires Ideal(h) && OneLine(nonce)
    ensures AllOneLine(Tail(h, c, nonce, created, secret))
  {
    IntOneLine(c.activeRuns);
    Fixed6OneLine(created);
    OneLinePrefixed("new=", HashOrNone(h, c.newValue));
    OneLinePrefixed("runs=", IntText(c.activeRuns));
    OneLinePrefixed("restart=", if c.requiresRestart then "1" else "0");
    OneLinePrefixed("nonce=", nonce);
    OneLinePrefixed("created_at=", Fixed6(created));
    OneLinePrefixed("hmac=", HashOrNone(h, secret));
  }

  lemma PrefixCancel(tag: string, a: string, b: string)
    ensures tag + a == tag + b <==> a == b
  {
    if tag + a == tag + b {
      assert a == (tag + a)[|tag|..] && b == (tag + b)[|tag|..];
    }
  }

  lemma TaggedInjective(tag: string, a: seq<string>, b: seq<string>)
    requires Tagged(tag, a) == Tagged(tag, b)
    ensures a == b
  {
    assert |a| == |Tagged(tag, a)| == |b|;
    forall i | 0 <= i < |a| ensures a[i] == b[i] {
      assert Tagged(tag, a)[i] == Tagged(tag, b)[i];
      PrefixCancel(tag, a[i], b[i]);
    }
  }

  /** Number of leading lines that are path lines. */
  function PathLines(lines: seq<string>): nat {
    if lines != [] && "p" <= lines[0] then 1 + PathLines(lines[1..]) else 0
  }

  lemma {:induction false} PathLinesCounted(p: seq<string>, s: seq<string>)
    ensures PathLines(Tagged("path=", p) + Tagged("src=", s)) == |p|
  {
    var l := Tagged("path=", p) + Tagged("src=", s);
    if p != [] {
      assert l[1..] == Tagged("path=", p[1..]) + Tagged("src=", s);
      PathLinesCounted(p[1..], s);
    } else if s != [] {
      assert l[0][0] == 's';
    }
  }

  /** Path lines and digest lines can be told apart, so the split is unique. */
  lemma SplitUnique(p: seq<string>, s: seq<string>, p': seq<string>, s': seq<string>)
    requires Tagged("path=", p) + Tagged("src=", s) == Tagged("path=", p') + Tagged("src=", s')
    ensures p == p' && s == s'
  {
    var l := Tagged("path=", p) + Tagged("src=", s);
    PathLinesCounted(p, s);
    PathLinesCounted(p', s');
    assert Tagged("path=", p) == l[..|p|] && Tagged("path=", p') == l[..|p'|];
    assert Tagged("src=", s) == l[|p|..] && Tagged("src=", s') == l[|p'|..];
    TaggedInjective("path=", p, p');
    TaggedInjective("src=", s, s');
  }

  lemma PartsUnique(a: seq<string>, b: seq<string>, c: seq<string>, a': seq<string>, b': seq<string>, c': seq<string>)
    requires a + b + c == a' + b' + c' && |a| == |a'| && |c| == |c'|
    ensures a == a' && b == b' && c == c'
  {
    var l := a + b + c;
    assert |b| == |l| - |a| - |c| == |b'|;
    assert a == l[..|a|] && b == l[|a|..|a| + |b|] && c == l[|a| + |b|..];
    assert a' == l[..|a|] && b' == l[|a|..|a| + |b|] && c' == l[|a| + |b|..];
  }

  lemma LeadingStays(n: nat)
    requires n >= 10
    ensures NatText(n)[0] == NatText(n / 10)[0]
  {
  }

  lemma LeadingDigit(n: nat)
    requires 1_000_000 <= n < 2_000_000
    ensures NatText(n)[0] == '1'
  {
    LeadingStays(n);
    LeadingStays(n / 10);
    LeadingStays(n / 10 / 10);
    LeadingStays(n / 10 / 10 / 10);
    LeadingStays(n / 10 / 10 / 10 / 10);
    LeadingStays(n / 10 / 10 / 10 / 10 / 10);
    assert n / 10 / 10 / 10 / 10 / 10 / 10 == 1;
  }

  lemma {:induction false} DigitsOnly(n: nat)
    ensures forall i :: 0 <= i < |NatText(n)| ==> NatText(n)[i] != '.'
  {
    if n >= 10 { DigitsOnly(n / 10); }
  }

  lemma DotSplits(a: string, b: string, c: string, d: string)
    requires a + "." + b == c + "." + d
    requires (forall i :: 0 <= i < |a| ==> a[i] != '.') && (forall i :: 0 <= i < |c| ==> c[i] != '.')
    ensures a == c && b == d
  {
    var s, s' := a + "." + b, c + "." + d;
    assert s[|a|] == '.' && s'[|c|] == '.';
    assert forall i :: 0 <= i < |a| ==> s[i] != '.';
    assert forall i :: 0 <= i < |c| ==> s'[i] != '.';
    assert |a| == |c|;
    assert a == s[..|a|] && c == s'[..|c|] && b == s[|a| + 1..] && d == s'[|c| + 1..];
  }

  lemma Fixed6Parts(t: nat, u: nat)
    requires Fixed6(t) == Fixed6(u)
    ensures NatText(t / 1_000_000) == NatText(u / 1_000_000)
    ensures NatText(1_000_000 + t % 1_000_000)[1..] == NatText(1_000_000 + u % 1_000_000)[1..]
  {
    DigitsOnly(t / 1_000_000);
    DigitsOnly(u / 1_000_000);
    DotSplits(NatText(t / 1_000_000), NatText(1_000_000 + t % 1_000_000)[1..],
              NatText(u / 1_000_000), NatText(1_000_000 + u % 1_000_000)[1..]);
  }

  lemma SevenDigits(m: nat, n: nat)
    requires 1_000_000 <= m < 2_000_000 && 1_000_000 <= n < 2_000_000 && NatText(m)[1..] == NatText(n)[1..]
    ensures m == n
  {
    var x, y := NatText(m), NatText(n);
    LeadingDigit(m);
    LeadingDigit(n);
    assert x == [x[0]] + x[1..] && y == [y[0]] + y[1..];
    NatTextInjective(m, n);
  }

  lemma Fixed6Injective(t: nat, u: nat)
    requires Fixed6(t) == Fixed6(u)
    ensures t == u
  {
    Fixed6Parts(t, u);
    NatTextInjective(t / 1_000_000, u / 1_000_000);
    SevenDigits(1_000_000 + t % 1_000_000, 1_000_000 + u % 1_000_000);
  }

  lemma TailInjective(h: Hashes, c: Content, n: string, t: nat, k: Option<string>,
                      d: Content, m: string, u: nat, l: Option<string>)
    requires Ideal(h) && Tail(h, c, n, t, k) == Tail(h, d, m, u, l)
    ensures c.newValue == d.newValue && c.activeRuns == d.activeRuns && c.requiresRestart == d.requiresRestart
    ensures n == m && t == u && k == l
  {
    var x, y := Tail(h, c, n, t, k), Tail(h, d, m, u, l);
    assert x[0] == y[0] && x[1] == y[1] && x[2] == y[2] && x[3] == y[3] && x[4] == y[4] && x[5] == y[5];
    PrefixCancel("new=", HashOrNone(h, c.newValue), HashOrNone(h, d.newValue));
    PrefixCancel("runs=", IntText(c.activeRuns), IntText(d.activeRuns));
    IntTextInjective(c.activeRuns, d.activeRuns);
    PrefixCancel("restart=", if c.requiresRestart then "1" else "0", if d.requiresRestart then "1" else "0");
    PrefixCancel("nonce=", n, m);
    PrefixCancel("created_at=", Fixed6(t), Fixed6(u));
    Fixed6Injective(t, u);
    PrefixCancel("hmac=", HashOrNone(h, k), HashOrNone(h, l));
  }

  /** Main result: for newline-free fields a proof determines the plan up to the
      order of its paths and digests, its nonce, its time and the deployment secret. */
  lemma ProofDetermines(h: Hashes, c: Content, n: string, t: nat, k: Option<string>,
                        d: Content, m: string, u: nat, l: Option<string>)
    requires Ideal(h) && PlainContent(c) && PlainContent(d) && OneLine(n) && OneLine(m)
    requires ContentProof(h, c, n, t, k) == ContentProof(h, d, m, u, l)
    ensures SameContent(c, d) && n == m && t == u && k == l
  {
    LinesAreLines(h, c, n, t, k);
    LinesAreLines(h, d, m, u, l);
    JoinLinesInjective(Lines(h, c, n, t, k), Lines(h, d, m, u, l));
    PartsUnique(Head(c), Body(c), Tail(h, c, n, t, k), Head(d), Body(d), Tail(h, d, m, u, l));
    assert Head(c)[1] == Head(d)[1];
    PrefixCancel("key=", c.key, d.key);
    TailInjective(h, c, n, t, k, d, m, u, l);
    SplitUnique(SortBy(c.paths, Itself), SortBy(c.digests, Itself), SortBy(d.paths, Itself), SortBy(d.digests, Itself));
    assert multiset(c.paths) == multiset(SortBy(c.paths, Itself))
        && multiset(c.digests) == multiset(SortBy(c.digests, Itself));
  }

  /** And order is all it forgets: reordered plans have the same proof. */
  lemma ProofIgnoresOrder(h: Hashes, c: Content, d: Content, n: string, t: nat, k: Option<string>)
    requires SameContent(c, d)
    ensures ContentProof(h, c, n, t, k) == ContentProof(h, d, n, t, k)
  {
    SortByMultiset(c.paths, d.paths, Itself);
    SortByMultiset(c.digests, d.digests, Itself);
  }

  lemma {:induction false} JoinLinesAppend(a: seq<string>, b: seq<string>)
    ensures JoinLines(a + b) == JoinLines(a) + JoinLines(b)
  {
    if a == [] {
      assert a + b == b;
    } else {
      assert (a + b)[1..] == a[1..] + b;
      JoinLinesAppend(a[1..], b);
    }
  }

  // ---- what an encoding with newlines still binds ----

  ghost predicate EndsLine(s: string) { s == "" || s[|s| - 1] == '\n' }

  lemma {:induction false} JoinLinesEnds(xs: seq<string>)
    ensures EndsLine(JoinLines(xs))
  {
    if xs != [] { JoinLinesEnds(xs[1..]); }
  }

  lemma JoinOne(x: string)
    ensures JoinLines([x]) == x + "\n"
  {
    var one: seq<string> := [x];
    assert one[1..] == [];
    assert JoinLines(one) == x + "\n" + JoinLines(one[1..]);
  }

  lemma JoinLast(a: seq<string>, x: string)
    ensures JoinLines(a + [x]) == JoinLines(a) + x + "\n"
  {
    JoinLinesAppend(a, [x]);
    JoinOne(x);
  }

  lemma LastLineStarts(s: string, x: string, s': string, x': string)
    requires OneLine(x) && EndsLine(s') && s + x + "\n" == s' + x' + "\n"
    ensures |s'| <= |s|
  {
    var text := s + x + "\n";
    assert forall i :: |s| <= i < |text| - 1 ==> text[i] == x[i - |s|] && x[i - |s|] != '\n';
    assert s' != "" ==> text[|s'| - 1] == s'[|s'| - 1];
  }

  /** The last line of a text that ends its lines. */
  lemma LastLine(s: string, x: string, s': string, x': string)
    requires EndsLine(s) && EndsLine(s') && OneLine(x) && OneLine(x') && s + x + "\n" == s' + x' + "\n"
    ensures s == s' && x == x'
  {
    LastLineStarts(s, x, s', x');
    LastLineStarts(s', x', s, x);
    var text := s + x + "\n";
    assert s == text[..|s|] && s' == text[..|s|];
    assert x == text[|s|..|text| - 1] && x' == text[|s|..|text| - 1];
  }

  /** Whatever comes before, the same number of last lines can be read back. */
  lemma {:induction false} LastLines(a: seq<string>, t: seq<string>, b: seq<string>, u: seq<string>)
    requires |t| == |u| && AllOneLine(t) && AllOneLine(u)
    requires JoinLines(a + t) == JoinLines(b + u)
    ensures t == u && JoinLines(a) == JoinLines(b)
    decreases |t|
  {
    if t == [] {
      assert a + t == a && b + u == b;
    } else {
      var n := |t| - 1;
      assert t == t[..n] + [t[n]] && u == u[..n] + [u[n]];
      assert a + t == a + t[..n] + [t[n]] && b + u == b + u[..n] + [u[n]];
      PeelLast(a + t[..n], t[n], b + u[..n], u[n]);
      LastLines(a, t[..n], b, u[..n]);
    }
  }

  lemma PeelLast(a: seq<string>, x: string, b: seq<string>, y: string)
    requires OneLine(x) && OneLine(y) && JoinLines(a + [x]) == JoinLines(b + [y])
    ensures x == y && JoinLines(a) == JoinLines(b)
  {
    JoinLast(a, x);
    JoinLast(b, y);
    JoinLinesEnds(a);
    JoinLinesEnds(b);
    LastLine(JoinLines(a), x, JoinLines(b), y);
  }

  /** Main result: for any plans at all, equal proofs by one-line nonces have the same
      nonce, time, secret, new value, run count and restart flag. */
  lemma TailDetermines(h: Hashes, c: Content, n: string, t: nat, k: Option<string>,
                       d: Content, m: string, u: nat, l: Option<string>)
    requires Ideal(h) && OneLine(n) && OneLine(m)
    requires ContentProof(h, c, n, t, k) == ContentProof(h, d, m, u, l)
    ensures n == m && t == u && k == l
    ensures c.newValue == d.newValue && c.activeRuns == d.activeRuns && c.requiresRestart == d.requiresRestart
    ensures JoinLines(Head(c) + Body(c)) == JoinLines(Head(d) + Body(d))
  {
    TailIsLines(h, c, n, t, k);
    TailIsLines(h, d, m, u, l);
    LastLines(Head(c) + Body(c), Tail(h, c, n, t, k), Head(d) + Body(d), Tail(h, d, m, u, l));
    TailInjective(h, c, n, t, k, d, m, u, l);
  }

  /** Text that starts where a line ends starts a line. */
  lemma {:induction false} LineAt(xs: seq<string>, q: string, r: string) returns (i: nat)
    requires AllOneLine(xs) && EndsLine(q) && JoinLines(xs) == q + r
    ensures i <= |xs| && JoinLines(xs[..i]) == q && JoinLines(xs[i..]) == r
    decreases |xs|
  {
    if q == "" {
      i := 0;
      assert xs[0..] == xs && xs[..0] == [];
    } else {
      var x, text := xs[0], JoinLines(xs);
      assert text == x + "\n" + JoinLines(xs[1..]);
      assert text[|q| - 1] == '\n';
      assert forall k :: 0 <= k < |x| ==> text[k] == x[k] && x[k] != '\n';
      var q' := q[|x| + 1..];
      assert JoinLines(xs[1..]) == text[|x| + 1..] == q' + r;
      var j := LineAt(xs[1..], q', r);
      i := j + 1;
      assert xs[i..] == xs[1..][j..] && xs[..i] == [x] + xs[1..][..j] && xs[..i][1..] == xs[1..][..j];
      assert q == text[..|q|] == x + "\n" + q';
    }
  }

  /** The lines before the nonce, and those after. */
  function Front(h: Hashes, c: Content): seq<string> { Head(c) + Body(c) + Middle(h, c) }

  function Middle(h: Hashes, c: Content): seq<string> {
    ["new=" + HashOrNone(h, c.newValue), "runs=" + IntText(c.activeRuns),
     "restart=" + (if c.requiresRestart then "1" else "0")]
  }

  function Back(h: Hashes, created: nat, secret: Option<string>): seq<string> {
    ["created_at=" + Fixed6(created), "hmac=" + HashOrNone(h, secret)]
  }

  lemma TailParts(h: Hashes, c: Content, nonce: string, created: nat, secret: Option<string>)
    ensures Tail(h, c, nonce, created, secret) == Middle(h, c) + (["nonce=" + nonce] + Back(h, created, secret))
  {
  }

  lemma FrontBack(h: Hashes, c: Content, nonce: string, created: nat, secret: Option<string>)
    ensures Lines(h, c, nonce, created, secret) == Front(h, c) + ["nonce=" + nonce] + Back(h, created, secret)
  {
    TailParts(h, c, nonce, created, secret);
    Regroup(Head(c) + Body(c), Middle(h, c), ["nonce=" + nonce] + Back(h, created, secret));
    Regroup(Front(h, c), ["nonce=" + nonce], Back(h, created, secret));
  }

  lemma BackIsLines(h: Hashes, created: nat, secret: Option<string>)
    requires Ideal(h)
    ensures AllOneLine(Back(h, created, secret)) && |Back(h, created, secret)| == 2
  {
    DigitsOneLine(created / 1_000_000);
    DigitsOneLine(1_000_000 + created % 1_000_000);
  }

  lemma FrontIsLines(h: Hashes, c: Content)
    requires Ideal(h) && PlainContent(c)
    ensures AllOneLine(Front(h, c))
  {
    LinesAreLines(h, c, "", 0, None);
    FrontBack(h, c, "", 0, None);
    var lines, front := Lines(h, c, "", 0, None), Front(h, c);
    forall i | 0 <= i < |front| ensures OneLine(front[i]) {
      assert front[i] == lines[i];
    }
  }

  predicate StartsNo(s: string) { |s| >= 2 && s[0] == 'n' && s[1] == 'o' }

  /** No line could be taken for a nonce line. */
  ghost predicate NoNonce(xs: seq<string>) {
    forall i :: 0 <= i < |xs| ==> |xs[i]| >= 2 && !StartsNo(xs[i])
  }

  lemma TaggedNoNonce(tag: string, values: seq<string>)
    requires |tag| >= 2 && !StartsNo(tag)
    ensures NoNonce(Tagged(tag, values))
  {
    var lines := Tagged(tag, values);
    forall i | 0 <= i < |lines| ensures |lines[i]| >= 2 && !StartsNo(lines[i]) {
      assert lines[i] == tag + values[i];
    }
  }

  lemma NoNonceAppend(a: seq<string>, b: seq<string>)
    requires NoNonce(a) && NoNonce(b)
    ensures NoNonce(a + b)
  {
  }

  lemma FrontNoNonce(h: Hashes, c: Content)
    ensures NoNonce(Front(h, c))
  {
    TaggedNoNonce("path=", SortBy(c.paths, Itself));
    TaggedNoNonce("src=", SortBy(c.digests, Itself));
    NoNonceAppend(Tagged("path=", SortBy(c.paths, Itself)), Tagged("src=", SortBy(c.digests, Itself)));
    HeadNoNonce(c);
    MiddleNoNonce(h, c);
    NoNonceAppend(Head(c), Body(c));
    NoNonceAppend(Head(c) + Body(c), Middle(h, c));
  }

  lemma MiddleNoNonce(h: Hashes, c: Content)
    ensures NoNonce(Middle(h, c))
  {
  }

  lemma HeadNoNonce(c: Content)
    ensures NoNonce(Head(c))
  {
  }

  /** Main result: a plain plan with a one-line nonce is matched by no other nonce,
      whatever newlines are offered. */
  lemma NonceDetermines(h: Hashes, c: Content, n: string, t: nat, k: Option<string>,
                        d: Content, m: string, u: nat, l: Option<string>)
    requires Ideal(h) && PlainContent(c) && OneLine(n)
    requires ContentProof(h, c, n, t, k) == ContentProof(h, d, m, u, l)
    ensures n == m
  {
    FrontsAgree(h, c, n, t, k, d, m, u, l);
    PlainEncloses(h, c, t, k);
    BackIsLines(h, u, l);
    NonceOf(NONCE, Front(h, c), n, Back(h, t, k), Front(h, d), m, Back(h, u, l));
  }

  const NONCE := "nonce="

  /** What is before and after the nonce line of a plain plan. */
  ghost predicate Encloses(a: seq<string>, back: seq<string>) {
    AllOneLine(a) && NoNonce(a) && AllOneLine(back) && |back| == 2
  }

  lemma PlainEncloses(h: Hashes, c: Content, t: nat, k: Option<string>)
    requires Ideal(h) && PlainContent(c)
    ensures Encloses(Front(h, c), Back(h, t, k))
  {
    FrontIsLines(h, c);
    FrontNoNonce(h, c);
    BackIsLines(h, t, k);
  }

  lemma NonceOf(tag: string, a: seq<string>, n: string, back: seq<string>, b: seq<string>, m: string,
                other: seq<string>)
    requires Encloses(a, back) && tag == NONCE && OneLine(n) && |other| == 2 && AllOneLine(other)
    requires JoinLines(a + [tag + n] + back) == JoinLines(b + [tag + m] + other)
    ensures n == m
  {
    OneLinePrefixed(tag, n);
    NonceLineOf(a, tag + n, back, b, tag + m, other);
    PrefixCancel(tag, n, m);
  }

  lemma FrontsAgree(h: Hashes, c: Content, n: string, t: nat, k: Option<string>,
                    d: Content, m: string, u: nat, l: Option<string>)
    requires Ideal(h) && ContentProof(h, c, n, t, k) == ContentProof(h, d, m, u, l)
    ensures JoinLines(Front(h, c) + [NONCE + n] + Back(h, t, k)) == JoinLines(Front(h, d) + [NONCE + m] + Back(h, u, l))
  {
    FrontBack(h, c, n, t, k);
    FrontBack(h, d, m, u, l);
  }

  lemma NonceLineOf(a: seq<string>, line: string, back: seq<string>, b: seq<string>, offered: string,
                    other: seq<string>)
    requires AllOneLine(a) && NoNonce(a) && OneLine(line) && StartsNo(offered)
    requires |back| == |other| && AllOneLine(back) && AllOneLine(other)
    requires JoinLines(a + [line] + back) == JoinLines(b + [offered] + other)
    ensures line == offered
  {
    LastLines(a + [line], back, b + [offered], other);
    JoinLast(b, offered);
    JoinLinesEnds(b);
    NonceLine(a, line, JoinLines(b), offered);
  }

  /** Among lines that no nonce line can be taken for, the nonce line is the last. */
  lemma NonceLine(a: seq<string>, line: string, before: string, offered: string)
    requires AllOneLine(a) && NoNonce(a) && OneLine(line) && StartsNo(offered)
    requires JoinLines(a + [line]) == before + offered + "\n" && EndsLine(before)
    ensures line == offered
  {
    var xs, rest := a + [line], offered + "\n";
    assert before + rest == before + offered + "\n";
    var i := LineAt(xs, before, rest);
    assert rest[0] == offered[0] && rest[1] == offered[1];
    assert i < |xs|;
    assert rest == xs[i] + "\n" + JoinLines(xs[i..][1..]);
    assert |xs[i]| >= 2 ==> rest[0] == xs[i][0] && rest[1] == xs[i][1];
    assert i == |a|;
    assert xs[i..] == [line];
    JoinOne(line);
    assert line == rest[..|rest| - 1] == offered;
  }

  // ---- which plans newlines can be mistaken for ----

  lemma {:induction false} JoinTwo(x: string, y: string, rest: seq<string>)
    ensures JoinLines([x + "\n" + y] + rest) == JoinLines([x, y] + rest)
  {
    var one, two := [x + "\n" + y] + rest, [x, y] + rest;
    assert one[1..] == rest && two[1..] == [y] + rest && ([y] + rest)[1..] == rest;
    assert JoinLines(two) == x + "\n" + JoinLines([y] + rest);
  }

  lemma SortedStays(s: seq<string>)
    ensures s != [] ==> var p := SortBy(s, Itself); p != [] && SortBy(p[1..], Itself) == p[1..]
  {
    if s != [] {
      var p := SortBy(s, Itself);
      SortedUnique(SortBy(p[1..], Itself), p[1..], Itself);
    }
  }

  lemma JoinHidden(top: string, key: string, line: string, body: seq<string>, tail: seq<string>)
    ensures JoinLines([top, key + "\n" + line] + body + tail) == JoinLines([top, key] + ([line] + body) + tail)
  {
    JoinTwo(key, line, body + tail);
    JoinLinesAppend([top], [key + "\n" + line] + (body + tail));
    JoinLinesAppend([top], [key, line] + (body + tail));
    assert [top, key + "\n" + line] + body + tail == [top] + ([key + "\n" + line] + (body + tail));
    assert [top, key] + ([line] + body) + tail == [top] + ([key, line] + (body + tail));
  }

  /** Hide the first body line behind a newline in the key. */
  lemma HiddenLine(h: Hashes, c: Content, d: Content, line: string, n: string, t: nat, k: Option<string>)
    requires Body(c) == [line] + Body(d) && d.key == c.key + "\n" + line
    requires Tail(h, c, n, t, k) == Tail(h, d, n, t, k)
    ensures ContentProof(h, c, n, t, k) == ContentProof(h, d, n, t, k) && !SameContent(c, d)
  {
    HiddenHead(c, d, line);
    JoinHidden("rotation-plan-v1", "key=" + c.key, line, Body(d), Tail(h, c, n, t, k));
    assert |d.key| > |c.key|;
  }

  lemma HiddenHead(c: Content, d: Content, line: string)
    requires d.key == c.key + "\n" + line
    ensures Head(d) == ["rotation-plan-v1", "key=" + c.key + "\n" + line]
  {
    assert "key=" + d.key == "key=" + c.key + "\n" + line;
  }

  lemma TailSame(h: Hashes, c: Content, d: Content, n: string, t: nat, k: Option<string>)
    requires d.newValue == c.newValue && d.activeRuns == c.activeRuns && d.requiresRestart == c.requiresRestart
    ensures Tail(h, c, n, t, k) == Tail(h, d, n, t, k)
  {
  }

  lemma TaggedFirst(tag: string, values: seq<string>)
    requires values != []
    ensures Tagged(tag, values) == [tag + values[0]] + Tagged(tag, values[1..])
  {
  }

  lemma NoPathsBody(c: Content)
    requires c.paths == []
    ensures Body(c) == Tagged("src=", SortBy(c.digests, Itself))
  {
    assert Tagged("path=", SortBy(c.paths, Itself)) == [];
  }

  /** Any plan with a path or a digest is mistaken for another, with a newline in its key. */
  lemma NewlineCollides(h: Hashes, c: Content, n: string, t: nat, k: Option<string>) returns (d: Content)
    requires c.paths != [] || c.digests != []
    ensures !SameContent(c, d) && ContentProof(h, c, n, t, k) == ContentProof(h, d, n, t, k)
  {
    var p, s := SortBy(c.paths, Itself), SortBy(c.digests, Itself);
    if c.paths != [] {
      SortedStays(c.paths);
      d := c.(key := c.key + "\n" + ("path=" + p[0]), paths := p[1..]);
      TaggedFirst("path=", p);
      Regroup(["path=" + p[0]], Tagged("path=", p[1..]), Tagged("src=", s));
      TailSame(h, c, d, n, t, k);
      HiddenLine(h, c, d, "path=" + p[0], n, t, k);
    } else {
      SortedStays(c.digests);
      d := c.(key := c.key + "\n" + ("src=" + s[0]), digests := s[1..]);
      TaggedFirst("src=", s);
      NoPathsBody(c);
      NoPathsBody(d);
      TailSame(h, c, d, n, t, k);
      HiddenLine(h, c, d, "src=" + s[0], n, t, k);
    }
  }

  /** The other plans that share the proof of this one. */
  ghost predicate Mistakable(h: Hashes, c: Content, n: string, t: nat, k: Option<string>) {
    exists d: Content, m: string, u: nat, l: Option<string> ::
      ContentProof(h, c, n, t, k) == ContentProof(h, d, m, u, l) && !SameContent(c, d)
  }

  lemma KeyThenNothing(a: string, b: string, rest: string)
    requires OneLine(a) && a + "\n" == b + "\n" + rest
    ensures a == b && rest == ""
  {
    var text := a + "\n";
    assert text[|b|] == '\n';
    assert forall i :: 0 <= i < |a| ==> text[i] == a[i] && a[i] != '\n';
    assert |a| == |b|;
    assert a == text[..|a|] && b == text[..|a|];
  }

  lemma TaggedThenNothing(tag: string, a: string, b: string, rest: string)
    requires OneLine(a) && (tag + a) + "\n" == (tag + b) + "\n" + rest
    ensures a == b && rest == ""
  {
    assert (tag + a) + "\n" == tag + (a + "\n");
    assert (tag + b) + "\n" + rest == tag + (b + "\n" + rest);
    PrefixCancel(tag, a + "\n", b + "\n" + rest);
    KeyThenNothing(a, b, rest);
  }

  lemma EmptyBody(c: Content, d: Content)
    requires OneLine(c.key) && c.paths == [] && c.digests == []
    requires JoinLines(Head(c) + Body(c)) == JoinLines(Head(d) + Body(d))
    ensures c.key == d.key && d.paths == [] && d.digests == []
  {
    assert Head(c) + Body(c) == ["rotation-plan-v1", "key=" + c.key];
    SecondLine("rotation-plan-v1", "key=" + c.key, "key=" + d.key, Body(d));
    TaggedThenNothing("key=", c.key, d.key, JoinLines(Body(d)));
    assert |Body(d)| == |d.paths| + |d.digests|;
  }

  lemma SecondLine(top: string, key: string, other: string, body: seq<string>)
    requires JoinLines([top, key]) == JoinLines([top, other] + body)
    ensures key + "\n" == other + "\n" + JoinLines(body)
  {
    assert [top, key] == [top] + [key] && [top, other] + body == [top] + ([other] + body);
    JoinLinesAppend([top], [key]);
    JoinLinesAppend([top], [other] + body);
    JoinLinesAppend([other], body);
    JoinOne(key);
    JoinOne(other);
    PrefixCancel(JoinLines([top]), key + "\n", other + "\n" + JoinLines(body));
  }

  /** Main result, exact: a plain plan shares its proof with another plan if and only
      if it has a path or a digest. */
  lemma MistakableExact(h: Hashes, c: Content, n: string, t: nat, k: Option<string>)
    requires Ideal(h) && PlainContent(c) && OneLine(n)
    ensures Mistakable(h, c, n, t, k) <==> c.paths != [] || c.digests != []
  {
    if c.paths != [] || c.digests != [] {
      var d := NewlineCollides(h, c, n, t, k);
      assert ContentProof(h, c, n, t, k) == ContentProof(h, d, n, t, k) && !SameContent(c, d);
    } else {
      forall d: Content, m: string, u: nat, l: Option<string> |
        ContentProof(h, c, n, t, k) == ContentProof(h, d, m, u, l)
        ensures SameContent(c, d)
      {
        NonceDetermines(h, c, n, t, k, d, m, u, l);
        TailDetermines(h, c, n, t, k, d, m, u, l);
        EmptyBody(c, d);
      }
    }
  }

  // ---- with a one-line key ----

  /** The plans with a one-line key that share the proof of this one. */
  ghost predicate MistakableByKey(h: Hashes, c: Content, n: string, t: nat, k: Option<string>) {
    exists d: Content, m: string, u: nat, l: Option<string> ::
      OneLine(d.key) && ContentProof(h, c, n, t, k) == ContentProof(h, d, m, u, l) && !SameContent(c, d)
  }

  /** Two lines read as one with a newline in it. */
  lemma JoinMerged(a: seq<string>, x: string, y: string, b: seq<string>)
    ensures JoinLines(a + [x + "\n" + y] + b) == JoinLines(a + [x, y] + b)
  {
    JoinTwo(x, y, b);
    JoinLinesAppend(a, [x + "\n" + y] + b);
    JoinLinesAppend(a, [x, y] + b);
    Regroup(a, [x + "\n" + y], b);
    Regroup(a, [x, y], b);
  }

  /** Merge the last two body lines. */
  lemma MergedLines(h: Hashes, c: Content, d: Content, front: seq<string>, x: string, y: string,
                    n: string, t: nat, k: Option<string>)
    requires Body(c) == front + [x, y] && Body(d) == front + [x + "\n" + y]
    requires Head(c) == Head(d) && Tail(h, c, n, t, k) == Tail(h, d, n, t, k)
    ensures ContentProof(h, c, n, t, k) == ContentProof(h, d, n, t, k)
  {
    JoinMerged(Head(c) + front, x, y, Tail(h, c, n, t, k));
    Regroup(Head(c), front, [x, y]);
    Regroup(Head(c), front, [x + "\n" + y]);
  }

  lemma {:induction false} TextLeExtends(a: string, b: string, x: string)
    requires TextLe(a, b)
    ensures TextLe(a, b + x)
  {
    if a != "" {
      assert (b + x)[1..] == b[1..] + x;
      if a[0] == b[0] { TextLeExtends(a[1..], b[1..], x); }
    }
  }

  lemma ExtendedSorted(p: seq<string>, x: string)
    requires p != [] && SortedBy(p, Itself)
    ensures var last := |p| - 1; SortedBy(p[..last] + [p[last] + x], Itself)
  {
    var last := |p| - 1;
    var q := p[..last] + [p[last] + x];
    forall i, j | 0 <= i < j < |q| ensures TextLe(Itself(q[i]), Itself(q[j])) {
      assert TextLe(Itself(p[i]), Itself(p[j]));
      if j == last { TextLeExtends(p[i], p[j], x); }
    }
  }

  lemma SortedIsFixed(p: seq<string>)
    requires SortedBy(p, Itself)
    ensures SortBy(p, Itself) == p
  {
    SortedUnique(SortBy(p, Itself), p, Itself);
  }

  /** Sorted texts stay sorted when the last is extended. */
  lemma ExtendedStays(values: seq<string>, x: string)
    requires values != []
    ensures var p := SortBy(values, Itself);
            var last := |p| - 1;
            |p| == |values| && SortBy(p[..last] + [p[last] + x], Itself) == p[..last] + [p[last] + x]
  {
    var p := SortBy(values, Itself);
    ExtendedSorted(p, x);
    SortedIsFixed(p[..|p| - 1] + [p[|p| - 1] + x]);
  }

  lemma DroppedStays(values: seq<string>)
    requires values != []
    ensures var p := SortBy(values, Itself);
            |p| == |values| && SortBy(p[..|p| - 1], Itself) == p[..|p| - 1]
  {
    var p := SortBy(values, Itself);
    SortedIsFixed(p[..|p| - 1]);
  }

  lemma TaggedLast(tag: string, values: seq<string>)
    requires values != []
    ensures Tagged(tag, values) == Tagged(tag, values[..|values| - 1]) + [tag + values[|values| - 1]]
  {
  }

  /** `y` merged into the last of the values. */
  function Merged(values: seq<string>, y: string): seq<string>
    requires values != []
  {
    values[..|values| - 1] + [values[|values| - 1] + ("\n" + y)]
  }

  lemma TaggedMerged(tag: string, values: seq<string>, y: string)
    requires values != []
    ensures var last := |values| - 1;
            Tagged(tag, Merged(values, y)) == Tagged(tag, values[..last]) + [tag + values[last] + "\n" + y]
  {
    var last := |values| - 1;
    TaggedLast(tag, Merged(values, y));
    assert Merged(values, y)[..last] == values[..last];
    assert tag + (values[last] + ("\n" + y)) == tag + values[last] + "\n" + y;
  }

  /** The last two tagged lines of sorted values, and the values with them merged. */
  lemma MergeWithin(tag: string, values: seq<string>)
    returns (merged: seq<string>, front: seq<string>, x: string, y: string)
    requires |values| >= 2
    ensures |merged| == |values| - 1 && Tagged(tag, SortBy(merged, Itself)) == front + [x + "\n" + y]
    ensures Tagged(tag, SortBy(values, Itself)) == front + [x, y]
  {
    var p := SortBy(values, Itself);
    var most := p[..|p| - 1];
    y := tag + p[|p| - 1];
    DroppedStays(values);
    ExtendedStays(most, "\n" + y);
    merged := Merged(most, y);
    front, x := Tagged(tag, most[..|most| - 1]), tag + most[|most| - 1];
    TaggedMerged(tag, most, y);
    TaggedTwo(tag, p);
  }

  lemma TaggedTwo(tag: string, values: seq<string>)
    requires |values| >= 2
    ensures var most := values[..|values| - 1];
            Tagged(tag, values)
            == Tagged(tag, most[..|most| - 1]) + [tag + most[|most| - 1], tag + values[|values| - 1]]
  {
    TaggedLast(tag, values);
    TaggedLast(tag, values[..|values| - 1]);
  }

  /** A plan with two body lines or more is mistaken for one with the last two merged. */
  lemma MergeCollides(h: Hashes, c: Content, n: string, t: nat, k: Option<string>) returns (d: Content)
    requires |c.paths| + |c.digests| >= 2
    ensures d.key == c.key && !SameContent(c, d) && ContentProof(h, c, n, t, k) == ContentProof(h, d, n, t, k)
  {
    if |c.digests| >= 2 {
      d := MergeDigests(h, c, n, t, k);
    } else if |c.digests| == 0 {
      d := MergePaths(h, c, n, t, k);
    } else {
      d := MergeAcross(h, c, n, t, k);
    }
  }

  lemma MergeDigests(h: Hashes, c: Content, n: string, t: nat, k: Option<string>) returns (d: Content)
    requires |c.digests| >= 2
    ensures d.key == c.key && !SameContent(c, d) && ContentProof(h, c, n, t, k) == ContentProof(h, d, n, t, k)
  {
    var merged, front, x, y := MergeWithin("src=", c.digests);
    d := c.(digests := merged);
    var paths := Tagged("path=", SortBy(c.paths, Itself));
    Regroup(paths, front, [x, y]);
    Regroup(paths, front, [x + "\n" + y]);
    TailSame(h, c, d, n, t, k);
    MergedLines(h, c, d, paths + front, x, y, n, t, k);
    ShorterDiffers(c, d);
  }

  lemma MergePaths(h: Hashes, c: Content, n: string, t: nat, k: Option<string>) returns (d: Content)
    requires |c.paths| >= 2 && c.digests == []
    ensures d.key == c.key && !SameContent(c, d) && ContentProof(h, c, n, t, k) == ContentProof(h, d, n, t, k)
  {
    var merged, front, x, y := MergeWithin("path=", c.paths);
    d := c.(paths := merged);
    NoDigestsBody(c);
    NoDigestsBody(d);
    TailSame(h, c, d, n, t, k);
    MergedLines(h, c, d, front, x, y, n, t, k);
    ShorterDiffers(c, d);
  }

  lemma NoDigestsBody(c: Content)
    requires c.digests == []
    ensures Body(c) == Tagged("path=", SortBy(c.paths, Itself))
  {
    assert Tagged("src=", SortBy(c.digests, Itself)) == [];
  }

  lemma MergeAcross(h: Hashes, c: Content, n: string, t: nat, k: Option<string>) returns (d: Content)
    requires c.paths != [] && |c.digests| == 1
    ensures d.key == c.key && !SameContent(c, d) && ContentProof(h, c, n, t, k) == ContentProof(h, d, n, t, k)
  {
    var p, y := SortBy(c.paths, Itself), "src=" + SortBy(c.digests, Itself)[0];
    d := c.(paths := Merged(p, y), digests := []);
    var front, x := Tagged("path=", p[..|p| - 1]), "path=" + p[|p| - 1];
    MergedBody(c, d, y);
    BodyAcross(c);
    TailSame(h, c, d, n, t, k);
    MergedLines(h, c, d, front, x, y, n, t, k);
    ShorterDiffers(c, d);
  }

  lemma ShorterDiffers(c: Content, d: Content)
    requires |c.paths| != |d.paths| || |c.digests| != |d.digests|
    ensures !SameContent(c, d)
  {
    assert |multiset(c.paths)| == |c.paths| && |multiset(d.paths)| == |d.paths|;
    assert |multiset(c.digests)| == |c.digests| && |multiset(d.digests)| == |d.digests|;
  }

  lemma MergedBody(c: Content, d: Content, y: string)
    requires c.paths != [] && d.paths == Merged(SortBy(c.paths, Itself), y) && d.digests == []
    ensures var p := SortBy(c.paths, Itself);
            Body(d) == Tagged("path=", p[..|p| - 1]) + ["path=" + p[|p| - 1] + "\n" + y]
  {
    ExtendedStays(c.paths, "\n" + y);
    NoDigestsBody(d);
    TaggedMerged("path=", SortBy(c.paths, Itself), y);
  }

  lemma BodyAcross(c: Content)
    requires c.paths != [] && |c.digests| == 1
    ensures var p, s := SortBy(c.paths, Itself), SortBy(c.digests, Itself);
            Body(c) == Tagged("path=", p[..|p| - 1]) + ["path=" + p[|p| - 1], "src=" + s[0]]
  {
    var p, s := SortBy(c.paths, Itself), SortBy(c.digests, Itself);
    TaggedLast("path=", p);
    TaggedOnly("src=", s);
    AppendTwo(Tagged("path=", p[..|p| - 1]), "path=" + p[|p| - 1], "src=" + s[0]);
  }

  lemma TaggedOnly(tag: string, values: seq<string>)
    requires |values| == 1
    ensures Tagged(tag, values) == [tag + values[0]]
  {
  }

  lemma AppendTwo(a: seq<string>, x: string, y: string)
    ensures (a + [x]) + [y] == a + [x, y]
  {
  }

  /** With one-line keys, equal proofs have equal keys and equal body text. */
  lemma KeysAgree(c: Content, d: Content)
    requires OneLine(c.key) && OneLine(d.key)
    requires JoinLines(Head(c) + Body(c)) == JoinLines(Head(d) + Body(d))
    ensures c.key == d.key && JoinLines(Body(c)) == JoinLines(Body(d))
  {
    BodyAfterKey("rotation-plan-v1", "key=", c.key, Body(c), d.key, Body(d));
  }

  lemma BodyAfterKey(top: string, tag: string, a: string, x: seq<string>, b: string, y: seq<string>)
    requires OneLine(a) && OneLine(b) && JoinLines([top, tag + a] + x) == JoinLines([top, tag + b] + y)
    ensures a == b && JoinLines(x) == JoinLines(y)
  {
    KeyLine(top, tag, a, x);
    KeyLine(top, tag, b, y);
    PrefixCancel(JoinLines([top]) + tag, a + "\n" + JoinLines(x), b + "\n" + JoinLines(y));
    FirstLinesAgree(a, JoinLines(x), b, JoinLines(y));
  }

  lemma KeyLine(top: string, tag: string, a: string, x: seq<string>)
    ensures JoinLines([top, tag + a] + x) == (JoinLines([top]) + tag) + (a + "\n" + JoinLines(x))
  {
    JoinLinesAppend([top, tag + a], x);
    JoinLast([top], tag + a);
    assert [top] + [tag + a] == [top, tag + a];
    FourParts(JoinLines([top]), tag, a, JoinLines(x));
  }

  lemma FourParts(a: string, b: string, c: string, d: string)
    ensures a + (b + c) + "\n" + d == (a + b) + (c + "\n" + d)
  {
  }

  lemma FirstLinesAgree(a: string, x: string, b: string, y: string)
    requires OneLine(a) && OneLine(b) && a + "\n" + x == b + "\n" + y
    ensures a == b && x == y
  {
    var text := a + "\n" + x;
    assert text[|a|] == '\n' && text[|b|] == '\n';
    assert forall i :: 0 <= i < |a| ==> text[i] == a[i] && a[i] != '\n';
    assert forall i :: 0 <= i < |b| ==> text[i] == b[i] && b[i] != '\n';
    assert |a| == |b|;
    assert a == text[..|a|] && b == text[..|b|] && x == text[|a| + 1..] && y == text[|b| + 1..];
  }

  /** At most one body line leaves no room for a newline. */
  lemma ShortBody(c: Content, d: Content)
    requires PlainContent(c) && |c.paths| + |c.digests| <= 1 && JoinLines(Body(c)) == JoinLines(Body(d))
    ensures multiset(c.paths) == multiset(d.paths) && multiset(c.digests) == multiset(d.digests)
  {
    BodyIsLines(c);
    OneLineOnly(Body(c), Body(d));
    SplitUnique(SortBy(c.paths, Itself), SortBy(c.digests, Itself), SortBy(d.paths, Itself), SortBy(d.digests, Itself));
    assert multiset(c.paths) == multiset(SortBy(c.paths, Itself));
    assert multiset(c.digests) == multiset(SortBy(c.digests, Itself));
  }

  lemma OneLineOnly(a: seq<string>, b: seq<string>)
    requires |a| <= 1 && AllOneLine(a) && JoinLines(a) == JoinLines(b)
    ensures a == b
  {
    if a != [] && b != [] {
      JoinOne(a[0]);
      assert a == [a[0]] && b == [b[0]] + b[1..];
      KeyThenNothing(a[0], b[0], JoinLines(b[1..]));
      assert b[1..] == [];
    }
  }

  /** Main result, exact: among plans with a one-line key, as the rotated names are, a
      plain plan shares its proof with another if and only if it has two paths or digests
      or more. */
  lemma MistakableByKeyExact(h: Hashes, c: Content, n: string, t: nat, k: Option<string>)
    requires Ideal(h) && PlainContent(c) && OneLine(n)
    ensures MistakableByKey(h, c, n, t, k) <==> |c.paths| + |c.digests| >= 2
  {
    if |c.paths| + |c.digests| >= 2 {
      var d := MergeCollides(h, c, n, t, k);
      assert OneLine(d.key) && ContentProof(h, c, n, t, k) == ContentProof(h, d, n, t, k) && !SameContent(c, d);
    } else {
      forall d: Content, m: string, u: nat, l: Option<string> |
        OneLine(d.key) && ContentProof(h, c, n, t, k) == ContentProof(h, d, m, u, l)
        ensures SameContent(c, d)
      {
        NonceDetermines(h, c, n, t, k, d, m, u, l);
        TailDetermines(h, c, n, t, k, d, m, u, l);
        KeysAgree(c, d);
        ShortBody(c, d);
      }
    }
  }
}
