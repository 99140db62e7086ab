/** The process-local registry of single-use rotation plan tokens
    (src/hermes_mcp_bridge/_rotation_plans.py): a dict kept bounded by purging and
    eviction, as the list of its entries in insertion order. */
module RotationPlans {
  import opened Wrappers
  import opened PlanProof
  import opened Sorting

  const PLAN_TTL := 120_000_000
  const MAX_LIVE_PLANS := 64

  datatype Entry = Entry(token: string, createdAt: nat, expiresAt: nat, consumed: bool)

  /** Eviction rank: consumed before unconsumed, then older before newer. */
  predicate Before(a: Entry, b: Entry) {
    (a.consumed && !b.consumed) || (a.consumed == b.consumed && a.createdAt < b.createdAt)
  }

  function Find(entries: seq<Entry>, token: string): (k: nat)
    ensures k <= |entries| && (k < |entries| ==> entries[k].token == token)
    ensures forall i :: 0 <= i < k ==> entries[i].token != token
  {
    if entries == [] || entries[0].token == token then 0 else 1 + Find(entries[1..], token)
  }

  function Put(entries: seq<Entry>, e: Entry): seq<Entry> {
    var k := Find(entries, e.token);
    if k < |entries| then entries[k := e] else entries + [e]
  }

  function Purge(entries: seq<Entry>, now: nat): seq<Entry> {
    if entries == [] then []
    else if now > entries[0].expiresAt then Purge(entries[1..], now)
    else [entries[0]] + Purge(entries[1..], now)
  }

  /** The first entry of least rank: `min` over the dict. */
  function Victim(entries: seq<Entry>): (v: nat)
    requires entries != []
    ensures v < |entries|
    ensures forall i :: 0 <= i < |entries| ==> !Before(entries[i], entries[v])
    ensures forall i :: 0 <= i < v ==> Before(entries[v], entries[i])
  {
    var last := |entries| - 1;
    if last == 0 then 0
    else
      var v := Victim(entries[..last]);
      if Before(entries[last], entries[v]) then last else v
  }

  function Evict(entries: seq<Entry>): seq<Entry>
    decreases |entries|
  {
    if |entries| > MAX_LIVE_PLANS then Evict(Without(entries, Victim(entries))) else entries
  }

  function Register(entries: seq<Entry>, token: string, now: nat): seq<Entry> {
    Evict(Put(Purge(entries, now), Entry(token, now, now + PLAN_TTL, false)))
  }

  datatype Refusal = Unknown | AlreadyConsumed | Expired | Mismatch

  /** What a caller presents with a token. */
  datatype Offer = Offer(content: Content, nonce: Option<string>, secret: Option<string>)

  /** `nonce or ""`. */
  function NonceText(nonce: Option<string>): string { if nonce.None? then "" else nonce.value }

  /** The proof recomputed with the recorded creation time. */
  function Recomputed(h: Hashes, offer: Offer, created: nat): string {
    ContentProof(h, offer.content, NonceText(offer.nonce), created, offer.secret)
  }

  function Verify(entries: seq<Entry>, h: Hashes, token: string, offer: Offer, now: nat)
    : (seq<Entry>, Option<Refusal>)
  {
    var k := Find(entries, token);
    if k == |entries| then (entries, Some(Unknown))
    else if entries[k].consumed then (entries, Some(AlreadyConsumed))
    else if now > entries[k].expiresAt then (Without(entries, k), Some(Expired))
    else if Recomputed(h, offer, entries[k].createdAt) != token then (entries, Some(Mismatch))
    else (entries[k := entries[k].(consumed := true)], None)
  }

  class PlanRegistry {
    var entries: seq<Entry>

    constructor ()
      ensures entries == []
    {
      entries := [];
    }

    method PurgeLocked(now: nat) returns (removed: nat)
      modifies this
      ensures entries == Purge(old(entries), now)
      ensures removed == |old(entries)| - |entries|
    {
      var kept: seq<Entry> := [];
      removed := 0;
      for i := 0 to |entries|
        invariant kept + Purge(entries[i..], now) == Purge(entries, now)
        invariant removed == i - |kept|
        invariant entries == old(entries)
      {
        assert entries[i..][1..] == entries[i + 1..];
        if now > entries[i].expiresAt {
          removed := removed + 1;
        } else {
          assert kept + ([entries[i]] + Purge(entries[i + 1..], now))
              == kept + [entries[i]] + Purge(entries[i + 1..], now);
          kept := kept + [entries[i]];
        }
      }
      entries := kept;
    }

    method FindVictim() returns (v: nat)
      requires entries != []
      ensures v == Victim(entries)
    {
      v := 0;
      for i := 1 to |entries|
        invariant v == Victim(entries[..i])
      {
        assert entries[..i + 1][..i] == entries[..i];
        if Before(entries[i], entries[v]) { v := i; }
      }
      assert entries[..|entries|] == entries;
    }

    method EvictLocked() returns (removed: nat)
      modifies this
      ensures entries == Evict(old(entries))
      ensures removed == |old(entries)| - |entries|
    {
      removed := 0;
      while |entries| > MAX_LIVE_PLANS
        invariant Evict(entries) == Evict(old(entries))
        invariant removed == |old(entries)| - |entries|
        decreases |entries|
      {
        var victim := FindVictim();
        entries := Without(entries, victim);
        removed := removed + 1;
      }
    }

    method RegisterPlan(h: Hashes, c: Content, nonce: string, now: nat, secret: Option<string>) returns (proof: string)
      modifies this
      ensures proof == ContentProof(h, c, nonce, now, secret)
      ensures entries == Register(old(entries), proof, now)
    {
      proof := HashContent(h, c, nonce, now, secret);
      var purged := PurgeLocked(now);
      entries := Put(entries, Entry(proof, now, now + PLAN_TTL, false));
      var evicted := EvictLocked();
    }

    method VerifyAndConsume(h: Hashes, token: string, offer: Offer, now: nat) returns (refusal: Option<Refusal>)
      modifies this
      ensures (entries, refusal) == Verify(old(entries), h, token, offer, now)
    {
      var k := Find(entries, token);
      if k == |entries| { return Some(Unknown); }
      if entries[k].consumed { return Some(AlreadyConsumed); }
      if now > entries[k].expiresAt {
        entries := Without(entries, k);
        return Some(Expired);
      }
      var recomputed := HashContent(h, offer.content, NonceText(offer.nonce), entries[k].createdAt, offer.secret);
      if recomputed != token { return Some(Mismatch); }
      entries := entries[k := entries[k].(consumed := true)];
      refusal := None;
    }

    method PurgeExpired(now: nat) returns (removed: nat)
      modifies this
      ensures entries == Evict(Purge(old(entries), now))
      ensures removed == |old(entries)| - |entries|
    {
      removed := PurgeLocked(now);
      var evicted := EvictLocked();
      removed := removed + evicted;
    }
  }

  // ---- eviction ----

  /** Main result: eviction keeps the 64 entries of highest rank: it removes no
      more than it must, and nothing removed outranks anything kept. */
  lemma {:induction false} EvictKeepsHighest(entries: seq<Entry>)
    ensures |Evict(entries)| == if |entries| <= 64 then |entries| else 64
    ensures multiset(Evict(entries)) <= multiset(entries)
    ensures forall gone, kept :: gone in multiset(entries) - multiset(Evict(entries)) && kept in Evict(entries)
              ==> !Before(kept, gone)
    decreases |entries|
  {
    if |entries| > MAX_LIVE_PLANS {
      var v := Victim(entries);
      var rest := Without(entries, v);
      EvictKeepsHighest(rest);
      WithoutMultiset(entries, v);
      forall gone, kept | gone in multiset(entries) - multiset(Evict(entries)) && kept in Evict(entries)
        ensures !Before(kept, gone)
      {
        assert kept in multiset(Evict(entries));
        assert kept in multiset(entries);
        if gone != entries[v] {
          assert gone in multiset(rest) - multiset(Evict(rest));
        }
      }
    }
  }

  lemma EvictSparesUnconsumed(entries: seq<Entry>, gone: Entry, kept: Entry)
    requires gone in multiset(entries) - multiset(Evict(entries)) && kept in Evict(entries)
    ensures kept.consumed ==> gone.consumed
    ensures kept.consumed == gone.consumed ==> gone.createdAt <= kept.createdAt
  {
    EvictKeepsHighest(entries);
    assert !Before(kept, gone);
  }

  lemma {:induction false} PurgeShrinks(entries: seq<Entry>, now: nat)
    ensures |Purge(entries, now)| <= |entries|
    ensures forall e :: e in Purge(entries, now) <==> e in entries && now <= e.expiresAt
  {
    if entries != [] { PurgeShrinks(entries[1..], now); }
  }

  /** The registry never grows past its cap. */
  lemma RegisterBounded(entries: seq<Entry>, token: string, now: nat)
    ensures |Register(entries, token, now)| <= 64
  {
    EvictKeepsHighest(Put(Purge(entries, now), Entry(token, now, now + PLAN_TTL, false)));
  }

  /** The newest entry, being last, is never the victim. */
  lemma {:induction false} EvictSparesLast(entries: seq<Entry>)
    requires entries != [] && !entries[|entries| - 1].consumed
    requires forall e :: e in entries ==> e.createdAt <= entries[|entries| - 1].createdAt
    ensures entries[|entries| - 1] in Evict(entries)
    decreases |entries|
  {
    if |entries| > MAX_LIVE_PLANS {
      var last, v := |entries| - 1, Victim(entries);
      assert entries[0] in entries && !Before(entries[last], entries[0]);
      assert v != last;
      var rest := Without(entries, v);
      assert rest[|rest| - 1] == entries[last];
      EvictSparesLast(rest);
    }
  }

  /** Main result: a registration survives its own eviction when the clock did not
      go back, that is when no entry is dated after it. */
  lemma RegisterSparesItself(entries: seq<Entry>, token: string, now: nat)
    requires forall e :: e in entries ==> e.createdAt <= now && e.token != token
    ensures Entry(token, now, now + PLAN_TTL, false) in Register(entries, token, now)
  {
    var purged := Purge(entries, now);
    PurgeShrinks(entries, now);
    EvictSparesLast(purged + [Entry(token, now, now + PLAN_TTL, false)]);
  }

  // ---- whole runs ----

  datatype Event =
    | Registering(content: Content, nonce: string, now: nat, secret: Option<string>)
    | Verifying(token: string, offer: Offer, now: nat)
    | Purging(now: nat)

  datatype Issue = Issue(content: Content, nonce: string, created: nat, secret: Option<string>)

  datatype Acceptance = Acceptance(token: string, offer: Offer, at: nat)

  /** The registry with the history of what was issued and accepted. */
  datatype State = State(entries: seq<Entry>, issued: map<string, Issue>, accepted: seq<Acceptance>)

  function Step(s: State, e: Event, h: Hashes): State {
    match e
    case Registering(c, nonce, now, secret) =>
      var token := ContentProof(h, c, nonce, now, secret);
      State(Register(s.entries, token, now), s.issued[token := Issue(c, nonce, now, secret)], s.accepted)
    case Verifying(token, offer, now) =>
      var (entries, refusal) := Verify(s.entries, h, token, offer, now);
      State(entries, s.issued, if refusal.None? then s.accepted + [Acceptance(token, offer, now)] else s.accepted)
    case Purging(now) => s.(entries := Evict(Purge(s.entries, now)))
  }

  function Run(events: seq<Event>, h: Hashes): State {
    if events == [] then State([], map[], [])
    else Step(Run(events[..|events| - 1], h), events[|events| - 1], h)
  }

  /** Nonces are made by the registry itself, as one line of hexadecimal digits. What
      callers present, to register or to verify, may be anything. */
  ghost predicate HexNonce(e: Event) {
    e.Registering? ==> OneLine(e.nonce)
  }

  ghost predicate FreshNonces(events: seq<Event>) {
    forall i, j :: 0 <= i < j < |events| && events[i].Registering? && events[j].Registering? ==>
      events[i].nonce != events[j].nonce
  }

  ghost predicate IssuedBy(events: seq<Event>, issue: Issue) {
    exists i :: 0 <= i < |events| && events[i] == Registering(issue.content, issue.nonce, issue.created, issue.secret)
  }

  /** Live entries are issued tokens with their dates, each listed once. */
  ghost predicate EntriesIssued(s: State) {
    && (forall e :: e in s.entries ==>
          e.token in s.issued && e.createdAt == s.issued[e.token].created && e.expiresAt == e.createdAt + PLAN_TTL)
    && (forall i, j :: 0 <= i < j < |s.entries| ==> s.entries[i].token != s.entries[j].token)
  }

  /** Tokens are proofs of what they were issued for, by distinct nonces. */
  ghost predicate TokensBind(s: State, events: seq<Event>, h: Hashes) {
    forall t :: t in s.issued ==>
      var i := s.issued[t];
      && IsProof(h, t, i)
      && OneLine(i.nonce) && IssuedBy(events, i)
  }

  /** The promise about one acceptance: a token in its time; if the plan issued or the
      nonce offered is free of newlines, also its nonce, secret, new value, run count
      and restart flag; and if both plans are, its whole plan. */
  ghost predicate AcceptedRightly(s: State, a: Acceptance) {
    && a.token in s.issued
    && a.at <= s.issued[a.token].created + PLAN_TTL
    && Matches(s.issued[a.token], a.offer)
  }

  ghost predicate Matches(issue: Issue, offer: Offer) {
    && (PlainContent(issue.content) || OneLine(NonceText(offer.nonce)) ==>
          && NonceText(offer.nonce) == issue.nonce && offer.secret == issue.secret
          && offer.content.newValue == issue.content.newValue
          && offer.content.activeRuns == issue.content.activeRuns
          && offer.content.requiresRestart == issue.content.requiresRestart)
    && (PlainContent(issue.content) && PlainContent(offer.content) ==> SameContent(offer.content, issue.content))
  }

  ghost predicate AcceptedOnce(s: State) {
    && (forall i, j :: 0 <= i < j < |s.accepted| ==> s.accepted[i].token != s.accepted[j].token)
    && (forall a, e :: a in s.accepted && e in s.entries && e.token == a.token ==> e.consumed)
  }

  ghost predicate AllRight(s: State) {
    forall a :: a in s.accepted ==> AcceptedRightly(s, a)
  }

  ghost predicate Inv(s: State, events: seq<Event>, h: Hashes) {
    Sound(s) && TokensBind(s, events, h)
  }

  /** Entries only ever leave, never change, when the registry shrinks. */
  ghost predicate Shrunk(entries: seq<Entry>, fewer: seq<Entry>) {
    && (forall e :: e in fewer ==> e in entries)
    && (forall i, j :: 0 <= i < j < |entries| ==> entries[i].token != entries[j].token)
    && (forall i, j :: 0 <= i < j < |fewer| ==> fewer[i].token != fewer[j].token)
  }

  lemma WithoutShrinks(entries: seq<Entry>, k: nat)
    requires k < |entries| && forall i, j :: 0 <= i < j < |entries| ==> entries[i].token != entries[j].token
    ensures Shrunk(entries, Without(entries, k))
  {
    var w := Without(entries, k);
    assert forall i :: 0 <= i < |w| ==> w[i] == entries[if i < k then i else i + 1];
  }

  lemma {:induction false} PurgeKeepsDistinct(entries: seq<Entry>, now: nat)
    requires forall i, j :: 0 <= i < j < |entries| ==> entries[i].token != entries[j].token
    ensures Shrunk(entries, Purge(entries, now))
  {
    if entries != [] {
      assert forall i :: 0 <= i < |entries[1..]| ==> entries[1..][i] == entries[i + 1];
      PurgeKeepsDistinct(entries[1..], now);
      PurgeShrinks(entries[1..], now);
      var rest := Purge(entries[1..], now);
      forall i | 0 <= i < |rest| ensures rest[i].token != entries[0].token {
        assert rest[i] in entries[1..];
        var k :| 0 <= k < |entries[1..]| && entries[1..][k] == rest[i];
      }
    }
  }

  lemma {:induction false} EvictShrinks(entries: seq<Entry>)
    requires forall i, j :: 0 <= i < j < |entries| ==> entries[i].token != entries[j].token
    ensures Shrunk(entries, Evict(entries))
    decreases |entries|
  {
    if |entries| > MAX_LIVE_PLANS {
      WithoutShrinks(entries, Victim(entries));
      EvictShrinks(Without(entries, Victim(entries)));
    }
  }

  /** A fresh nonce gives a token never issued before. */
  lemma FreshToken(s: State, events: seq<Event>, e: Event, h: Hashes)
    requires Ideal(h) && TokensBind(s, events, h) && HexNonce(e) && e.Registering?
    requires FreshNonces(events + [e])
    ensures ContentProof(h, e.content, e.nonce, e.now, e.secret) !in s.issued
  {
    var token := ContentProof(h, e.content, e.nonce, e.now, e.secret);
    if token in s.issued {
      var i := s.issued[token];
      var k :| 0 <= k < |events| && events[k] == Registering(i.content, i.nonce, i.created, i.secret);
      TailDetermines(h, i.content, i.nonce, i.created, i.secret, e.content, e.nonce, e.now, e.secret);
      NoncesDiffer(events, e, k);
      assert false;
    }
  }

  lemma NoncesDiffer(events: seq<Event>, e: Event, k: nat)
    requires FreshNonces(events + [e]) && k < |events| && e.Registering? && events[k].Registering?
    ensures events[k].nonce != e.nonce
  {
    var all := events + [e];
    assert all[k] == events[k] && all[|events|] == e;
  }

  lemma BindingsPersist(s: State, events: seq<Event>, e: Event, h: Hashes)
    requires TokensBind(s, events, h)
    ensures TokensBind(s, events + [e], h)
  {
    forall t | t in s.issued ensures IssuedBy(events + [e], s.issued[t]) {
      StillIssued(events, e, s.issued[t]);
    }
  }

  lemma ShrinkKeeps(s: State, fewer: seq<Entry>)
    requires Sound(s) && Shrunk(s.entries, fewer)
    ensures var s' := s.(entries := fewer); Sound(s')
  {
    var s' := s.(entries := fewer);
    forall a | a in s'.accepted ensures AcceptedRightly(s', a) {
      assert AcceptedRightly(s, a);
    }
  }

  lemma AddKeeps(s: State, token: string, issue: Issue)
    requires Sound(s) && token !in s.issued
    ensures var added := Entry(token, issue.created, issue.created + PLAN_TTL, false);
            var s' := State(s.entries + [added], s.issued[token := issue], s.accepted);
            && Put(s.entries, added) == s.entries + [added]
            && Sound(s')
  {
    var added := Entry(token, issue.created, issue.created + PLAN_TTL, false);
    var s' := State(s.entries + [added], s.issued[token := issue], s.accepted);
    forall i | 0 <= i < |s.entries| ensures s.entries[i].token != token {
      assert s.entries[i] in s.entries;
    }
    forall a | a in s'.accepted ensures AcceptedRightly(s', a) && a.token != token {
      assert AcceptedRightly(s, a);
    }
  }

  ghost predicate Sound(s: State) {
    EntriesIssued(s) && AcceptedOnce(s) && AllRight(s)
  }

  lemma RegisterKeepsSound(s: State, token: string, issue: Issue)
    requires Sound(s) && token !in s.issued
    ensures Sound(State(Register(s.entries, token, issue.created), s.issued[token := issue], s.accepted))
  {
    PurgeKeepsDistinct(s.entries, issue.created);
    ShrinkKeeps(s, Purge(s.entries, issue.created));
    var s1 := s.(entries := Purge(s.entries, issue.created));
    AddKeeps(s1, token, issue);
    var s2 := State(s1.entries + [Entry(token, issue.created, issue.created + PLAN_TTL, false)],
                    s.issued[token := issue], s.accepted);
    EvictShrinks(s2.entries);
    ShrinkKeeps(s2, Evict(s2.entries));
  }

  lemma IssueBinds(s: State, events: seq<Event>, e: Event, h: Hashes)
    requires TokensBind(s, events, h) && HexNonce(e) && e.Registering?
    ensures TokensBind(Step(s, e, h), events + [e], h)
  {
    BindingsPersist(s, events, e, h);
    assert (events + [e])[|events|] == e;
    assert IssuedBy(events + [e], Issue(e.content, e.nonce, e.now, e.secret));
  }

  lemma RegisterKeepsInv(s: State, events: seq<Event>, e: Event, h: Hashes)
    requires Ideal(h) && Inv(s, events, h) && HexNonce(e) && e.Registering?
    requires FreshNonces(events + [e])
    ensures Inv(Step(s, e, h), events + [e], h)
  {
    FreshToken(s, events, e, h);
    RegisterKeepsSound(s, ContentProof(h, e.content, e.nonce, e.now, e.secret),
                       Issue(e.content, e.nonce, e.now, e.secret));
    IssueBinds(s, events, e, h);
  }

  lemma StillIssued(events: seq<Event>, e: Event, issue: Issue)
    requires IssuedBy(events, issue)
    ensures IssuedBy(events + [e], issue)
  {
    var k :| 0 <= k < |events| && events[k] == Registering(issue.content, issue.nonce, issue.created, issue.secret);
    assert (events + [e])[k] == events[k];
  }

  /** Consuming a live, unconsumed entry. */
  lemma ConsumeKeeps(s: State, k: nat, a: Acceptance)
    requires Sound(s) && AcceptedRightly(s, a)
    requires k < |s.entries| && s.entries[k].token == a.token && !s.entries[k].consumed
    ensures var s' := State(s.entries[k := s.entries[k].(consumed := true)], s.issued, s.accepted + [a]);
            Sound(s')
  {
    var live := s.entries[k];
    var s' := State(s.entries[k := live.(consumed := true)], s.issued, s.accepted + [a]);
    assert live in s.entries;
    assert forall b :: b in s.accepted ==> b.token != a.token;
    forall b | b in s'.accepted ensures AcceptedRightly(s', b) {
      assert b == a || AcceptedRightly(s, b);
    }
    forall b, i | b in s'.accepted && 0 <= i < |s'.entries| && s'.entries[i].token == b.token
      ensures s'.entries[i].consumed
    {
      if i != k { assert s.entries[i] in s.entries && b in s.accepted; }
    }
  }

  ghost predicate IsProof(h: Hashes, token: string, issue: Issue) {
    token == ContentProof(h, issue.content, issue.nonce, issue.created, issue.secret)
  }

  ghost predicate IsRecomputed(h: Hashes, token: string, offer: Offer, created: nat) {
    token == Recomputed(h, offer, created)
  }

  /** An accepted offer has the proof recomputed from the date on record. */
  lemma AcceptanceRecomputes(entries: seq<Entry>, h: Hashes, token: string, offer: Offer, now: nat)
    requires Verify(entries, h, token, offer, now).1.None?
    ensures var k := Find(entries, token);
      k < |entries| && entries[k].token == token && now <= entries[k].expiresAt
      && IsRecomputed(h, token, offer, entries[k].createdAt)
  {
  }

  /** What an accepted offer has in common with the plan its token was issued for. */
  lemma AcceptedMatches(h: Hashes, token: string, issue: Issue, offer: Offer)
    requires Ideal(h) && IsProof(h, token, issue) && OneLine(issue.nonce)
    requires IsRecomputed(h, token, offer, issue.created)
    ensures Matches(issue, offer)
  {
    var nonce := NonceText(offer.nonce);
    if PlainContent(issue.content) {
      NonceDetermines(h, issue.content, issue.nonce, issue.created, issue.secret, offer.content, nonce, issue.created,
                      offer.secret);
    }
    if OneLine(nonce) {
      TailDetermines(h, issue.content, issue.nonce, issue.created, issue.secret, offer.content, nonce, issue.created,
                     offer.secret);
      if PlainContent(issue.content) && PlainContent(offer.content) {
        ProofDetermines(h, issue.content, issue.nonce, issue.created, issue.secret, offer.content, nonce,
                        issue.created, offer.secret);
        SameContentSymmetric(issue.content, offer.content);
      }
    }
  }

  lemma AcceptedIsRight(s: State, events: seq<Event>, e: Event, h: Hashes)
    requires Ideal(h) && EntriesIssued(s) && TokensBind(s, events, h) && e.Verifying?
    requires Verify(s.entries, h, e.token, e.offer, e.now).1.None?
    ensures AcceptedRightly(s, Acceptance(e.token, e.offer, e.now))
  {
    AcceptanceRecomputes(s.entries, h, e.token, e.offer, e.now);
    LiveIsIssued(s, Find(s.entries, e.token));
    AcceptedMatches(h, e.token, s.issued[e.token], e.offer);
  }

  lemma LiveIsIssued(s: State, k: nat)
    requires EntriesIssued(s) && k < |s.entries|
    ensures var live := s.entries[k];
      live.token in s.issued && live.createdAt == s.issued[live.token].created
          && live.expiresAt == live.createdAt + PLAN_TTL
  {
    assert s.entries[k] in s.entries;
  }

  lemma SameContentSymmetric(c: Content, d: Content)
    requires SameContent(c, d)
    ensures SameContent(d, c)
  {
  }

  lemma VerifyKeepsSound(s: State, h: Hashes, token: string, offer: Offer, now: nat)
    requires Sound(s)
    requires Verify(s.entries, h, token, offer, now).1.None? ==> AcceptedRightly(s, Acceptance(token, offer, now))
    ensures Sound(Step(s, Verifying(token, offer, now), h))
  {
    var k := Find(s.entries, token);
    if Verify(s.entries, h, token, offer, now).1.None? {
      ConsumeKeeps(s, k, Acceptance(token, offer, now));
    } else if k < |s.entries| {
      WithoutShrinks(s.entries, k);
      ShrinkKeeps(s, Without(s.entries, k));
    }
  }

  lemma VerifyKeepsInv(s: State, events: seq<Event>, e: Event, h: Hashes)
    requires Ideal(h) && Inv(s, events, h) && e.Verifying?
    ensures Inv(Step(s, e, h), events + [e], h)
  {
    if Verify(s.entries, h, e.token, e.offer, e.now).1.None? {
      AcceptedIsRight(s, events, e, h);
    }
    VerifyKeepsSound(s, h, e.token, e.offer, e.now);
    BindingsPersist(s, events, e, h);
  }

  lemma PurgeKeepsInv(s: State, events: seq<Event>, e: Event, h: Hashes)
    requires Inv(s, events, h) && e.Purging?
    ensures Inv(Step(s, e, h), events + [e], h)
  {
    PurgeKeepsDistinct(s.entries, e.now);
    EvictShrinks(Purge(s.entries, e.now));
    ShrinkKeeps(s, Purge(s.entries, e.now));
    ShrinkKeeps(s.(entries := Purge(s.entries, e.now)), Evict(Purge(s.entries, e.now)));
    BindingsPersist(s, events, e, h);
  }

  lemma {:induction false} RunKeepsInv(events: seq<Event>, h: Hashes)
    requires Ideal(h) && FreshNonces(events) && forall e :: e in events ==> HexNonce(e)
    ensures Inv(Run(events, h), events, h)
  {
    if events != [] {
      var before, e := events[..|events| - 1], events[|events| - 1];
      assert events == before + [e];
      RunKeepsInv(before, h);
      match e
      case Registering(_, _, _, _) => RegisterKeepsInv(Run(before, h), before, e, h);
      case Verifying(_, _, _) => VerifyKeepsInv(Run(before, h), before, e, h);
      case Purging(_) => PurgeKeepsInv(Run(before, h), before, e, h);
    }
  }

  /** Main result: over any run of registrations, verifications, purges and
      evictions with fresh nonces, whatever is presented, no token is accepted twice,
      and each only no later than 120 seconds after its issue and for an offer that
      matches it. */
  lemma TokensAreSingleUse(events: seq<Event>, h: Hashes)
    requires Ideal(h) && FreshNonces(events) && forall e :: e in events ==> HexNonce(e)
    ensures var s := Run(events, h);
      && (forall i, j :: 0 <= i < j < |s.accepted| ==> s.accepted[i].token != s.accepted[j].token)
      && (forall a :: a in s.accepted ==> AcceptedRightly(s, a) && IssuedBy(events, s.issued[a.token]))
  {
    RunKeepsInv(events, h);
  }

  // ---- what is accepted, and what is kept ----

  ghost predicate Distinct(entries: seq<Entry>) {
    forall i, j :: 0 <= i < j < |entries| ==> entries[i].token != entries[j].token
  }

  /** The entry of a token, if it is listed. */
  ghost predicate ListedAs(entries: seq<Entry>, token: string, k: nat) {
    k < |entries| && entries[k].token == token
  }

  lemma FindExact(entries: seq<Entry>, token: string, k: nat)
    requires Distinct(entries) && ListedAs(entries, token, k)
    ensures Find(entries, token) == k
  {
  }

  lemma UpdateSplits(entries: seq<Entry>, k: nat, e: Entry)
    requires k < |entries|
    ensures entries[k := e] == entries[..k] + [e] + entries[k + 1..]
  {
  }

  /** The proof that an offer would have at the date on record. */
  ghost predicate Proves(h: Hashes, token: string, offer: Offer, created: nat) {
    ContentProof(h, offer.content, if offer.nonce.None? then "" else offer.nonce.value, created, offer.secret) == token
  }

  lemma ProvesExact(h: Hashes, token: string, offer: Offer, created: nat)
    ensures Recomputed(h, offer, created) == token <==> Proves(h, token, offer, created)
  {
  }

  lemma VerifyCases(entries: seq<Entry>, h: Hashes, token: string, offer: Offer, now: nat, k: nat, proves: bool)
    requires Distinct(entries) && ListedAs(entries, token, k)
    requires proves <==> Recomputed(h, offer, entries[k].createdAt) == token
    ensures var e := entries[k];
            var (left, refusal) := Verify(entries, h, token, offer, now);
      && (refusal == None <==> !e.consumed && now <= e.expiresAt && proves)
      && (refusal == Some(AlreadyConsumed) <==> e.consumed)
      && (refusal == Some(Expired) <==> !e.consumed && now > e.expiresAt)
      && (refusal == Some(Mismatch) <==> !e.consumed && now <= e.expiresAt && !proves)
      && (refusal == None ==> left == entries[k := Entry(token, e.createdAt, e.expiresAt, true)])
      && (refusal == Some(Expired) ==> left == entries[..k] + entries[k + 1..])
      && (refusal == Some(AlreadyConsumed) || refusal == Some(Mismatch) ==> left == entries)
  {
    FindExact(entries, token, k);
  }

  /** Main result, exact: what becomes of an offer for a listed token. It is accepted if
      and only if the token is not consumed, not past its expiry, and is the proof of the
      offer at the date on record; accepting marks the token consumed, lateness takes it
      off the list, and nothing else ever changes. */
  lemma VerifyListed(entries: seq<Entry>, h: Hashes, token: string, offer: Offer, now: nat, k: nat)
    requires Distinct(entries) && ListedAs(entries, token, k)
    ensures var e := entries[k];
            var (left, refusal) := Verify(entries, h, token, offer, now);
            var proves := Proves(h, token, offer, e.createdAt);
      && (refusal == None <==> !e.consumed && now <= e.expiresAt && proves)
      && (refusal == Some(AlreadyConsumed) <==> e.consumed)
      && (refusal == Some(Expired) <==> !e.consumed && now > e.expiresAt)
      && (refusal == Some(Mismatch) <==> !e.consumed && now <= e.expiresAt && !proves)
      && (refusal == None ==> left == entries[..k] + [Entry(token, e.createdAt, e.expiresAt, true)] + entries[k + 1..])
      && (refusal == Some(Expired) ==> left == entries[..k] + entries[k + 1..])
      && (refusal == Some(AlreadyConsumed) || refusal == Some(Mismatch) ==> left == entries)
  {
    var e := entries[k];
    ProvesExact(h, token, offer, e.createdAt);
    VerifyCases(entries, h, token, offer, now, k, Recomputed(h, offer, e.createdAt) == token);
    UpdateSplits(entries, k, Entry(token, e.createdAt, e.expiresAt, true));
  }

  lemma VerifyUnlisted(entries: seq<Entry>, h: Hashes, token: string, offer: Offer, now: nat)
    ensures Verify(entries, h, token, offer, now) == (entries, Some(Unknown))
            <==> forall e :: e in entries ==> e.token != token
  {
    var k := Find(entries, token);
    if k < |entries| { assert entries[k] in entries; }
  }

  /** Registering keeps no expired entry, and every other one when there is room. */
  lemma RegisterExact(entries: seq<Entry>, token: string, now: nat, e: Entry)
    requires e.token != token
    ensures e in Register(entries, token, now) ==> e in entries && now <= e.expiresAt
    ensures |entries| < 64 && e in entries && now <= e.expiresAt ==> e in Register(entries, token, now)
  {
    var purged, added := Purge(entries, now), Entry(token, now, now + PLAN_TTL, false);
    var put := Put(purged, added);
    PurgeShrinks(entries, now);
    EvictKeepsHighest(put);
    PutOthers(purged, added, e);
    if e in Evict(put) { assert e in multiset(Evict(put)); }
  }

  lemma PutOthers(entries: seq<Entry>, added: Entry, e: Entry)
    requires e.token != added.token
    ensures e in Put(entries, added) <==> e in entries
    ensures |Put(entries, added)| <= |entries| + 1
  {
    var k := Find(entries, added.token);
    if k < |entries| && e in entries {
      var i :| 0 <= i < |entries| && entries[i] == e;
      assert Put(entries, added)[i] == e;
    }
    if k == |entries| && e in entries { assert e in entries + [added]; }
  }

  // ---- good offers over whole runs ----

  /** What is marked consumed has been accepted. */
  ghost predicate ConsumedAccepted(s: State) {
    forall e :: e in s.entries && e.consumed ==> HasAccepted(s, e.token)
  }

  ghost predicate HasAccepted(s: State, token: string) {
    exists a :: a in s.accepted && a.token == token
  }

  lemma RegisterKeepsConsumed(s: State, e: Event, h: Hashes)
    requires ConsumedAccepted(s) && e.Registering?
    ensures ConsumedAccepted(Step(s, e, h))
  {
    var token := ContentProof(h, e.content, e.nonce, e.now, e.secret);
    var s' := Step(s, e, h);
    var put := Put(Purge(s.entries, e.now), Entry(token, e.now, e.now + PLAN_TTL, false));
    PurgeShrinks(s.entries, e.now);
    EvictKeepsHighest(put);
    forall x | x in s'.entries && x.consumed ensures HasAccepted(s', x.token) {
      assert x in multiset(s'.entries);
      assert x in put;
      assert x in s.entries;
      assert HasAccepted(s, x.token);
    }
  }

  lemma PurgeKeepsConsumed(s: State, e: Event, h: Hashes)
    requires ConsumedAccepted(s) && e.Purging?
    ensures ConsumedAccepted(Step(s, e, h))
  {
    var s' := Step(s, e, h);
    PurgeShrinks(s.entries, e.now);
    EvictKeepsHighest(Purge(s.entries, e.now));
    forall x | x in s'.entries && x.consumed ensures HasAccepted(s', x.token) {
      assert x in multiset(s'.entries);
      assert x in s.entries;
      assert HasAccepted(s, x.token);
    }
  }

  lemma VerifyKeepsConsumed(s: State, e: Event, h: Hashes)
    requires ConsumedAccepted(s) && e.Verifying?
    ensures ConsumedAccepted(Step(s, e, h))
  {
    var s' := Step(s, e, h);
    var k := Find(s.entries, e.token);
    forall x | x in s'.entries && x.consumed ensures HasAccepted(s', x.token) {
      if x in s.entries {
        assert HasAccepted(s, x.token);
        var a :| a in s.accepted && a.token == x.token;
        assert a in s'.accepted;
      } else {
        assert x.token == e.token;
        assert Acceptance(e.token, e.offer, e.now) in s'.accepted;
      }
    }
  }

  lemma {:induction false} RunKeepsConsumed(events: seq<Event>, h: Hashes)
    ensures ConsumedAccepted(Run(events, h))
  {
    if events != [] {
      var before, e := events[..|events| - 1], events[|events| - 1];
      RunKeepsConsumed(before, h);
      match e
      case Registering(_, _, _, _) => RegisterKeepsConsumed(Run(before, h), e, h);
      case Verifying(_, _, _) => VerifyKeepsConsumed(Run(before, h), e, h);
      case Purging(_) => PurgeKeepsConsumed(Run(before, h), e, h);
    }
  }

  /** An offer of the very plan a token was issued for, in whatever order. */
  ghost predicate GoodOffer(issue: Issue, offer: Offer) {
    && SameContent(offer.content, issue.content) && offer.secret == issue.secret
    && (offer.nonce == Some(issue.nonce) || (issue.nonce == "" && offer.nonce.None?))
  }

  /** Main result, the other half of single use: over any run with fresh nonces, a token
      that is still listed and was never accepted is accepted for the plan it was issued
      for, up to and at the 120th second after its issue. */
  lemma GoodOffersAreAccepted(events: seq<Event>, h: Hashes, token: string, k: nat, offer: Offer, now: nat)
    requires Ideal(h) && FreshNonces(events) && forall e :: e in events ==> HexNonce(e)
    requires var s := Run(events, h);
      && ListedAs(s.entries, token, k) && token in s.issued && !HasAccepted(s, token)
      && GoodOffer(s.issued[token], offer) && now <= s.issued[token].created + 120_000_000
    ensures Verify(Run(events, h).entries, h, token, offer, now).1 == None
  {
    var s := Run(events, h);
    RunKeepsInv(events, h);
    RunKeepsConsumed(events, h);
    LiveIsIssued(s, k);
    assert s.entries[k] in s.entries;
    var issue := s.issued[token];
    assert IsProof(h, token, issue);
    ProofIgnoresOrder(h, offer.content, issue.content, issue.nonce, issue.created, issue.secret);
    VerifyListed(s.entries, h, token, offer, now, k);
  }
}
