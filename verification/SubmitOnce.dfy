/** One process, one client request id: whatever the interleaving, at most one
    submission returns a run, and its mapping is stored before the key lock is free
    again (src/hermes_mcp_bridge/server.py). What breaks this is found exactly: a
    mapping write that is lost, or let go of, after the run returned. */
module SubmitOnce {
  import opened Wrappers
  import opened Gate
  import opened Bridge
  import opened Texts
  import Runs = RunRegistry

  predicate OfKey(k: Caller, key: string) { k.request.clientId == Some(key) }

  predicate Holding(pc: Pc) { pc.Locked? || pc.Posting? || HasRun(pc) }

  predicate HeldBy(s: State, p: nat, key: string, c: nat) {
    (p, key) in s.holder && s.holder[(p, key)] == c
  }

  /** The call of run `r` is for `key`. */
  predicate RunOfKey(s: State, key: string, r: nat) {
    r < |s.runs| && s.runs[r] in s.callers && OfKey(s.callers[s.runs[r]], key)
  }

  predicate Recorded(s: State, key: string, fingerprint: string, execution: nat) {
    key in s.mappings && s.mappings[key].fingerprint == fingerprint && s.mappings[key].execution == execution
  }

  /** A returned run for `key` and the fingerprint of its request. */
  predicate Produced(h: Hashes, s: State, key: string, fingerprint: string, run: nat) {
    run in s.returned && RunOfKey(s, key, run) && fingerprint == RunFingerprint(h, s.callers[s.runs[run]].request)
  }

  ghost predicate NoneReturned(s: State, key: string) {
    forall r :: r in s.returned ==> !RunOfKey(s, key, r)
  }

  // ---- the invariant ----

  /** What the end of a call for `key` says about its mapping. */
  predicate EndOk(h: Hashes, s: State, key: string, k: Caller) {
    k.pc.Done? ==>
      match k.pc.end
      case Recovered(e) => Recorded(s, key, RunFingerprint(h, k.request), e)
      case Ran(e) => Recorded(s, key, RunFingerprint(h, k.request), e)
      case Mismatch => key in s.mappings && s.mappings[key].fingerprint != RunFingerprint(h, k.request)
      case _ => true
  }

  ghost predicate KeyCallOk(h: Hashes, key: string, p: nat, s: State, c: nat)
    requires c in s.callers
  {
    var k := s.callers[c];
    OfKey(k, key) ==>
      && k.process == p
      && (Holding(k.pc) <==> HeldBy(s, p, key, c))
      && (k.pc.Posting? || HasRun(k.pc) ==> Runs.ValidId(key))
      && (k.pc.Posting? || k.pc.Posted? ==> NoneReturned(s, key))
      && (k.pc.Storing? || k.pc.Restoring? ==> k.pc.run in s.returned)
      && EndOk(h, s, key, k)
  }

  ghost predicate CallsOk(h: Hashes, key: string, p: nat, s: State) {
    forall c {:trigger KeyCallOk(h, key, p, s, c)} :: c in s.callers ==> KeyCallOk(h, key, p, s, c)
  }

  predicate MappingOk(h: Hashes, key: string, s: State) {
    key in s.mappings ==>
      Runs.ValidId(key) && Produced(h, s, key, s.mappings[key].fingerprint, s.mappings[key].execution)
  }

  predicate PendingOk(h: Hashes, key: string, s: State) {
    forall w :: w in s.pending && w.id == key ==> Produced(h, s, key, w.fingerprint, w.execution)
  }

  predicate Writing(k: Caller, run: nat) { k.pc == Storing(run) || k.pc == Restoring(run) }

  /** A returned run is on record, or its call is still writing it. */
  predicate Accounted(s: State, key: string, r: nat) {
    RunOfKey(s, key, r) ==> key in s.mappings || Writing(s.callers[s.runs[r]], r)
  }

  ghost predicate ReturnedOk(key: string, s: State) {
    && (forall r :: r in s.returned ==> r < |s.runs| && Accounted(s, key, r))
    && (forall q, r :: q in s.returned && r in s.returned && RunOfKey(s, key, q) && RunOfKey(s, key, r) ==> q == r)
  }

  ghost predicate HolderKnown(key: string, p: nat, s: State) {
    forall c :: HeldBy(s, p, key, c) ==> c in s.callers
  }

  ghost predicate Once(h: Hashes, key: string, p: nat, s: State) {
    Inv(h, s) && HolderKnown(key, p, s) && CallsOk(h, key, p, s) && MappingOk(h, key, s) && PendingOk(h, key, s)
        && ReturnedOk(key, s)
  }

  // ---- the events allowed ----

  /** A mapping write that is lost or let go of after the run returned. */
  predicate LosesWrite(key: string, s: State, e: Event) {
    (e.StoreFails? || e.Kills? || e.Cancels?) && e.c in s.callers && OfKey(s.callers[e.c], key) &&
    var k := s.callers[e.c];
    (k.pc.Storing? || k.pc.Restoring?) && (e.Cancels? ==> k.pc.Restoring? || k.tool.PromptTool?)
  }

  /** All calls for `key` come to process `p`, no mapping write of theirs is lost, and
      nobody else changes the run that `key` maps to. */
  predicate Safe(key: string, p: nat, s: State, e: Event) {
    && (e.Arrives? && e.request.clientId == Some(key) ==> e.process == p)
    && !LosesWrite(key, s, e)
    && (e.OthersUpdate? && e.id == key ==> e.execution.None?)
  }

  ghost predicate SafeRun(h: Hashes, key: string, p: nat, events: seq<Event>) {
    forall i :: 0 <= i < |events| ==> Safe(key, p, Run(h, EMPTY, events[..i]), events[i])
  }

  // ---- the frame of a step ----

  predicate KeepsKey(s: State, s': State, key: string) {
    key in s.mappings ==> Recorded(s', key, s.mappings[key].fingerprint, s.mappings[key].execution)
  }

  /** A step of call `c`, as far as the calls for `key` can tell. */
  ghost predicate Shifts(s: State, s': State, key: string, p: nat, c: nat) {
    && c in s.callers && s'.callers.Keys == s.callers.Keys
    && (forall d :: d in s.callers && d != c ==> s'.callers[d] == s.callers[d])
    && s'.callers[c].request == s.callers[c].request && s'.callers[c].process == s.callers[c].process
    && (forall d :: d != c ==> (HeldBy(s, p, key, d) <==> HeldBy(s', p, key, d)))
    && (s'.runs == s.runs || s'.runs == s.runs + [c])
    && s.returned <= s'.returned
    && (forall r :: r in s'.returned && r !in s.returned ==> s.callers[c].pc == Posted(r))
    && KeepsKey(s, s', key)
  }

  lemma RunOfKeyStays(s: State, s': State, key: string, p: nat, c: nat, r: nat)
    requires Shifts(s, s', key, p, c) && r < |s.runs|
    ensures RunOfKey(s', key, r) <==> RunOfKey(s, key, r)
  {
  }

  lemma ProducedStays(h: Hashes, s: State, s': State, key: string, p: nat, c: nat, fingerprint: string, run: nat)
    requires Shifts(s, s', key, p, c) && Produced(h, s, key, fingerprint, run)
    ensures Produced(h, s', key, fingerprint, run)
  {
  }

  lemma NoneReturnedStays(h: Hashes, key: string, p: nat, s: State, s': State, c: nat, d: nat)
    requires Once(h, key, p, s) && Shifts(s, s', key, p, c) && d in s.callers && d != c
    requires OfKey(s.callers[d], key) && (s.callers[d].pc.Posting? || s.callers[d].pc.Posted?)
    ensures NoneReturned(s', key)
  {
    assert KeyCallOk(h, key, p, s, d) && KeyCallOk(h, key, p, s, c) && CallerOk(h, s, c);
    forall r | r in s'.returned ensures !RunOfKey(s', key, r) {
      if r in s.returned { RunOfKeyStays(s, s', key, p, c, r); }
    }
  }

  lemma OthersStay(h: Hashes, key: string, p: nat, s: State, s': State, c: nat, d: nat)
    requires Once(h, key, p, s) && Shifts(s, s', key, p, c) && d in s.callers && d != c
    ensures KeyCallOk(h, key, p, s', d)
  {
    assert KeyCallOk(h, key, p, s, d);
    if OfKey(s.callers[d], key) && (s.callers[d].pc.Posting? || s.callers[d].pc.Posted?) {
      NoneReturnedStays(h, key, p, s, s', c, d);
    }
  }

  /** A call for `key` stops writing its run only once the mapping is there, and
      starts writing it when it returns. */
  predicate WritesOut(s: State, s': State, key: string, c: nat)
    requires c in s.callers && c in s'.callers
  {
    var k, k' := s.callers[c], s'.callers[c];
    OfKey(k, key) ==>
      && (k.pc.Storing? || k.pc.Restoring? ==> key in s'.mappings || Writing(k', k.pc.run))
      && (k.pc.Posted? && k.pc.run in s'.returned ==> Writing(k', k.pc.run))
  }

  lemma ReturnedStays(h: Hashes, key: string, p: nat, s: State, s': State, c: nat)
    requires Once(h, key, p, s) && Shifts(s, s', key, p, c) && WritesOut(s, s', key, c)
    ensures ReturnedOk(key, s')
  {
    assert CallerOk(h, s, c) && KeyCallOk(h, key, p, s, c);
    forall r | r in s'.returned ensures r < |s'.runs| && r < |s.runs| && Accounted(s', key, r) {
      if r in s.returned { assert Accounted(s, key, r); }
      RunOfKeyStays(s, s', key, p, c, r);
    }
    forall q, r | q in s'.returned && r in s'.returned && RunOfKey(s', key, q) && RunOfKey(s', key, r) ensures q == r {
      RunOfKeyStays(s, s', key, p, c, q);
      RunOfKeyStays(s, s', key, p, c, r);
    }
  }

  ghost predicate TablesOk(h: Hashes, s: State, s': State, key: string) {
    && (key in s'.mappings && key !in s.mappings ==>
          Runs.ValidId(key) && Produced(h, s', key, s'.mappings[key].fingerprint, s'.mappings[key].execution))
    && (forall w :: w in s'.pending && w !in s.pending && w.id == key ==>
          Produced(h, s', key, w.fingerprint, w.execution))
  }

  lemma ShiftKeepsOnce(h: Hashes, key: string, p: nat, s: State, s': State, c: nat)
    requires Once(h, key, p, s) && Inv(h, s') && Shifts(s, s', key, p, c) && WritesOut(s, s', key, c)
    requires TablesOk(h, s, s', key) && KeyCallOk(h, key, p, s', c)
    ensures Once(h, key, p, s')
  {
    forall d | d in s'.callers ensures KeyCallOk(h, key, p, s', d) {
      if d != c { OthersStay(h, key, p, s, s', c, d); }
    }
    ReturnedStays(h, key, p, s, s', c);
    if key in s.mappings { ProducedStays(h, s, s', key, p, c, s.mappings[key].fingerprint, s.mappings[key].execution); }
    forall w | w in s'.pending && w.id == key ensures Produced(h, s', key, w.fingerprint, w.execution) {
      if w in s.pending { ProducedStays(h, s, s', key, p, c, w.fingerprint, w.execution); }
    }
  }

  // ---- one lemma a step ----

  /** A step of `c` that touches neither the mappings nor the runs. */
  lemma QuietKeepsOnce(h: Hashes, key: string, p: nat, s: State, s': State, c: nat)
    requires Once(h, key, p, s) && Inv(h, s') && c in s.callers && c in s'.callers
    requires s' == s.(ops := s'.ops, callers := s.callers[c := s'.callers[c]], holder := s'.holder)
    requires s'.callers[c] == s.callers[c].(pc := s'.callers[c].pc, admission := s'.callers[c].admission)
    requires forall d :: d != c ==> (HeldBy(s, p, key, d) <==> HeldBy(s', p, key, d))
    requires OfKey(s.callers[c], key) ==> !s.callers[c].pc.Storing? && !s.callers[c].pc.Restoring?
    requires KeyCallOk(h, key, p, s', c)
    ensures Once(h, key, p, s')
  {
    assert CallerOk(h, s, c) && KeyCallOk(h, key, p, s, c);
    ShiftKeepsOnce(h, key, p, s, s', c);
  }

  /** Ending without a word on the mapping, before the run returned. */
  lemma FinishKeepsOnce(h: Hashes, key: string, p: nat, s: State, s0: State, c: nat, end: End)
    requires Once(h, key, p, s) && c in s.callers && s0 == s.(ops := s0.ops) && Inv(h, Finish(s0, c, end))
    requires OfKey(s.callers[c], key) ==> !s.callers[c].pc.Storing? && !s.callers[c].pc.Restoring?
    requires OfKey(s.callers[c], key) ==> EndOk(h, s, key, s.callers[c].(pc := Done(end)))
    ensures Once(h, key, p, Finish(s0, c, end))
  {
    assert KeyCallOk(h, key, p, s, c);
    QuietKeepsOnce(h, key, p, s, Finish(s0, c, end), c);
  }

  /** Moving on without the lock. */
  predicate MovesOn(s: State, s': State, c: nat)
    requires c in s.callers
  {
    && c in s'.callers && (Early(s'.callers[c].pc) || s'.callers[c].pc.Admitted?)
    && s' == s.(callers := s.callers[c := s.callers[c].(pc := s'.callers[c].pc, admission := s'.callers[c].admission)])
  }

  lemma MoveKeepsOnce(h: Hashes, key: string, p: nat, s: State, s': State, c: nat)
    requires Once(h, key, p, s) && c in s.callers && Inv(h, s')
    requires Early(s.callers[c].pc) && MovesOn(s.(ops := s'.ops), s', c)
    ensures Once(h, key, p, s')
  {
    assert KeyCallOk(h, key, p, s, c);
    QuietKeepsOnce(h, key, p, s, s', c);
  }

  /** The steps of the policy and the gate. */
  lemma EarlyKeepsOnce(h: Hashes, key: string, p: nat, s: State, s': State, s0: State, c: nat)
    requires Once(h, key, p, s) && c in s.callers && Inv(h, s') && Early(s.callers[c].pc) && s0 == s.(ops := s0.ops)
    requires s' == Finish(s0, c, Refused) || s' == Finish(s0, c, Failed) || MovesOn(s0, s', c)
    ensures Once(h, key, p, s')
  {
    if s' == Finish(s0, c, Refused) { FinishKeepsOnce(h, key, p, s, s0, c, Refused); }
    else if s' == Finish(s0, c, Failed) { FinishKeepsOnce(h, key, p, s, s0, c, Failed); }
    else { MoveKeepsOnce(h, key, p, s, s', c); }
  }

  lemma LockKeepsOnce(h: Hashes, key: string, p: nat, s: State, c: nat)
    requires Once(h, key, p, s) && c in s.callers && s.callers[c].pc.Admitted? && Inv(h, LockStep(s, c))
    ensures Once(h, key, p, LockStep(s, c))
  {
    assert KeyCallOk(h, key, p, s, c);
    var s' := LockStep(s, c);
    if s' != s { QuietKeepsOnce(h, key, p, s, s', c); }
  }

  lemma WriterHolds(h: Hashes, key: string, p: nat, s: State, r: nat)
    requires Once(h, key, p, s)
    ensures RunOfKey(s, key, r) && Writing(s.callers[s.runs[r]], r) ==> HeldBy(s, p, key, s.runs[r])
  {
    if RunOfKey(s, key, r) { assert KeyCallOk(h, key, p, s, s.runs[r]); }
  }

  /** The holder of the lock that finds no mapping knows that no run has returned. */
  lemma NoMappingNoneReturned(h: Hashes, key: string, p: nat, s: State, c: nat)
    requires Once(h, key, p, s) && c in s.callers && OfKey(s.callers[c], key) && s.callers[c].pc.Locked?
    requires key !in s.mappings
    ensures NoneReturned(s, key)
  {
    assert KeyCallOk(h, key, p, s, c);
    forall r | r in s.returned ensures !RunOfKey(s, key, r) {
      assert Accounted(s, key, r);
      WriterHolds(h, key, p, s, r);
    }
  }

  lemma FindKeepsOnce(h: Hashes, key: string, p: nat, s: State, c: nat)
    requires Once(h, key, p, s) && c in s.callers && s.callers[c].pc.Locked? && s.callers[c].request.clientId.Some?
    requires Inv(h, FindStep(h, s, c))
    ensures Once(h, key, p, FindStep(h, s, c))
  {
    assert KeyCallOk(h, key, p, s, c);
    var s' := FindStep(h, s, c);
    if s'.callers[c].pc.Done? {
      FinishKeepsOnce(h, key, p, s, s, c, s'.callers[c].pc.end);
    } else {
      if OfKey(s.callers[c], key) { NoMappingNoneReturned(h, key, p, s, c); }
      QuietKeepsOnce(h, key, p, s, s', c);
    }
  }

  lemma CreateRunKeepsOnce(h: Hashes, key: string, p: nat, s: State, c: nat)
    requires Once(h, key, p, s) && c in s.callers && s.callers[c].pc.Posting?
    requires Inv(h, Move(s, c, Posted(|s.runs|)).(runs := s.runs + [c]))
    ensures Once(h, key, p, Move(s, c, Posted(|s.runs|)).(runs := s.runs + [c]))
  {
    var s' := Move(s, c, Posted(|s.runs|)).(runs := s.runs + [c]);
    assert KeyCallOk(h, key, p, s, c);
    if OfKey(s.callers[c], key) {
      forall r | r in s'.returned ensures !RunOfKey(s', key, r) {
        RunOfKeyStays(s, s', key, p, c, r);
      }
    }
    ShiftKeepsOnce(h, key, p, s, s', c);
  }

  lemma ReturnKeepsOnce(h: Hashes, key: string, p: nat, s: State, c: nat)
    requires Once(h, key, p, s) && c in s.callers && s.callers[c].pc.Posted? && Inv(h, ReturnStep(s, c))
    ensures Once(h, key, p, ReturnStep(s, c))
  {
    assert KeyCallOk(h, key, p, s, c);
    ShiftKeepsOnce(h, key, p, s, ReturnStep(s, c), c);
  }

  /** The write of a call for `key` meets no other run's mapping. */
  lemma StoreRecords(h: Hashes, key: string, p: nat, s: State, c: nat, now: int)
    requires Once(h, key, p, s) && c in s.callers && OfKey(s.callers[c], key)
    requires s.callers[c].pc.Storing? || s.callers[c].pc.Restoring?
    ensures var run := s.callers[c].pc.run;
            var (mappings, reply) := Runs.RecordTx(s.mappings, WriteOf(h, s.callers[c], run), now);
      && Produced(h, s, key, RunFingerprint(h, s.callers[c].request), run)
      && reply.Ok? && key in mappings
      && mappings[key].fingerprint == RunFingerprint(h, s.callers[c].request) && mappings[key].execution == run
      && (key in s.mappings ==> Recorded(s, key, mappings[key].fingerprint, run))
  {
    assert KeyCallOk(h, key, p, s, c) && CallerOk(h, s, c);
  }

  lemma StoreKeepsOnce(h: Hashes, key: string, p: nat, s: State, c: nat, now: int)
    requires Once(h, key, p, s) && c in s.callers && OfKey(s.callers[c], key)
    requires s.callers[c].pc.Storing? || s.callers[c].pc.Restoring?
    requires Inv(h, StoreStep(h, s, c, now))
    ensures Once(h, key, p, StoreStep(h, s, c, now))
  {
    var s' := StoreStep(h, s, c, now);
    assert KeyCallOk(h, key, p, s, c);
    StoreRecords(h, key, p, s, c, now);
    assert Shifts(s, s', key, p, c);
    ProducedStays(h, s, s', key, p, c, RunFingerprint(h, s.callers[c].request), s.callers[c].pc.run);
    assert KeyCallOk(h, key, p, s', c);
    ShiftKeepsOnce(h, key, p, s, s', c);
  }

  lemma OtherStoreKeepsOnce(h: Hashes, key: string, p: nat, s: State, c: nat, now: int)
    requires Once(h, key, p, s) && c in s.callers && !OfKey(s.callers[c], key) && s.callers[c].request.clientId.Some?
    requires s.callers[c].pc.Storing? || s.callers[c].pc.Restoring?
    requires Inv(h, StoreStep(h, s, c, now))
    ensures Once(h, key, p, StoreStep(h, s, c, now))
  {
    assert KeyCallOk(h, key, p, s, c) && CallerOk(h, s, c);
    ShiftKeepsOnce(h, key, p, s, StoreStep(h, s, c, now), c);
  }

  /** A shielded cancellation: the write goes on, and the call writes again. */
  lemma ShieldKeepsOnce(h: Hashes, key: string, p: nat, s: State, c: nat)
    requires Once(h, key, p, s) && c in s.callers && s.callers[c].pc.Storing? && s.callers[c].tool.SubmitTool?
    requires s.callers[c].request.clientId.Some? && Inv(h, CancelStep(h, s, c))
    ensures Once(h, key, p, CancelStep(h, s, c))
  {
    assert KeyCallOk(h, key, p, s, c);
    var s' := CancelStep(h, s, c);
    assert Shifts(s, s', key, p, c);
    if OfKey(s.callers[c], key) {
      StoreRecords(h, key, p, s, c, 0);
      ProducedStays(h, s, s', key, p, c, RunFingerprint(h, s.callers[c].request), s.callers[c].pc.run);
    }
    ShiftKeepsOnce(h, key, p, s, s', c);
  }

  /** Calls for other keys may lose their writes. */
  lemma OtherLossKeepsOnce(h: Hashes, key: string, p: nat, s: State, s0: State, c: nat, end: End)
    requires Once(h, key, p, s) && c in s.callers && !OfKey(s.callers[c], key)
    requires s0 == s.(pending := s0.pending) && Inv(h, Finish(s0, c, end))
    requires forall w :: w in s0.pending && w !in s.pending ==> w.id != key
    ensures Once(h, key, p, Finish(s0, c, end))
  {
    assert KeyCallOk(h, key, p, s, c);
    assert CallerOk(h, s, c);
    ShiftKeepsOnce(h, key, p, s, Finish(s0, c, end), c);
  }

  lemma ArrivalKeepsOnce(h: Hashes, key: string, p: nat, s: State, e: Event)
    requires Once(h, key, p, s) && e.Arrives? && Enabled(s, e) && Safe(key, p, s, e) && Inv(h, Step(h, s, e))
    ensures Once(h, key, p, Step(h, s, e))
  {
    var s' := Step(h, s, e);
    assert forall r :: r in s.returned ==> (RunOfKey(s', key, r) <==> RunOfKey(s, key, r));
    assert forall fingerprint, r :: Produced(h, s, key, fingerprint, r) ==> Produced(h, s', key, fingerprint, r);
    forall d | d in s'.callers ensures KeyCallOk(h, key, p, s', d) {
      if d in s.callers { assert KeyCallOk(h, key, p, s, d); }
    }
    forall r | r in s'.returned ensures r < |s'.runs| && Accounted(s', key, r) {
      assert Accounted(s, key, r);
    }
  }

  /** The registries move on by themselves. */
  lemma RegistriesKeepOnce(h: Hashes, key: string, p: nat, s: State, s': State)
    requires Once(h, key, p, s) && Inv(h, s') && s' == s.(ops := s'.ops, mappings := s'.mappings)
    requires KeepsKey(s, s', key) && TablesOk(h, s, s', key)
    ensures Once(h, key, p, s')
  {
    assert forall r :: RunOfKey(s', key, r) <==> RunOfKey(s, key, r);
    assert forall fingerprint, r :: Produced(h, s, key, fingerprint, r) ==> Produced(h, s', key, fingerprint, r);
    forall d | d in s'.callers ensures KeyCallOk(h, key, p, s', d) {
      assert KeyCallOk(h, key, p, s, d);
    }
    forall r | r in s'.returned ensures r < |s'.runs| && Accounted(s', key, r) {
      assert Accounted(s, key, r);
    }
  }

  lemma BackgroundKeepsOnce(h: Hashes, key: string, p: nat, s: State, w: Runs.Write, now: int)
    requires Once(h, key, p, s) && w in s.pending && Inv(h, s.(mappings := Runs.RecordTx(s.mappings, w, now).0))
    ensures Once(h, key, p, s.(mappings := Runs.RecordTx(s.mappings, w, now).0))
  {
    RegistriesKeepOnce(h, key, p, s, s.(mappings := Runs.RecordTx(s.mappings, w, now).0));
  }

  lemma CancelKeepsOnce(h: Hashes, key: string, p: nat, s: State, c: nat)
    requires Once(h, key, p, s) && c in s.callers && Safe(key, p, s, Cancels(c)) && Inv(h, CancelStep(h, s, c))
    ensures Once(h, key, p, CancelStep(h, s, c))
  {
    var k := s.callers[c];
    if (k.pc.Storing? || k.pc.Restoring?) && k.request.clientId.Some? {
      if k.pc.Storing? && k.tool.SubmitTool? { ShieldKeepsOnce(h, key, p, s, c); }
      else { OtherLossKeepsOnce(h, key, p, s, s.(pending := s.pending + {WriteOf(h, k, k.pc.run)}), c, Stopped); }
    } else {
      FinishKeepsOnce(h, key, p, s, s, c, Stopped);
    }
  }

  lemma LossKeepsOnce(h: Hashes, key: string, p: nat, s: State, c: nat, end: End)
    requires Once(h, key, p, s) && c in s.callers && Inv(h, Finish(s, c, end))
    requires end.Stopped? || end.Failed? || end.Ran?
    requires OfKey(s.callers[c], key) ==> !end.Ran? && !s.callers[c].pc.Storing? && !s.callers[c].pc.Restoring?
    ensures Once(h, key, p, Finish(s, c, end))
  {
    if OfKey(s.callers[c], key) { FinishKeepsOnce(h, key, p, s, s, c, end); }
    else { OtherLossKeepsOnce(h, key, p, s, s, c, end); }
  }

  lemma PolicyStepKeepsOnce(h: Hashes, key: string, p: nat, s: State, e: Event)
    requires Once(h, key, p, s) && Enabled(s, e) && Inv(h, Step(h, s, e)) && (e.Decides? || e.LooksUp?)
    ensures Once(h, key, p, Step(h, s, e))
  {
    EarlyKeepsOnce(h, key, p, s, Step(h, s, e), s, e.c);
  }

  lemma ReadStepKeepsOnce(h: Hashes, key: string, p: nat, s: State, e: Event)
    requires Once(h, key, p, s) && Enabled(s, e) && Inv(h, Step(h, s, e)) && (e.Reads? || e.Rereads? || e.Judges?)
    ensures Once(h, key, p, Step(h, s, e))
  {
    EarlyKeepsOnce(h, key, p, s, Step(h, s, e), s, e.c);
  }

  lemma ApprovalStepKeepsOnce(h: Hashes, key: string, p: nat, s: State, e: Event)
    requires Once(h, key, p, s) && Enabled(s, e) && Inv(h, Step(h, s, e))
    requires e.Creates? || e.Lapses? || e.Takes?
    ensures Once(h, key, p, Step(h, s, e))
  {
    var s' := Step(h, s, e);
    EarlyKeepsOnce(h, key, p, s, s', s.(ops := s'.ops), e.c);
  }

  lemma LateStepKeepsOnce(h: Hashes, key: string, p: nat, s: State, e: Event)
    requires Once(h, key, p, s) && Safe(key, p, s, e) && Inv(h, Step(h, s, e)) && Enabled(s, e) && IsLate(e)
    ensures Once(h, key, p, Step(h, s, e))
  {
    match e
    case Locks(c) => LockKeepsOnce(h, key, p, s, c);
    case Finds(c) => FindKeepsOnce(h, key, p, s, c);
    case PostCreates(c) => CreateRunKeepsOnce(h, key, p, s, c);
    case PostReturns(c) => ReturnKeepsOnce(h, key, p, s, c);
    case PostFails(c) => LossKeepsOnce(h, key, p, s, c, Failed);
    case Stores(c, now) =>
      if OfKey(s.callers[c], key) { StoreKeepsOnce(h, key, p, s, c, now); }
      else { OtherStoreKeepsOnce(h, key, p, s, c, now); }
    case StoreFails(c) => LossKeepsOnce(h, key, p, s, c, Ending(s.callers[c].pc));
    case Cancels(c) => CancelKeepsOnce(h, key, p, s, c);
    case Kills(c) => LossKeepsOnce(h, key, p, s, c, Stopped);
  }

  lemma OutsideStepKeepsOnce(h: Hashes, key: string, p: nat, s: State, e: Event)
    requires Once(h, key, p, s) && Safe(key, p, s, e) && Inv(h, Step(h, s, e)) && Enabled(s, e) && IsOutside(e)
    ensures Once(h, key, p, Step(h, s, e))
  {
    match e
    case Arrives(_, _, _, _) => ArrivalKeepsOnce(h, key, p, s, e);
    case Background(w, now) => BackgroundKeepsOnce(h, key, p, s, w, now);
    case OthersDecide(_) => RegistriesKeepOnce(h, key, p, s, Step(h, s, e));
    case OthersUpdate(_, _, _, _) => RegistriesKeepOnce(h, key, p, s, Step(h, s, e));
  }

  lemma StepKeepsOnce(h: Hashes, key: string, p: nat, s: State, e: Event)
    requires Once(h, key, p, s) && Safe(key, p, s, e)
    ensures Once(h, key, p, Step(h, s, e))
  {
    StepKeepsInv(h, s, e);
    if Enabled(s, e) {
      if IsLate(e) { LateStepKeepsOnce(h, key, p, s, e); }
      else if IsOutside(e) { OutsideStepKeepsOnce(h, key, p, s, e); }
      else if e.Creates? || e.Lapses? || e.Takes? { ApprovalStepKeepsOnce(h, key, p, s, e); }
      else if e.Decides? || e.LooksUp? { PolicyStepKeepsOnce(h, key, p, s, e); }
      else { ReadStepKeepsOnce(h, key, p, s, e); }
    }
  }

  lemma {:induction false} RunKeepsOnce(h: Hashes, key: string, p: nat, events: seq<Event>)
    requires SafeRun(h, key, p, events)
    ensures Once(h, key, p, Run(h, EMPTY, events))
  {
    if events != [] {
      var before := events[..|events| - 1];
      forall i | 0 <= i < |before| ensures Safe(key, p, Run(h, EMPTY, before[..i]), before[i]) {
        assert before[..i] == events[..i];
      }
      RunKeepsOnce(h, key, p, before);
      StepKeepsOnce(h, key, p, Run(h, EMPTY, before), events[|events| - 1]);
    }
  }

  // ---- the results ----

  /** Main result: over any interleaving, at most one submission for the key returns
      a run. */
  lemma OneSubmissionReturns(h: Hashes, key: string, p: nat, events: seq<Event>, q: nat, r: nat)
    requires SafeRun(h, key, p, events)
    requires var s := Run(h, EMPTY, events);
      q in s.returned && r in s.returned && RunOfKey(s, key, q) && RunOfKey(s, key, r)
    ensures q == r
  {
    RunKeepsOnce(h, key, p, events);
  }

  /** Main result: whenever the key lock is free, a returned run is on record under
      its own fingerprint. */
  lemma StoredBeforeRelease(h: Hashes, key: string, p: nat, events: seq<Event>, r: nat)
    requires SafeRun(h, key, p, events)
    requires var s := Run(h, EMPTY, events); r in s.returned && RunOfKey(s, key, r) && (p, key) !in s.holder
    ensures var s := Run(h, EMPTY, events); Recorded(s, key, RunFingerprint(h, s.callers[s.runs[r]].request), r)
  {
    var s := Run(h, EMPTY, events);
    RunKeepsOnce(h, key, p, events);
    assert Accounted(s, key, r);
    WriterHolds(h, key, p, s, r);
  }

  /** Main result: a call for the key that ends with a run ends with the one that
      returned, and its request has that run's fingerprint; a call refused for its
      fingerprint has another. */
  lemma ResultsAgree(h: Hashes, key: string, p: nat, events: seq<Event>, c: nat)
    requires SafeRun(h, key, p, events)
    requires var s := Run(h, EMPTY, events);
      c in s.callers && OfKey(s.callers[c], key) && s.callers[c].pc.Done?
    ensures var s := Run(h, EMPTY, events);
            var end := s.callers[c].pc.end;
      && (end.Ran? || end.Recovered? ==>
            Produced(h, s, key, RunFingerprint(h, s.callers[c].request), end.execution))
      && (end.Mismatch? ==>
            key in s.mappings && var run := s.mappings[key].execution;
            && run in s.returned && RunOfKey(s, key, run)
            && RunFingerprint(h, s.callers[s.runs[run]].request) != RunFingerprint(h, s.callers[c].request))
  {
    RunKeepsOnce(h, key, p, events);
    assert KeyCallOk(h, key, p, Run(h, EMPTY, events), c);
  }

  // ---- in terms of the events alone ----

  /** Call `c` is for the key. */
  ghost predicate CallOf(key: string, events: seq<Event>, c: nat) {
    exists e :: e in events && e.Arrives? && e.c == c && e.request.clientId == Some(key)
  }

  /** Only `hermes_submit` calls for the key, all in process `p`, each cancelled at
      most once and none killed, their mapping writes succeeding, and nobody else
      changing the run that the key maps to; calls for other keys may do anything. */
  ghost predicate Ordinary(key: string, p: nat, events: seq<Event>) {
    && (forall e :: e in events && (e.StoreFails? || e.Kills?) ==> !CallOf(key, events, e.c))
    && (forall e :: e in events && e.OthersUpdate? && e.id == key ==> e.execution.None?)
    && (forall e :: e in events && e.Arrives? && e.request.clientId == Some(key) ==>
          e.process == p && e.tool.SubmitTool?)
    && (forall i, j :: 0 <= i < j < |events| && events[i].Cancels? && CallOf(key, events, events[i].c) ==>
          events[j] != events[i])
  }

  /** Call `c` moves, as itself, and not to write again. */
  predicate OneMoves(s: State, s': State, c: nat) {
    && c in s.callers && c in s'.callers && s'.callers == s.callers[c := s'.callers[c]]
    && s'.callers[c].tool == s.callers[c].tool && s'.callers[c].request == s.callers[c].request
    && !s'.callers[c].pc.Restoring?
  }

  lemma GateMovesOne(h: Hashes, s: State, e: Event)
    requires Enabled(s, e) && (e.Reads? || e.Rereads? || e.LooksUp? || e.Lapses?)
    ensures OneMoves(s, Step(h, s, e), e.c)
  {
  }

  lemma DecideMovesOne(h: Hashes, s: State, e: Event)
    requires Enabled(s, e) && e.Decides?
    ensures OneMoves(s, Step(h, s, e), e.c)
  {
  }

  lemma CreateMovesOne(h: Hashes, s: State, e: Event)
    requires Enabled(s, e) && e.Creates?
    ensures OneMoves(s, Step(h, s, e), e.c)
  {
  }

  lemma JudgeMovesOne(h: Hashes, s: State, e: Event)
    requires Enabled(s, e) && e.Judges?
    ensures OneMoves(s, Step(h, s, e), e.c)
  {
  }

  lemma TakeMovesOne(h: Hashes, s: State, e: Event)
    requires Enabled(s, e) && e.Takes?
    ensures OneMoves(s, Step(h, s, e), e.c)
  {
  }

  lemma LockMovesOne(h: Hashes, s: State, e: Event)
    requires Enabled(s, e) && e.Locks?
    ensures OneMoves(s, Step(h, s, e), e.c)
  {
  }

  lemma FindMovesOne(h: Hashes, s: State, e: Event)
    requires Enabled(s, e) && e.Finds?
    ensures OneMoves(s, Step(h, s, e), e.c)
  {
  }

  lemma PostMovesOne(h: Hashes, s: State, e: Event)
    requires Enabled(s, e)
    requires e.PostCreates? || e.PostReturns? || e.PostFails? || e.Stores? || e.StoreFails? || e.Kills?
    ensures OneMoves(s, Step(h, s, e), e.c)
  {
  }

  lemma EarlyMovesOne(h: Hashes, s: State, e: Event)
    requires Enabled(s, e) && !IsOutside(e) && !IsLate(e)
    ensures OneMoves(s, Step(h, s, e), e.c)
  {
    if e.Decides? { DecideMovesOne(h, s, e); }
    else if e.Creates? { CreateMovesOne(h, s, e); }
    else if e.Judges? { JudgeMovesOne(h, s, e); }
    else if e.Takes? { TakeMovesOne(h, s, e); }
    else { GateMovesOne(h, s, e); }
  }

  lemma LateMovesOne(h: Hashes, s: State, e: Event)
    requires Enabled(s, e) && IsLate(e) && !e.Cancels?
    ensures OneMoves(s, Step(h, s, e), e.c)
  {
    if e.Locks? { LockMovesOne(h, s, e); }
    else if e.Finds? { FindMovesOne(h, s, e); }
    else { PostMovesOne(h, s, e); }
  }

  /** A call keeps its tool and its key, which are those it arrived with, and only a
      cancellation sends it to write again. */
  lemma CallIsKept(h: Hashes, s: State, e: Event, c: nat)
    requires c in Step(h, s, e).callers
    ensures var k := Step(h, s, e).callers[c];
      && (c in s.callers ==>
            && k.tool == s.callers[c].tool && k.request.clientId == s.callers[c].request.clientId
            && (k.pc.Restoring? ==> s.callers[c].pc.Restoring? || e == Cancels(c)))
      && (c !in s.callers ==>
            && e.Arrives? && k.tool == e.tool && k.request.clientId == e.request.clientId && k.pc.Arriving?)
  {
    if Enabled(s, e) && !IsOutside(e) {
      if e.Cancels? { CancelMoves(h, s, e.c); }
      else if IsLate(e) { LateMovesOne(h, s, e); }
      else { EarlyMovesOne(h, s, e); }
    }
  }

  lemma EndMoves(s: State, c: nat, pc: Pc, end: End)
    requires c in s.callers
    ensures SameCallMoves(s, Move(s, c, pc), c) && SameCallMoves(s, Finish(s, c, end), c)
  {
  }

  /** Call `c` moves, as itself. */
  predicate SameCallMoves(s: State, s': State, c: nat) {
    && c in s.callers && c in s'.callers && s'.callers == s.callers[c := s'.callers[c]]
    && s'.callers[c].tool == s.callers[c].tool && s'.callers[c].request == s.callers[c].request
  }

  lemma CancelMoves(h: Hashes, s: State, c: nat)
    requires c in s.callers
    ensures SameCallMoves(s, CancelStep(h, s, c), c)
  {
    var s0 := s.(pending := CancelStep(h, s, c).pending);
    var pc := CancelStep(h, s, c).callers[c].pc;
    EndMoves(s0, c, pc, Stopped);
    EndMoves(s, c, pc, Stopped);
  }

  lemma {:induction false} RestoringWasCancelled(h: Hashes, events: seq<Event>, c: nat)
    requires c in Run(h, EMPTY, events).callers && Run(h, EMPTY, events).callers[c].pc.Restoring?
    ensures Cancels(c) in events
  {
    var before := events[..|events| - 1];
    CallIsKept(h, Run(h, EMPTY, before), events[|events| - 1], c);
    if events[|events| - 1] != Cancels(c) { RestoringWasCancelled(h, before, c); }
  }

  lemma {:induction false} CallArrived(h: Hashes, events: seq<Event>, c: nat) returns (e: Event)
    requires c in Run(h, EMPTY, events).callers
    ensures e in events && e.Arrives? && e.c == c
    ensures Run(h, EMPTY, events).callers[c].tool == e.tool
    ensures Run(h, EMPTY, events).callers[c].request.clientId == e.request.clientId
  {
    var before := events[..|events| - 1];
    CallIsKept(h, Run(h, EMPTY, before), events[|events| - 1], c);
    if c in Run(h, EMPTY, before).callers { e := CallArrived(h, before, c); } else { e := events[|events| - 1]; }
  }

  lemma OrdinaryLosesNothing(h: Hashes, key: string, p: nat, events: seq<Event>, i: nat)
    requires Ordinary(key, p, events) && i < |events|
    ensures Safe(key, p, Run(h, EMPTY, events[..i]), events[i])
  {
    var s, e := Run(h, EMPTY, events[..i]), events[i];
    assert e in events;
    if (e.StoreFails? || e.Kills? || e.Cancels?) && e.c in s.callers && OfKey(s.callers[e.c], key) {
      var arrival := CallArrived(h, events[..i], e.c);
      assert arrival in events;
      assert CallOf(key, events, e.c);
      if s.callers[e.c].pc.Restoring? {
        RestoringWasCancelled(h, events[..i], e.c);
      }
    }
  }

  /** Main result: that alone makes a run safe, so all of the above holds of it: at
      most one submission returns, and it is on record whenever the lock is free. */
  lemma OrdinarySubmitsOnce(h: Hashes, key: string, p: nat, events: seq<Event>, q: nat, r: nat)
    requires Ordinary(key, p, events)
    ensures SafeRun(h, key, p, events)
    ensures var s := Run(h, EMPTY, events);
      (q in s.returned && r in s.returned && RunOfKey(s, key, q) && RunOfKey(s, key, r)) ==>
        && q == r
        && ((p, key) !in s.holder ==> Recorded(s, key, RunFingerprint(h, s.callers[s.runs[r]].request), r))
  {
    forall i | 0 <= i < |events| ensures Safe(key, p, Run(h, EMPTY, events[..i]), events[i]) {
      OrdinaryLosesNothing(h, key, p, events, i);
    }
    var s := Run(h, EMPTY, events);
    if q in s.returned && r in s.returned && RunOfKey(s, key, q) && RunOfKey(s, key, r) {
      OneSubmissionReturns(h, key, p, events, q, r);
      if (p, key) !in s.holder { StoredBeforeRelease(h, key, p, events, r); }
    }
  }

  // ---- what breaks it ----

  /** The gap: a returned run for the key that is not on record, and the lock free. */
  predicate Gap(s: State, key: string, p: nat, r: nat) {
    key !in s.mappings && (p, key) !in s.holder && r in s.returned && RunOfKey(s, key, r)
  }

  lemma LostWriteOpensGap(h: Hashes, key: string, p: nat, s: State, c: nat, e: Event)
    requires Once(h, key, p, s) && key !in s.mappings
    requires c in s.callers && OfKey(s.callers[c], key) && (s.callers[c].pc.Storing? || s.callers[c].pc.Restoring?)
    requires LosesWrite(key, s, e) && e.c == c
    ensures Gap(Step(h, s, e), key, p, s.callers[c].pc.run)
  {
    assert KeyCallOk(h, key, p, s, c) && CallerOk(h, s, c);
  }

  lemma KeptWriteNoGap(h: Hashes, key: string, p: nat, s: State, c: nat, e: Event)
    requires Once(h, key, p, s) && Safe(key, p, s, e)
    requires c in s.callers && OfKey(s.callers[c], key) && (s.callers[c].pc.Storing? || s.callers[c].pc.Restoring?)
    ensures !Gap(Step(h, s, e), key, p, s.callers[c].pc.run)
  {
    var s', r := Step(h, s, e), s.callers[c].pc.run;
    StepKeepsOnce(h, key, p, s, e);
    WriterHolds(h, key, p, s', r);
    if r in s'.returned { assert Accounted(s', key, r); }
  }

  lemma OneWriter(h: Hashes, key: string, p: nat, s: State, c: nat, d: nat)
    requires Once(h, key, p, s) && c in s.callers && d in s.callers && OfKey(s.callers[c], key)
    requires OfKey(s.callers[d], key)
    requires Holding(s.callers[c].pc) && Holding(s.callers[d].pc)
    ensures c == d
  {
    assert KeyCallOk(h, key, p, s, c) && KeyCallOk(h, key, p, s, d);
  }

  /** Main result, exact: while a call is writing its mapping, the next step opens the
      gap if and only if it loses or lets go of that write. */
  lemma GapIsLostWrite(h: Hashes, key: string, p: nat, s: State, c: nat, e: Event)
    requires Once(h, key, p, s) && key !in s.mappings
    requires c in s.callers && OfKey(s.callers[c], key) && (s.callers[c].pc.Storing? || s.callers[c].pc.Restoring?)
    ensures Gap(Step(h, s, e), key, p, s.callers[c].pc.run) <==> LosesWrite(key, s, e)
  {
    if LosesWrite(key, s, e) {
      OneWriter(h, key, p, s, c, e.c);
      LostWriteOpensGap(h, key, p, s, c, e);
    } else if e.Arrives? || e.OthersUpdate? {
      assert KeyCallOk(h, key, p, s, c);
      assert Step(h, s, e).holder == s.holder;
    } else {
      KeptWriteNoGap(h, key, p, s, c, e);
    }
  }

  /** One more ungated call for the key, run without interruption. */
  function SubmittedAgain(h: Hashes, s: State, c: nat, p: nat, tool: Tool, r: Request): State {
    var admitted := Step(h, Step(h, s, Arrives(c, p, tool, r)), Decides(c, Allow, Allow));
    var posting := Step(h, Step(h, admitted, Locks(c)), Finds(c));
    Step(h, Step(h, posting, PostCreates(c)), PostReturns(c))
  }

  /** Main result: through the gap, or in any other process while the mapping is not
      there, one more call makes a second run return for the key. */
  lemma GapAllowsSecondRun(h: Hashes, key: string, s: State, c: nat, p: nat, tool: Tool, r: Request)
    requires Runs.ValidId(key) && key !in s.mappings && (p, key) !in s.holder && c !in s.callers
    requires r.clientId == Some(key) && r.trust.None? && Strip(r.prompt, IsSpace) != ""
    ensures var s' := SubmittedAgain(h, s, c, p, tool, r);
      && |s.runs| in s'.returned && RunOfKey(s', key, |s.runs|) && s'.runs == s.runs + [c] && s.returned <= s'.returned
  {
    var admitted := Step(h, Step(h, s, Arrives(c, p, tool, r)), Decides(c, Allow, Allow));
    AgainAdmitted(h, s, c, p, tool, r);
    var posting := Step(h, Step(h, admitted, Locks(c)), Finds(c));
    AgainPosting(h, admitted, c, key);
    AgainReturned(h, posting, c);
  }

  lemma AgainReturned(h: Hashes, s: State, c: nat)
    requires c in s.callers && s.callers[c].pc.Posting? && s.callers[c].request.clientId.Some?
    ensures Step(h, Step(h, s, PostCreates(c)), PostReturns(c))
         == Move(s, c, Storing(|s.runs|)).(runs := s.runs + [c], returned := s.returned + {|s.runs|})
  {
    var created := Step(h, s, PostCreates(c));
    assert created == Move(s, c, Posted(|s.runs|)).(runs := s.runs + [c]);
    assert Step(h, created, PostReturns(c)) == ReturnStep(created, c);
  }

  lemma AgainAdmitted(h: Hashes, s: State, c: nat, p: nat, tool: Tool, r: Request)
    requires c !in s.callers && r.trust.None? && Strip(r.prompt, IsSpace) != ""
    ensures Step(h, Step(h, s, Arrives(c, p, tool, r)), Decides(c, Allow, Allow))
         == s.(callers := s.callers[c := Caller(p, tool, AsReceived(tool, r), Admitted, Some(Ungated))])
  {
  }

  lemma AgainPosting(h: Hashes, s: State, c: nat, key: string)
    requires c in s.callers && s.callers[c].pc.Admitted? && OfKey(s.callers[c], key)
    requires Runs.ValidId(key) && key !in s.mappings && (s.callers[c].process, key) !in s.holder
    ensures Step(h, Step(h, s, Locks(c)), Finds(c))
         == Move(s, c, Posting).(holder := s.holder[(s.callers[c].process, key) := c])
  {
    var locked := Step(h, s, Locks(c));
    assert locked == LockStep(s, c);
    assert Step(h, locked, Finds(c)) == FindStep(h, locked, c);
  }
}
