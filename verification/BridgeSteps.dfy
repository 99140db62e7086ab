/** What each step of a call leads to, and so who may pass without approval and what an
    undisturbed submission answers (src/hermes_mcp_bridge/server.py). */
module BridgeSteps {
  import opened Wrappers
  import opened Gate
  import opened Texts
  import opened Bridge
  import opened SubmitOnce
  import opened KeyedSubmit
  import Approvals
  import Runs = RunRegistry

  // ---- the policy ----

  predicate Labelled(r: Request) { r.trust.Some? && r.trust.value != [] }

  predicate BlankPrompt(r: Request) { forall i :: 0 <= i < |r.prompt| ==> IsSpace(r.prompt[i]) }

  lemma BlankExact(r: Request)
    ensures Strip(r.prompt, IsSpace) == "" <==> BlankPrompt(r)
  {
    var i := TrimLeftSplits(r.prompt, IsSpace);
    StripKeepsEnds(r.prompt, IsSpace);
    if BlankPrompt(r) { assert i == |r.prompt|; }
    if i < |r.prompt| { TrimRightKeepsFirst(r.prompt[i..]); }
  }

  lemma {:induction false} TrimRightKeepsFirst(s: string)
    requires s != "" && !IsSpace(s[0])
    ensures TrimRight(s, IsSpace) != ""
    decreases |s|
  {
    if IsSpace(s[|s| - 1]) { TrimRightKeepsFirst(s[..|s| - 1]); }
  }

  /** A call as it arrives: named after its tool, and for `hermes_submit` without a
      session; everything else as given. */
  lemma ArrivesExact(h: Hashes, s: State, c: nat, process: nat, tool: Tool, r: Request)
    requires c !in s.callers
    ensures var s' := Step(h, s, Arrives(c, process, tool, r));
      && c in s'.callers && s' == s.(callers := s.callers[c := s'.callers[c]])
      && var k := s'.callers[c];
      && k.process == process && k.tool == tool && k.pc == Arriving && k.admission == None
      && k.request.action == (if tool == SubmitTool then "hermes_submit" else "hermes_prompt")
      && k.request.session == (if tool == SubmitTool then None else r.session)
      && k.request == r.(action := k.request.action, session := k.request.session)
  {
  }

  /** Main result, exact: a blank prompt fails; a labelled call under RequireApproval goes
      to the gate; otherwise it passes if it is unlabelled or allowed, and is refused if
      not. */
  lemma DecidesExact(h: Hashes, s: State, c: nat, first: Verdict, second: Verdict)
    requires c in s.callers && s.callers[c].pc.Arriving? && s.callers[c].admission.None?
    ensures var k, k' := s.callers[c], Step(h, s, Decides(c, first, second)).callers[c];
            var blank, labelled := BlankPrompt(k.request), Labelled(k.request);
      && c in Step(h, s, Decides(c, first, second)).callers && k'.request == k.request
      && (k'.pc == Done(Failed) <==> blank)
      && (k'.pc == Reading <==> !blank && labelled && first == RequireApproval)
      && (k'.pc == Admitted <==> !blank && (!labelled || (first != RequireApproval && second == Allow)))
      && (k'.pc == Done(Refused) <==> !blank && labelled && first != RequireApproval && second != Allow)
      && k'.admission == (if k'.pc == Admitted then Some(Ungated) else None)
  {
    BlankExact(s.callers[c].request);
  }

  // ---- who passes without approval ----

  /** The policy let call `c` through by itself. */
  ghost predicate Waved(events: seq<Event>, c: nat, r: Request) {
    exists first, second ::
      Decides(c, first, second) in events && (!Labelled(r) || (first != RequireApproval && second == Allow))
  }

  /** A step leaves the admission of its call alone, or grants another kind. */
  ghost predicate NotWaving(s: State, s': State, c: nat) {
    && c in s.callers && c in s'.callers && s'.callers[c].request == s.callers[c].request
    && (s'.callers[c].admission == Some(Ungated) ==> s.callers[c].admission == Some(Ungated))
  }

  lemma ReadNotWaving(h: Hashes, s: State, e: Event)
    requires Enabled(s, e) && (e.Reads? || e.Rereads? || e.LooksUp? || e.Lapses?)
    ensures NotWaving(s, Step(h, s, e), e.c)
  {
  }

  lemma CreateNotWaving(h: Hashes, s: State, e: Event)
    requires Enabled(s, e) && e.Creates?
    ensures NotWaving(s, Step(h, s, e), e.c)
  {
  }

  lemma JudgeNotWaving(h: Hashes, s: State, e: Event)
    requires Enabled(s, e) && e.Judges?
    ensures NotWaving(s, Step(h, s, e), e.c)
  {
  }

  lemma TakeNotWaving(h: Hashes, s: State, e: Event)
    requires Enabled(s, e) && e.Takes?
    ensures NotWaving(s, Step(h, s, e), e.c)
  {
  }

  lemma LockNotWaving(h: Hashes, s: State, e: Event)
    requires Enabled(s, e) && e.Locks?
    ensures NotWaving(s, Step(h, s, e), e.c)
  {
  }

  lemma FindNotWaving(h: Hashes, s: State, e: Event)
    requires Enabled(s, e) && e.Finds?
    ensures NotWaving(s, Step(h, s, e), e.c)
  {
  }

  lemma CancelNotWaving(h: Hashes, s: State, e: Event)
    requires Enabled(s, e) && e.Cancels?
    ensures NotWaving(s, Step(h, s, e), e.c)
  {
  }

  lemma PostNotWaving(h: Hashes, s: State, e: Event)
    requires Enabled(s, e) && IsLate(e) && !e.Locks? && !e.Finds? && !e.Cancels?
    ensures NotWaving(s, Step(h, s, e), e.c)
  {
  }

  lemma GateNotWaving(h: Hashes, s: State, e: Event)
    requires Enabled(s, e) && !IsLate(e) && !IsOutside(e) && !e.Decides?
    ensures NotWaving(s, Step(h, s, e), e.c)
  {
    if e.Creates? { CreateNotWaving(h, s, e); }
    else if e.Judges? { JudgeNotWaving(h, s, e); }
    else if e.Takes? { TakeNotWaving(h, s, e); }
    else { ReadNotWaving(h, s, e); }
  }

  lemma LateNotWaving(h: Hashes, s: State, e: Event)
    requires Enabled(s, e) && IsLate(e)
    ensures NotWaving(s, Step(h, s, e), e.c)
  {
    if e.Locks? { LockNotWaving(h, s, e); }
    else if e.Finds? { FindNotWaving(h, s, e); }
    else if e.Cancels? { CancelNotWaving(h, s, e); }
    else { PostNotWaving(h, s, e); }
  }

  /** A step moves its own call only. */
  lemma OthersUntouched(h: Hashes, s: State, e: Event, c: nat)
    requires c in s.callers && (IsOutside(e) || e.c != c)
    ensures c in Step(h, s, e).callers && Step(h, s, e).callers[c] == s.callers[c]
  {
    if Enabled(s, e) && !IsOutside(e) {
      if e.Cancels? { CancelMoves(h, s, e.c); }
      else if IsLate(e) { LateMovesOne(h, s, e); }
      else { EarlyMovesOne(h, s, e); }
    }
  }

  lemma NewIsNotAdmitted(h: Hashes, s: State, e: Event, c: nat)
    requires c !in s.callers
    ensures c in Step(h, s, e).callers ==> Step(h, s, e).callers[c].admission == None
  {
    if c in Step(h, s, e).callers { CallIsKept(h, s, e, c); }
  }

  /** Only a decision of the policy grants passage without approval. */
  lemma WavedByStep(h: Hashes, s: State, e: Event, c: nat)
    requires Inv(h, s) && c in Step(h, s, e).callers && Step(h, s, e).callers[c].admission == Some(Ungated)
    ensures var r := Step(h, s, e).callers[c].request;
      || (c in s.callers && s.callers[c].admission == Some(Ungated) && s.callers[c].request == r)
      || (e.Decides? && e.c == c && (!Labelled(r) || (e.first != RequireApproval && e.second == Allow)))
  {
    if c in s.callers && (IsOutside(e) || e.c != c) {
      OthersUntouched(h, s, e, c);
    } else if c in s.callers && Enabled(s, e) {
      if e.Decides? {
        assert CallerOk(h, s, c);
        DecidesExact(h, s, c, e.first, e.second);
      } else if IsLate(e) {
        LateNotWaving(h, s, e);
      } else {
        GateNotWaving(h, s, e);
      }
    } else if c !in s.callers {
      NewIsNotAdmitted(h, s, e, c);
    }
  }

  /** Main result: over any run, a call that passed without approval was let through by a
      decision of the policy: it has no trust label, or the policy did not require
      approval and allowed it. */
  lemma {:induction false} UngatedIsWaved(h: Hashes, events: seq<Event>, c: nat)
    requires c in Run(h, EMPTY, events).callers && Run(h, EMPTY, events).callers[c].admission == Some(Ungated)
    ensures Waved(events, c, Run(h, EMPTY, events).callers[c].request)
  {
    var before, e := events[..|events| - 1], events[|events| - 1];
    RunKeepsInv(h, before);
    WavedByStep(h, Run(h, EMPTY, before), e, c);
    var r := Run(h, EMPTY, events).callers[c].request;
    if e.Decides? && e.c == c && (!Labelled(r) || (e.first != RequireApproval && e.second == Allow)) {
      assert Decides(c, e.first, e.second) in events;
    } else {
      UngatedIsWaved(h, before, c);
      var first, second :| Decides(c, first, second) in before
                           && (!Labelled(r) || (first != RequireApproval && second == Allow));
      assert Decides(c, first, second) in events;
    }
  }

  /** Main result: an upstream run of a call that the policy put under approval has an
      accepted approving response before it, consumed in time by that very call. */
  lemma ApprovalPrecedesRun(h: Hashes, events: seq<Event>, j: nat) returns (k: nat)
    requires j < |Run(h, EMPTY, events).runs|
    requires var s := Run(h, EMPTY, events);
      s.runs[j] in s.callers && !Waved(events, s.runs[j], s.callers[s.runs[j]].request)
    ensures var s := Run(h, EMPTY, events);
            var call := s.callers[s.runs[j]];
            var id := ApprovalId(h, call.request);
      && IsFresh(call) && k < call.admission.value.op < |s.ops| && Approvals.ApprovedBy(s.ops, id, k)
      && id in Approvals.Run(s.ops[..call.admission.value.op])
      && var row := Approvals.Run(s.ops[..call.admission.value.op])[id];
      && row.fingerprint == Some(Fingerprint(h, call.request))
      && (row.expiresAt.Never?
          || (row.expiresAt.At? && s.ops[call.admission.value.op].Consuming?
              && s.ops[call.admission.value.op].now < row.expiresAt.time))
  {
    var s := Run(h, EMPTY, events);
    RunKeepsInv(h, events);
    RunIsAdmitted(h, s, j);
    if s.callers[s.runs[j]].admission == Some(Ungated) { UngatedIsWaved(h, events, s.runs[j]); }
    k := FreshIsAuthorised(h, events, s.runs[j]);
  }

  // ---- what a submission answers ----

  /** The key lock of the call is free, and the call holds no other. */
  ghost predicate LockFree(s: State, c: nat)
    requires c in s.callers
  {
    var k := s.callers[c];
    && (forall key :: key in s.holder ==> s.holder[key] != c)
    && (k.request.clientId.Some? ==> (k.process, k.request.clientId.value) !in s.holder)
  }

  /** What `hermes_submit`, or an uncancelled `hermes_prompt`, answers, given the mappings
      it finds and what the outside does. */
  ghost predicate Answers(h: Hashes, t: Runs.Table, r: Request, w: World, created: nat, end: End) {
    if r.clientId.Some? && !Runs.ValidId(r.clientId.value) then end == Failed
    else if r.clientId.Some? && r.clientId.value in t then
      end == if t[r.clientId.value].fingerprint == RunFingerprint(h, r)
             then Recovered(t[r.clientId.value].execution) else Mismatch
    else if !w.answers then end == Failed
    else if r.clientId.Some? && w.cancelled then end == Stopped
    else end == Ran(created)
  }

  /** Whether it submits upstream at all. */
  ghost predicate Submits(t: Runs.Table, r: Request) {
    r.clientId.Some? ==> Runs.ValidId(r.clientId.value) && r.clientId.value !in t
  }

  /** Main result, exact: the code answers with the mapping's execution, a mismatch, a
      failure, or its own run; creates that run exactly when there is no mapping and the
      submission is answered; and records it when a write succeeds. */
  lemma SubmitExact(h: Hashes, t: Runs.Table, created: nat, r: Request, w: World)
    ensures var (t', created', end) := SubmitAlone(h, t, created, r, w);
      && Answers(h, t, r, w, created, end)
      && created' == (if Submits(t, r) && w.answers then created + 1 else created)
      && (created' == created || r.clientId.None? ==> t' == t)
      && (r.clientId.Some? && created' == created + 1 ==>
            var key := r.clientId.value;
            && (forall id :: id != key ==> (id in t' <==> id in t) && (id in t ==> t'[id] == t[id]))
            && (key in t' <==> w.writes || (w.cancelled && w.behind.Some?))
            && (key in t' ==>
                  && t'[key].fingerprint == RunFingerprint(h, r) && t'[key].execution == created
                  && t'[key].session == r.session))
  {
  }

  /** Main result: and so do its steps, from admission on with the lock free: the call
      ends with that answer, and has let the lock go. */
  lemma SubmittedAnswers(h: Hashes, s: State, c: nat, w: World)
    requires c in s.callers && s.callers[c].pc.Admitted? && LockFree(s, c)
    requires w.cancelled ==> s.callers[c].tool.SubmitTool?
    ensures var s' := Submitting(h, s, c, w);
      && c in s'.callers && s'.callers[c].pc.Done?
      && Answers(h, s.mappings, s.callers[c].request, w, |s.runs|, s'.callers[c].pc.end)
      && |s'.runs| == (if Submits(s.mappings, s.callers[c].request) && w.answers then |s.runs| + 1 else |s.runs|)
      && (forall key :: key in s'.holder ==> s'.holder[key] != c)
  {
    SubmitStepsAreSubmit(h, s, c, w);
    SubmitExact(h, s.mappings, |s.runs|, s.callers[c].request, w);
  }

  lemma SubmittedIsRecorded(h: Hashes, s: State, c: nat, w: World, key: string)
    requires c in s.callers && s.callers[c].pc.Admitted? && LockFree(s, c)
    requires w.cancelled ==> s.callers[c].tool.SubmitTool?
    requires OfKey(s.callers[c], key) && Runs.ValidId(key) && key !in s.mappings && w.answers
    requires w.writes || (w.cancelled && w.behind.Some?)
    ensures Recorded(Submitting(h, s, c, w), key, RunFingerprint(h, s.callers[c].request), |s.runs|)
  {
    SubmitStepsAreSubmit(h, s, c, w);
    SubmitExact(h, s.mappings, |s.runs|, s.callers[c].request, w);
  }

  /** Main result: in any reachable state of ordinary calls for a key, a call that is
      writing its mapping ends, when the write is made, with its own run on record; one
      that writes again after a cancellation ends as cancelled. */
  lemma WritingAnswers(h: Hashes, key: string, p: nat, events: seq<Event>, c: nat, now: int)
    requires Ordinary(key, p, events)
    requires var s := Run(h, EMPTY, events);
      c in s.callers && OfKey(s.callers[c], key) && (s.callers[c].pc.Storing? || s.callers[c].pc.Restoring?)
    ensures var s := Run(h, EMPTY, events);
            var s', pc := Step(h, s, Stores(c, now)), s.callers[c].pc;
      && c in s'.callers
      && s'.callers[c].pc == Done(if pc.Storing? then Ran(pc.run) else Stopped)
      && Recorded(s', key, RunFingerprint(h, s.callers[c].request), pc.run)
  {
    OrdinarySubmitsOnce(h, key, p, events, 0, 0);
    RunKeepsOnce(h, key, p, events);
    WritingAt(h, key, p, Run(h, EMPTY, events), c, now);
  }

  lemma WritingAt(h: Hashes, key: string, p: nat, s: State, c: nat, now: int)
    requires Once(h, key, p, s) && c in s.callers && OfKey(s.callers[c], key)
    requires s.callers[c].pc.Storing? || s.callers[c].pc.Restoring?
    ensures var s', pc := Step(h, s, Stores(c, now)), s.callers[c].pc;
      && c in s'.callers
      && s'.callers[c].pc == Done(if pc.Storing? then Ran(pc.run) else Stopped)
      && Recorded(s', key, RunFingerprint(h, s.callers[c].request), pc.run)
  {
    StoreRecords(h, key, p, s, c, now);
    assert Step(h, s, Stores(c, now)) == StoreStep(h, s, c, now);
  }

  /** What cancelling does: a call writing its mapping leaves a write behind, and
      `hermes_submit` writes once more before it ends; any other ends. A call that ends
      lets its lock go. */
  lemma CancelsExact(h: Hashes, s: State, c: nat)
    requires c in s.callers && !s.callers[c].pc.Done?
    ensures var s', k := Step(h, s, Cancels(c)), s.callers[c];
            var writing := (k.pc.Storing? || k.pc.Restoring?) && k.request.clientId.Some?;
            var again := writing && k.pc.Storing? && k.tool.SubmitTool?;
      && c in s'.callers && s'.callers[c].pc == (if again then Restoring(k.pc.run) else Done(Stopped))
      && s'.mappings == s.mappings && s'.ops == s.ops && s'.runs == s.runs && s'.returned == s.returned
      && (again ==> s'.holder == s.holder)
      && (!again ==> forall key :: key in s'.holder ==> s'.holder[key] != c)
      && (!writing ==> s'.pending == s.pending)
      && (writing ==>
            forall w :: w in s'.pending <==>
              w in s.pending || (w.id == k.request.clientId.value && w.execution == k.pc.run
                                 && w.fingerprint == RunFingerprint(h, k.request) && w.session == k.request.session
                                 && w.status == ""))
  {
  }

  /** What others do between the steps of a call: they operate on the approvals table,
      update mappings, and make the writes that calls left behind; nothing else. */
  lemma OthersDecideExact(h: Hashes, s: State, op: Approvals.Op)
    requires Approvals.Proper(op)
    ensures var decided := Step(h, s, OthersDecide(op));
            TableOf(decided) == Approvals.Apply(TableOf(s), op).0 && decided.(ops := s.ops) == s
  {
    AppendedOp(s.ops, op);
  }

  lemma OthersUpdateExact(h: Hashes, s: State, id: string, status: string, execution: Option<nat>, now: int)
    ensures Step(h, s, OthersUpdate(id, status, execution, now))
         == s.(mappings := Runs.UpdateStatusTx(s.mappings, id, status, execution, now).0)
  {
  }

  lemma BackgroundExact(h: Hashes, s: State, write: Runs.Write, now: int)
    requires write in s.pending
    ensures Step(h, s, Background(write, now)) == s.(mappings := Runs.RecordTx(s.mappings, write, now).0)
  {
  }
}
