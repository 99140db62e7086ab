/** What a repeat of an approved call gets, over `prompt_approvals.py` and `server.py`
    together: the run its approval was spent on, until the approval expires. */
module Replays {
  import opened Wrappers
  import opened Gate
  import opened Bridge
  import opened SubmitOnce
  import Approvals
  import Runs = RunRegistry

  /** The record of the request is in the table and bound to it. */
  ghost predicate Bound(h: Hashes, t: Approvals.Table, r: Request) {
    ApprovalId(h, r) in t && BoundTo(h, r, t[ApprovalId(h, r)])
  }

  /** A record in hand is an earlier form of the one in the table; a call that found
      its record bound, or consumed it, has it bound in the table. */
  ghost predicate CallBound(h: Hashes, s: State, k: Caller) {
    && (k.pc.Judging? ==>
          var id := ApprovalId(h, k.request);
          id in TableOf(s) && Approvals.Climbs(k.pc.row, TableOf(s)[id]))
    && (k.pc.Taking? || IsFresh(k) ==> Bound(h, TableOf(s), k.request))
  }

  ghost predicate CallsBound(h: Hashes, s: State) {
    forall c {:trigger s.callers[c]} :: c in s.callers ==> CallBound(h, s, s.callers[c])
  }

  /** Records only climb as operations are added. */
  lemma TableGrows(s: State, s': State)
    requires |s.ops| <= |s'.ops| && s'.ops[..|s.ops|] == s.ops && Approvals.AllProper(s'.ops)
    ensures Approvals.Grows(TableOf(s), TableOf(s'))
  {
    assert s'.ops[..|s'.ops|] == s'.ops;
    Approvals.RunGrows(s'.ops, |s.ops|, |s'.ops|);
  }

  lemma BoundStays(h: Hashes, s: State, s': State, k: Caller)
    requires CallBound(h, s, k) && Approvals.Grows(TableOf(s), TableOf(s'))
    ensures CallBound(h, s', k)
  {
    var id := ApprovalId(h, k.request);
    if k.pc.Judging? {
      assert Approvals.Climbs(TableOf(s)[id], TableOf(s')[id]);
    }
    if k.pc.Taking? || IsFresh(k) {
      assert Approvals.Climbs(TableOf(s)[id], TableOf(s')[id]);
    }
  }

  /** A step of call `c` from one table to a later one. */
  lemma StepKeepsBound(h: Hashes, s: State, s': State, c: nat)
    requires CallsBound(h, s) && Approvals.Grows(TableOf(s), TableOf(s'))
    requires c in s'.callers && s'.callers == s.callers[c := s'.callers[c]] && CallBound(h, s', s'.callers[c])
    ensures CallsBound(h, s')
  {
    forall d | d in s'.callers ensures CallBound(h, s', s'.callers[d]) {
      if d != c { BoundStays(h, s, s', s.callers[d]); }
    }
  }

  // ---- one lemma a kind of step ----

  lemma AddedOpGrows(s: State, s': State, op: Approvals.Op)
    requires Approvals.AllProper(s.ops) && Approvals.Proper(op) && s'.ops == s.ops + [op]
    ensures Approvals.Grows(TableOf(s), TableOf(s'))
  {
    assert s'.ops[..|s.ops|] == s.ops;
    TableGrows(s, s');
  }

  lemma SameOpsGrow(s: State, s': State)
    requires Approvals.AllProper(s.ops) && s'.ops == s.ops
    ensures Approvals.Grows(TableOf(s), TableOf(s'))
  {
    assert s'.ops[..|s.ops|] == s.ops;
    TableGrows(s, s');
  }

  /** A step that leaves its call neither with a record in hand nor newly fresh. */
  ghost predicate Plain(s: State, s': State, c: nat) {
    && c in s.callers && c in s'.callers && s'.callers == s.callers[c := s'.callers[c]]
    && s'.callers[c].request == s.callers[c].request
    && !s'.callers[c].pc.Judging? && !s'.callers[c].pc.Taking?
    && (IsFresh(s'.callers[c]) ==> IsFresh(s.callers[c]))
  }

  lemma PlainKeepsBound(h: Hashes, s: State, s': State, c: nat)
    requires CallsBound(h, s) && Approvals.Grows(TableOf(s), TableOf(s')) && Plain(s, s', c)
    ensures CallsBound(h, s')
  {
    var k := s.callers[c];
    if IsFresh(k) {
      var id := ApprovalId(h, k.request);
      assert Approvals.Climbs(TableOf(s)[id], TableOf(s')[id]);
    }
    StepKeepsBound(h, s, s', c);
  }

  lemma MoveIsPlain(s: State, c: nat, end: End)
    requires c in s.callers
    ensures Plain(s, Finish(s, c, end), c) && Plain(s, LetIn(s, c, Ungated), c) && Plain(s, Move(s, c, Reading), c)
  {
  }

  lemma DecideIsPlain(s: State, c: nat, first: Verdict, second: Verdict)
    requires c in s.callers
    ensures Plain(s, DecideStep(s, c, first, second), c) && DecideStep(s, c, first, second).ops == s.ops
  {
    MoveIsPlain(s, c, Failed);
    MoveIsPlain(s, c, Refused);
  }

  lemma LateIsPlain(h: Hashes, s: State, e: Event)
    requires Enabled(s, e) && IsLate(e) && !e.Locks? && !e.Finds? && !e.Cancels?
    ensures Plain(s, Step(h, s, e), e.c) && Step(h, s, e).ops == s.ops
  {
  }

  lemma LockIsPlain(h: Hashes, s: State, e: Event)
    requires Enabled(s, e) && e.Locks?
    ensures Plain(s, Step(h, s, e), e.c) && Step(h, s, e).ops == s.ops
  {
  }

  lemma FindIsPlain(h: Hashes, s: State, e: Event)
    requires Enabled(s, e) && e.Finds?
    ensures Plain(s, Step(h, s, e), e.c) && Step(h, s, e).ops == s.ops
  {
  }

  lemma CancelIsPlain(h: Hashes, s: State, e: Event)
    requires Enabled(s, e) && e.Cancels?
    ensures Plain(s, Step(h, s, e), e.c) && Step(h, s, e).ops == s.ops
  {
  }

  lemma AnyLateIsPlain(h: Hashes, s: State, e: Event)
    requires Enabled(s, e) && IsLate(e)
    ensures Plain(s, Step(h, s, e), e.c) && Step(h, s, e).ops == s.ops
  {
    if e.Locks? { LockIsPlain(h, s, e); }
    else if e.Finds? { FindIsPlain(h, s, e); }
    else if e.Cancels? { CancelIsPlain(h, s, e); }
    else { LateIsPlain(h, s, e); }
  }

  lemma LateKeepsBound(h: Hashes, s: State, s': State, c: nat)
    requires CallsBound(h, s) && Approvals.AllProper(s.ops) && Plain(s, s', c) && s'.ops == s.ops
    ensures CallsBound(h, s')
  {
    SameOpsGrow(s, s');
    PlainKeepsBound(h, s, s', c);
  }

  lemma FinishKeepsBound(h: Hashes, s: State, s0: State, c: nat, end: End)
    requires CallsBound(h, s) && c in s.callers && s0.callers == s.callers && Approvals.Grows(TableOf(s), TableOf(s0))
    ensures CallsBound(h, Finish(s0, c, end))
  {
    PlainKeepsBound(h, s, Finish(s0, c, end), c);
  }

  lemma ReadKeepsBound(h: Hashes, s: State, c: nat)
    requires CallsBound(h, s) && Approvals.AllProper(s.ops) && c in s.callers && !IsFresh(s.callers[c])
    ensures CallsBound(h, ReadStep(h, s, c))
  {
    var s' := ReadStep(h, s, c);
    SameOpsGrow(s, s');
    StepKeepsBound(h, s, s', c);
  }

  lemma CreateKeepsBound(h: Hashes, s: State, c: nat, principal: Option<string>, issued: int, created: int)
    requires CallsBound(h, s) && Approvals.AllProper(s.ops) && c in s.callers
    ensures CallsBound(h, CreateStep(h, s, c, principal, issued, created))
  {
    var s', r := CreateStep(h, s, c, principal, issued, created), s.callers[c].request;
    AddedOpGrows(s, s', Approvals.Creating(ApprovalId(h, r), NewRow(h, r, principal, issued, created)));
    PlainKeepsBound(h, s, s', c);
  }

  lemma JudgeKeepsBound(h: Hashes, s: State, c: nat, now: int)
    requires CallsBound(h, s) && Approvals.AllProper(s.ops) && c in s.callers && s.callers[c].pc.Judging?
    requires !IsFresh(s.callers[c])
    ensures CallsBound(h, JudgeStep(h, s, c, now))
  {
    var s' := JudgeStep(h, s, c, now);
    SameOpsGrow(s, s');
    assert CallBound(h, s, s.callers[c]);
    StepKeepsBound(h, s, s', c);
  }

  lemma TakeKeepsBound(h: Hashes, s: State, c: nat, now: int)
    requires CallsBound(h, s) && Approvals.AllProper(s.ops) && c in s.callers && s.callers[c].pc.Taking?
    ensures CallsBound(h, TakeStep(h, s, c, now))
  {
    var s', r := TakeStep(h, s, c, now), s.callers[c].request;
    AddedOpGrows(s, s', Consumption(h, r, now));
    assert CallBound(h, s, s.callers[c]);
    var id := ApprovalId(h, r);
    assert Approvals.Climbs(TableOf(s)[id], TableOf(s')[id]);
    StepKeepsBound(h, s, s', c);
  }

  lemma EarlyKeepsBound(h: Hashes, s: State, e: Event)
    requires CallsBound(h, s) && Approvals.AllProper(s.ops) && Enabled(s, e) && !IsLate(e) && !IsOutside(e)
    requires !IsFresh(s.callers[e.c])
    ensures CallsBound(h, Step(h, s, e))
  {
    match e
    case Decides(c, first, second) =>
      DecideIsPlain(s, c, first, second);
      SameOpsGrow(s, DecideStep(s, c, first, second));
      PlainKeepsBound(h, s, DecideStep(s, c, first, second), c);
    case Reads(c) => ReadKeepsBound(h, s, c);
    case Creates(c, principal, issued, created) => CreateKeepsBound(h, s, c, principal, issued, created);
    case Rereads(c) => ReadKeepsBound(h, s, c);
    case Judges(c, now) => JudgeKeepsBound(h, s, c, now);
    case Lapses(c, now) =>
      var op := Approvals.Expiring(ApprovalId(h, s.callers[c].request), now);
      AddedOpGrows(s, s.(ops := s.ops + [op]), op);
      FinishKeepsBound(h, s, s.(ops := s.ops + [op]), c, Refused);
    case Takes(c, now) => TakeKeepsBound(h, s, c, now);
    case LooksUp(c) =>
      SameOpsGrow(s, Step(h, s, e));
      PlainKeepsBound(h, s, Step(h, s, e), c);
  }

  lemma OutsideKeepsBound(h: Hashes, s: State, e: Event)
    requires CallsBound(h, s) && Approvals.AllProper(s.ops) && Enabled(s, e) && IsOutside(e)
    ensures CallsBound(h, Step(h, s, e))
  {
    var s' := Step(h, s, e);
    if e.OthersDecide? { AddedOpGrows(s, s', e.op); } else { SameOpsGrow(s, s'); }
    forall d | d in s'.callers ensures CallBound(h, s', s'.callers[d]) {
      if d in s.callers { BoundStays(h, s, s', s.callers[d]); }
    }
  }

  lemma {:induction false} RunKeepsBound(h: Hashes, events: seq<Event>)
    ensures CallsBound(h, Run(h, EMPTY, events))
  {
    if events != [] {
      var s, e := Run(h, EMPTY, events[..|events| - 1]), events[|events| - 1];
      RunKeepsBound(h, events[..|events| - 1]);
      RunKeepsInv(h, events[..|events| - 1]);
      if Enabled(s, e) {
        if IsLate(e) {
          AnyLateIsPlain(h, s, e);
          LateKeepsBound(h, s, Step(h, s, e), e.c);
        }
        else if IsOutside(e) { OutsideKeepsBound(h, s, e); }
        else {
          EarlyIsNotFresh(h, s, e);
          EarlyKeepsBound(h, s, e);
        }
      }
    }
  }

  lemma EarlyIsNotFresh(h: Hashes, s: State, e: Event)
    requires Inv(h, s) && Enabled(s, e) && !IsLate(e) && !IsOutside(e)
    ensures !IsFresh(s.callers[e.c])
  {
    assert CallerOk(h, s, e.c);
  }

  // ---- a repeat ----

  /** The approval of a freshly admitted call is spent, and its record still bound. */
  lemma FreshRecord(h: Hashes, events: seq<Event>, c: nat)
    requires c in Run(h, EMPTY, events).callers && IsFresh(Run(h, EMPTY, events).callers[c])
    ensures var s := Run(h, EMPTY, events);
            var r := s.callers[c].request;
            var id := ApprovalId(h, r);
      && Approvals.ValidId(id) && id in TableOf(s) && BoundTo(h, r, TableOf(s)[id])
      && TableOf(s)[id].decision == Approvals.Consumed
  {
    var s := Run(h, EMPTY, events);
    RunKeepsInv(h, events);
    RunKeepsBound(h, events);
    assert CallerOk(h, s, c) && CallBound(h, s, s.callers[c]);
    var i := s.callers[c].admission.value.op;
    assert s.ops[..|s.ops|] == s.ops;
    Approvals.ConsumedStays(s.ops, i, |s.ops|);
  }

  /** The gate, step by step, on a spent record. */
  lemma SpentGate(h: Hashes, s: State, d: nat, principal: Option<string>, clock: nat -> int)
    requires d in s.callers && s.callers[d].pc.Reading?
    requires var r := s.callers[d].request; var id := ApprovalId(h, r);
      && Approvals.ValidId(id) && id in TableOf(s) && BoundTo(h, r, TableOf(s)[id])
      && TableOf(s)[id].decision == Approvals.Consumed && ExecutionMatches(h, r, s.mappings)
    ensures var r := s.callers[d].request;
            var s' := Judged(h, ReadOrCreated(h, s, d, principal, clock(0), clock(1)), d, clock(2), clock(3));
      if Past(TableOf(s)[ApprovalId(h, r)].expiresAt, clock(2))
      then d in s'.callers && s'.callers[d].pc == Done(Refused) && s'.runs == s.runs
      else s' == LetIn(Move(s, d, LookingUp), d, Idempotent)
  {
    var row := TableOf(s)[ApprovalId(h, s.callers[d].request)];
    var read := Move(s, d, Judging(row));
    assert Step(h, s, Reads(d)) == ReadStep(h, s, d) == read;
    ReadDisabled(h, read, d, principal, clock(0), clock(1));
    SpentJudged(h, read, d, clock(2), clock(3));
  }

  lemma SpentJudged(h: Hashes, s: State, d: nat, now: int, later: int)
    requires d in s.callers && s.callers[d].pc.Judging?
    requires var k := s.callers[d];
      BoundTo(h, k.request, k.pc.row) && k.pc.row.decision == Approvals.Consumed
          && ExecutionMatches(h, k.request, s.mappings)
    ensures var s' := Judged(h, s, d, now, later);
      if Past(s.callers[d].pc.row.expiresAt, now)
      then d in s'.callers && s'.callers[d].pc == Done(Refused) && s'.runs == s.runs
      else s' == LetIn(Move(s, d, LookingUp), d, Idempotent)
  {
    var s1 := Step(h, s, Judges(d, now));
    assert s1 == JudgeStep(h, s, d, now);
    Disabled(h, s1, d, later);
  }

  /** The call then takes the lock and finds the run. */
  lemma RepeatFinds(h: Hashes, s: State, d: nat, key: string, e: nat)
    requires d in s.callers && s.callers[d].pc.Admitted? && OfKey(s.callers[d], key) && Runs.ValidId(key)
    requires (s.callers[d].process, key) !in s.holder && Recorded(s, key, RunFingerprint(h, s.callers[d].request), e)
    ensures var s' := Step(h, Step(h, s, Locks(d)), Finds(d));
            d in s'.callers && s'.callers[d].pc == Done(Recovered(e)) && s'.runs == s.runs
  {
    var locked := Step(h, s, Locks(d));
    assert locked == LockStep(s, d);
    assert Step(h, locked, Finds(d)) == FindStep(h, locked, d);
  }

  /** A later call run through the gate and then to its end, with nothing in between. */
  function Repeated(h: Hashes, s: State, d: nat, principal: Option<string>, clock: nat -> int): State {
    var gated := Judged(h, ReadOrCreated(h, s, d, principal, clock(0), clock(1)), d, clock(2), clock(3));
    Step(h, Step(h, gated, Locks(d)), Finds(d))
  }

  /** Main result: once a freshly admitted call for a key has ended with a run, in a run
      of the bridge that loses no mapping write, the same request made again is given
      that very run, and makes none, exactly until its approval expires; from then on it
      is refused. */
  lemma RepeatRecovers(h: Hashes, key: string, p: nat, events: seq<Event>, c: nat, e: nat, d: nat,
                       principal: Option<string>, clock: nat -> int)
    requires SafeRun(h, key, p, events)
    requires var s := Run(h, EMPTY, events);
      && c in s.callers && OfKey(s.callers[c], key) && IsFresh(s.callers[c]) && s.callers[c].pc == Done(Ran(e))
      && d in s.callers && s.callers[d].request == s.callers[c].request && s.callers[d].pc.Reading?
      && (s.callers[d].process, key) !in s.holder
    ensures var s := Run(h, EMPTY, events);
            var s' := Repeated(h, s, d, principal, clock);
            var id := ApprovalId(h, s.callers[c].request);
      && id in TableOf(s) && d in s'.callers && s'.runs == s.runs
      && s'.callers[d].pc == Done(if Past(TableOf(s)[id].expiresAt, clock(2)) then Refused else Recovered(e))
  {
    var s := Run(h, EMPTY, events);
    FreshRecord(h, events, c);
    RunKeepsOnce(h, key, p, events);
    assert KeyCallOk(h, key, p, s, c);
    RepeatAt(h, s, key, d, e, principal, clock);
  }

  /** The same from any state with the record spent and the run recorded. */
  lemma RepeatAt(h: Hashes, s: State, key: string, d: nat, e: nat, principal: Option<string>, clock: nat -> int)
    requires d in s.callers && s.callers[d].pc.Reading? && OfKey(s.callers[d], key) && Runs.ValidId(key)
    requires var r := s.callers[d].request; var id := ApprovalId(h, r);
      && Approvals.ValidId(id) && id in TableOf(s) && BoundTo(h, r, TableOf(s)[id])
      && TableOf(s)[id].decision == Approvals.Consumed && Recorded(s, key, RunFingerprint(h, r), e)
    requires (s.callers[d].process, key) !in s.holder
    ensures var s' := Repeated(h, s, d, principal, clock);
      && d in s'.callers && s'.runs == s.runs
      && s'.callers[d].pc == Done(if Past(TableOf(s)[ApprovalId(h, s.callers[d].request)].expiresAt, clock(2))
                                  then Refused else Recovered(e))
  {
    SpentGate(h, s, d, principal, clock);
    var gated := Judged(h, ReadOrCreated(h, s, d, principal, clock(0), clock(1)), d, clock(2), clock(3));
    if Past(TableOf(s)[ApprovalId(h, s.callers[d].request)].expiresAt, clock(2)) {
      RefusedStays(h, gated, d);
    } else {
      RepeatFinds(h, gated, d, key, e);
    }
  }

  lemma RefusedStays(h: Hashes, s: State, d: nat)
    requires d in s.callers && s.callers[d].pc.Done?
    ensures Step(h, Step(h, s, Locks(d)), Finds(d)) == s
  {
  }
}
