/** The bridge server as a transition system (src/hermes_mcp_bridge/server.py): any
    number of tool calls, in any number of processes sharing the two registries,
    interleave at their transactions and awaits. A call passes the policy, perhaps
    the approval gate, then takes the lock of its client request id, looks for the
    mapping, posts the run upstream and records it. Calls may be cancelled or
    killed, and approvals and mappings are changed by others in between. */
module Bridge {
  import opened Wrappers
  import opened Gate
  import opened Texts
  import Approvals
  import Runs = RunRegistry

  datatype Tool = SubmitTool | PromptTool

  datatype Verdict = Allow | Deny | RequireApproval | Undecided

  /** How a call was let through: without approval, by consuming one (as the given
      operation on the approvals table), or because its run is on record. */
  datatype Admission = Ungated | Fresh(op: nat) | Idempotent

  datatype End = Refused | Failed | Mismatch | Stopped | Recovered(execution: nat) | Ran(execution: nat)

  datatype Pc =
    | Arriving | Reading | Creating | Rereading | Judging(row: Approvals.Row) | Lapsing | Taking | LookingUp
    | Admitted | Locked | Posting | Posted(run: nat) | Storing(run: nat) | Restoring(run: nat)
    | Done(end: End)

  datatype Caller = Caller(process: nat, tool: Tool, request: Request, pc: Pc, admission: Option<Admission>)

  /** The approvals table is the outcome of `ops`; run `j` was created upstream for
      call `runs[j]`, and `returned` are the runs whose submission returned. Writes
      of abandoned calls stay `pending`. */
  datatype State = State(
    ops: seq<Approvals.Op>, mappings: Runs.Table, callers: map<nat, Caller>, holder: map<(nat, string), nat>,
    runs: seq<nat>, returned: set<nat>, pending: set<Runs.Write>)

  const EMPTY := State([], map[], map[], map[], [], {}, {})

  datatype Event =
    | Arrives(c: nat, process: nat, tool: Tool, request: Request)
    | Decides(c: nat, first: Verdict, second: Verdict)
    | Reads(c: nat)
    | Creates(c: nat, principal: Option<string>, issued: int, created: int)
    | Rereads(c: nat)
    | Judges(c: nat, now: int)
    | Lapses(c: nat, now: int)
    | Takes(c: nat, now: int)
    | LooksUp(c: nat)
    | Locks(c: nat)
    | Finds(c: nat)
    | PostCreates(c: nat)
    | PostReturns(c: nat)
    | PostFails(c: nat)
    | Stores(c: nat, now: int)
    | StoreFails(c: nat)
    | Cancels(c: nat)
    | Kills(c: nat)
    | Background(write: Runs.Write, now: int)
    | OthersDecide(op: Approvals.Op)
    | OthersUpdate(id: string, status: string, execution: Option<nat>, now: int)

  // ---- steps ----

  function ToolName(tool: Tool): string { if tool.SubmitTool? then "hermes_submit" else "hermes_prompt" }

  /** `hermes_submit` takes no session. */
  function AsReceived(tool: Tool, r: Request): Request {
    r.(action := ToolName(tool), session := if tool.SubmitTool? then None else r.session)
  }

  function Move(s: State, c: nat, pc: Pc): State
    requires c in s.callers
  {
    s.(callers := s.callers[c := s.callers[c].(pc := pc)])
  }

  function LetIn(s: State, c: nat, a: Admission): State
    requires c in s.callers
  {
    s.(callers := s.callers[c := s.callers[c].(pc := Admitted, admission := Some(a))])
  }

  /** The call ends, leaving its key lock if it holds it. */
  function Finish(s: State, c: nat, end: End): State
    requires c in s.callers
  {
    Move(s, c, Done(end)).(holder := map k | k in s.holder && s.holder[k] != c :: s.holder[k])
  }

  function TableOf(s: State): Approvals.Table { Approvals.Run(s.ops) }

  function WriteOf(h: Hashes, k: Caller, run: nat): Runs.Write
    requires k.request.clientId.Some?
  {
    Runs.Write(k.request.clientId.value, RunFingerprint(h, k.request), run, k.request.session, "")
  }

  function DecideStep(s: State, c: nat, first: Verdict, second: Verdict): State
    requires c in s.callers
  {
    var r := s.callers[c].request;
    if Strip(r.prompt, IsSpace) == "" then Finish(s, c, Failed)
    else if OrEmpty(r.trust) == [] then LetIn(s, c, Ungated)
    else if first == RequireApproval then Move(s, c, Reading)
    else if second == Allow then LetIn(s, c, Ungated)
    else Finish(s, c, Refused)
  }

  function ReadStep(h: Hashes, s: State, c: nat): State
    requires c in s.callers
  {
    match Approvals.Lookup(TableOf(s), ApprovalId(h, s.callers[c].request))
    case Ok(row) => Move(s, c, Judging(row))
    case Err(e) =>
      if e == Approvals.NotFound && s.callers[c].pc == Reading then Move(s, c, Creating) else Finish(s, c, Refused)
  }

  /** An operation on the approvals table, and what becomes of its caller. */
  function CreateStep(h: Hashes, s: State, c: nat, principal: Option<string>, issued: int, created: int): State
    requires c in s.callers
  {
    var r := s.callers[c].request;
    var op := Approvals.Creating(ApprovalId(h, r), NewRow(h, r, principal, issued, created));
    var s' := s.(ops := s.ops + [op]);
    if Approvals.Apply(TableOf(s), op).1.Ok? then Move(s', c, Rereading) else Finish(s', c, Refused)
  }

  function JudgeStep(h: Hashes, s: State, c: nat, now: int): State
    requires c in s.callers && s.callers[c].pc.Judging?
  {
    match Judge(h, s.callers[c].request, s.callers[c].pc.row, now)
    case Block(_) => Finish(s, c, Refused)
    case DoExpire => Move(s, c, Lapsing)
    case DoConsume => Move(s, c, Taking)
    case DoLookUp => Move(s, c, LookingUp)
  }

  function TakeStep(h: Hashes, s: State, c: nat, now: int): State
    requires c in s.callers
  {
    var op := Consumption(h, s.callers[c].request, now);
    var s' := s.(ops := s.ops + [op]);
    if Approvals.Apply(TableOf(s), op).1.Ok? then LetIn(s', c, Fresh(|s.ops|)) else Finish(s', c, Refused)
  }

  function LockStep(s: State, c: nat): State
    requires c in s.callers
  {
    var k := s.callers[c];
    if k.request.clientId.None? then Move(s, c, Posting)
    else if (k.process, k.request.clientId.value) in s.holder then s
    else Move(s, c, Locked).(holder := s.holder[(k.process, k.request.clientId.value) := c])
  }

  function FindStep(h: Hashes, s: State, c: nat): State
    requires c in s.callers && s.callers[c].request.clientId.Some?
  {
    var r := s.callers[c].request;
    match Runs.GetTx(s.mappings, r.clientId.value)
    case Err(_) => Finish(s, c, Failed)
    case Ok(None) => Move(s, c, Posting)
    case Ok(Some(m)) => Finish(s, c, if m.fingerprint != RunFingerprint(h, r) then Mismatch else Recovered(m.execution))
  }

  function ReturnStep(s: State, c: nat): State
    requires c in s.callers && s.callers[c].pc.Posted?
  {
    var run := s.callers[c].pc.run;
    var s' := s.(returned := s.returned + {run});
    if s.callers[c].request.clientId.None? then Finish(s', c, Ran(run)) else Move(s', c, Storing(run))
  }

  /** How a call that has been writing its mapping ends. */
  function Ending(pc: Pc): End
    requires pc.Storing? || pc.Restoring?
  {
    if pc.Storing? then Ran(pc.run) else Stopped
  }

  function StoreStep(h: Hashes, s: State, c: nat, now: int): State
    requires c in s.callers && s.callers[c].request.clientId.Some?
    requires s.callers[c].pc.Storing? || s.callers[c].pc.Restoring?
  {
    var pc := s.callers[c].pc;
    var (mappings, reply) := Runs.RecordTx(s.mappings, WriteOf(h, s.callers[c], pc.run), now);
    Finish(s.(mappings := mappings), c, if reply.Ok? then Ending(pc) else Failed)
  }

  /** Cancellation. While the mapping is being written the write goes on behind the
      call; `hermes_submit` shields it once and then writes again. */
  function CancelStep(h: Hashes, s: State, c: nat): State
    requires c in s.callers
  {
    var k := s.callers[c];
    if (k.pc.Storing? || k.pc.Restoring?) && k.request.clientId.Some? then
      var s' := s.(pending := s.pending + {WriteOf(h, k, k.pc.run)});
      if k.pc.Storing? && k.tool.SubmitTool? then Move(s', c, Restoring(k.pc.run)) else Finish(s', c, Stopped)
    else Finish(s, c, Stopped)
  }

  /** Whether the call an event is about is at the right point for it. */
  predicate Enabled(s: State, e: Event) {
    match e
    case Arrives(c, _, _, _) => c !in s.callers
    case Background(w, _) => w in s.pending
    case OthersDecide(op) => Approvals.Proper(op)
    case OthersUpdate(_, _, _, _) => true
    case _ =>
      e.c in s.callers &&
      var pc := s.callers[e.c].pc;
      match e
      case Decides(_, _, _) => pc.Arriving?
      case Reads(_) => pc.Reading?
      case Creates(_, _, _, _) => pc.Creating?
      case Rereads(_) => pc.Rereading?
      case Judges(_, _) => pc.Judging?
      case Lapses(_, _) => pc.Lapsing?
      case Takes(_, _) => pc.Taking?
      case LooksUp(_) => pc.LookingUp?
      case Locks(_) => pc.Admitted?
      case Finds(_) => pc.Locked? && s.callers[e.c].request.clientId.Some?
      case PostCreates(_) => pc.Posting?
      case PostReturns(_) => pc.Posted?
      case PostFails(_) => pc.Posting? || pc.Posted?
      case Stores(_, _) => (pc.Storing? || pc.Restoring?) && s.callers[e.c].request.clientId.Some?
      case StoreFails(_) => pc.Storing? || pc.Restoring?
      case _ => !pc.Done?
  }

  /** One step; an event that cannot happen changes nothing. */
  function Step(h: Hashes, s: State, e: Event): State {
    if !Enabled(s, e) then s else
    match e
    case Arrives(c, process, tool, r) =>
      s.(callers := s.callers[c := Caller(process, tool, AsReceived(tool, r), Arriving, None)])
    case Decides(c, first, second) => DecideStep(s, c, first, second)
    case Reads(c) => ReadStep(h, s, c)
    case Creates(c, principal, issued, created) => CreateStep(h, s, c, principal, issued, created)
    case Rereads(c) => ReadStep(h, s, c)
    case Judges(c, now) => JudgeStep(h, s, c, now)
    case Lapses(c, now) =>
      Finish(s.(ops := s.ops + [Approvals.Expiring(ApprovalId(h, s.callers[c].request), now)]), c, Refused)
    case Takes(c, now) => TakeStep(h, s, c, now)
    case LooksUp(c) =>
      if ExecutionMatches(h, s.callers[c].request, s.mappings) then LetIn(s, c, Idempotent) else Finish(s, c, Refused)
    case Locks(c) => LockStep(s, c)
    case Finds(c) => FindStep(h, s, c)
    case PostCreates(c) => Move(s, c, Posted(|s.runs|)).(runs := s.runs + [c])
    case PostReturns(c) => ReturnStep(s, c)
    case PostFails(c) => Finish(s, c, Failed)
    case Stores(c, now) => StoreStep(h, s, c, now)
    case StoreFails(c) => Finish(s, c, Ending(s.callers[c].pc))
    case Cancels(c) => CancelStep(h, s, c)
    case Kills(c) => Finish(s, c, Stopped)
    case Background(w, now) => s.(mappings := Runs.RecordTx(s.mappings, w, now).0)
    case OthersDecide(op) => s.(ops := s.ops + [op])
    case OthersUpdate(id, status, execution, now) =>
      s.(mappings := Runs.UpdateStatusTx(s.mappings, id, status, execution, now).0)
  }

  function Run(h: Hashes, s: State, events: seq<Event>): State {
    if events == [] then s else Step(h, Run(h, s, events[..|events| - 1]), events[|events| - 1])
  }

  // ---- what every step keeps ----

  predicate Early(pc: Pc) {
    || pc.Arriving? || pc.Reading? || pc.Creating? || pc.Rereading?
    || pc.Judging? || pc.Lapsing? || pc.Taking? || pc.LookingUp?
  }

  predicate HasRun(pc: Pc) { pc.Posted? || pc.Storing? || pc.Restoring? }

  ghost predicate NoRunOf(runs: seq<nat>, c: nat) { forall j :: 0 <= j < |runs| ==> runs[j] != c }

  /** What an admission rests on. */
  ghost predicate Grounded(h: Hashes, s: State, k: Caller) {
    match k.admission
    case None => true
    case Some(Ungated) => true
    case Some(Fresh(i)) =>
      && i < |s.ops| && Approvals.Accepted(s.ops, i) && s.ops[i].Consuming?
      && s.ops[i] == Consumption(h, k.request, s.ops[i].now)
    case Some(Idempotent) =>
      ExecutionMatches(h, k.request, s.mappings) && (k.pc.Admitted? || k.pc.Locked? || k.pc.Done?)
  }

  ghost predicate CallerOk(h: Hashes, s: State, c: nat)
    requires c in s.callers
  {
    var k := s.callers[c];
    && (Early(k.pc) ==> k.admission.None?)
    && (k.pc.Admitted? || k.pc.Locked? || k.pc.Posting? || HasRun(k.pc) ==> k.admission.Some?)
    && (k.pc.Locked? ==> k.request.clientId.Some?)
    && Grounded(h, s, k)
    && (Early(k.pc) || k.pc.Admitted? || k.pc.Locked? || k.pc.Posting? || k.admission == Some(Idempotent) ==>
          NoRunOf(s.runs, c))
    && (HasRun(k.pc) ==> k.pc.run < |s.runs| && s.runs[k.pc.run] == c)
  }

  ghost predicate CallersOk(h: Hashes, s: State) {
    forall c {:trigger CallerOk(h, s, c)} :: c in s.callers ==> CallerOk(h, s, c)
  }

  /** Every run has its own call, which was admitted to create it. */
  ghost predicate RunsOk(s: State) {
    && (forall j :: 0 <= j < |s.runs| ==> s.runs[j] in s.callers && s.callers[s.runs[j]].admission.Some?)
    && (forall i, j :: 0 <= i < j < |s.runs| ==> s.runs[i] != s.runs[j])
  }

  predicate IsFresh(k: Caller) { k.admission.Some? && k.admission.value.Fresh? }

  /** An approval operation admits one call. */
  ghost predicate FreshOnce(s: State) {
    forall c, d ::
      (c in s.callers && d in s.callers && IsFresh(s.callers[c])
       && s.callers[c].admission == s.callers[d].admission) ==> c == d
  }

  ghost predicate Inv(h: Hashes, s: State) {
    Approvals.AllProper(s.ops) && CallersOk(h, s) && RunsOk(s) && FreshOnce(s)
  }

  /** A step in which at most call `c` moves: registries only grow. */
  ghost predicate Moves(s: State, s': State, c: nat) {
    && c in s.callers && s'.callers.Keys == s.callers.Keys
    && (forall d :: d in s.callers && d != c ==> s'.callers[d] == s.callers[d])
    && s'.callers[c].request == s.callers[c].request
    && |s.ops| <= |s'.ops| && s'.ops[..|s.ops|] == s.ops && Approvals.AllProper(s'.ops)
    && Runs.Keeps(s.mappings, s'.mappings)
  }

  lemma GroundedStays(h: Hashes, s: State, s': State, k: Caller, pc: Pc)
    requires Grounded(h, s, k)
    requires |s.ops| <= |s'.ops| && s'.ops[..|s.ops|] == s.ops && Runs.Keeps(s.mappings, s'.mappings)
    requires k.admission == Some(Idempotent) ==> pc.Admitted? || pc.Locked? || pc.Done?
    ensures Grounded(h, s', k.(pc := pc))
  {
    if k.admission.Some? && k.admission.value.Fresh? {
      var i := k.admission.value.op;
      assert s.ops[..i] == s'.ops[..i];
      assert s'.ops[i] == s.ops[i];
    }
  }

  /** A step that keeps the runs and every admission, and sends `c` somewhere
      consistent with its admission and its runs. */
  lemma MoveKeepsInv(h: Hashes, s: State, s': State, c: nat)
    requires Inv(h, s) && Moves(s, s', c) && s'.runs == s.runs
    requires var k, k' := s.callers[c], s'.callers[c];
      && k'.admission == k.admission
      && (Early(k'.pc) ==> Early(k.pc))
      && (k'.pc.Admitted? ==> k.pc.Admitted?) && (k'.pc.Locked? ==> k.pc.Admitted? && k.request.clientId.Some?)
      && (k'.pc.Posting? ==> (k.pc.Admitted? || k.pc.Locked?) && k.admission != Some(Idempotent))
      && (HasRun(k'.pc) ==> HasRun(k.pc) && k'.pc.run == k.pc.run)
    ensures Inv(h, s')
  {
    forall d | d in s'.callers ensures CallerOk(h, s', d) {
      assert CallerOk(h, s, d);
      GroundedStays(h, s, s', s.callers[d], s'.callers[d].pc);
    }
  }

  lemma OpsOfFresh(h: Hashes, s: State, d: nat)
    requires d in s.callers && CallerOk(h, s, d) && IsFresh(s.callers[d])
    ensures s.callers[d].admission.value.op < |s.ops|
  {
  }

  lemma AdmitKeepsFreshOnce(h: Hashes, s: State, s': State, c: nat)
    requires Inv(h, s) && Moves(s, s', c)
    requires IsFresh(s'.callers[c]) ==> s'.callers[c].admission.value.op >= |s.ops|
    ensures FreshOnce(s')
  {
    forall d | d in s.callers && IsFresh(s.callers[d]) ensures s.callers[d].admission.value.op < |s.ops| {
      OpsOfFresh(h, s, d);
    }
  }

  /** A step that admits `c` on the given ground. */
  lemma AdmitKeepsInv(h: Hashes, s: State, s': State, c: nat)
    requires Inv(h, s) && Moves(s, s', c) && s'.runs == s.runs
    requires Early(s.callers[c].pc) && s'.callers[c].pc == Admitted && s'.callers[c].admission.Some?
    requires Grounded(h, s', s'.callers[c])
    requires IsFresh(s'.callers[c]) ==> s'.callers[c].admission.value.op >= |s.ops|
    ensures Inv(h, s')
  {
    forall d | d in s'.callers ensures CallerOk(h, s', d) {
      assert CallerOk(h, s, d);
      if d != c { GroundedStays(h, s, s', s.callers[d], s.callers[d].pc); }
    }
    AdmitKeepsFreshOnce(h, s, s', c);
  }

  lemma CreateRunKeepsInv(h: Hashes, s: State, c: nat)
    requires Inv(h, s) && c in s.callers && s.callers[c].pc.Posting?
    ensures Inv(h, Step(h, s, PostCreates(c)))
  {
    var s' := Step(h, s, PostCreates(c));
    assert CallerOk(h, s, c);
    forall d | d in s'.callers ensures CallerOk(h, s', d) {
      assert CallerOk(h, s, d);
      GroundedStays(h, s, s', s.callers[d], s'.callers[d].pc);
    }
  }

  lemma ArrivalKeepsInv(h: Hashes, s: State, e: Event)
    requires Inv(h, s) && e.Arrives? && Enabled(s, e)
    ensures Inv(h, Step(h, s, e))
  {
    var s' := Step(h, s, e);
    forall d | d in s'.callers ensures CallerOk(h, s', d) {
      if d in s.callers {
        assert CallerOk(h, s, d);
        GroundedStays(h, s, s', s.callers[d], s.callers[d].pc);
      }
    }
  }

  lemma RegistriesKeepInv(h: Hashes, s: State, s': State)
    requires Inv(h, s) && s' == s.(ops := s'.ops, mappings := s'.mappings)
    requires |s.ops| <= |s'.ops| && s'.ops[..|s.ops|] == s.ops && Approvals.AllProper(s'.ops)
    requires Runs.Keeps(s.mappings, s'.mappings)
    ensures Inv(h, s')
  {
    forall d | d in s'.callers ensures CallerOk(h, s', d) {
      assert CallerOk(h, s, d);
      GroundedStays(h, s, s', s.callers[d], s.callers[d].pc);
    }
  }

  lemma FinishKeepsInv(h: Hashes, s: State, s0: State, c: nat, end: End)
    requires Inv(h, s) && Moves(s, s0, c) && s0.callers == s.callers && s0.runs == s.runs
    ensures Inv(h, Finish(s0, c, end))
  {
    MoveKeepsInv(h, s, Finish(s0, c, end), c);
  }

  lemma UngatedKeepsInv(h: Hashes, s: State, c: nat)
    requires Inv(h, s) && c in s.callers && Early(s.callers[c].pc)
    ensures Inv(h, LetIn(s, c, Ungated))
  {
    AdmitKeepsInv(h, s, LetIn(s, c, Ungated), c);
  }

  lemma DecideKeepsInv(h: Hashes, s: State, c: nat, first: Verdict, second: Verdict)
    requires Inv(h, s) && c in s.callers && s.callers[c].pc.Arriving?
    ensures Inv(h, DecideStep(s, c, first, second))
  {
    UngatedKeepsInv(h, s, c);
    FinishKeepsInv(h, s, s, c, Failed);
    FinishKeepsInv(h, s, s, c, Refused);
    MoveKeepsInv(h, s, Move(s, c, Reading), c);
  }

  lemma EarlyMoveKeepsInv(h: Hashes, s: State, s0: State, c: nat, pc: Pc)
    requires Inv(h, s) && Moves(s, s0, c) && s0.callers == s.callers && s0.runs == s.runs
    requires Early(s.callers[c].pc) && Early(pc)
    ensures Inv(h, Move(s0, c, pc))
  {
    MoveKeepsInv(h, s, Move(s0, c, pc), c);
  }

  lemma ReadKeepsInv(h: Hashes, s: State, c: nat)
    requires Inv(h, s) && c in s.callers && Early(s.callers[c].pc)
    ensures Inv(h, ReadStep(h, s, c))
  {
    var pc := ReadStep(h, s, c).callers[c].pc;
    if pc.Done? { FinishKeepsInv(h, s, s, c, Refused); } else { EarlyMoveKeepsInv(h, s, s, c, pc); }
  }

  lemma CreateKeepsInv(h: Hashes, s: State, c: nat, principal: Option<string>, issued: int, created: int)
    requires Inv(h, s) && c in s.callers && Early(s.callers[c].pc)
    ensures Inv(h, CreateStep(h, s, c, principal, issued, created))
  {
    var s0 := s.(ops := CreateStep(h, s, c, principal, issued, created).ops);
    assert s0.ops[..|s.ops|] == s.ops;
    FinishKeepsInv(h, s, s0, c, Refused);
    EarlyMoveKeepsInv(h, s, s0, c, Rereading);
  }

  lemma JudgeKeepsInv(h: Hashes, s: State, c: nat, now: int)
    requires Inv(h, s) && c in s.callers && s.callers[c].pc.Judging?
    ensures Inv(h, JudgeStep(h, s, c, now))
  {
    match Judge(h, s.callers[c].request, s.callers[c].pc.row, now)
    case Block(_) => FinishKeepsInv(h, s, s, c, Refused);
    case DoExpire => EarlyMoveKeepsInv(h, s, s, c, Lapsing);
    case DoConsume => EarlyMoveKeepsInv(h, s, s, c, Taking);
    case DoLookUp => EarlyMoveKeepsInv(h, s, s, c, LookingUp);
  }

  lemma LapseKeepsInv(h: Hashes, s: State, c: nat, op: Approvals.Op)
    requires Inv(h, s) && c in s.callers && Approvals.Proper(op)
    ensures Inv(h, Finish(s.(ops := s.ops + [op]), c, Refused))
  {
    var s0 := s.(ops := s.ops + [op]);
    assert s0.ops[..|s.ops|] == s.ops;
    FinishKeepsInv(h, s, s0, c, Refused);
  }

  lemma TakeKeepsInv(h: Hashes, s: State, c: nat, now: int)
    requires Inv(h, s) && c in s.callers && s.callers[c].pc.Taking?
    ensures Inv(h, TakeStep(h, s, c, now))
  {
    var s' := TakeStep(h, s, c, now);
    assert CallerOk(h, s, c);
    assert s'.ops[..|s.ops|] == s.ops;
    if s'.callers[c].pc.Admitted? { AdmitKeepsInv(h, s, s', c); } else { MoveKeepsInv(h, s, s', c); }
  }

  lemma LookUpKeepsInv(h: Hashes, s: State, c: nat)
    requires Inv(h, s) && c in s.callers && s.callers[c].pc.LookingUp?
    requires ExecutionMatches(h, s.callers[c].request, s.mappings)
    ensures Inv(h, LetIn(s, c, Idempotent))
  {
    AdmitKeepsInv(h, s, LetIn(s, c, Idempotent), c);
  }

  lemma LockKeepsInv(h: Hashes, s: State, c: nat)
    requires Inv(h, s) && c in s.callers && s.callers[c].pc.Admitted?
    ensures Inv(h, LockStep(s, c))
  {
    assert CallerOk(h, s, c);
    MoveKeepsInv(h, s, LockStep(s, c), c);
  }

  lemma FindKeepsInv(h: Hashes, s: State, c: nat)
    requires Inv(h, s) && c in s.callers && s.callers[c].pc.Locked? && s.callers[c].request.clientId.Some?
    ensures Inv(h, FindStep(h, s, c))
  {
    var pc := FindStep(h, s, c).callers[c].pc;
    if pc.Done? {
      FinishKeepsInv(h, s, s, c, pc.end);
    } else {
      assert CallerOk(h, s, c);
      MoveKeepsInv(h, s, Move(s, c, Posting), c);
    }
  }

  lemma ReturnKeepsInv(h: Hashes, s: State, c: nat)
    requires Inv(h, s) && c in s.callers && s.callers[c].pc.Posted?
    ensures Inv(h, ReturnStep(s, c))
  {
    var s0 := s.(returned := s.returned + {s.callers[c].pc.run});
    if s.callers[c].request.clientId.None? {
      FinishKeepsInv(h, s, s0, c, Ran(s.callers[c].pc.run));
    } else {
      MoveKeepsInv(h, s, Move(s0, c, Storing(s.callers[c].pc.run)), c);
    }
  }

  lemma StoreKeepsInv(h: Hashes, s: State, c: nat, now: int)
    requires Inv(h, s) && c in s.callers && s.callers[c].request.clientId.Some?
    requires s.callers[c].pc.Storing? || s.callers[c].pc.Restoring?
    ensures Inv(h, StoreStep(h, s, c, now))
  {
    MoveKeepsInv(h, s, StoreStep(h, s, c, now), c);
  }

  lemma CancelKeepsInv(h: Hashes, s: State, c: nat)
    requires Inv(h, s) && c in s.callers
    ensures Inv(h, CancelStep(h, s, c))
  {
    var s' := CancelStep(h, s, c);
    if s'.callers[c].pc.Restoring? {
      MoveKeepsInv(h, s, s', c);
    } else {
      FinishKeepsInv(h, s, s.(pending := s'.pending), c, Stopped);
    }
  }

  predicate IsLate(e: Event) {
    || e.Locks? || e.Finds? || e.PostCreates? || e.PostReturns? || e.PostFails?
    || e.Stores? || e.StoreFails? || e.Cancels? || e.Kills?
  }

  predicate IsOutside(e: Event) { e.Arrives? || e.Background? || e.OthersDecide? || e.OthersUpdate? }

  lemma GateStepKeepsInv(h: Hashes, s: State, e: Event)
    requires Inv(h, s) && Enabled(s, e) && !IsLate(e) && !IsOutside(e)
    ensures Inv(h, Step(h, s, e))
  {
    match e
    case Decides(c, first, second) => DecideKeepsInv(h, s, c, first, second);
    case Reads(c) => ReadKeepsInv(h, s, c);
    case Creates(c, principal, issued, created) => CreateKeepsInv(h, s, c, principal, issued, created);
    case Rereads(c) => ReadKeepsInv(h, s, c);
    case Judges(c, now) => JudgeKeepsInv(h, s, c, now);
    case Lapses(c, now) => LapseKeepsInv(h, s, c, Approvals.Expiring(ApprovalId(h, s.callers[c].request), now));
    case Takes(c, now) => TakeKeepsInv(h, s, c, now);
    case LooksUp(c) =>
      if ExecutionMatches(h, s.callers[c].request, s.mappings) { LookUpKeepsInv(h, s, c); }
      else { FinishKeepsInv(h, s, s, c, Refused); }
  }

  lemma LateStepKeepsInv(h: Hashes, s: State, e: Event)
    requires Inv(h, s) && Enabled(s, e) && IsLate(e)
    ensures Inv(h, Step(h, s, e))
  {
    match e
    case Locks(c) => LockKeepsInv(h, s, c);
    case Finds(c) => FindKeepsInv(h, s, c);
    case PostCreates(c) => CreateRunKeepsInv(h, s, c);
    case PostReturns(c) => ReturnKeepsInv(h, s, c);
    case PostFails(c) => FinishKeepsInv(h, s, s, c, Failed);
    case Stores(c, now) => StoreKeepsInv(h, s, c, now);
    case StoreFails(c) => FinishKeepsInv(h, s, s, c, Ending(s.callers[c].pc));
    case Cancels(c) => CancelKeepsInv(h, s, c);
    case Kills(c) => FinishKeepsInv(h, s, s, c, Stopped);
  }

  /** Every step, of whatever kind, keeps the invariant. */
  lemma StepKeepsInv(h: Hashes, s: State, e: Event)
    requires Inv(h, s)
    ensures Inv(h, Step(h, s, e))
  {
    if Enabled(s, e) {
      if IsLate(e) { LateStepKeepsInv(h, s, e); }
      else if e.Arrives? { ArrivalKeepsInv(h, s, e); }
      else if IsOutside(e) { RegistriesKeepInv(h, s, Step(h, s, e)); }
      else { GateStepKeepsInv(h, s, e); }
    }
  }

  lemma {:induction false} RunKeepsInv(h: Hashes, events: seq<Event>)
    ensures Inv(h, Run(h, EMPTY, events))
  {
    if events != [] {
      RunKeepsInv(h, events[..|events| - 1]);
      StepKeepsInv(h, Run(h, EMPTY, events[..|events| - 1]), events[|events| - 1]);
    }
  }

  // ---- one logical request, one run ----

  /** Main result: over any run of any callers, one approval admits one call. */
  lemma OneFreshAdmission(h: Hashes, events: seq<Event>, c: nat, d: nat)
    requires var s := Run(h, EMPTY, events);
      && c in s.callers && d in s.callers && IsFresh(s.callers[c]) && IsFresh(s.callers[d])
      && ApprovalId(h, s.callers[c].request) == ApprovalId(h, s.callers[d].request)
    ensures c == d
  {
    var s := Run(h, EMPTY, events);
    RunKeepsInv(h, events);
    assert CallerOk(h, s, c) && CallerOk(h, s, d);
    Approvals.ConsumedOnce(s.ops, s.callers[c].admission.value.op, s.callers[d].admission.value.op);
  }

  lemma RunIsAdmitted(h: Hashes, s: State, j: nat)
    requires Inv(h, s) && j < |s.runs|
    ensures s.runs[j] in s.callers
    ensures s.callers[s.runs[j]].admission == Some(Ungated) || IsFresh(s.callers[s.runs[j]])
  {
    var c := s.runs[j];
    assert c in s.callers && CallerOk(h, s, c);
    if s.callers[c].admission == Some(Idempotent) { assert NoRunOf(s.runs, c); }
  }

  /** Main result: and so at most one upstream run is created under an approval. */
  lemma OneRunPerApproval(h: Hashes, events: seq<Event>, i: nat, j: nat)
    requires var s := Run(h, EMPTY, events);
      && i < |s.runs| && j < |s.runs| && s.runs[i] in s.callers && s.runs[j] in s.callers
      && s.callers[s.runs[i]].admission != Some(Ungated) && s.callers[s.runs[j]].admission != Some(Ungated)
      && ApprovalId(h, s.callers[s.runs[i]].request) == ApprovalId(h, s.callers[s.runs[j]].request)
    ensures i == j
  {
    var s := Run(h, EMPTY, events);
    RunKeepsInv(h, events);
    RunIsAdmitted(h, s, i);
    RunIsAdmitted(h, s, j);
    OneFreshAdmission(h, events, s.runs[i], s.runs[j]);
  }

  /** Main result: the admitting consumption follows an approving response and
      precedes expiry, on a record bound to this very request. */
  lemma FreshIsAuthorised(h: Hashes, events: seq<Event>, c: nat) returns (k: nat)
    requires c in Run(h, EMPTY, events).callers && IsFresh(Run(h, EMPTY, events).callers[c])
    ensures var s := Run(h, EMPTY, events);
            var r, i := s.callers[c].request, s.callers[c].admission.value.op;
      && k < i < |s.ops| && Approvals.ApprovedBy(s.ops, ApprovalId(h, r), k)
      && s.ops[i].Consuming? && s.ops[i] == Consumption(h, r, s.ops[i].now)
      && ApprovalId(h, r) in Approvals.Run(s.ops[..i])
      && var row := Approvals.Run(s.ops[..i])[ApprovalId(h, r)];
      && row.action == r.action && row.fingerprint == Some(Fingerprint(h, r))
      && (row.expiresAt.Never? || (row.expiresAt.At? && s.ops[i].now < row.expiresAt.time))
  {
    var s := Run(h, EMPTY, events);
    RunKeepsInv(h, events);
    assert CallerOk(h, s, c);
    var i := s.callers[c].admission.value.op;
    k := Approvals.ConsumptionAuthorised(s.ops, i);
    var op := s.ops[i];
    Approvals.ConsumeExact(Approvals.Run(s.ops[..i]), op.id, op.fingerprint, op.required, op.action, op.now);
  }

  /** Main result: an idempotent admission rests on a mapping of its own fingerprint,
      at every later moment too, and never creates a run. */
  lemma IdempotentCreatesNothing(h: Hashes, events: seq<Event>, c: nat)
    requires var s := Run(h, EMPTY, events); c in s.callers && s.callers[c].admission == Some(Idempotent)
    ensures var s := Run(h, EMPTY, events);
      && ExecutionMatches(h, s.callers[c].request, s.mappings) && NoRunOf(s.runs, c)
      && (s.callers[c].pc.Locked? ==>
            && Enabled(s, Finds(c))
            && var s' := Step(h, s, Finds(c));
            && s'.callers[c].pc == Done(Recovered(s.mappings[s.callers[c].request.clientId.value].execution))
            && s'.runs == s.runs)
  {
    RunKeepsInv(h, events);
    assert CallerOk(h, Run(h, EMPTY, events), c);
  }

  /** Main result: with injective hashes, a call let through as a repeat of another
      call's approval finds a mapping of that other call's run fingerprint. */
  lemma IdempotentFindsTheRun(h: Hashes, events: seq<Event>, c: nat, d: nat)
    requires Ideal(h)
    requires var s := Run(h, EMPTY, events);
      && c in s.callers && d in s.callers && s.callers[d].admission == Some(Idempotent)
      && Fingerprint(h, s.callers[c].request) == Fingerprint(h, s.callers[d].request)
    ensures var s := Run(h, EMPTY, events);
            var key := s.callers[c].request.clientId;
            && key.Some? && key.value in s.mappings
            && s.mappings[key.value].fingerprint == RunFingerprint(h, s.callers[c].request)
  {
    var s := Run(h, EMPTY, events);
    IdempotentCreatesNothing(h, events, d);
    FingerprintBindsRequest(h, s.callers[c].request, s.callers[d].request);
    assert PayloadOf(h, s.callers[c].request).clientId == PayloadOf(h, s.callers[d].request).clientId;
  }

  // ---- the gate's steps are the gate ----

  lemma AppendedOp(ops: seq<Approvals.Op>, op: Approvals.Op)
    ensures Approvals.Run(ops + [op]) == Approvals.Apply(Approvals.Run(ops), op).0
  {
    assert (ops + [op])[..|ops|] == ops;
  }

  /** The steps from a record in hand. */
  function Judged(h: Hashes, s: State, c: nat, now: int, later: int): State {
    Step(h, Step(h, Step(h, Step(h, s, Judges(c, now)), Lapses(c, later)), Takes(c, later)), LooksUp(c))
  }

  lemma Disabled(h: Hashes, s: State, c: nat, later: int)
    requires c in s.callers
    ensures !s.callers[c].pc.Lapsing? ==> Step(h, s, Lapses(c, later)) == s
    ensures !s.callers[c].pc.Taking? ==> Step(h, s, Takes(c, later)) == s
    ensures !s.callers[c].pc.LookingUp? ==> Step(h, s, LooksUp(c)) == s
  {
  }

  lemma JudgedBlock(h: Hashes, s: State, c: nat, now: int, later: int)
    requires c in s.callers && s.callers[c].pc.Judging?
    requires Judge(h, s.callers[c].request, s.callers[c].pc.row, now).Block?
    ensures var s' := Judged(h, s, c, now, later);
            c in s'.callers && TableOf(s') == TableOf(s) && s'.callers[c].pc == Done(Refused)
  {
    Disabled(h, Step(h, s, Judges(c, now)), c, later);
  }

  lemma JudgedExpire(h: Hashes, s: State, c: nat, now: int, later: int)
    requires c in s.callers && s.callers[c].pc.Judging?
    requires Judge(h, s.callers[c].request, s.callers[c].pc.row, now).DoExpire?
    ensures var s' := Judged(h, s, c, now, later);
      && c in s'.callers && s'.callers[c].pc == Done(Refused)
      && TableOf(s') == Approvals.ExpireTx(TableOf(s), ApprovalId(h, s.callers[c].request), later).0
  {
    var s1 := Step(h, s, Judges(c, now));
    assert s1 == Move(s, c, Lapsing);
    AppendedOp(s.ops, Approvals.Expiring(ApprovalId(h, s.callers[c].request), later));
    Disabled(h, Step(h, s1, Lapses(c, later)), c, later);
  }

  lemma JudgedConsume(h: Hashes, s: State, c: nat, now: int, later: int)
    requires c in s.callers && s.callers[c].pc.Judging?
    requires Judge(h, s.callers[c].request, s.callers[c].pc.row, now).DoConsume?
    ensures var s' := Judged(h, s, c, now, later);
            var (t, reply) := Approvals.Apply(TableOf(s), Consumption(h, s.callers[c].request, later));
      && c in s'.callers && TableOf(s') == t
      && (reply.Ok? ==> s'.callers[c].pc == Admitted && IsFresh(s'.callers[c]))
      && (reply.Err? ==> s'.callers[c].pc == Done(Refused))
  {
    var s1 := Step(h, s, Judges(c, now));
    assert s1 == Move(s, c, Taking);
    AppendedOp(s.ops, Consumption(h, s.callers[c].request, later));
    Disabled(h, s1, c, later);
    var s2 := Step(h, s1, Takes(c, later));
    assert s2 == TakeStep(h, s1, c, later);
    Disabled(h, s2, c, later);
  }

  lemma JudgedLookUp(h: Hashes, s: State, c: nat, now: int, later: int)
    requires c in s.callers && s.callers[c].pc.Judging?
    requires Judge(h, s.callers[c].request, s.callers[c].pc.row, now).DoLookUp?
    ensures var s' := Judged(h, s, c, now, later);
      && c in s'.callers && TableOf(s') == TableOf(s)
      && (if ExecutionMatches(h, s.callers[c].request, s.mappings)
          then s'.callers[c].pc == Admitted && s'.callers[c].admission == Some(Idempotent)
          else s'.callers[c].pc == Done(Refused))
  {
    var s1 := Step(h, s, Judges(c, now));
    assert s1 == Move(s, c, LookingUp);
    Disabled(h, s1, c, later);
  }

  /** All of it: the table left, and how the call was let through, if it was. */
  function JudgedOutcome(h: Hashes, t: Approvals.Table, mappings: Runs.Table, r: Request, row: Approvals.Row, now: int,
                         later: int)
    : (Approvals.Table, Option<bool>)
  {
    match Judge(h, r, row, now)
    case Block(_) => (t, None)
    case DoExpire => (Approvals.ExpireTx(t, ApprovalId(h, r), later).0, None)
    case DoConsume =>
      var (t', reply) := Approvals.Apply(t, Consumption(h, r, later));
      (t', if reply.Ok? then Some(false) else None)
    case DoLookUp => (t, if ExecutionMatches(h, r, mappings) then Some(true) else None)
  }

  ghost predicate EndsAs(s: State, c: nat, admitted: Option<bool>) {
    c in s.callers &&
    match admitted
    case None => s.callers[c].pc == Done(Refused)
    case Some(false) => s.callers[c].pc == Admitted && IsFresh(s.callers[c])
    case Some(true) => s.callers[c].pc == Admitted && s.callers[c].admission == Some(Idempotent)
  }

  lemma JudgedAll(h: Hashes, s: State, c: nat, now: int, later: int)
    requires c in s.callers && (s.callers[c].pc.Judging? || s.callers[c].pc == Done(Refused))
    ensures var s' := Judged(h, s, c, now, later);
      if s.callers[c].pc.Judging? then
        var (t, admitted) := JudgedOutcome(h, TableOf(s), s.mappings, s.callers[c].request, s.callers[c].pc.row, now,
                                           later);
        TableOf(s') == t && EndsAs(s', c, admitted)
      else s' == s
  {
    if s.callers[c].pc.Judging? {
      match Judge(h, s.callers[c].request, s.callers[c].pc.row, now)
      case Block(_) => JudgedBlock(h, s, c, now, later);
      case DoExpire => JudgedExpire(h, s, c, now, later);
      case DoConsume => JudgedConsume(h, s, c, now, later);
      case DoLookUp => JudgedLookUp(h, s, c, now, later);
    } else {
      Disabled(h, s, c, later);
    }
  }

  /** The steps up to the record: read it, or create it and read it back. */
  function ReadOrCreated(h: Hashes, s: State, c: nat, principal: Option<string>, issued: int, created: int): State {
    Step(h, Step(h, Step(h, s, Reads(c)), Creates(c, principal, issued, created)), Rereads(c))
  }

  function Found(h: Hashes, t: Approvals.Table, r: Request, principal: Option<string>, issued: int, created: int)
    : (Approvals.Table, Approvals.Reply)
  {
    var found := Approvals.Lookup(t, ApprovalId(h, r));
    if found.Ok? || found.error == Approvals.InvalidId then (t, found)
    else Approvals.CreateTx(t, ApprovalId(h, r), NewRow(h, r, principal, issued, created))
  }

  lemma ReadDisabled(h: Hashes, s: State, c: nat, principal: Option<string>, issued: int, created: int)
    requires c in s.callers
    ensures !s.callers[c].pc.Creating? ==> Step(h, s, Creates(c, principal, issued, created)) == s
    ensures !s.callers[c].pc.Rereading? ==> Step(h, s, Rereads(c)) == s
  {
  }

  lemma CreateAlone(h: Hashes, s: State, c: nat, principal: Option<string>, issued: int, created: int)
    requires c in s.callers && s.callers[c].pc.Creating?
    ensures var r := s.callers[c].request;
            var s' := Step(h, Step(h, s, Creates(c, principal, issued, created)), Rereads(c));
            var (t, row) := Approvals.CreateTx(TableOf(s), ApprovalId(h, r), NewRow(h, r, principal, issued, created));
      && c in s'.callers && s'.callers[c].request == r && s'.mappings == s.mappings && TableOf(s') == t
      && s'.callers[c].pc == (if row.Ok? then Judging(row.value) else Done(Refused))
  {
    var r := s.callers[c].request;
    var s1 := Step(h, s, Creates(c, principal, issued, created));
    assert s1 == CreateStep(h, s, c, principal, issued, created);
    AppendedOp(s.ops, Approvals.Creating(ApprovalId(h, r), NewRow(h, r, principal, issued, created)));
    ReadDisabled(h, s1, c, principal, issued, created);
    if s1.callers[c].pc.Rereading? { assert Step(h, s1, Rereads(c)) == ReadStep(h, s1, c); }
  }

  lemma ReadAlone(h: Hashes, s: State, c: nat, principal: Option<string>, issued: int, created: int)
    requires c in s.callers && s.callers[c].pc.Reading?
    ensures var r := s.callers[c].request;
            var s' := ReadOrCreated(h, s, c, principal, issued, created);
            var (t, row) := Found(h, TableOf(s), r, principal, issued, created);
      && c in s'.callers && s'.callers[c].request == r && s'.mappings == s.mappings && TableOf(s') == t
      && s'.callers[c].pc == (if row.Ok? then Judging(row.value) else Done(Refused))
  {
    var s1 := Step(h, s, Reads(c));
    assert s1 == ReadStep(h, s, c);
    if s1.callers[c].pc.Creating? {
      CreateAlone(h, s1, c, principal, issued, created);
    } else {
      ReadDisabled(h, s1, c, principal, issued, created);
    }
  }

  lemma GateAloneInParts(h: Hashes, t: Approvals.Table, mappings: Runs.Table, r: Request, principal: Option<string>,
                         clock: nat -> int)
    ensures var (t1, row) := Found(h, t, r, principal, clock(0), clock(1));
            var (t2, o) := GateAlone(h, t, mappings, r, principal, clock);
      (t2, if o.Admit? then Some(o.idempotent) else None)
      == if row.Ok? then JudgedOutcome(h, t1, mappings, r, row.value, clock(2), clock(3)) else (t1, None)
  {
  }

  /** Main result: when nothing interrupts them, the gate's steps are exactly the
      gate: the same table, and the call admitted or refused alike. */
  lemma GateStepsAreGate(h: Hashes, s: State, c: nat, principal: Option<string>, clock: nat -> int)
    requires c in s.callers && s.callers[c].pc.Reading?
    ensures var (t, o) := GateAlone(h, TableOf(s), s.mappings, s.callers[c].request, principal, clock);
            var s' := Judged(h, ReadOrCreated(h, s, c, principal, clock(0), clock(1)), c, clock(2), clock(3));
      TableOf(s') == t && EndsAs(s', c, if o.Admit? then Some(o.idempotent) else None)
  {
    ReadAlone(h, s, c, principal, clock(0), clock(1));
    JudgedAll(h, ReadOrCreated(h, s, c, principal, clock(0), clock(1)), c, clock(2), clock(3));
    GateAloneInParts(h, TableOf(s), s.mappings, s.callers[c].request, principal, clock);
  }
}
