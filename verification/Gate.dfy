/** The approval handoff for a policy-gated request
    (src/hermes_mcp_bridge/prompt_approvals.py): what a request is bound to, and
    what the gate does with the record it finds. Times are in microseconds. */
module Gate {
  import opened Wrappers
  import opened Approvals
  import opened Texts
  import Runs = RunRegistry

  const PROMPT_APPROVAL_TTL := 900 * 1_000_000
  const APPROVAL_PREFIX := "approval-prompt-"
  const RESOURCE_PREFIX := "request-sha256:"

  /** One logical request, as the tool receives it. */
  datatype Request = Request(
    action: string, prompt: string, clientId: Option<string>, session: Option<string>, agent: Option<string>,
    subagents: Option<seq<string>>, orchestration: string, expectedActions: Option<seq<string>>,
    scopes: Option<seq<string>>, trust: Option<seq<string>>)

  datatype RequestPayload = RequestPayload(
    action: string, promptDigest: string, clientId: Option<string>, session: Option<string>, agent: Option<string>,
    subagents: seq<string>, orchestration: string,
    expectedActions: seq<string>, scopes: seq<string>, trust: seq<string>)

  datatype Metadata = Metadata(requestDigest: string, clientIdPresent: bool)

  /** SHA-256 of the text of each kind of value that is hashed. */
  datatype Hashes = Hashes(
    prompt: string -> string, request: RequestPayload -> string,
    binding: (string, Metadata) -> string, run: Runs.RunPayload -> string)

  ghost predicate Ideal(h: Hashes) {
    && (forall a, b {:trigger h.prompt(a), h.prompt(b)} :: h.prompt(a) == h.prompt(b) ==> a == b)
    && (forall a, b {:trigger h.request(a), h.request(b)} :: h.request(a) == h.request(b) ==> a == b)
    && (forall a, m, b, n {:trigger h.binding(a, m), h.binding(b, n)} :: h.binding(a, m) == h.binding(b, n) ==>
          a == b && m == n)
    && (forall a, b {:trigger h.run(a), h.run(b)} :: h.run(a) == h.run(b) ==> a == b)
  }

  /** `list(x or [])`. */
  function OrEmpty(xs: Option<seq<string>>): seq<string> { if xs.Some? then xs.value else [] }

  function PayloadOf(h: Hashes, r: Request): RequestPayload {
    RequestPayload(r.action, h.prompt(r.prompt), r.clientId, r.session, r.agent, OrEmpty(r.subagents),
                   r.orchestration, OrEmpty(r.expectedActions), OrEmpty(r.scopes), OrEmpty(r.trust))
  }

  function Digest(h: Hashes, r: Request): string { h.request(PayloadOf(h, r)) }

  function Resource(h: Hashes, r: Request): string { RESOURCE_PREFIX + Digest(h, r) }

  function Fingerprint(h: Hashes, r: Request): string {
    h.binding(Resource(h, r), Metadata(Digest(h, r), r.clientId.Some?))
  }

  function RunFingerprint(h: Hashes, r: Request): string {
    h.run(Runs.RunPayloadOf(r.prompt, r.session, r.agent, r.subagents, r.orchestration))
  }

  /** Named after the first 48 digits of the request digest. */
  function ApprovalId(h: Hashes, r: Request): string {
    var digest := Digest(h, r);
    APPROVAL_PREFIX + (if |digest| <= 48 then digest else digest[..48])
  }

  /** The same request but for absent lists and empty ones. */
  predicate SameRequest(r: Request, q: Request) {
    && r.action == q.action && r.prompt == q.prompt && r.clientId == q.clientId && r.session == q.session
    && r.agent == q.agent && OrEmpty(r.subagents) == OrEmpty(q.subagents) && r.orchestration == q.orchestration
    && OrEmpty(r.expectedActions) == OrEmpty(q.expectedActions) && OrEmpty(r.scopes) == OrEmpty(q.scopes)
    && OrEmpty(r.trust) == OrEmpty(q.trust)
  }

  /** Main result, exact: two requests share an approval fingerprint if and only if they
      agree in every field. */
  lemma FingerprintExact(h: Hashes, r: Request, q: Request)
    requires Ideal(h)
    ensures Fingerprint(h, r) == Fingerprint(h, q) <==> SameRequest(r, q)
  {
    if Fingerprint(h, r) == Fingerprint(h, q) {
      assert Digest(h, r) == Digest(h, q);
      assert PayloadOf(h, r) == PayloadOf(h, q);
      assert h.prompt(r.prompt) == h.prompt(q.prompt);
    }
  }

  /** Main result, exact: two requests are the same run if and only if their prompts have
      the same lines once stripped, and they agree in session, agent and orchestration,
      and in their subagents up to order. */
  lemma RunFingerprintExact(h: Hashes, r: Request, q: Request)
    requires Ideal(h)
    ensures RunFingerprint(h, r) == RunFingerprint(h, q) <==>
            && SplitLines(Strip(r.prompt, IsSpace)) == SplitLines(Strip(q.prompt, IsSpace))
            && r.session == q.session && r.agent == q.agent && r.orchestration == q.orchestration
            && multiset(OrEmpty(r.subagents)) == multiset(OrEmpty(q.subagents))
  {
    Runs.RunPayloadExact(r.prompt, r.session, r.agent, r.subagents, r.orchestration,
                         q.prompt, q.session, q.agent, q.subagents, q.orchestration);
  }

  /** Approvals are told apart by the first 48 digits of the request digest, and their
      names are valid. */
  lemma ApprovalIdExact(h: Hashes, r: Request, q: Request)
    requires |Digest(h, r)| >= 48 && |Digest(h, q)| >= 48
    ensures ApprovalId(h, r) == ApprovalId(h, q) <==> Digest(h, r)[..48] == Digest(h, q)[..48]
    ensures (forall i :: 0 <= i < 48 ==> IsAlnum(Digest(h, r)[i])) ==> ValidId(ApprovalId(h, r))
  {
    var a, b := Digest(h, r)[..48], Digest(h, q)[..48];
    assert a == ApprovalId(h, r)[|APPROVAL_PREFIX|..] && b == ApprovalId(h, q)[|APPROVAL_PREFIX|..];
    if forall i :: 0 <= i < 48 ==> IsAlnum(Digest(h, r)[i]) {
      PrefixedIdValid(a);
    }
  }

  lemma PrefixedIdValid(digits: string)
    requires |digits| == 48 && forall i :: 0 <= i < 48 ==> IsAlnum(digits[i])
    ensures ValidId(APPROVAL_PREFIX + digits)
  {
    assert forall i :: 0 <= i < |APPROVAL_PREFIX| ==> IsIdChar(APPROVAL_PREFIX[i]);
  }

  /** Main result: the approval fingerprint binds every field of the request, and so
      determines the fingerprint of its run. */
  lemma FingerprintBindsRequest(h: Hashes, r: Request, q: Request)
    requires Ideal(h) && Fingerprint(h, r) == Fingerprint(h, q)
    ensures r.prompt == q.prompt && PayloadOf(h, r) == PayloadOf(h, q)
    ensures RunFingerprint(h, r) == RunFingerprint(h, q)
    ensures ApprovalId(h, r) == ApprovalId(h, q)
  {
    assert Digest(h, r) == Digest(h, q);
    assert Runs.RunPayloadOf(r.prompt, r.session, r.agent, r.subagents, r.orchestration)
        == Runs.RunPayloadOf(q.prompt, q.session, q.agent, q.subagents, q.orchestration);
  }

  // ---- what the gate does with a record ----

  function NewRow(h: Hashes, r: Request, principal: Option<string>, issued: int, created: int): Row {
    Row(r.action, Some(Resource(h, r)), Some(Fingerprint(h, r)), principal, Requested,
        At(issued + PROMPT_APPROVAL_TTL, true), created, None, None)
  }

  /** `_is_expired`: an unreadable expiry counts as past, a missing zone as UTC. */
  predicate Past(e: Expiry, now: int) {
    match e
    case Never => false
    case Garbled => true
    case At(time, _) => time <= now
  }

  datatype Judgement = Block(decision: string) | DoExpire | DoConsume | DoLookUp

  function Judge(h: Hashes, r: Request, row: Row, now: int): Judgement {
    if row.action != r.action || row.resource != Some(Resource(h, r)) then Block("stale")
    else if row.fingerprint != Some(Fingerprint(h, r)) then Block("stale")
    else if Past(row.expiresAt, now) then
      if row.decision == Requested then DoExpire else Block("expired")
    else match row.decision
      case Requested => Block("requested")
      case Approved => DoConsume
      case Consumed => DoLookUp
      case Rejected => Block("rejected")
      case Expired => Block("expired")
      case Stale => Block("stale")
  }

  /** `_existing_execution_matches`. */
  predicate ExecutionMatches(h: Hashes, r: Request, mappings: Runs.Table) {
    && r.clientId.Some? && Runs.ValidId(r.clientId.value)
    && r.clientId.value in mappings && mappings[r.clientId.value].fingerprint == RunFingerprint(h, r)
  }

  datatype Outcome = Admit(idempotent: bool) | Blocked(decision: string) | Raised

  function Consumption(h: Hashes, r: Request, now: int): Op {
    Consuming(ApprovalId(h, r), Some(Fingerprint(h, r)), true, Some(r.action), now)
  }

  /** The gate run without interruption; `clock` gives its successive readings. */
  function GateAlone(h: Hashes, t: Table, mappings: Runs.Table, r: Request, principal: Option<string>,
                     clock: nat -> int)
    : (Table, Outcome)
  {
    var id := ApprovalId(h, r);
    var found := Lookup(t, id);
    if found == Err(InvalidId) then (t, Raised)
    else
      var (t1, row) := if found.Ok? then (t, found) else CreateTx(t, id, NewRow(h, r, principal, clock(0), clock(1)));
      if row.Err? then (t1, Blocked("error"))
      else
        match Judge(h, r, row.value, clock(2))
        case Block(decision) => (t1, Blocked(decision))
        case DoExpire => (ExpireTx(t1, id, clock(3)).0, Blocked("expired"))
        case DoConsume =>
          var (t2, reply) := Apply(t1, Consumption(h, r, clock(3)));
          (t2, if reply.Ok? then Admit(false)
               else if reply.error == NotFound || reply.error == InvalidId then Raised
               else Blocked("blocked"))
        case DoLookUp =>
          (t1, if ExecutionMatches(h, r, mappings) then Admit(true) else Blocked("consumed"))
  }

  /** `resolve_required_prompt_approval`, step by step on the registries. */
  method ResolveRequiredPromptApproval(h: Hashes, approvals: ApprovalRegistry, runs: Runs.Registry, r: Request,
                                       principal: Option<string>, clock: nat -> int) returns (o: Outcome)
    modifies approvals
    ensures (approvals.rows, o) == GateAlone(h, old(approvals.rows), runs.rows, r, principal, clock)
  {
    var id := ApprovalId(h, r);
    var found := Lookup(approvals.rows, id);
    if found.Err? {
      if found.error == InvalidId { return Raised; }
      found := approvals.Create(id, NewRow(h, r, principal, clock(0), clock(1)));
      if found.Err? { return Blocked("error"); }
    }
    match Judge(h, r, found.value, clock(2)) {
      case Block(decision) => return Blocked(decision);
      case DoExpire =>
        var ignored := approvals.Expire(id, clock(3));
        return Blocked("expired");
      case DoConsume =>
        var reply := approvals.Consume(id, Some(Fingerprint(h, r)), true, Some(r.action), clock(3));
        if reply.Ok? { return Admit(false); }
        if reply.error == NotFound || reply.error == InvalidId { return Raised; }
        return Blocked("blocked");
      case DoLookUp =>
        return if ExecutionMatches(h, r, runs.rows) then Admit(true) else Blocked("consumed");
    }
  }

  ghost predicate BoundTo(h: Hashes, r: Request, row: Row) {
    row.action == r.action && row.resource == Some(Resource(h, r)) && row.fingerprint == Some(Fingerprint(h, r))
  }

  /** Main result, exact: run without interruption the gate admits a request exactly
      when its record is bound to it, unexpired, and either approved and consumable
      or consumed with its execution on record; and admitting afresh consumes it. */
  lemma GateExact(h: Hashes, t: Table, mappings: Runs.Table, r: Request, principal: Option<string>, clock: nat -> int)
    ensures var id := ApprovalId(h, r);
            var (t', o) := GateAlone(h, t, mappings, r, principal, clock);
      && (o == Admit(false) <==>
            && ValidId(id) && id in t && BoundTo(h, r, t[id]) && !Past(t[id].expiresAt, clock(2))
            && Consumable(t, id, Some(Fingerprint(h, r)), true, Some(r.action), clock(3)))
      && (o == Admit(true) <==>
            && ValidId(id) && id in t && BoundTo(h, r, t[id]) && !Past(t[id].expiresAt, clock(2))
            && t[id].decision == Consumed && ExecutionMatches(h, r, mappings))
      && (o == Admit(false) ==> t' == t[id := t[id].(decision := Consumed, consumedAt := Some(clock(3)))])
      && (o == Admit(true) ==> t' == t)
      && (o == Raised <==> !ValidId(id))
  {
    var id := ApprovalId(h, r);
    ConsumeExact(t, id, Some(Fingerprint(h, r)), true, Some(r.action), clock(3));
  }

  /** Alive: no expiry, or one that can be read and is not reached. */
  predicate Alive(e: Expiry, now: int) { e.Never? || (e.At? && now < e.time) }

  /** Main result, the refusals: what an existing record that does not admit the request
      is blocked as, and what is left of it. Only a lapsed request, which expires, and a
      lapse between two readings of the clock change the table. */
  lemma GateBlocks(h: Hashes, t: Table, mappings: Runs.Table, r: Request, principal: Option<string>, clock: nat -> int)
    requires ValidId(ApprovalId(h, r)) && ApprovalId(h, r) in t
    ensures var row := t[ApprovalId(h, r)];
            var (t', o) := GateAlone(h, t, mappings, r, principal, clock);
      && (o == Blocked("stale") <==> !BoundTo(h, r, row) || (Alive(row.expiresAt, clock(2)) && row.decision == Stale))
      && (o == Blocked("expired") <==>
            BoundTo(h, r, row) && (!Alive(row.expiresAt, clock(2)) || row.decision == Expired))
      && (o == Blocked("requested") <==>
            BoundTo(h, r, row) && Alive(row.expiresAt, clock(2)) && row.decision == Requested)
      && (o == Blocked("rejected") <==>
            BoundTo(h, r, row) && Alive(row.expiresAt, clock(2)) && row.decision == Rejected)
      && (o == Blocked("consumed") <==>
            BoundTo(h, r, row) && Alive(row.expiresAt, clock(2)) && row.decision == Consumed
            && !ExecutionMatches(h, r, mappings))
      && (o == Blocked("blocked") <==>
            BoundTo(h, r, row) && Alive(row.expiresAt, clock(2)) && row.decision == Approved
            && !Consumable(t, ApprovalId(h, r), Some(Fingerprint(h, r)), true, Some(r.action), clock(3)))
  {
    ConsumeExact(t, ApprovalId(h, r), Some(Fingerprint(h, r)), true, Some(r.action), clock(3));
  }

  lemma GateLeaves(h: Hashes, t: Table, mappings: Runs.Table, r: Request, principal: Option<string>, clock: nat -> int)
    requires ValidId(ApprovalId(h, r)) && ApprovalId(h, r) in t
    ensures var id, row := ApprovalId(h, r), t[ApprovalId(h, r)];
            var (t', o) := GateAlone(h, t, mappings, r, principal, clock);
      && (BoundTo(h, r, row) && !Alive(row.expiresAt, clock(2)) && row.decision == Requested ==>
            o == Blocked("expired") && t' == t[id := row.(decision := Expired, decidedAt := Some(clock(3)))])
      && (o.Blocked? && row.decision != Requested && row.decision != Approved ==> t' == t)
      && (o == Blocked("requested") || o == Blocked("stale") ==> t' == t)
  {
    ExpireExact(t, ApprovalId(h, r), clock(3));
  }

  /** The record a first call leaves, and its expiry. */
  function Issued(h: Hashes, r: Request, principal: Option<string>, clock: nat -> int): Row {
    NewRow(h, r, principal, clock(0), clock(1))
  }

  /** A first call asks for approval and is blocked. */
  lemma FirstCallAsks(h: Hashes, t: Table, mappings: Runs.Table, r: Request, principal: Option<string>,
                      clock: nat -> int)
    requires ValidId(ApprovalId(h, r)) && ApprovalId(h, r) !in t && clock(2) < clock(0) + PROMPT_APPROVAL_TTL
    ensures GateAlone(h, t, mappings, r, principal, clock)
         == (t[ApprovalId(h, r) := Issued(h, r, principal, clock)], Blocked("requested"))
    ensures var row := Issued(h, r, principal, clock);
      && BoundTo(h, r, row) && row.principal == principal && row.decision == Requested && row.decidedAt.None?
      && row.consumedAt.None? && row.createdAt == clock(1) && row.expiresAt == At(clock(0) + 900_000_000, true)
  {
  }

  /** Main result, the whole handoff: a first call asks; the answer is accepted
      exactly before the expiry; an approved request is then let through afresh
      exactly between creation and expiry; and after that only as a repeat of the
      execution on record, and only before the expiry. */
  lemma HandoffCompletes(h: Hashes, t: Table, mappings: Runs.Table, later: Runs.Table, r: Request,
                         principal: Option<string>, responder: Option<string>, now: int, check: int,
                         first: nat -> int, second: nat -> int, third: nat -> int)
    requires ValidId(ApprovalId(h, r)) && ApprovalId(h, r) !in t && Fingerprint(h, r) != ""
    requires first(2) < first(0) + PROMPT_APPROVAL_TTL
    ensures var id, expiry := ApprovalId(h, r), first(0) + PROMPT_APPROVAL_TTL;
            var (t1, o1) := GateAlone(h, t, mappings, r, principal, first);
            var (t2, reply) := RespondTx(t1, id, Approved, responder, now, check);
            var (t3, o3) := GateAlone(h, t2, mappings, r, principal, second);
            var (t4, o4) := GateAlone(h, t3, later, r, principal, third);
      && o1 == Blocked("requested")
      && (reply.Ok? <==> check < expiry)
      && (reply.Ok? ==> (o3 == Admit(false) <==> second(2) < expiry && first(1) <= second(3) < expiry))
      && (reply.Ok? && o3 == Admit(false) ==>
            && o4 != Admit(false)
            && (o4 == Admit(true) <==> third(2) < expiry && ExecutionMatches(h, r, later)))
  {
    var id := ApprovalId(h, r);
    FirstCallAsks(h, t, mappings, r, principal, first);
    var t1 := t[id := Issued(h, r, principal, first)];
    var (t2, reply) := RespondTx(t1, id, Approved, responder, now, check);
    if reply.Ok? {
      GateExact(h, t2, mappings, r, principal, second);
      GateExact(h, GateAlone(h, t2, mappings, r, principal, second).0, later, r, principal, third);
    }
  }
}
