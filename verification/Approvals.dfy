/** The persistent approval registry (src/hermes_mcp_bridge/approvals.py). Each
    operation is one write transaction on the approvals table; it is modelled once
    as a function from table to table and once as the method that updates the
    table, and whole runs are sequences of operations. Times are clock readings. */
module Approvals {
  import opened Wrappers

  datatype Decision = Requested | Approved | Rejected | Expired | Consumed | Stale

  /** The expiry text of a row: absent, unparseable, or a time with or without zone. */
  datatype Expiry = Never | Garbled | At(time: int, zoned: bool)

  datatype Row = Row(
    action: string, resource: Option<string>, fingerprint: Option<string>, principal: Option<string>,
    decision: Decision, expiresAt: Expiry, createdAt: int, decidedAt: Option<int>, consumedAt: Option<int>)

  type Table = map<string, Row>

  datatype Refusal =
    | InvalidId | NotFound | Exists | NotRequested | NotApproved | AlreadyConsumed
    | IsExpired | FutureDated | IsStale | Unreadable

  type Reply = Result<Row, Refusal>

  // ---- identifiers ----

  const ID_MAX_LENGTH := 160

  predicate IsAlnum(c: char) { 'A' <= c <= 'Z' || 'a' <= c <= 'z' || '0' <= c <= '9' }

  predicate IsIdChar(c: char) { IsAlnum(c) || c == '.' || c == '_' || c == ':' || c == '-' }

  /** `re.match(r"^[A-Za-z0-9][A-Za-z0-9._:\-]{0,159}$", id)` with the length bound;
      `$` also matches before a final line feed. */
  predicate ValidId(id: string) {
    && 1 <= |id| <= ID_MAX_LENGTH
    && IsAlnum(id[0])
    && (forall i :: 1 <= i < |id| ==> IsIdChar(id[i]) || (i == |id| - 1 && id[i] == '\n'))
  }

  /** Letters and digits alone make an identifier of any length from 1 to 160. */
  lemma PlainIdExact(id: string)
    requires forall i :: 0 <= i < |id| ==> IsAlnum(id[i])
    ensures ValidId(id) <==> 1 <= |id| <= 160
  {
  }

  /** A mark cannot come first, and one line feed may come last. */
  lemma IdEnds(id: string, c: char)
    requires ValidId(id) && id[|id| - 1] != '\n' && |id| < 160
    ensures ValidId(id + [c]) <==> IsIdChar(c) || c == '\n'
    ensures !IsAlnum(c) ==> !ValidId([c] + id)
  {
    var s := id + [c];
    assert forall i :: 0 <= i < |id| ==> s[i] == id[i];
    if ValidId(s) { assert s[|id|] == c; }
  }

  // ---- the operations as transactions ----

  function Lookup(t: Table, id: string): Reply {
    if !ValidId(id) then Err(InvalidId) else if id !in t then Err(NotFound) else Ok(t[id])
  }

  function CreateTx(t: Table, id: string, row: Row): (Table, Reply) {
    if !ValidId(id) then (t, Err(InvalidId))
    else if id in t then (t, Err(Exists))
    else (t[id := row], Ok(row))
  }

  /** `respond`: `now` dates the decision, `check` is the later reading used for expiry. */
  function RespondTx(t: Table, id: string, decision: Decision, principal: Option<string>, now: int, check: int)
    : (Table, Reply)
  {
    if !ValidId(id) then (t, Err(InvalidId))
    else if id !in t then (t, Err(NotFound))
    else if t[id].decision != Requested then (t, Err(NotRequested))
    else if t[id].expiresAt.Garbled? || (t[id].expiresAt.At? && !t[id].expiresAt.zoned) then (t, Err(Unreadable))
    else if t[id].expiresAt.At? && t[id].expiresAt.time <= check then (t, Err(IsExpired))
    else
      var row := t[id].(decision := decision, decidedAt := Some(now),
                        principal := if principal.Some? then principal else t[id].principal);
      (t[id := row], Ok(row))
  }

  function ConsumeTx(t: Table, id: string, fingerprint: Option<string>, required: bool, action: Option<string>,
                     now: int)
    : (Table, Reply)
  {
    if !ValidId(id) then (t, Err(InvalidId))
    else if id !in t then (t, Err(NotFound))
    else if t[id].decision == Consumed || t[id].consumedAt.Some? then (t, Err(AlreadyConsumed))
    else if t[id].decision == Expired then (t, Err(IsExpired))
    else if t[id].decision != Approved then (t, Err(NotApproved))
    else if t[id].expiresAt.Garbled? then (t, Err(IsExpired))
    else if t[id].expiresAt.At? && t[id].expiresAt.time <= now then
      (t[id := t[id].(decision := Expired, decidedAt := Some(now))], Err(IsExpired))
    else if t[id].createdAt > now then (t, Err(FutureDated))
    else if action.Some? && t[id].action != action.value then (t, Err(IsStale))
    else if required && Absent(fingerprint) then (t, Err(IsStale))
    else if required && Absent(t[id].fingerprint) then (t, Err(IsStale))
    else if fingerprint.Some? && t[id].fingerprint.Some? && fingerprint != t[id].fingerprint then (t, Err(IsStale))
    else if t[id].fingerprint.Some? && fingerprint.None? then (t, Err(IsStale))
    else
      var row := t[id].(decision := Consumed, consumedAt := Some(now));
      (t[id := row], Ok(row))
  }

  /** Falsy: no text, or empty text. */
  predicate Absent(text: Option<string>) { text.None? || text.value == "" }

  function MarkStaleTx(t: Table, id: string, now: int): (Table, Reply) {
    if !ValidId(id) then (t, Err(InvalidId))
    else if id !in t then (t, Err(NotFound))
    else if t[id].decision in {Stale, Consumed, Rejected} then (t, Ok(t[id]))
    else
      var row := t[id].(decision := Stale, decidedAt := Some(now));
      (t[id := row], Ok(row))
  }

  function ExpireTx(t: Table, id: string, now: int): (Table, Reply) {
    if !ValidId(id) then (t, Err(InvalidId))
    else if id !in t then (t, Err(NotFound))
    else if t[id].decision != Requested then (t, Ok(t[id]))
    else
      var row := t[id].(decision := Expired, decidedAt := Some(now));
      (t[id := row], Ok(row))
  }

  // ---- the code ----

  class ApprovalRegistry {
    var rows: Table

    constructor ()
      ensures rows == map[]
    {
      rows := map[];
    }

    method Create(id: string, row: Row) returns (r: Reply)
      modifies this
      ensures (rows, r) == CreateTx(old(rows), id, row)
    {
      if !ValidId(id) { return Err(InvalidId); }
      if id in rows { return Err(Exists); }
      rows := rows[id := row];
      r := Lookup(rows, id);
    }

    method Respond(id: string, decision: Decision, principal: Option<string>, now: int, check: int) returns (r: Reply)
      modifies this
      ensures (rows, r) == RespondTx(old(rows), id, decision, principal, now, check)
    {
      if !ValidId(id) { return Err(InvalidId); }
      if id !in rows { return Err(NotFound); }
      var row := rows[id];
      if row.decision != Requested { return Err(NotRequested); }
      match row.expiresAt {
        case Never =>
        case Garbled => return Err(Unreadable);
        case At(time, zoned) =>
          if !zoned { return Err(Unreadable); }
          if time <= check { return Err(IsExpired); }
      }
      var responder := if principal.Some? then principal else row.principal;
      rows := rows[id := row.(decision := decision, decidedAt := Some(now), principal := responder)];
      r := Lookup(rows, id);
    }

    method Consume(id: string, fingerprint: Option<string>, required: bool, action: Option<string>, now: int)
        returns (r: Reply)
      modifies this
      ensures (rows, r) == ConsumeTx(old(rows), id, fingerprint, required, action, now)
    {
      if !ValidId(id) { return Err(InvalidId); }
      if id !in rows { return Err(NotFound); }
      var row := rows[id];
      if row.decision == Consumed || row.consumedAt.Some? { return Err(AlreadyConsumed); }
      if row.decision == Expired { return Err(IsExpired); }
      if row.decision != Approved { return Err(NotApproved); }
      match row.expiresAt {
        case Never =>
        case Garbled => return Err(IsExpired);
        case At(time, _) =>
          if time <= now {
            rows := rows[id := row.(decision := Expired, decidedAt := Some(now))];
            return Err(IsExpired);
          }
      }
      if row.createdAt > now { return Err(FutureDated); }
      if action.Some? && row.action != action.value { return Err(IsStale); }
      if required && Absent(fingerprint) { return Err(IsStale); }
      if required && Absent(row.fingerprint) { return Err(IsStale); }
      if fingerprint.Some? && row.fingerprint.Some? && fingerprint.value != row.fingerprint.value {
        return Err(IsStale);
      }
      if row.fingerprint.Some? && fingerprint.None? { return Err(IsStale); }
      var changes := 0;
      if row.consumedAt.None? && row.decision == Approved {
        rows := rows[id := row.(consumedAt := Some(now), decision := Consumed)];
        changes := changes + 1;
      }
      if changes == 0 { return Err(AlreadyConsumed); }
      r := Lookup(rows, id);
    }

    method MarkStale(id: string, now: int) returns (r: Reply)
      modifies this
      ensures (rows, r) == MarkStaleTx(old(rows), id, now)
    {
      if !ValidId(id) { return Err(InvalidId); }
      if id !in rows { return Err(NotFound); }
      if rows[id].decision !in {Stale, Consumed, Rejected} {
        rows := rows[id := rows[id].(decision := Stale, decidedAt := Some(now))];
      }
      r := Lookup(rows, id);
    }

    method Expire(id: string, now: int) returns (r: Reply)
      modifies this
      ensures (rows, r) == ExpireTx(old(rows), id, now)
    {
      if !ValidId(id) { return Err(InvalidId); }
      if id !in rows { return Err(NotFound); }
      if rows[id].decision == Requested {
        rows := rows[id := rows[id].(decision := Expired, decidedAt := Some(now))];
      }
      r := Lookup(rows, id);
    }
  }

  // ---- runs ----

  datatype Op =
    | Creating(id: string, row: Row)
    | Responding(id: string, decision: Decision, principal: Option<string>, now: int, check: int)
    | Consuming(id: string, fingerprint: Option<string>, required: bool, action: Option<string>, now: int)
    | MarkingStale(id: string, now: int)
    | Expiring(id: string, now: int)

  function Apply(t: Table, op: Op): (Table, Reply) {
    match op
    case Creating(id, row) => CreateTx(t, id, row)
    case Responding(id, d, p, now, check) => RespondTx(t, id, d, p, now, check)
    case Consuming(id, f, required, a, now) => ConsumeTx(t, id, f, required, a, now)
    case MarkingStale(id, now) => MarkStaleTx(t, id, now)
    case Expiring(id, now) => ExpireTx(t, id, now)
  }

  function Run(ops: seq<Op>): Table {
    if ops == [] then map[] else Apply(Run(ops[..|ops| - 1]), ops[|ops| - 1]).0
  }

  /** Rows are created as requests, never as decided or consumed. */
  predicate Proper(op: Op) {
    op.Creating? ==> op.row.decision == Requested && op.row.consumedAt.None?
  }

  ghost predicate AllProper(ops: seq<Op>) {
    forall i :: 0 <= i < |ops| ==> Proper(ops[i])
  }

  /** Operation `i` of the run was accepted. */
  ghost predicate Accepted(ops: seq<Op>, i: nat)
    requires i < |ops|
  {
    Apply(Run(ops[..i]), ops[i]).1.Ok?
  }

  // ---- what every operation keeps ----

  function Rank(d: Decision): nat {
    match d
    case Requested => 0
    case Approved => 1
    case Expired => 2
    case _ => 3
  }

  /** What may happen to a row over time: its binding and expiry never change, its
      decision is kept or climbs, and a decision of the top rank is final. */
  ghost predicate Climbs(a: Row, b: Row) {
    && a.action == b.action && a.resource == b.resource && a.fingerprint == b.fingerprint
    && a.expiresAt == b.expiresAt && a.createdAt == b.createdAt
    && (a.decision == b.decision || Rank(a.decision) < Rank(b.decision))
    && (Rank(a.decision) == 3 ==> a == b)
  }

  ghost predicate Grows(t: Table, t': Table) {
    forall id :: id in t ==> id in t' && Climbs(t[id], t'[id])
  }

  /** A consumption time is only ever set together with the decision. */
  ghost predicate ConsumedMarked(t: Table) {
    forall id :: id in t && t[id].consumedAt.Some? ==> t[id].decision == Consumed
  }

  /** Main result about one step. */
  lemma StepGrows(t: Table, op: Op)
    requires Proper(op) && ConsumedMarked(t)
    ensures Grows(t, Apply(t, op).0) && ConsumedMarked(Apply(t, op).0)
  {
    RowGrows(t, op);
    assert forall id :: id in t && id != op.id ==> id in Apply(t, op).0 && Apply(t, op).0[id] == t[id];
  }

  /** A step touches its own row only, and that row climbs. */
  lemma RowGrows(t: Table, op: Op)
    requires Proper(op) && ConsumedMarked(t)
    ensures var t' := Apply(t, op).0;
      && (t' == t || (op.id in t' && t' == t[op.id := t'[op.id]]))
      && (op.id in t ==> op.id in t' && Climbs(t[op.id], t'[op.id]))
      && (op.id in t' && t'[op.id].consumedAt.Some? ==> t'[op.id].decision == Consumed)
  {
  }

  lemma GrowsTransitive(a: Table, b: Table, c: Table)
    requires Grows(a, b) && Grows(b, c)
    ensures Grows(a, c)
  {
    forall id | id in a ensures id in c && Climbs(a[id], c[id]) {
      assert Climbs(a[id], b[id]) && Climbs(b[id], c[id]);
    }
  }

  lemma RunStep(ops: seq<Op>, i: nat)
    requires i < |ops|
    ensures Run(ops[..i + 1]) == Apply(Run(ops[..i]), ops[i]).0
  {
    assert ops[..i + 1][..i] == ops[..i];
  }

  lemma {:induction false} RunMarked(ops: seq<Op>)
    requires AllProper(ops)
    ensures ConsumedMarked(Run(ops))
  {
    if ops != [] {
      RunMarked(ops[..|ops| - 1]);
      StepGrows(Run(ops[..|ops| - 1]), ops[|ops| - 1]);
    }
  }

  /** Rows climb at every operation of a run. */
  lemma OperationGrows(ops: seq<Op>, j: nat)
    requires AllProper(ops) && j < |ops|
    ensures Grows(Run(ops[..j]), Run(ops[..j + 1]))
  {
    assert AllProper(ops[..j]);
    RunMarked(ops[..j]);
    RunStep(ops, j);
    StepGrows(Run(ops[..j]), ops[j]);
  }

  lemma GrowsOn(ops: seq<Op>, t: Table, j: nat)
    requires AllProper(ops) && 0 < j <= |ops| && Grows(t, Run(ops[..j - 1]))
    ensures Grows(t, Run(ops[..j]))
  {
    OperationGrows(ops, j - 1);
    GrowsTransitive(t, Run(ops[..j - 1]), Run(ops[..j]));
  }

  /** Main result: between any two moments of any run, rows only climb. */
  lemma {:induction false} RunGrows(ops: seq<Op>, i: nat, j: nat)
    requires AllProper(ops) && i <= j <= |ops|
    ensures Grows(Run(ops[..i]), Run(ops[..j]))
    decreases j - i
  {
    if i < j {
      RunGrows(ops, i, j - 1);
      GrowsOn(ops, Run(ops[..i]), j);
    }
  }

  lemma ConsumedStays(ops: seq<Op>, i: nat, j: nat)
    requires AllProper(ops) && i < j <= |ops| && ops[i].Consuming? && Accepted(ops, i)
    ensures ops[i].id in Run(ops[..j]) && Run(ops[..j])[ops[i].id].decision == Consumed
  {
    RunStep(ops, i);
    RunGrows(ops, i + 1, j);
  }

  /** Main result: over any run an approval is consumed at most once. */
  lemma ConsumedOnce(ops: seq<Op>, i: nat, j: nat)
    requires AllProper(ops) && i < |ops| && j < |ops|
    requires ops[i].Consuming? && ops[j].Consuming? && ops[i].id == ops[j].id
    requires Accepted(ops, i) && Accepted(ops, j)
    ensures i == j
  {
    if i < j { ConsumedStays(ops, i, j); }
    if j < i { ConsumedStays(ops, j, i); }
  }

  /** An approval was put there by an accepted response. */
  ghost predicate ApprovedBy(ops: seq<Op>, id: string, k: nat) {
    k < |ops| && ops[k].Responding? && ops[k].id == id && ops[k].decision == Approved && Accepted(ops, k)
  }

  lemma {:induction false} ApprovedFollowsResponse(ops: seq<Op>, id: string) returns (k: nat)
    requires AllProper(ops)
    requires id in Run(ops) && Run(ops)[id].decision == Approved
    ensures ApprovedBy(ops, id, k)
  {
    var last := |ops| - 1;
    var before, op := Run(ops[..last]), ops[last];
    if id in before && before[id].decision == Approved {
      k := ApprovedFollowsResponse(ops[..last], id);
      assert ops[..last][..k] == ops[..k];
    } else {
      k := last;
    }
  }

  /** Exactly when a consumption succeeds. */
  ghost predicate Consumable(t: Table, id: string, fingerprint: Option<string>, required: bool, action: Option<string>,
                             now: int)
  {
    && ValidId(id) && id in t
    && t[id].decision == Approved && t[id].consumedAt.None?
    && (t[id].expiresAt.Never? || (t[id].expiresAt.At? && now < t[id].expiresAt.time))
    && t[id].createdAt <= now
    && (action.Some? ==> action.value == t[id].action)
    && (required ==> !Absent(fingerprint))
    && (if t[id].fingerprint.Some? then fingerprint == t[id].fingerprint else !required)
  }

  /** Main result: consumption is exact, sets the row consumed, and when refused
      changes nothing but a lapsed approval's decision. */
  lemma ConsumeExact(t: Table, id: string, fingerprint: Option<string>, required: bool, action: Option<string>,
                     now: int)
    ensures var (t', r) := ConsumeTx(t, id, fingerprint, required, action, now);
      && (r.Ok? <==> Consumable(t, id, fingerprint, required, action, now))
      && (r.Ok? ==> t' == t[id := t[id].(decision := Consumed, consumedAt := Some(now))])
      && (r.Err? && t' != t ==>
            && r.error == IsExpired && id in t && t[id].decision == Approved
            && t[id].expiresAt.At? && t[id].expiresAt.time <= now
            && t' == t[id := t[id].(decision := Expired, decidedAt := Some(now))])
  {
  }

  /** A record is added exactly under a valid, free identifier, as it was given. */
  lemma CreateExact(t: Table, id: string, row: Row)
    ensures var (t', r) := CreateTx(t, id, row);
      && (r.Ok? <==> ValidId(id) && id !in t)
      && (r.Ok? ==> id in t' && t'[id] == row && r.value == row)
      && (r.Err? ==> t' == t && r.error == if ValidId(id) then Exists else InvalidId)
      && (forall other :: other != id ==> (other in t' <==> other in t) && (other in t ==> t'[other] == t[other]))
  {
  }

  /** What every operation but creation refuses without looking further. */
  predicate Missing(t: Table, id: string, r: Reply) {
    if !ValidId(id) then r == Err(InvalidId) else id !in t && r == Err(NotFound)
  }

  /** A pending record expires and keeps everything else; a decided one is returned as it
      is; nothing but the record changes. */
  lemma ExpireExact(t: Table, id: string, now: int)
    ensures var (t', r) := ExpireTx(t, id, now);
      if !ValidId(id) || id !in t then t' == t && Missing(t, id, r)
      else
        && r == Ok(t'[id]) && t'.Keys == t.Keys && (forall other :: other in t && other != id ==> t'[other] == t[other])
        && (t[id].decision != Requested ==> t' == t)
        && (t[id].decision == Requested ==>
              && t'[id].decision == Expired && t'[id].decidedAt == Some(now) && t'[id].consumedAt == t[id].consumedAt
              && t'[id].principal == t[id].principal && Climbs(t[id], t'[id]))
  {
  }

  /** A record not yet at the end of its life becomes stale; any other is returned as it
      is; nothing but the record changes. */
  lemma MarkStaleExact(t: Table, id: string, now: int)
    ensures var (t', r) := MarkStaleTx(t, id, now);
      if !ValidId(id) || id !in t then t' == t && Missing(t, id, r)
      else
        && r == Ok(t'[id]) && t'.Keys == t.Keys && (forall other :: other in t && other != id ==> t'[other] == t[other])
        && (Rank(t[id].decision) == 3 ==> t' == t)
        && (Rank(t[id].decision) < 3 ==>
              && t'[id].decision == Stale && t'[id].decidedAt == Some(now) && t'[id].consumedAt == t[id].consumedAt
              && t'[id].principal == t[id].principal && Climbs(t[id], t'[id]))
  {
  }

  /** Why a consumption is refused: a spent record before anything else, then a lapsed
      one, then one not approved, then one from the future, and else a binding that does
      not match. */
  lemma ConsumeRefusals(t: Table, id: string, fingerprint: Option<string>, required: bool, action: Option<string>,
                        now: int)
    requires ValidId(id) && id in t && ConsumedMarked(t)
    ensures var r := ConsumeTx(t, id, fingerprint, required, action, now).1;
            var row := t[id];
            var late := row.expiresAt.Garbled? || (row.expiresAt.At? && row.expiresAt.time <= now);
      && (r == Err(AlreadyConsumed) <==> row.decision == Consumed)
      && (r == Err(IsExpired) <==> row.decision == Expired || (row.decision == Approved && late))
      && (r == Err(NotApproved) <==> row.decision in {Requested, Rejected, Stale})
      && (r == Err(FutureDated) <==> row.decision == Approved && !late && now < row.createdAt)
      && (r == Err(IsStale) <==>
            row.decision == Approved && !late && row.createdAt <= now
            && !Consumable(t, id, fingerprint, required, action, now))
  {
  }

  /** Why a response is refused. */
  lemma RespondRefusals(t: Table, id: string, d: Decision, principal: Option<string>, now: int, check: int)
    requires ValidId(id) && id in t
    ensures var r, row := RespondTx(t, id, d, principal, now, check).1, t[id];
      && (r == Err(NotRequested) <==> row.decision != Requested)
      && (r == Err(Unreadable) <==>
            row.decision == Requested && (row.expiresAt.Garbled? || (row.expiresAt.At? && !row.expiresAt.zoned)))
      && (r == Err(IsExpired) <==>
            row.decision == Requested && row.expiresAt.At? && row.expiresAt.zoned && row.expiresAt.time <= check)
  {
  }

  /** A response is accepted exactly for a pending, readable, unexpired record; it
      sets the decision and nothing of the binding; refused, it changes nothing. */
  lemma RespondExact(t: Table, id: string, d: Decision, principal: Option<string>, now: int, check: int)
    ensures var (t', r) := RespondTx(t, id, d, principal, now, check);
      && (r.Ok? <==> ValidId(id) && id in t && t[id].decision == Requested
                     && (t[id].expiresAt.Never?
                         || (t[id].expiresAt.At? && t[id].expiresAt.zoned && check < t[id].expiresAt.time)))
      && (r.Ok? ==> t' == t[id := t'[id]] && t'[id].decision == d && t'[id].decidedAt == Some(now)
                    && t'[id].consumedAt == t[id].consumedAt && t'[id].fingerprint == t[id].fingerprint
                    && t'[id].principal == (if principal.Some? then principal else t[id].principal)
                    && t'[id].action == t[id].action && t'[id].resource == t[id].resource
                    && t'[id].expiresAt == t[id].expiresAt && t'[id].createdAt == t[id].createdAt
                    && r.value == t'[id])
      && (r.Err? ==> t' == t)
  {
  }

  /** Main result: a consumption follows an approving response and precedes expiry. */
  lemma ConsumptionAuthorised(ops: seq<Op>, i: nat) returns (k: nat)
    requires AllProper(ops) && i < |ops| && ops[i].Consuming? && Accepted(ops, i)
    ensures k < i && ApprovedBy(ops, ops[i].id, k)
    ensures var row := Run(ops[..i])[ops[i].id];
            row.expiresAt.Never? || (row.expiresAt.At? && ops[i].now < row.expiresAt.time)
  {
    assert AllProper(ops[..i]);
    k := ApprovedFollowsResponse(ops[..i], ops[i].id);
    assert ops[..i][..k] == ops[..k];
  }
}
