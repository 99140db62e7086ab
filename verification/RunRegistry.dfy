/** The registry that maps a client request id to its upstream run, and the
    fingerprint that says which requests are the same run
    (src/hermes_mcp_bridge/registry.py). */
module RunRegistry {
  import opened Wrappers
  import opened Sorting
  import opened Texts
  import Approvals

  /** A mapping row. Upstream names runs; here they are numbered. */
  datatype Mapping = Mapping(
    fingerprint: string, execution: nat, session: Option<string>, status: string, createdAt: int, updatedAt: int)

  type Table = map<string, Mapping>

  datatype Refusal = InvalidId | FingerprintConflict

  /** The client request id pattern is the approval id pattern. */
  predicate ValidId(id: string) { Approvals.ValidId(id) }

  // ---- the operations as transactions ----

  function GetTx(t: Table, id: string): Result<Option<Mapping>, Refusal> {
    if !ValidId(id) then Err(InvalidId) else if id in t then Ok(Some(t[id])) else Ok(None)
  }

  /** A write of a finished submission. */
  datatype Write = Write(id: string, fingerprint: string, execution: nat, session: Option<string>, status: string)

  /** `record`: an existing row of the same fingerprint is only touched. */
  function RecordTx(t: Table, w: Write, now: int): (Table, Result<Mapping, Refusal>) {
    if !ValidId(w.id) then (t, Err(InvalidId))
    else if w.id in t && t[w.id].fingerprint != w.fingerprint then (t, Err(FingerprintConflict))
    else
      var row := if w.id in t then t[w.id].(updatedAt := now)
                 else Mapping(w.fingerprint, w.execution, w.session, w.status, now, now);
      (t[w.id := row], Ok(row))
  }

  function UpdateStatusTx(t: Table, id: string, status: string, execution: Option<nat>, now: int)
    : (Table, Result<Option<Mapping>, Refusal>)
  {
    if !ValidId(id) then (t, Err(InvalidId))
    else if id !in t then (t, Ok(None))
    else
      var row := t[id].(status := status, updatedAt := now,
                        execution := if execution.Some? then execution.value else t[id].execution);
      (t[id := row], Ok(Some(row)))
  }

  // ---- the code ----

  class Registry {
    var rows: Table

    constructor ()
      ensures rows == map[]
    {
      rows := map[];
    }

    method Record(w: Write, now: int) returns (r: Result<Mapping, Refusal>)
      modifies this
      ensures (rows, r) == RecordTx(old(rows), w, now)
    {
      if !ValidId(w.id) { return Err(InvalidId); }
      if w.id in rows {
        if rows[w.id].fingerprint != w.fingerprint { return Err(FingerprintConflict); }
        rows := rows[w.id := rows[w.id].(updatedAt := now)];
      } else {
        rows := rows[w.id := Mapping(w.fingerprint, w.execution, w.session, w.status, now, now)];
      }
      r := Ok(rows[w.id]);
    }

    method UpdateStatus(id: string, status: string, execution: Option<nat>, now: int)
        returns (r: Result<Option<Mapping>, Refusal>)
      modifies this
      ensures (rows, r) == UpdateStatusTx(old(rows), id, status, execution, now)
    {
      if !ValidId(id) { return Err(InvalidId); }
      if id !in rows { return Ok(None); }
      if execution.None? {
        rows := rows[id := rows[id].(status := status, updatedAt := now)];
      } else {
        rows := rows[id := rows[id].(status := status, execution := execution.value, updatedAt := now)];
      }
      r := Ok(Some(rows[id]));
    }
  }

  // ---- what every operation keeps ----

  /** Rows never vanish and never change fingerprint. */
  ghost predicate Keeps(t: Table, t': Table) {
    forall id :: id in t ==> id in t' && t'[id].fingerprint == t[id].fingerprint
  }

  lemma OperationsKeep(t: Table, w: Write, id: string, status: string, execution: Option<nat>, now: int)
    ensures Keeps(t, RecordTx(t, w, now).0)
    ensures Keeps(t, UpdateStatusTx(t, id, status, execution, now).0)
    ensures forall k :: k in t ==> RecordTx(t, w, now).0[k].execution == t[k].execution
  {
  }

  /** A write is taken exactly under a valid identifier that is free or has the same
      fingerprint; a free one gets all that was written, another is only touched. */
  lemma RecordExact(t: Table, w: Write, now: int)
    ensures var (t', r) := RecordTx(t, w, now);
      && (r.Ok? <==> ValidId(w.id) && (w.id in t ==> t[w.id].fingerprint == w.fingerprint))
      && (r.Err? ==> t' == t && r.error == if ValidId(w.id) then FingerprintConflict else InvalidId)
      && (r.Ok? ==> w.id in t' && r.value == t'[w.id] && t'[w.id].updatedAt == now)
      && (forall id :: id != w.id ==> (id in t' <==> id in t) && (id in t ==> t'[id] == t[id]))
      && (r.Ok? && w.id !in t ==>
            && t'[w.id].fingerprint == w.fingerprint && t'[w.id].execution == w.execution
            && t'[w.id].session == w.session && t'[w.id].status == w.status && t'[w.id].createdAt == now)
      && (r.Ok? && w.id in t ==> SameButTime(t[w.id], t'[w.id]))
  {
  }

  predicate SameButTime(a: Mapping, b: Mapping) {
    && a.fingerprint == b.fingerprint && a.execution == b.execution && a.session == b.session
    && a.status == b.status && a.createdAt == b.createdAt
  }

  /** An update stores the status, the time and the execution if one is given, in a row
      that is there, and keeps the rest. */
  lemma UpdateExact(t: Table, id: string, status: string, execution: Option<nat>, now: int)
    ensures var (t', r) := UpdateStatusTx(t, id, status, execution, now);
      && (r.Err? <==> !ValidId(id)) && (r.Err? ==> r.error == InvalidId)
      && (r == Ok(None) <==> ValidId(id) && id !in t)
      && (r.Err? || r == Ok(None) ==> t' == t)
      && (forall other :: other != id ==> (other in t' <==> other in t) && (other in t ==> t'[other] == t[other]))
      && (ValidId(id) && id in t ==>
            && r == Ok(Some(t'[id])) && t'[id].status == status && t'[id].updatedAt == now
            && t'[id].execution == (if execution.Some? then execution.value else t[id].execution)
            && t'[id].fingerprint == t[id].fingerprint && t'[id].session == t[id].session
            && t'[id].createdAt == t[id].createdAt)
  {
  }

  // ---- which requests are the same run ----

  datatype RunPayload = RunPayload(
    prompt: string, session: Option<string>, agent: Option<string>, subagents: seq<string>, orchestration: string)

  /** `"\n".join(lines)`. */
  function JoinNewline(lines: seq<string>): string {
    if lines == [] then "" else if |lines| == 1 then lines[0] else lines[0] + "\n" + JoinNewline(lines[1..])
  }

  function NormalizePrompt(prompt: string): string { JoinNewline(SplitLines(Strip(prompt, IsSpace))) }

  function RunPayloadOf(prompt: string, session: Option<string>, agent: Option<string>,
                        subagents: Option<seq<string>>, orchestration: string): RunPayload {
    RunPayload(NormalizePrompt(prompt), session, agent,
               SortBy(if subagents.Some? then subagents.value else [], Itself), orchestration)
  }

  lemma {:induction false} JoinAppendsBreak(lines: seq<string>)
    requires lines != []
    ensures JoinNewline(lines) + "\n" == JoinLines(lines)
  {
    if |lines| > 1 {
      JoinAppendsBreak(lines[1..]);
    } else {
      assert lines[1..] == [];
      assert JoinLines(lines) == lines[0] + "\n" + JoinLines(lines[1..]);
    }
  }

  /** A line break is white space, so stripped text starts with a line of its own. */
  lemma StrippedFirstLine(a: string)
    requires Strip(a, IsSpace) != ""
    ensures var lines := SplitLines(Strip(a, IsSpace)); lines != [] && lines[0] != ""
  {
    var s := Strip(a, IsSpace);
    StripKeepsEnds(a, IsSpace);
    var n := LineLength(s);
    assert n > 0;
  }

  /** Two prompts are the same prompt exactly when their stripped texts have the same
      lines, whatever the line boundaries used. */
  lemma PromptsNormaliseAlike(a: string, b: string)
    ensures NormalizePrompt(a) == NormalizePrompt(b) <==> SplitLines(Strip(a, IsSpace)) == SplitLines(Strip(b, IsSpace))
  {
    var x, y := SplitLines(Strip(a, IsSpace)), SplitLines(Strip(b, IsSpace));
    if x != [] && y != [] {
      JoinAppendsBreak(x);
      JoinAppendsBreak(y);
      SplitJoin(x);
      SplitJoin(y);
    }
    if Strip(a, IsSpace) != "" { StrippedFirstLine(a); }
    if Strip(b, IsSpace) != "" { StrippedFirstLine(b); }
  }

  function Listed(xs: Option<seq<string>>): seq<string> { if xs.Some? then xs.value else [] }

  /** What the payload of a run forgets, exactly: white space around the prompt, which
      line boundaries it uses, the order of the subagents, and whether there is no list
      of them or an empty one. */
  lemma RunPayloadExact(p: string, s: Option<string>, a: Option<string>, xs: Option<seq<string>>, o: string,
                        p': string, s': Option<string>, a': Option<string>, ys: Option<seq<string>>, o': string)
    ensures RunPayloadOf(p, s, a, xs, o) == RunPayloadOf(p', s', a', ys, o') <==>
            && SplitLines(Strip(p, IsSpace)) == SplitLines(Strip(p', IsSpace))
            && s == s' && a == a' && multiset(Listed(xs)) == multiset(Listed(ys)) && o == o'
  {
    PromptsNormaliseAlike(p, p');
    var us, vs := Listed(xs), Listed(ys);
    if multiset(us) == multiset(vs) { SortByMultiset(us, vs, Itself); }
    assert multiset(SortBy(us, Itself)) == multiset(us) && multiset(SortBy(vs, Itself)) == multiset(vs);
  }
}
