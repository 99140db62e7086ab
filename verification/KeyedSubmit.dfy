/** `hermes_submit` past admission as code, other calls apart but with its shielded
    cancellation (src/hermes_mcp_bridge/server.py), and that the bridge's steps are
    that code. */
module KeyedSubmit {
  import opened Wrappers
  import opened Gate
  import opened Bridge
  import Runs = RunRegistry

  /** What the outside does: whether the submission returns a run, whether the registry
      can be written (a failed write only leaves a warning) and when, and whether the
      call is cancelled while it writes; the shielded write then goes on behind it, to
      succeed at `behind` or not, and the call writes once more. */
  datatype World = World(answers: bool, writes: bool, now: int, cancelled: bool, behind: Option<int>)

  /** The mapping write, which shields its first attempt against one cancellation. */
  function PersistAlone(t: Runs.Table, write: Runs.Write, w: World): (Runs.Table, End) {
    var before := if w.cancelled && w.behind.Some? then Runs.RecordTx(t, write, w.behind.value).0 else t;
    var normally := if w.cancelled then Stopped else Ran(write.execution);
    if !w.writes then (before, normally)
    else
      var (after, reply) := Runs.RecordTx(before, write, w.now);
      (after, if reply.Ok? then normally else Failed)
  }

  function RecordAlone(h: Hashes, t: Runs.Table, created: nat, r: Request, w: World): (Runs.Table, nat, End) {
    if !w.answers then (t, created, Failed)
    else if r.clientId.None? then (t, created + 1, Ran(created))
    else
      var (t', end) := PersistAlone(t, Runs.Write(r.clientId.value, RunFingerprint(h, r), created, r.session, ""), w);
      (t', created + 1, end)
  }

  function SubmitAlone(h: Hashes, t: Runs.Table, created: nat, r: Request, w: World): (Runs.Table, nat, End) {
    if r.clientId.None? then RecordAlone(h, t, created, r, w)
    else
      match Runs.GetTx(t, r.clientId.value)
      case Err(_) => (t, created, Failed)
      case Ok(None) => RecordAlone(h, t, created, r, w)
      case Ok(Some(m)) =>
        (t, created, if m.fingerprint != RunFingerprint(h, r) then Mismatch else Recovered(m.execution))
  }

  class Server {
    const registry: Runs.Registry
    var created: nat

    constructor (registry: Runs.Registry)
      ensures this.registry == registry && created == 0
    {
      this.registry := registry;
      created := 0;
    }

    method SubmitAndRecord(h: Hashes, r: Request, w: World) returns (end: End)
      modifies this, registry
      ensures (registry.rows, created, end) == RecordAlone(h, old(registry.rows), old(created), r, w)
    {
      if !w.answers { return Failed; }
      var run := created;
      created := created + 1;
      if r.clientId.None? { return Ran(run); }
      var write := Runs.Write(r.clientId.value, RunFingerprint(h, r), run, r.session, "");
      var normally := Ran(run);
      if w.cancelled {
        normally := Stopped;
        if w.behind.Some? {
          var unseen := registry.Record(write, w.behind.value);
        }
      }
      if !w.writes { return normally; }
      var reply := registry.Record(write, w.now);
      end := if reply.Ok? then normally else Failed;
    }

    method HermesSubmit(h: Hashes, r: Request, w: World) returns (end: End)
      modifies this, registry
      ensures (registry.rows, created, end) == SubmitAlone(h, old(registry.rows), old(created), r, w)
    {
      if r.clientId.Some? {
        match Runs.GetTx(registry.rows, r.clientId.value) {
          case Err(_) => return Failed;
          case Ok(Some(m)) => return if m.fingerprint != RunFingerprint(h, r) then Mismatch else Recovered(m.execution);
          case Ok(None) =>
        }
      }
      end := SubmitAndRecord(h, r, w);
    }
  }

  // ---- the steps ----

  /** From a returned run on: the mapping write, interrupted or not. */
  function Persisting(h: Hashes, s: State, c: nat, write: Runs.Write, w: World): State {
    var writing :=
      if !w.cancelled then s
      else
        var shielded := Step(h, s, Cancels(c));
        if w.behind.Some? then Step(h, shielded, Background(write, w.behind.value)) else shielded;
    if w.writes then Step(h, writing, Stores(c, w.now)) else Step(h, writing, StoreFails(c))
  }

  function Recording(h: Hashes, s: State, c: nat, w: World): State
    requires c in s.callers
  {
    var k := s.callers[c];
    if !w.answers then Step(h, s, PostFails(c))
    else
      var returned := Step(h, Step(h, s, PostCreates(c)), PostReturns(c));
      if k.request.clientId.None? then returned else Persisting(h, returned, c, WriteOf(h, k, |s.runs|), w)
  }

  function Submitting(h: Hashes, s: State, c: nat, w: World): State {
    var found := Step(h, Step(h, s, Locks(c)), Finds(c));
    if c in found.callers && found.callers[c].pc.Posting? then Recording(h, found, c, w) else found
  }

  /** The call has ended as the code says, holding nothing. */
  ghost predicate EndsWith(s: State, c: nat, t: Runs.Table, created: nat, end: End) {
    && c in s.callers && s.callers[c].pc == Done(end) && s.mappings == t && |s.runs| == created
    && (forall k :: k in s.holder ==> s.holder[k] != c)
  }

  lemma AnsweredSteps(h: Hashes, s: State, c: nat)
    requires c in s.callers && s.callers[c].pc.Posting?
    ensures var s' := Step(h, Step(h, s, PostCreates(c)), PostReturns(c));
            var posted := Move(s, c, Posted(|s.runs|)).(runs := s.runs + [c]);
            s' == ReturnStep(posted, c)
  {
    assert Step(h, s, PostCreates(c)) == Move(s, c, Posted(|s.runs|)).(runs := s.runs + [c]);
  }

  lemma RecordingWithoutKey(h: Hashes, s: State, c: nat, w: World)
    requires c in s.callers && s.callers[c].pc.Posting?
    requires s.callers[c].request.clientId.None?
    ensures var (t, created, end) := RecordAlone(h, s.mappings, |s.runs|, s.callers[c].request, w);
            EndsWith(Recording(h, s, c, w), c, t, created, end)
  {
    if w.answers { AnsweredSteps(h, s, c); }
  }

  lemma StoringSteps(h: Hashes, s: State, c: nat, write: Runs.Write, w: World)
    requires c in s.callers && s.callers[c].request.clientId.Some? && !w.cancelled
    requires s.callers[c].pc.Storing? && write == WriteOf(h, s.callers[c], s.callers[c].pc.run)
    ensures var (t, end) := PersistAlone(s.mappings, write, w);
            EndsWith(Persisting(h, s, c, write, w), c, t, |s.runs|, end)
  {
  }

  /** The steps of a cancelled write: the shielded attempt, then the second one. */
  lemma ShieldedSteps(h: Hashes, s: State, c: nat, write: Runs.Write, w: World)
    requires c in s.callers && s.callers[c].request.clientId.Some? && s.callers[c].tool.SubmitTool? && w.cancelled
    requires s.callers[c].pc.Storing? && write == WriteOf(h, s.callers[c], s.callers[c].pc.run)
    ensures var (t, end) := PersistAlone(s.mappings, write, w);
            EndsWith(Persisting(h, s, c, write, w), c, t, |s.runs|, end)
  {
    var shielded := Step(h, s, Cancels(c));
    ShieldedWrite(h, s, c, write);
    var writing := if w.behind.Some? then Step(h, shielded, Background(write, w.behind.value)) else shielded;
    if w.behind.Some? { assert writing == shielded.(mappings := Runs.RecordTx(s.mappings, write, w.behind.value).0); }
    SecondWrite(h, writing, c, write, w);
  }

  lemma ShieldedWrite(h: Hashes, s: State, c: nat, write: Runs.Write)
    requires c in s.callers && s.callers[c].request.clientId.Some? && s.callers[c].tool.SubmitTool?
    requires s.callers[c].pc.Storing? && write == WriteOf(h, s.callers[c], s.callers[c].pc.run)
    ensures Step(h, s, Cancels(c)) == Move(s.(pending := s.pending + {write}), c, Restoring(write.execution))
  {
  }

  lemma SecondWrite(h: Hashes, s: State, c: nat, write: Runs.Write, w: World)
    requires c in s.callers && s.callers[c].request.clientId.Some?
    requires s.callers[c].pc.Restoring? && write == WriteOf(h, s.callers[c], s.callers[c].pc.run)
    ensures var s' := if w.writes then Step(h, s, Stores(c, w.now)) else Step(h, s, StoreFails(c));
            var (t, reply) := Runs.RecordTx(s.mappings, write, w.now);
      if w.writes then EndsWith(s', c, t, |s.runs|, if reply.Ok? then Stopped else Failed)
      else EndsWith(s', c, s.mappings, |s.runs|, Stopped)
  {
  }

  lemma RecordingWithKey(h: Hashes, s: State, c: nat, w: World)
    requires c in s.callers && s.callers[c].pc.Posting? && s.callers[c].request.clientId.Some?
    requires w.cancelled ==> s.callers[c].tool.SubmitTool?
    ensures var (t, created, end) := RecordAlone(h, s.mappings, |s.runs|, s.callers[c].request, w);
            EndsWith(Recording(h, s, c, w), c, t, created, end)
  {
    if w.answers {
      AnsweredSteps(h, s, c);
      var returned := Step(h, Step(h, s, PostCreates(c)), PostReturns(c));
      var write := WriteOf(h, s.callers[c], |s.runs|);
      if w.cancelled { ShieldedSteps(h, returned, c, write, w); } else { StoringSteps(h, returned, c, write, w); }
    }
  }

  /** Main result: with the key lock free, the steps of an admitted call are exactly
      the code: same mappings, same runs created, same end, and the lock free again. */
  lemma SubmitStepsAreSubmit(h: Hashes, s: State, c: nat, w: World)
    requires c in s.callers && s.callers[c].pc.Admitted? && (w.cancelled ==> s.callers[c].tool.SubmitTool?)
    requires forall k :: k in s.holder ==> s.holder[k] != c
    requires var k := s.callers[c]; k.request.clientId.Some? ==> (k.process, k.request.clientId.value) !in s.holder
    ensures var (t, created, end) := SubmitAlone(h, s.mappings, |s.runs|, s.callers[c].request, w);
            EndsWith(Submitting(h, s, c, w), c, t, created, end)
  {
    var locked := Step(h, s, Locks(c));
    assert locked == LockStep(s, c);
    var found := Step(h, locked, Finds(c));
    if s.callers[c].request.clientId.None? {
      assert found == locked;
      RecordingWithoutKey(h, found, c, w);
    } else {
      assert found == FindStep(h, locked, c);
      if found.callers[c].pc.Posting? { RecordingWithKey(h, found, c, w); }
    }
  }
}
