/** The resource lock table (src/hermes_mcp_bridge/locks.py): one row per key and
    owner, upserted on acquire, with a one-directional compatibility table and
    time-to-live reaping. Times are clock readings. */
module Locks {
  import opened Wrappers

  datatype LockType = ReadShared | IntentToWrite | WriteExclusive | ApprovalPending
  datatype Status = Active | Expired | Released

  datatype Row = Row(lockType: LockType, ttl: int, acquiredAt: int, renewedAt: int, expiresAt: Option<int>,
                     status: Status)

  datatype Slot = Slot(key: string, owner: string)
  type Table = map<Slot, Row>

  datatype Request = Request(key: string, owner: string, lockType: LockType, ttl: int)

  /** The pairs (requested, existing) that refuse a request. */
  const INCOMPATIBLE: set<(LockType, LockType)> := {
    (WriteExclusive, ReadShared), (WriteExclusive, WriteExclusive),
    (WriteExclusive, IntentToWrite), (WriteExclusive, ApprovalPending),
    (IntentToWrite, WriteExclusive), (ApprovalPending, WriteExclusive)
  }

  lemma IncompatibleExact(requested: LockType, existing: LockType)
    ensures (requested, existing) in INCOMPATIBLE
            <==> requested.WriteExclusive? || (existing.WriteExclusive? && !requested.ReadShared?)
  {
  }

  // ---- the operations as transactions ----

  /** An active row of another owner that refuses the request. */
  predicate Blocks(t: Table, slot: Slot, request: Request)
    requires slot in t
  {
    && slot.key == request.key && t[slot].status == Active && slot.owner != request.owner
    && (request.lockType, t[slot].lockType) in INCOMPATIBLE
  }

  ghost predicate Refused(t: Table, request: Request) {
    !request.lockType.ReadShared? && exists slot :: slot in t && Blocks(t, slot, request)
  }

  predicate Lapsed(row: Row, now: int) {
    row.status == Active && row.expiresAt.Some? && row.expiresAt.value <= now
  }

  function Reap(t: Table, now: int): Table {
    map slot | slot in t :: if Lapsed(t[slot], now) then t[slot].(status := Expired) else t[slot]
  }

  function ExpiresAt(now: int, ttl: int): Option<int> { if ttl <= 0 then None else Some(now + ttl) }

  /** INSERT ... ON CONFLICT DO UPDATE: a renewed row keeps its first acquisition. */
  function Upsert(t: Table, request: Request, now: int): Table {
    var slot := Slot(request.key, request.owner);
    var first := if slot in t then t[slot].acquiredAt else now;
    t[slot := Row(request.lockType, request.ttl, first, now, ExpiresAt(now, request.ttl), Active)]
  }

  /** `acquire`: compatibility first, then reaping, then the upsert. */
  ghost function Acquire(t: Table, request: Request, reapAt: int, now: int): Option<Table> {
    if Refused(t, request) then None else Some(Upsert(Reap(t, reapAt), request, now))
  }

  function Release(t: Table, key: string, owner: string, now: int): Table {
    var slot := Slot(key, owner);
    if slot in t then t[slot := t[slot].(status := Released, renewedAt := now)] else t
  }

  // ---- the code ----

  class LockRegistry {
    var rows: Table

    constructor ()
      ensures rows == map[]
    {
      rows := map[];
    }

    /** The loop over the active rows of the key. */
    method EnforceCompatibility(request: Request) returns (conflict: bool)
      ensures conflict <==> Refused(rows, request)
    {
      if request.lockType.ReadShared? { return false; }
      var pending := set slot | slot in rows && slot.key == request.key && rows[slot].status == Active;
      while pending != {}
        invariant forall slot :: slot in pending ==>
              slot in rows && slot.key == request.key && rows[slot].status == Active
        invariant forall slot :: slot in rows && Blocks(rows, slot, request) ==> slot in pending
        decreases |pending|
      {
        var slot :| slot in pending;
        if slot.owner != request.owner && (request.lockType, rows[slot].lockType) in INCOMPATIBLE {
          assert Blocks(rows, slot, request);
          return true;
        }
        pending := pending - {slot};
      }
      conflict := false;
    }

    method AcquireLock(request: Request, reapAt: int, now: int) returns (granted: bool)
      modifies this
      ensures granted <==> Acquire(old(rows), request, reapAt, now).Some?
      ensures rows == if granted then Acquire(old(rows), request, reapAt, now).value else old(rows)
    {
      var conflict := EnforceCompatibility(request);
      if conflict { return false; }
      rows := Reap(rows, reapAt);
      rows := Upsert(rows, request, now);
      granted := true;
    }

    /** Returns the row as it was before the release. */
    method ReleaseLock(key: string, owner: string, now: int) returns (before: Option<Row>)
      modifies this
      ensures rows == Release(old(rows), key, owner, now)
      ensures before == if Slot(key, owner) in old(rows) then Some(old(rows)[Slot(key, owner)]) else None
    {
      var slot := Slot(key, owner);
      if slot !in rows { return None; }
      before := Some(rows[slot]);
      rows := rows[slot := rows[slot].(status := Released, renewedAt := now)];
    }
  }

  // ---- runs ----

  datatype Event =
    | Acquiring(request: Request, reapAt: int, now: int)
    | Releasing(key: string, owner: string, now: int)

  ghost function Step(t: Table, e: Event): Table {
    match e
    case Acquiring(request, reapAt, now) =>
      var r := Acquire(t, request, reapAt, now);
      if r.Some? then r.value else t
    case Releasing(key, owner, now) => Release(t, key, owner, now)
  }

  ghost function Run(events: seq<Event>): Table {
    if events == [] then map[] else Step(Run(events[..|events| - 1]), events[|events| - 1])
  }

  ghost predicate Holds(t: Table, key: string, owner: string) {
    Slot(key, owner) in t && t[Slot(key, owner)].status == Active
  }

  ghost predicate HoldsAs(t: Table, key: string, owner: string, lockType: LockType) {
    Holds(t, key, owner) && t[Slot(key, owner)].lockType == lockType
  }

  /** While one owner holds the write lock, others hold at most shared reads. */
  ghost predicate WriterExcludesWriters(t: Table) {
    forall key, writer, other {:trigger Slot(key, writer), Slot(key, other)} ::
      (HoldsAs(t, key, writer, WriteExclusive) && other != writer && Holds(t, key, other)) ==>
        t[Slot(key, other)].lockType == ReadShared
  }

  lemma AcquireKeepsExclusion(t: Table, request: Request, reapAt: int, now: int)
    requires WriterExcludesWriters(t) && !Refused(t, request)
    ensures WriterExcludesWriters(Upsert(Reap(t, reapAt), request, now))
  {
    var t' := Upsert(Reap(t, reapAt), request, now);
    forall key, writer, other | HoldsAs(t', key, writer, WriteExclusive) && other != writer && Holds(t', key, other)
      ensures t'[Slot(key, other)].lockType == ReadShared
    {
      var mine := Slot(request.key, request.owner);
      var w, o := Slot(key, writer), Slot(key, other);
      if w == mine {
        assert !Blocks(t, o, request);
        IncompatibleExact(request.lockType, t[o].lockType);
      } else if o == mine {
        assert !request.lockType.ReadShared? ==> !Blocks(t, w, request);
        IncompatibleExact(request.lockType, t[w].lockType);
      } else {
        assert HoldsAs(t, key, writer, WriteExclusive) && Holds(t, key, other);
      }
    }
  }

  lemma ReleaseKeepsExclusion(t: Table, key: string, owner: string, now: int)
    requires WriterExcludesWriters(t)
    ensures WriterExcludesWriters(Release(t, key, owner, now))
  {
    var t' := Release(t, key, owner, now);
    forall k, w, o | HoldsAs(t', k, w, WriteExclusive) && o != w && Holds(t', k, o)
      ensures t'[Slot(k, o)].lockType == ReadShared
    {
      assert HoldsAs(t, k, w, WriteExclusive) && Holds(t, k, o);
    }
  }

  /** Main result: in every reachable table a held write lock excludes every other
      owner's write, intent and approval locks on the key. */
  lemma {:induction false} RunKeepsExclusion(events: seq<Event>)
    ensures WriterExcludesWriters(Run(events))
  {
    if events != [] {
      var before, e := Run(events[..|events| - 1]), events[|events| - 1];
      RunKeepsExclusion(events[..|events| - 1]);
      assert Run(events) == Step(before, e);
      match e
      case Acquiring(request, reapAt, now) =>
        if !Refused(before, request) { AcquireKeepsExclusion(before, request, reapAt, now); }
      case Releasing(key, owner, now) => ReleaseKeepsExclusion(before, key, owner, now);
    } else {
      assert forall key, owner :: !Holds(Run(events), key, owner);
    }
  }

  /** Main result: a write lock is granted exactly when no other owner is active on
      the key, lapsed or not; an intent or approval lock exactly when no other owner
      is active with the write lock; a shared read always. */
  lemma GrantExact(t: Table, request: Request, reapAt: int, now: int)
    ensures Acquire(t, request, reapAt, now).Some? <==>
            match request.lockType
            case ReadShared => true
            case WriteExclusive => forall other :: other != request.owner ==> !Holds(t, request.key, other)
            case _ => forall other :: other != request.owner ==> !HoldsAs(t, request.key, other, WriteExclusive)
  {
    if Refused(t, request) {
      var slot :| slot in t && Blocks(t, slot, request);
      assert slot == Slot(request.key, slot.owner);
      assert Holds(t, request.key, slot.owner);
      assert !request.lockType.WriteExclusive? ==> HoldsAs(t, request.key, slot.owner, WriteExclusive);
    } else if !request.lockType.ReadShared? {
      forall other | other != request.owner && Holds(t, request.key, other)
        ensures (request.lockType, t[Slot(request.key, other)].lockType) !in INCOMPATIBLE
      {
        assert !Blocks(t, Slot(request.key, other), request);
      }
      forall other | other != request.owner && Holds(t, request.key, other)
        ensures !request.lockType.WriteExclusive? && !HoldsAs(t, request.key, other, WriteExclusive)
      {
        IncompatibleExact(request.lockType, t[Slot(request.key, other)].lockType);
      }
    }
  }

  /** Main result: a granted request leaves no lapsed row behind: other rows are
      active only before their expiry, and so is the granted row unless the clock
      went back by its whole time to live between the two readings. */
  lemma GrantReaps(t: Table, request: Request, reapAt: int, now: int)
    requires Acquire(t, request, reapAt, now).Some?
    ensures var t' := Acquire(t, request, reapAt, now).value;
      && HoldsAs(t', request.key, request.owner, request.lockType)
      && (forall slot :: slot in t' && slot != Slot(request.key, request.owner) ==> !Lapsed(t'[slot], reapAt))
      && (reapAt <= now ==> forall slot :: slot in t' ==> !Lapsed(t'[slot], reapAt))
      && (forall slot :: slot in t && slot != Slot(request.key, request.owner) ==>
            slot in t' && (t'[slot] == t[slot] || (Lapsed(t[slot], reapAt) && t'[slot] == t[slot].(status := Expired))))
  {
  }

  /** Main result: a released lock is no longer held, and keeps the record of what it
      was; nothing else changes. */
  lemma ReleaseExact(t: Table, key: string, owner: string, now: int)
    ensures var t', slot := Release(t, key, owner, now), Slot(key, owner);
      && !Holds(t', key, owner) && t'.Keys == t.Keys
      && (forall other :: other in t && other != slot ==> t'[other] == t[other])
      && (slot in t ==>
            && t'[slot].status == Released && t'[slot].renewedAt == now && t'[slot].lockType == t[slot].lockType
            && t'[slot].ttl == t[slot].ttl && t'[slot].acquiredAt == t[slot].acquiredAt
            && t'[slot].expiresAt == t[slot].expiresAt)
  {
  }

  /** Main result: once the only active owner of a key has released it, any request by
      anyone for it is granted. */
  lemma ReleasedKeyIsFree(t: Table, key: string, owner: string, at: int, request: Request, reapAt: int, now: int)
    requires request.key == key && forall other :: other != owner ==> !Holds(t, key, other)
    ensures Acquire(Release(t, key, owner, at), request, reapAt, now).Some?
  {
    var t' := Release(t, key, owner, at);
    ReleaseExact(t, key, owner, at);
    assert forall other :: Holds(t', key, other) ==> other != owner && Holds(t, key, other);
    GrantExact(t', request, reapAt, now);
  }

  /** What is granted: the row as requested, dated now, with the first acquisition of the
      slot, which lapses exactly its time to live later, if it has one. */
  lemma GrantedRow(t: Table, request: Request, reapAt: int, now: int, at: int)
    requires Acquire(t, request, reapAt, now).Some?
    ensures var t', slot := Acquire(t, request, reapAt, now).value, Slot(request.key, request.owner);
      && slot in t' && t'[slot].status == Active && t'[slot].lockType == request.lockType
      && t'[slot].ttl == request.ttl && t'[slot].renewedAt == now
      && t'[slot].acquiredAt == (if slot in t then t[slot].acquiredAt else now)
      && (Lapsed(t'[slot], at) <==> request.ttl > 0 && now + request.ttl <= at)
      && t'.Keys == t.Keys + {slot}
  {
  }

  /** The compatibility table is one-directional: a shared read is granted beside a
      held write lock, though a write lock is refused beside a shared read. */
  lemma ReaderJoinsWriter()
    ensures var w := Acquiring(Request("k", "a", WriteExclusive, 0), 0, 0);
            var r := Acquiring(Request("k", "b", ReadShared, 0), 0, 0);
            && HoldsAs(Run([w, r]), "k", "a", WriteExclusive) && HoldsAs(Run([w, r]), "k", "b", ReadShared)
            && !HoldsAs(Run([r, w]), "k", "a", WriteExclusive)
  {
    var w := Acquiring(Request("k", "a", WriteExclusive, 0), 0, 0);
    var r := Acquiring(Request("k", "b", ReadShared, 0), 0, 0);
    assert [w, r][..1] == [w] && [r, w][..1] == [r];
    assert [w][..0] == [] && [r][..0] == [];
    assert Blocks(Run([r]), Slot("k", "b"), w.request);
  }

  /** Compatibility is checked before reaping, so a lapsed row still refuses. */
  lemma LapsedRowBlocks()
    ensures var held := Run([Acquiring(Request("k", "a", WriteExclusive, 1), 0, 0)]);
            && Slot("k", "a") in held && Lapsed(held[Slot("k", "a")], 100)
            && Acquire(held, Request("k", "b", WriteExclusive, 1), 100, 100).None?
  {
    var first := [Acquiring(Request("k", "a", WriteExclusive, 1), 0, 0)];
    assert first[..0] == [];
    assert Run(first) == Step(map[], first[0]);
    assert Slot("k", "a") in Run(first) && Blocks(Run(first), Slot("k", "a"), Request("k", "b", WriteExclusive, 1));
  }
}
