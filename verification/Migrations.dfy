/** The schema migrator of the bridge state database
    (src/hermes_mcp_bridge/migrations.py), alone and with any number of others.

    `executescript` commits the open transaction, each statement of the script and
    the ledger insert commit on their own, and only then is the write lock taken
    again. So migrators interleave between any two of these points, and a migrator
    may die at any of them. */
module Migrations {
  import opened Wrappers

  datatype Statement = CreateTable(name: string) | CreateIndex(name: string, table: string)

  datatype Migration = Migration(version: nat, statements: seq<Statement>)

  type List = seq<Migration>

  const MIGRATIONS: List := [
    Migration(1, [CreateTable("run_mappings")]),
    Migration(2, [CreateTable("plans"), CreateIndex("idx_plans_status", "plans")]),
    Migration(3, [CreateTable("plan_approvals"), CreateIndex("idx_plan_approvals_plan", "plan_approvals")]),
    Migration(4, [CreateTable("checkpoints"), CreateIndex("idx_checkpoints_execution", "checkpoints")]),
    Migration(5, [CreateTable("continuations")]),
    Migration(6, [CreateTable("sagas")]),
    Migration(7, [CreateTable("resource_locks"), CreateIndex("idx_resource_locks_expires", "resource_locks")]),
    Migration(8, [CreateTable("quota_profiles")]),
    Migration(9, [CreateTable("approvals"), CreateIndex("idx_approvals_decision_created_at", "approvals")]),
    Migration(10, [CreateIndex("idx_run_mappings_updated_at", "run_mappings")])
  ]

  /** What the results below use of the list: versions count up from 1, and the
      table of an index is created by an earlier statement. */
  ghost predicate WellShaped(ms: List) {
    && (forall i :: 0 <= i < |ms| ==> ms[i].version == i + 1)
    && (forall i, k :: 0 <= i < |ms| && 0 <= k < |ms[i].statements| && ms[i].statements[k].CreateIndex? ==>
          CreatedBefore(ms, i, k, CreateTable(ms[i].statements[k].table)))
  }

  ghost predicate CreatedBefore(ms: List, i: nat, k: nat, st: Statement)
    requires i < |ms| && k < |ms[i].statements|
  {
    || (exists j :: 0 <= j < k && ms[i].statements[j] == st)
    || (exists v, j :: 0 <= v < i && 0 <= j < |ms[v].statements| && ms[v].statements[j] == st)
  }

  lemma MigrationsWellShaped()
    ensures |MIGRATIONS| == 10 && WellShaped(MIGRATIONS)
  {
    forall i, k | 0 <= i < |MIGRATIONS| && 0 <= k < |MIGRATIONS[i].statements|
        && MIGRATIONS[i].statements[k].CreateIndex?
      ensures CreatedBefore(MIGRATIONS, i, k, CreateTable(MIGRATIONS[i].statements[k].table))
    {
      if i < 9 {
        assert MIGRATIONS[i].statements[0] == CreateTable(MIGRATIONS[i].statements[k].table);
      } else {
        assert MIGRATIONS[0].statements[0] == CreateTable("run_mappings");
      }
    }
  }

  /** The database: its tables and indexes, and the migration ledger. */
  datatype Db = Db(tables: set<string>, indexes: set<string>, ledger: set<nat>, ledgerTable: bool)

  predicate Done(db: Db, st: Statement) {
    match st
    case CreateTable(name) => name in db.tables
    case CreateIndex(name, _) => name in db.indexes
  }

  /** IF NOT EXISTS; an index on a missing table is an error. */
  function Execute(db: Db, st: Statement): Option<Db> {
    match st
    case CreateTable(name) => Some(db.(tables := db.tables + {name}))
    case CreateIndex(name, table) =>
      if table in db.tables then Some(db.(indexes := db.indexes + {name})) else None
  }

  function Record(db: Db, version: nat): Db { db.(ledger := db.ledger + {version}) }

  lemma {:induction false} HasMax(s: set<nat>)
    requires s != {}
    ensures exists m :: m in s && forall x :: x in s ==> x <= m
    decreases |s|
  {
    var e :| e in s;
    var rest := s - {e};
    if rest == {} {
      assert s == {e};
    } else {
      HasMax(rest);
      var m :| m in rest && forall x :: x in rest ==> x <= m;
      var top := if e > m then e else m;
      assert forall x :: x in s ==> x == e || x in rest;
      assert top in s;
    }
  }

  /** `_current_version`: the ledger's maximum, or 0. */
  function CurrentVersion(ledger: set<nat>): (v: nat)
    ensures v in ledger || (ledger == {} && v == 0)
    ensures forall x :: x in ledger ==> x <= v
  {
    if ledger == {} then 0
    else
      HasMax(ledger);
      var m :| m in ledger && forall x :: x in ledger ==> x <= m;
      m
  }

  // ---- one migrator on its own: the code ----

  function RunScript(db: Db, script: seq<Statement>): (Db, bool)
    decreases |script|
  {
    if script == [] then (db, true)
    else
      var next := Execute(db, script[0]);
      if next.None? then (db, false) else RunScript(next.value, script[1..])
  }

  /** The migration loop from position `i`, given the version read at the start. */
  function RunFrom(ms: List, db: Db, current: nat, i: nat): (Db, bool)
    requires i <= |ms|
    decreases |ms| - i
  {
    if i == |ms| then (db, true)
    else if ms[i].version <= current then RunFrom(ms, db, current, i + 1)
    else
      var (after, ok) := RunScript(db, ms[i].statements);
      if !ok then (after, false) else RunFrom(ms, Record(after, ms[i].version), current, i + 1)
  }

  /** A whole sequential run: the database it leaves and the version it returns. */
  function Sequential(ms: List, db: Db): (Db, Option<nat>) {
    var (after, ok) := RunFrom(ms, db.(ledgerTable := true), CurrentVersion(db.ledger), 0);
    (after, if ok then Some(CurrentVersion(after.ledger)) else None)
  }

  class Database {
    const ms: List
    var db: Db

    constructor (ms: List, initial: Db)
      ensures db == initial && this.ms == ms
    {
      this.ms := ms;
      db := initial;
    }

    method ExecuteScript(script: seq<Statement>) returns (ok: bool)
      modifies this
      ensures (db, ok) == RunScript(old(db), script)
    {
      for k := 0 to |script|
        invariant RunScript(old(db), script) == RunScript(db, script[k..])
      {
        assert script[k..][1..] == script[k + 1..];
        var next := Execute(db, script[k]);
        if next.None? { return false; }
        db := next.value;
      }
      ok := true;
    }

    method ApplyMigrations() returns (version: Option<nat>)
      modifies this
      ensures (db, version) == Sequential(ms, old(db))
    {
      db := db.(ledgerTable := true);
      var current := CurrentVersion(db.ledger);
      for i := 0 to |ms|
        invariant RunFrom(ms, old(db).(ledgerTable := true), current, 0) == RunFrom(ms, db, current, i)
      {
        if ms[i].version > current {
          var ok := ExecuteScript(ms[i].statements);
          if !ok { return None; }
          db := Record(db, ms[i].version);
        }
      }
      version := Some(CurrentVersion(db.ledger));
    }
  }

  // ---- many migrators ----

  /** Where a migrator is; `current` is the version it read at its start. */
  datatype Pc =
    | NotStarted
    | Deciding(current: nat, next: nat)           // holds the write lock
    | Scripting(current: nat, at: nat, line: nat) // no lock; about to run a statement
    | Recording(current: nat, at: nat)            // no lock; about to insert the ledger row
    | Retaking(current: nat, at: nat)             // about to BEGIN IMMEDIATE again
    | Reporting                                   // committed; about to read the version
    | Returned(version: nat)
    | Raised
    | Killed

  datatype System = System(db: Db, writer: Option<nat>, migrators: map<nat, Pc>)

  datatype Event =
    | Spawn(m: nat) | Begin(m: nat) | Commit(m: nat) | RunStatement(m: nat)
    | InsertRow(m: nat) | Retake(m: nat) | Report(m: nat) | Kill(m: nat)

  /** First position from `i` whose version is above `current`. */
  function NextPending(ms: List, current: nat, i: nat): (r: nat)
    requires i <= |ms|
    ensures i <= r <= |ms|
    ensures r < |ms| ==> ms[r].version > current
    ensures forall k :: i <= k < r ==> ms[k].version <= current
    decreases |ms| - i
  {
    if i == |ms| || ms[i].version > current then i else NextPending(ms, current, i + 1)
  }

  /** One event; one that cannot happen now leaves the system as it is. */
  function Step(ms: List, s: System, e: Event): System {
    if e.Spawn? then
      if e.m in s.migrators then s else s.(migrators := s.migrators[e.m := NotStarted])
    else if e.m !in s.migrators then s
    else
      var m, pc := e.m, s.migrators[e.m];
      if e.Begin? && pc.NotStarted? && s.writer.None? then
        System(s.db, Some(m), s.migrators[m := Deciding(CurrentVersion(s.db.ledger), 0)])
      else if e.Commit? && pc.Deciding? && pc.next <= |ms| then
        var i := NextPending(ms, pc.current, pc.next);
        System(s.db.(ledgerTable := true), None,
               s.migrators[m := if i == |ms| then Reporting else Scripting(pc.current, i, 0)])
      else if e.RunStatement? && pc.Scripting? && s.writer.None? && pc.at < |ms| then
        var script := ms[pc.at].statements;
        if pc.line >= |script| then s.(migrators := s.migrators[m := Recording(pc.current, pc.at)])
        else
          var next := Execute(s.db, script[pc.line]);
          if next.None? then s.(migrators := s.migrators[m := Raised])
          else System(next.value, None, s.migrators[m := Scripting(pc.current, pc.at, pc.line + 1)])
      else if e.InsertRow? && pc.Recording? && s.writer.None? && pc.at < |ms| then
        System(Record(s.db, ms[pc.at].version), None, s.migrators[m := Retaking(pc.current, pc.at)])
      else if e.Retake? && pc.Retaking? && s.writer.None? then
        System(s.db, Some(m), s.migrators[m := Deciding(pc.current, pc.at + 1)])
      else if e.Report? && pc.Reporting? then
        s.(migrators := s.migrators[m := Returned(CurrentVersion(s.db.ledger))])
      else if e.Kill? && !pc.Returned? then
        System(s.db, if s.writer == Some(m) then None else s.writer, s.migrators[m := Killed])
      else s
  }

  function Run(ms: List, db: Db, events: seq<Event>): System
    decreases |events|
  {
    if events == [] then System(db, None, map[])
    else Step(ms, Run(ms, db, events[..|events| - 1]), events[|events| - 1])
  }

  // ---- the invariant ----

  ghost predicate VersionDone(ms: List, db: Db, i: nat)
    requires i < |ms|
  {
    forall k :: 0 <= k < |ms[i].statements| ==> Done(db, ms[i].statements[k])
  }

  ghost predicate Listed(ms: List, st: Statement) {
    exists i, k :: 0 <= i < |ms| && 0 <= k < |ms[i].statements| && ms[i].statements[k] == st
  }

  ghost predicate ListedIndex(ms: List, name: string) {
    exists t :: Listed(ms, CreateIndex(name, t))
  }

  /** The ledger is exactly {1..k} and every recorded version has fully run. */
  ghost predicate LedgerSound(ms: List, db: Db) {
    var k := CurrentVersion(db.ledger);
    && k <= |ms|
    && (forall v :: v in db.ledger <==> 1 <= v <= k)
    && (forall i :: 0 <= i < k ==> VersionDone(ms, db, i))
  }

  ghost predicate OnlyListed(ms: List, db: Db) {
    && (forall t :: t in db.tables ==> Listed(ms, CreateTable(t)))
    && (forall x :: x in db.indexes ==> ListedIndex(ms, x))
  }

  /** A database that migrators may leave behind; an empty one to begin with. */
  ghost predicate Sound(ms: List, db: Db) { LedgerSound(ms, db) && OnlyListed(ms, db) }

  ghost predicate PcSound(ms: List, db: Db, pc: Pc) {
    var k := CurrentVersion(db.ledger);
    match pc
    case Deciding(current, next) => current <= k && next <= k
    case Scripting(current, at, line) =>
      && current <= at <= k && at < |ms| && line <= |ms[at].statements| && db.ledgerTable
      && (forall j :: 0 <= j < line ==> Done(db, ms[at].statements[j]))
    case Recording(current, at) => current <= at <= k && at < |ms| && VersionDone(ms, db, at) && db.ledgerTable
    case Retaking(current, at) => current <= k && at + 1 <= k && db.ledgerTable
    case Reporting => k == |ms| && db.ledgerTable
    case Returned(version) => version == |ms| == k && db.ledgerTable
    case Raised => false
    case _ => true
  }

  ghost predicate Inv(ms: List, s: System) {
    && Sound(ms, s.db)
    && (forall m :: m in s.migrators ==> PcSound(ms, s.db, s.migrators[m]))
  }

  /** The database only grows, so what a migrator knows stays true. */
  ghost predicate Extends(db: Db, db': Db) {
    && db.tables <= db'.tables && db.indexes <= db'.indexes && db.ledger <= db'.ledger
    && (db.ledgerTable ==> db'.ledgerTable)
  }

  lemma VersionMonotone(db: Db, db': Db)
    requires Extends(db, db')
    ensures CurrentVersion(db.ledger) <= CurrentVersion(db'.ledger)
  {
    assert db.ledger != {} ==> CurrentVersion(db.ledger) in db'.ledger;
  }

  lemma DoneMonotone(db: Db, db': Db, script: seq<Statement>, line: nat)
    requires Extends(db, db') && line <= |script| && forall j :: 0 <= j < line ==> Done(db, script[j])
    ensures forall j :: 0 <= j < line ==> Done(db', script[j])
  {
  }

  lemma PcSoundMonotone(ms: List, db: Db, db': Db, pc: Pc)
    requires Sound(ms, db) && Sound(ms, db') && Extends(db, db') && PcSound(ms, db, pc)
    ensures PcSound(ms, db', pc)
  {
    VersionMonotone(db, db');
    match pc
    case Scripting(_, at, line) => DoneMonotone(db, db', ms[at].statements, line);
    case Recording(_, at) => DoneMonotone(db, db', ms[at].statements, |ms[at].statements|);
    case _ =>
  }

  /** One migrator moves; the database may grow under the others. */
  lemma Advance(ms: List, s: System, db': Db, writer: Option<nat>, m: nat, pc: Pc)
    requires Inv(ms, s) && Sound(ms, db') && Extends(s.db, db') && PcSound(ms, db', pc)
    ensures Inv(ms, System(db', writer, s.migrators[m := pc]))
  {
    forall o | o in s.migrators ensures PcSound(ms, db', s.migrators[o]) {
      PcSoundMonotone(ms, s.db, db', s.migrators[o]);
    }
  }

  /** No statement of the list can fail where a migrator runs it. */
  lemma StatementRuns(ms: List, db: Db, i: nat, line: nat)
    requires WellShaped(ms) && i < |ms| && line < |ms[i].statements|
    requires forall v :: 0 <= v < i ==> VersionDone(ms, db, v)
    requires forall j :: 0 <= j < line ==> Done(db, ms[i].statements[j])
    ensures ms[i].statements[line].CreateIndex? ==> ms[i].statements[line].table in db.tables
    ensures Execute(db, ms[i].statements[line]).Some?
  {
    var st := ms[i].statements[line];
    if st.CreateIndex? {
      assert CreatedBefore(ms, i, line, CreateTable(st.table));
      if v, j :| 0 <= v < i && 0 <= j < |ms[v].statements| && ms[v].statements[j] == CreateTable(st.table) {
        assert VersionDone(ms, db, v);
      }
      assert Done(db, CreateTable(st.table));
    }
  }

  lemma SameLedger(ms: List, db: Db, db': Db)
    requires LedgerSound(ms, db) && Extends(db, db') && db'.ledger == db.ledger
    ensures LedgerSound(ms, db')
  {
    forall i | 0 <= i < CurrentVersion(db.ledger) ensures VersionDone(ms, db', i) {
      assert VersionDone(ms, db, i);
      DoneMonotone(db, db', ms[i].statements, |ms[i].statements|);
    }
  }

  lemma ExecuteKeepsSound(ms: List, db: Db, i: nat, line: nat)
    requires Sound(ms, db) && i < |ms| && line < |ms[i].statements|
    requires Execute(db, ms[i].statements[line]).Some?
    ensures var db' := Execute(db, ms[i].statements[line]).value;
            Sound(ms, db') && Extends(db, db') && Done(db', ms[i].statements[line])
            && db'.ledger == db.ledger && db'.ledgerTable == db.ledgerTable
  {
    var st := ms[i].statements[line];
    assert Listed(ms, st);
    assert st.CreateIndex? ==> ListedIndex(ms, st.name) by {
      if st.CreateIndex? { assert Listed(ms, CreateIndex(st.name, st.table)); }
    }
    SameLedger(ms, db, Execute(db, st).value);
  }

  lemma RecordKeepsSound(ms: List, db: Db, i: nat)
    requires Sound(ms, db) && i < |ms| && i <= CurrentVersion(db.ledger) && VersionDone(ms, db, i)
    ensures Sound(ms, Record(db, i + 1)) && Extends(db, Record(db, i + 1))
    ensures CurrentVersion(Record(db, i + 1).ledger) >= i + 1
  {
    var k, db' := CurrentVersion(db.ledger), Record(db, i + 1);
    assert i + 1 in db'.ledger;
    assert CurrentVersion(db'.ledger) == if k <= i then i + 1 else k;
    forall v | 0 <= v < CurrentVersion(db'.ledger) ensures VersionDone(ms, db', v) {
      assert VersionDone(ms, db, v);
      DoneMonotone(db, db', ms[v].statements, |ms[v].statements|);
    }
  }

  lemma CommitKeeps(ms: List, s: System, m: nat)
    requires WellShaped(ms) && Inv(ms, s) && m in s.migrators && s.migrators[m].Deciding?
    ensures Inv(ms, Step(ms, s, Commit(m))) && Extends(s.db, Step(ms, s, Commit(m)).db)
  {
    var pc := s.migrators[m];
    assert PcSound(ms, s.db, pc);
    var i := NextPending(ms, pc.current, pc.next);
    var db' := s.db.(ledgerTable := true);
    SameLedger(ms, s.db, db');
    assert pc.next < i ==> ms[i - 1].version <= pc.current;
    Advance(ms, s, db', None, m, if i == |ms| then Reporting else Scripting(pc.current, i, 0));
  }

  lemma StatementKeeps(ms: List, s: System, m: nat)
    requires WellShaped(ms) && Inv(ms, s) && m in s.migrators && s.migrators[m].Scripting? && s.writer.None?
    ensures Inv(ms, Step(ms, s, RunStatement(m))) && Extends(s.db, Step(ms, s, RunStatement(m)).db)
  {
    var pc := s.migrators[m];
    assert PcSound(ms, s.db, pc);
    var script := ms[pc.at].statements;
    if pc.line < |script| {
      StatementRuns(ms, s.db, pc.at, pc.line);
      ExecuteKeepsSound(ms, s.db, pc.at, pc.line);
      var db' := Execute(s.db, script[pc.line]).value;
      DoneMonotone(s.db, db', script, pc.line);
      Advance(ms, s, db', None, m, Scripting(pc.current, pc.at, pc.line + 1));
    } else {
      Advance(ms, s, s.db, None, m, Recording(pc.current, pc.at));
    }
  }

  lemma InsertKeeps(ms: List, s: System, m: nat)
    requires WellShaped(ms) && Inv(ms, s) && m in s.migrators && s.migrators[m].Recording? && s.writer.None?
    ensures Inv(ms, Step(ms, s, InsertRow(m))) && Extends(s.db, Step(ms, s, InsertRow(m)).db)
  {
    var pc := s.migrators[m];
    assert PcSound(ms, s.db, pc);
    RecordKeepsSound(ms, s.db, pc.at);
    VersionMonotone(s.db, Record(s.db, pc.at + 1));
    Advance(ms, s, Record(s.db, pc.at + 1), None, m, Retaking(pc.current, pc.at));
  }

  lemma StepKeepsInv(ms: List, s: System, e: Event)
    requires WellShaped(ms) && Inv(ms, s)
    ensures Inv(ms, Step(ms, s, e)) && Extends(s.db, Step(ms, s, e).db)
  {
    if e.m in s.migrators {
      var pc := s.migrators[e.m];
      assert PcSound(ms, s.db, pc);
      if e.Commit? && pc.Deciding? {
        CommitKeeps(ms, s, e.m);
      } else if e.RunStatement? && pc.Scripting? && s.writer.None? {
        StatementKeeps(ms, s, e.m);
      } else if e.InsertRow? && pc.Recording? && s.writer.None? {
        InsertKeeps(ms, s, e.m);
      }
    }
  }

  /** Main result: whatever the interleaving and the deaths, the ledger is exactly
      {1..k}, every recorded version has fully run, and no statement ever fails, so
      in particular no index is created before its table. */
  lemma {:induction false} RunKeepsInv(ms: List, db: Db, events: seq<Event>)
    requires WellShaped(ms) && Sound(ms, db)
    ensures Inv(ms, Run(ms, db, events)) && Extends(db, Run(ms, db, events).db)
    ensures forall m :: m in Run(ms, db, events).migrators ==> !Run(ms, db, events).migrators[m].Raised?
    decreases |events|
  {
    if events != [] {
      RunKeepsInv(ms, db, events[..|events| - 1]);
      StepKeepsInv(ms, Run(ms, db, events[..|events| - 1]), events[|events| - 1]);
    }
  }

  // ---- what a returning migrator leaves ----

  /** Every version recorded, and exactly the listed tables and indexes. */
  ghost predicate Complete(ms: List, db: Db) {
    && (forall v :: v in db.ledger <==> 1 <= v <= |ms|)
    && (forall t :: t in db.tables <==> Listed(ms, CreateTable(t)))
    && (forall x :: x in db.indexes <==> ListedIndex(ms, x))
    && db.ledgerTable
  }

  lemma SoundAtLatest(ms: List, db: Db)
    requires Sound(ms, db) && CurrentVersion(db.ledger) == |ms| && db.ledgerTable
    ensures Complete(ms, db)
  {
    forall st | Listed(ms, st) ensures Done(db, st) {
      var i, k :| 0 <= i < |ms| && 0 <= k < |ms[i].statements| && ms[i].statements[k] == st;
      assert VersionDone(ms, db, i);
    }
    forall x | ListedIndex(ms, x) ensures x in db.indexes {
      var t :| Listed(ms, CreateIndex(x, t));
      assert Done(db, CreateIndex(x, t));
    }
    forall t | Listed(ms, CreateTable(t)) ensures t in db.tables {
      assert Done(db, CreateTable(t));
    }
  }

  lemma CompleteUnique(ms: List, db: Db, db': Db)
    requires Complete(ms, db) && Complete(ms, db')
    ensures db == db'
  {
    assert db.tables == db'.tables && db.indexes == db'.indexes && db.ledger == db'.ledger;
  }

  lemma {:induction false} RunScriptSound(ms: List, db: Db, i: nat, line: nat)
    requires WellShaped(ms) && Sound(ms, db) && i < |ms| && i <= CurrentVersion(db.ledger)
    requires line <= |ms[i].statements| && forall j :: 0 <= j < line ==> Done(db, ms[i].statements[j])
    ensures var (db', ok) := RunScript(db, ms[i].statements[line..]);
            ok && Sound(ms, db') && VersionDone(ms, db', i) && db'.ledger == db.ledger
                && db'.ledgerTable == db.ledgerTable
    decreases |ms[i].statements| - line
  {
    var script := ms[i].statements;
    if line < |script| {
      assert script[line..][1..] == script[line + 1..];
      StatementRuns(ms, db, i, line);
      ExecuteKeepsSound(ms, db, i, line);
      var db1 := Execute(db, script[line]).value;
      DoneMonotone(db, db1, script, line);
      RunScriptSound(ms, db1, i, line + 1);
    }
  }

  lemma {:induction false} RunFromSound(ms: List, db: Db, current: nat, i: nat)
    requires WellShaped(ms) && Sound(ms, db)
    requires i <= |ms| && current <= CurrentVersion(db.ledger) && i <= CurrentVersion(db.ledger)
    ensures var (db', ok) := RunFrom(ms, db, current, i);
            ok && Sound(ms, db') && CurrentVersion(db'.ledger) == |ms| && db'.ledgerTable == db.ledgerTable
    decreases |ms| - i
  {
    if i < |ms| {
      if ms[i].version <= current {
        RunFromSound(ms, db, current, i + 1);
      } else {
        var script := ms[i].statements;
        assert script[0..] == script;
        RunScriptSound(ms, db, i, 0);
        var db1 := RunScript(db, script).0;
        RecordKeepsSound(ms, db1, i);
        VersionMonotone(db1, Record(db1, i + 1));
        RunFromSound(ms, Record(db1, i + 1), current, i + 1);
      }
    }
  }

  /** A sequential run from any database migrators can leave completes it. */
  lemma SequentialCompletes(ms: List, db: Db)
    requires WellShaped(ms) && Sound(ms, db)
    ensures var (db', v) := Sequential(ms, db); v == Some(|ms|) && Complete(ms, db')
  {
    SameLedger(ms, db, db.(ledgerTable := true));
    RunFromSound(ms, db.(ledgerTable := true), CurrentVersion(db.ledger), 0);
    SoundAtLatest(ms, Sequential(ms, db).0);
  }

  /** Main result: a call that returns, whatever the others did meanwhile, returns
      10 and leaves the ledger {1..10} and the schema one sequential run leaves. */
  lemma ReturnedMeansComplete(db: Db, events: seq<Event>, m: nat)
    requires Sound(MIGRATIONS, db)
    requires m in Run(MIGRATIONS, db, events).migrators && Run(MIGRATIONS, db, events).migrators[m].Returned?
    ensures Run(MIGRATIONS, db, events).migrators[m] == Returned(10)
    ensures Complete(MIGRATIONS, Run(MIGRATIONS, db, events).db)
    ensures (Run(MIGRATIONS, db, events).db, Some(10)) == Sequential(MIGRATIONS, db)
  {
    MigrationsWellShaped();
    ReturnedCompletes(MIGRATIONS, db, events, m);
  }

  lemma ReturnedCompletes(ms: List, db: Db, events: seq<Event>, m: nat)
    requires WellShaped(ms) && Sound(ms, db)
    requires m in Run(ms, db, events).migrators && Run(ms, db, events).migrators[m].Returned?
    ensures Run(ms, db, events).migrators[m] == Returned(|ms|)
    ensures Complete(ms, Run(ms, db, events).db)
    ensures (Run(ms, db, events).db, Some(|ms|)) == Sequential(ms, db)
  {
    RunKeepsInv(ms, db, events);
    var s := Run(ms, db, events);
    assert PcSound(ms, s.db, s.migrators[m]);
    SoundAtLatest(ms, s.db);
    SequentialCompletes(ms, db);
    CompleteUnique(ms, s.db, Sequential(ms, db).0);
  }

  /** Main result: once complete, no run of migrators changes the database again. */
  lemma CompleteIsFinal(ms: List, db: Db, events: seq<Event>)
    requires WellShaped(ms) && Complete(ms, db) && Sound(ms, db)
    ensures Run(ms, db, events).db == db
  {
    RunKeepsInv(ms, db, events);
    var db' := Run(ms, db, events).db;
    VersionMonotone(db, db');
    assert |ms| > 0 ==> |ms| in db.ledger;
    SoundAtLatest(ms, db');
    CompleteUnique(ms, db, db');
  }

  /** The empty database is where it starts. */
  lemma EmptyIsSound(ms: List)
    ensures Sound(ms, Db({}, {}, {}, false))
  {
  }

  // ---- statements, and getting done ----

  /** A statement fails exactly when it indexes a missing table; otherwise it makes its
      own object be there, and changes nothing else. */
  lemma ExecuteExact(db: Db, st: Statement)
    ensures Execute(db, st) == None <==> st.CreateIndex? && st.table !in db.tables
    ensures Execute(db, st).Some? ==>
              var db' := Execute(db, st).value;
              && Done(db', st) && db'.ledger == db.ledger && db'.ledgerTable == db.ledgerTable
              && (forall t :: t in db'.tables <==> t in db.tables || st == CreateTable(t))
              && (forall x :: x in db'.indexes <==> x in db.indexes || (st.CreateIndex? && st.name == x))
  {
  }

  /** The statement a migrator is about to run. */
  ghost predicate AboutToRun(ms: List, pc: Pc, st: Statement) {
    pc.Scripting? && pc.at < |ms| && pc.line < |ms[pc.at].statements| && ms[pc.at].statements[pc.line] == st
  }

  /** Main result: whatever the interleaving, a migrator about to run an index statement
      has its table in front of it. */
  lemma IndexHasTable(ms: List, db: Db, events: seq<Event>, m: nat, st: Statement)
    requires WellShaped(ms) && Sound(ms, db) && st.CreateIndex?
    requires m in Run(ms, db, events).migrators && AboutToRun(ms, Run(ms, db, events).migrators[m], st)
    ensures st.table in Run(ms, db, events).db.tables
  {
    RunKeepsInv(ms, db, events);
    var s := Run(ms, db, events);
    assert PcSound(ms, s.db, s.migrators[m]);
    StatementRuns(ms, s.db, s.migrators[m].at, s.migrators[m].line);
  }

  /** Recorded versions are not run again, whatever the database looks like. */
  lemma {:induction false} SkipsRecorded(ms: List, db: Db, current: nat, i: nat)
    requires i <= |ms| && forall k :: i <= k < |ms| ==> ms[k].version <= current
    ensures RunFrom(ms, db, current, i) == (db, true)
    decreases |ms| - i
  {
    if i < |ms| { SkipsRecorded(ms, db, current, i + 1); }
  }

  /** A run continued. */
  function Continue(ms: List, s: System, events: seq<Event>): System
    decreases |events|
  {
    if events == [] then s else Continue(ms, Step(ms, s, events[0]), events[1..])
  }

  lemma {:induction false} RunContinues(ms: List, db: Db, events: seq<Event>, more: seq<Event>)
    ensures Run(ms, db, events + more) == Continue(ms, Run(ms, db, events), more)
    decreases |more|
  {
    if more == [] {
      assert events + more == events;
    } else {
      var next := events + [more[0]];
      assert next[..|events|] == events;
      assert events + more == next + more[1..];
      RunContinues(ms, db, next, more[1..]);
    }
  }

  /** The write lock is held by a migrator that is deciding what to do next. */
  ghost predicate WriterDecides(s: System) {
    s.writer.Some? ==> s.writer.value in s.migrators && s.migrators[s.writer.value].Deciding?
  }

  ghost predicate OneDecides(s: System) {
    forall m :: m in s.migrators && s.migrators[m].Deciding? ==> s.writer == Some(m)
  }

  lemma StepKeepsWriter(ms: List, s: System, e: Event)
    requires WellShaped(ms) && Inv(ms, s) && WriterDecides(s) && OneDecides(s)
    ensures WriterDecides(Step(ms, s, e)) && OneDecides(Step(ms, s, e))
  {
    if e.m in s.migrators { assert PcSound(ms, s.db, s.migrators[e.m]); }
  }

  /** Only one migrator at a time has the write lock, and then it is deciding. */
  lemma {:induction false} RunKeepsWriter(ms: List, db: Db, events: seq<Event>)
    requires WellShaped(ms) && Sound(ms, db)
    ensures WriterDecides(Run(ms, db, events)) && OneDecides(Run(ms, db, events))
    decreases |events|
  {
    if events != [] {
      RunKeepsWriter(ms, db, events[..|events| - 1]);
      RunKeepsInv(ms, db, events[..|events| - 1]);
      StepKeepsWriter(ms, Run(ms, db, events[..|events| - 1]), events[|events| - 1]);
    }
  }

  predicate Live(pc: Pc) { !pc.Returned? && !pc.Raised? && !pc.Killed? }

  /** What a migrator does next when nobody is in its way. */
  function NextEvent(s: System, m: nat): Event
    requires m in s.migrators
  {
    match s.migrators[m]
    case NotStarted => Begin(m)
    case Deciding(_, _) => Commit(m)
    case Scripting(_, _, _) => RunStatement(m)
    case Recording(_, _) => InsertRow(m)
    case Retaking(_, _) => Retake(m)
    case _ => Report(m)
  }

  function Ahead(ms: List, pc: Pc): nat {
    match pc
    case NotStarted => |ms| + 1
    case Deciding(_, next) => if next <= |ms| then |ms| - next else 0
    case Scripting(_, at, _) => if at <= |ms| then |ms| - at else 0
    case Recording(_, at) => if at <= |ms| then |ms| - at else 0
    case Retaking(_, at) => if at <= |ms| then |ms| - at else 0
    case _ => 0
  }

  function Stage(pc: Pc): nat {
    match pc
    case Deciding(_, _) => 4
    case Scripting(_, _, _) => 3
    case Recording(_, _) => 2
    case Retaking(_, _) => 1
    case _ => 0
  }

  function LinesLeft(ms: List, pc: Pc): nat {
    if pc.Scripting? && pc.at < |ms| && pc.line <= |ms[pc.at].statements| then |ms[pc.at].statements| - pc.line else 0
  }

  /** That step is possible and gets nearer to the end. */
  lemma NextAdvances(ms: List, s: System, m: nat)
    requires WellShaped(ms) && Inv(ms, s) && WriterDecides(s) && OneDecides(s)
    requires m in s.migrators && Live(s.migrators[m]) && (s.writer.None? || s.writer == Some(m))
    ensures var s' := Step(ms, s, NextEvent(s, m));
            var pc, pc' := s.migrators[m], s'.migrators[m];
      && m in s'.migrators && (s'.writer.None? || s'.writer == Some(m))
      && (pc.Reporting? ==> pc'.Returned?)
      && (!pc.Reporting? ==>
            Live(pc') && (Ahead(ms, pc') < Ahead(ms, pc)
                          || (Ahead(ms, pc') == Ahead(ms, pc) && Stage(pc') < Stage(pc))
                          || (Ahead(ms, pc') == Ahead(ms, pc) && Stage(pc') == Stage(pc)
                              && LinesLeft(ms, pc') < LinesLeft(ms, pc))))
  {
    assert PcSound(ms, s.db, s.migrators[m]);
    var pc := s.migrators[m];
    if pc.Scripting? && pc.line < |ms[pc.at].statements| { StatementRuns(ms, s.db, pc.at, pc.line); }
  }

  lemma {:induction false} Finishes(ms: List, s: System, m: nat) returns (more: seq<Event>)
    requires WellShaped(ms) && Inv(ms, s) && WriterDecides(s) && OneDecides(s)
    requires m in s.migrators && Live(s.migrators[m]) && (s.writer.None? || s.writer == Some(m))
    ensures forall e :: e in more ==> e.m == m
    ensures m in Continue(ms, s, more).migrators && Continue(ms, s, more).migrators[m].Returned?
    decreases Ahead(ms, s.migrators[m]), Stage(s.migrators[m]), LinesLeft(ms, s.migrators[m])
  {
    var e := NextEvent(s, m);
    var s' := Step(ms, s, e);
    NextAdvances(ms, s, m);
    if s.migrators[m].Reporting? {
      more := [e];
      assert more[1..] == [];
      assert Continue(ms, s, more) == Continue(ms, s', []);
    } else {
      StepKeepsInv(ms, s, e);
      StepKeepsWriter(ms, s, e);
      var rest := Finishes(ms, s', m);
      more := [e] + rest;
      assert more[1..] == rest;
    }
  }

  /** Main result: migrators never block one another for good. From any reachable state
      any live one can return by its own steps alone, once the one holding the write
      lock, if any, has let go of it with a single step. */
  lemma NeverStuck(ms: List, db: Db, events: seq<Event>, m: nat) returns (more: seq<Event>)
    requires WellShaped(ms) && Sound(ms, db)
    requires var s := Run(ms, db, events); m in s.migrators && Live(s.migrators[m])
    ensures var s := Run(ms, db, events);
      forall i :: 0 <= i < |more| ==>
        more[i].m == m || (i == 0 && more[i] == Commit(more[i].m) && s.writer == Some(more[i].m))
    ensures var s' := Run(ms, db, events + more); m in s'.migrators && s'.migrators[m] == Returned(|ms|)
  {
    var s := Run(ms, db, events);
    RunKeepsInv(ms, db, events);
    RunKeepsWriter(ms, db, events);
    if s.writer.None? || s.writer == Some(m) {
      more := Finishes(ms, s, m);
    } else {
      var w := s.writer.value;
      assert PcSound(ms, s.db, s.migrators[w]);
      var s1 := Step(ms, s, Commit(w));
      StepKeepsInv(ms, s, Commit(w));
      StepKeepsWriter(ms, s, Commit(w));
      var rest := Finishes(ms, s1, m);
      more := [Commit(w)] + rest;
      assert more[1..] == rest;
    }
    RunContinues(ms, db, events, more);
    ReturnedCompletes(ms, db, events + more, m);
  }
}
