/** Applying and rolling back a secret rotation over several env files
    (src/hermes_mcp_bridge/secret_rotation.py). The file system is the map from
    paths to text. Every file write asks the environment for a `Fault`: it may
    raise before its rename took effect, or after. */
module SecretRotation {
  import opened Wrappers
  import opened EnvFile

  type Files = map<string, string>

  datatype Fault = Fine | BeforeRename | AfterRename

  datatype Plan = Plan(key: string, newValue: string, changedPaths: seq<string>, operationId: string)

  datatype Entry = Entry(path: string, backup: string)

  /** What `_apply_rotation_locked` reports: the rotated paths and their backups. */
  datatype Applied = Applied(changedPaths: seq<string>, backupPaths: seq<string>)

  function BackupOf(path: string, operationId: string): string { path + ".pre-rotation-" + operationId }

  predicate IsAbsolute(path: string) { path != "" && path[0] == '/' }

  // ---- the three loops as functions of the file system ----

  datatype Prepared = Prepared(files: Files, raised: bool, manifest: seq<Entry>, writes: nat)

  /** Back up every target that exists; `writes` counts the writes attempted. */
  function Prepare(files: Files, paths: seq<string>, op: string, fault: nat -> Fault, writes: nat): Prepared
    decreases |paths|
  {
    if paths == [] then Prepared(files, false, [], writes)
    else
      var p, b := paths[0], BackupOf(paths[0], op);
      if !IsAbsolute(p) then Prepared(files, true, [], writes)
      else if p !in files then Prepare(files, paths[1..], op, fault, writes)
      else if b in files then Prepared(files, true, [], writes)
      else
        match fault(writes)
        case BeforeRename => Prepared(files, true, [], writes + 1)
        case AfterRename => Prepared(files[b := files[p]], true, [], writes + 1)
        case Fine =>
          var rest := Prepare(files[b := files[p]], paths[1..], op, fault, writes + 1);
          rest.(manifest := [Entry(p, b)] + rest.manifest)
  }

  datatype Replaced = Replaced(files: Files, raised: bool, changed: seq<string>)

  function ReplaceAll(files: Files, manifest: seq<Entry>, plan: Plan, fault: nat -> Fault, writes: nat): Replaced
    decreases |manifest|
  {
    if manifest == [] then Replaced(files, false, [])
    else
      var p := manifest[0].path;
      if p !in files then Replaced(files, true, [])
      else
        var next := files[p := Rewrite(files[p], plan.key, plan.newValue)];
        match fault(writes)
        case BeforeRename => Replaced(files, true, [])
        case AfterRename => Replaced(next, true, [])
        case Fine =>
          Prepend([p], ReplaceAll(next, manifest[1..], plan, fault, writes + 1))
  }

  function Prepend(done: seq<string>, rest: Replaced): Replaced {
    rest.(changed := done + rest.changed)
  }

  lemma PrependAgain(done: seq<string>, p: string, rest: Replaced)
    ensures Prepend(done, Prepend([p], rest)) == Prepend(done + [p], rest)
  {
    assert done + ([p] + rest.changed) == done + [p] + rest.changed;
  }

  /** The replacement as a whole, when `done` are the targets before `i`. */
  ghost predicate Underway(whole: Replaced, done: seq<string>, files: Files, manifest: seq<Entry>, i: nat, plan: Plan,
                           fault: nat -> Fault, writes: nat)
    requires i <= |manifest|
  {
    whole == Prepend(done, ReplaceAll(files, manifest[i..], plan, fault, writes))
  }

  lemma UnderwayAtFirst(files: Files, manifest: seq<Entry>, plan: Plan, fault: nat -> Fault, writes: nat)
    ensures Underway(ReplaceAll(files, manifest, plan, fault, writes), [], files, manifest, 0, plan, fault, writes)
  {
    assert manifest[0..] == manifest;
  }

  lemma UnderwayAtLast(whole: Replaced, done: seq<string>, files: Files, manifest: seq<Entry>, plan: Plan,
                       fault: nat -> Fault, writes: nat)
    requires Underway(whole, done, files, manifest, |manifest|, plan, fault, writes)
    ensures whole == Replaced(files, false, done)
  {
    assert done + [] == done;
  }

  /** One step of the replacement, after `done`. */
  lemma ReplaceMore(done: seq<string>, files: Files, manifest: seq<Entry>, i: nat, plan: Plan, fault: nat -> Fault,
                    writes: nat, next: Files)
    requires i < |manifest| && manifest[i].path in files && fault(writes) == Fine
    requires next == files[manifest[i].path := Rewrite(files[manifest[i].path], plan.key, plan.newValue)]
    ensures Prepend(done, ReplaceAll(files, manifest[i..], plan, fault, writes))
            == Prepend(done + [manifest[i].path], ReplaceAll(next, manifest[i + 1..], plan, fault, writes + 1))
  {
    assert manifest[i..][1..] == manifest[i + 1..];
    PrependAgain(done, manifest[i].path, ReplaceAll(next, manifest[i + 1..], plan, fault, writes + 1));
  }

  /** Where the replacement stops. */
  lemma ReplaceStops(done: seq<string>, files: Files, manifest: seq<Entry>, i: nat, plan: Plan, fault: nat -> Fault,
                     writes: nat, next: Files)
    requires i < |manifest| && (manifest[i].path !in files || fault(writes) != Fine)
    requires next == if manifest[i].path !in files || fault(writes) == BeforeRename then files
                     else files[manifest[i].path := Rewrite(files[manifest[i].path], plan.key, plan.newValue)]
    ensures Prepend(done, ReplaceAll(files, manifest[i..], plan, fault, writes)) == Replaced(next, true, done)
  {
    assert done + [] == done;
  }

  /** Restore by content comparison; a missing backup ends the loop. */
  function Restore(files: Files, manifest: seq<Entry>): Files
    decreases |manifest|
  {
    if manifest == [] then files
    else
      var e := manifest[0];
      if e.path !in files then Restore(files, manifest[1..])
      else if e.backup !in files then files
      else if files[e.path] != files[e.backup] then Restore(files[e.path := files[e.backup]], manifest[1..])
      else Restore(files, manifest[1..])
  }

  function Backups(manifest: seq<Entry>): seq<string> {
    seq(|manifest|, i requires 0 <= i < |manifest| => manifest[i].backup)
  }

  /** The whole of `_apply_rotation_locked`. */
  function Apply(files: Files, plan: Plan, fault: nat -> Fault): (Files, Option<Applied>) {
    var prep := Prepare(files, plan.changedPaths, plan.operationId, fault, 0);
    if prep.raised then (Restore(prep.files, prep.manifest), None)
    else
      var rep := ReplaceAll(prep.files, prep.manifest, plan, fault, prep.writes);
      if rep.raised then (Restore(rep.files, prep.manifest), None)
      else (rep.files, Some(Applied(rep.changed, Backups(prep.manifest))))
  }

  /** The same when the restoring writes may raise as well: `undo` is asked about each. */
  function RestoreUnder(files: Files, manifest: seq<Entry>, undo: nat -> Fault, n: nat): Files
    decreases |manifest|
  {
    if manifest == [] then files
    else
      var e := manifest[0];
      if e.path !in files then RestoreUnder(files, manifest[1..], undo, n)
      else if e.backup !in files then files
      else if files[e.path] != files[e.backup] then
        var next := files[e.path := files[e.backup]];
        match undo(n)
        case BeforeRename => files
        case AfterRename => next
        case Fine => RestoreUnder(next, manifest[1..], undo, n + 1)
      else RestoreUnder(files, manifest[1..], undo, n)
  }

  function ApplyUnder(files: Files, plan: Plan, fault: nat -> Fault, undo: nat -> Fault): (Files, Option<Applied>) {
    var prep := Prepare(files, plan.changedPaths, plan.operationId, fault, 0);
    if prep.raised then (RestoreUnder(prep.files, prep.manifest, undo, 0), None)
    else
      var rep := ReplaceAll(prep.files, prep.manifest, plan, fault, prep.writes);
      if rep.raised then (RestoreUnder(rep.files, prep.manifest, undo, 0), None)
      else (rep.files, Some(Applied(rep.changed, Backups(prep.manifest))))
  }

  lemma {:induction false} RestoreUnderFine(files: Files, manifest: seq<Entry>, undo: nat -> Fault, n: nat)
    requires forall k :: undo(k) == Fine
    ensures RestoreUnder(files, manifest, undo, n) == Restore(files, manifest)
    decreases |manifest|
  {
    if manifest != [] {
      var e := manifest[0];
      if e.path in files && e.backup in files && files[e.path] != files[e.backup] {
        RestoreUnderFine(files[e.path := files[e.backup]], manifest[1..], undo, n + 1);
      } else {
        RestoreUnderFine(files, manifest[1..], undo, n);
      }
    }
  }

  /** While restoring writes succeed the two are the same. */
  lemma ApplyUnderFine(files: Files, plan: Plan, fault: nat -> Fault, undo: nat -> Fault)
    requires forall k :: undo(k) == Fine
    ensures ApplyUnder(files, plan, fault, undo) == Apply(files, plan, fault)
  {
    var prep := Prepare(files, plan.changedPaths, plan.operationId, fault, 0);
    RestoreUnderFine(prep.files, prep.manifest, undo, 0);
    RestoreUnderFine(ReplaceAll(prep.files, prep.manifest, plan, fault, prep.writes).files, prep.manifest, undo, 0);
  }

  /** The restoring loop of `rollback_rotation`, over pairs it has checked. */
  function Unwind(files: Files, changed: seq<string>, backups: seq<string>): Files
    requires |changed| == |backups| && forall i :: 0 <= i < |backups| ==> backups[i] in files
    decreases |changed|
  {
    if changed == [] then files
    else Unwind(files[changed[0] := files[backups[0]]], changed[1..], backups[1..])
  }

  /** The same loop, up to the write that raises. */
  function UnwindUnder(files: Files, changed: seq<string>, backups: seq<string>, fault: nat -> Fault, n: nat)
    : (Files, bool)
    requires |changed| == |backups| && forall i :: 0 <= i < |backups| ==> backups[i] in files
    decreases |changed|
  {
    if changed == [] then (files, false)
    else
      var next := files[changed[0] := files[backups[0]]];
      match fault(n)
      case BeforeRename => (files, true)
      case AfterRename => (next, true)
      case Fine => UnwindUnder(next, changed[1..], backups[1..], fault, n + 1)
  }

  /** A pair that the rollback takes; `links` are the symbolic links. */
  predicate Restorable(files: Files, links: set<string>, path: string, backup: string) {
    IsAbsolute(path) && IsAbsolute(backup) && path !in links && backup !in links && backup in files
  }

  predicate Acceptable(files: Files, links: set<string>, changed: seq<string>, backups: seq<string>) {
    |changed| == |backups| && forall i :: 0 <= i < |changed| ==> Restorable(files, links, changed[i], backups[i])
  }

  /** `rollback_rotation` when its writes succeed, and when they may raise. */
  function Rollback(files: Files, links: set<string>, changed: seq<string>, backups: seq<string>)
    : (Files, Option<seq<string>>)
  {
    if Acceptable(files, links, changed, backups)
    then (Unwind(files, changed, backups), Some(changed))
    else (files, None)
  }

  function RollbackUnder(files: Files, links: set<string>, changed: seq<string>, backups: seq<string>,
                         fault: nat -> Fault)
    : (Files, Option<seq<string>>)
  {
    if Acceptable(files, links, changed, backups) then
      var (files', raised) := UnwindUnder(files, changed, backups, fault, 0);
      (files', if raised then None else Some(changed))
    else (files, None)
  }

  // ---- the code ----

  class FileSystem {
    var files: Files

    constructor (initial: Files)
      ensures files == initial
    {
      files := initial;
    }

    method AtomicWriteText(path: string, content: string, fault: Fault) returns (raised: bool)
      modifies this
      ensures files == if fault == BeforeRename then old(files) else old(files)[path := content]
      ensures raised <==> fault != Fine
    {
      if fault == BeforeRename { return true; }
      files := files[path := content];
      raised := fault == AfterRename;
    }

    method PrepareBackups(paths: seq<string>, op: string, fault: nat -> Fault)
      returns (raised: bool, manifest: seq<Entry>, writes: nat)
      modifies this
      ensures Prepared(files, raised, manifest, writes) == Prepare(old(files), paths, op, fault, 0)
    {
      manifest, writes := [], 0;
      for i := 0 to |paths|
        invariant Prepare(old(files), paths, op, fault, 0)
               == (var rest := Prepare(files, paths[i..], op, fault, writes);
                   rest.(manifest := manifest + rest.manifest))
      {
        var p, backup := paths[i], BackupOf(paths[i], op);
        assert paths[i..][1..] == paths[i + 1..];
        if !IsAbsolute(p) { return true, manifest, writes; }
        if p !in files { continue; }
        if backup in files { return true, manifest, writes; }
        var failed := AtomicWriteText(backup, files[p], fault(writes));
        writes := writes + 1;
        if failed { return true, manifest, writes; }
        ghost var rest := Prepare(files, paths[i + 1..], op, fault, writes);
        assert manifest + ([Entry(p, backup)] + rest.manifest) == (manifest + [Entry(p, backup)]) + rest.manifest;
        manifest := manifest + [Entry(p, backup)];
      }
      raised := false;
    }

    /** One target; `done` are those before it. */
    method ReplaceTarget(manifest: seq<Entry>, i: nat, plan: Plan, fault: nat -> Fault, writes: nat,
                         ghost whole: Replaced, ghost done: seq<string>)
      returns (raised: bool)
      requires i < |manifest| && Underway(whole, done, files, manifest, i, plan, fault, writes)
      modifies this
      ensures if raised then whole == Replaced(files, true, done)
              else Underway(whole, done + [manifest[i].path], files, manifest, i + 1, plan, fault, writes + 1)
    {
      var p := manifest[i].path;
      ghost var before := files;
      if p !in files {
        ReplaceStops(done, before, manifest, i, plan, fault, writes, files);
        return true;
      }
      var text := RewriteText(files[p], plan.key, plan.newValue);
      raised := AtomicWriteText(p, text, fault(writes));
      if raised {
        ReplaceStops(done, before, manifest, i, plan, fault, writes, files);
      } else {
        ReplaceMore(done, before, manifest, i, plan, fault, writes, files);
      }
    }

    method ReplaceTargets(manifest: seq<Entry>, plan: Plan, fault: nat -> Fault, start: nat)
      returns (raised: bool, changed: seq<string>)
      modifies this
      ensures Replaced(files, raised, changed) == ReplaceAll(old(files), manifest, plan, fault, start)
    {
      changed := [];
      ghost var whole := ReplaceAll(files, manifest, plan, fault, start);
      UnderwayAtFirst(files, manifest, plan, fault, start);
      var writes := start;
      for i := 0 to |manifest|
        invariant Underway(whole, changed, files, manifest, i, plan, fault, writes)
      {
        raised := ReplaceTarget(manifest, i, plan, fault, writes, whole, changed);
        if raised { return; }
        changed, writes := changed + [manifest[i].path], writes + 1;
      }
      UnderwayAtLast(whole, changed, files, manifest, plan, fault, writes);
      raised := false;
    }

    method RestoreFromBackups(manifest: seq<Entry>, undo: nat -> Fault)
      modifies this
      ensures files == RestoreUnder(old(files), manifest, undo, 0)
    {
      var n := 0;
      for i := 0 to |manifest|
        invariant RestoreUnder(old(files), manifest, undo, 0) == RestoreUnder(files, manifest[i..], undo, n)
      {
        var e := manifest[i];
        assert manifest[i..][1..] == manifest[i + 1..];
        if e.path in files {
          if e.backup !in files { return; }
          if files[e.path] != files[e.backup] {
            var failed := AtomicWriteText(e.path, files[e.backup], undo(n));
            if failed { return; }
            n := n + 1;
          }
        }
      }
    }

    method ApplyRotationLocked(plan: Plan, fault: nat -> Fault, undo: nat -> Fault) returns (r: Option<Applied>)
      modifies this
      ensures (files, r) == ApplyUnder(old(files), plan, fault, undo)
    {
      var raised, manifest, writes := PrepareBackups(plan.changedPaths, plan.operationId, fault);
      var changed := [];
      if !raised {
        raised, changed := ReplaceTargets(manifest, plan, fault, writes);
      }
      if raised {
        RestoreFromBackups(manifest, undo);
        return None;
      }
      r := Some(Applied(changed, Backups(manifest)));
    }

    method RollbackRotation(links: set<string>, changed: seq<string>, backups: seq<string>, fault: nat -> Fault)
      returns (r: Option<seq<string>>)
      modifies this
      ensures (files, r) == RollbackUnder(old(files), links, changed, backups, fault)
    {
      if |changed| != |backups| { return None; }
      for i := 0 to |changed|
        invariant forall k :: 0 <= k < i ==> Restorable(files, links, changed[k], backups[k])
      {
        if !Restorable(files, links, changed[i], backups[i]) { return None; }
      }
      var restored := [];
      for i := 0 to |changed|
        invariant restored == changed[..i]
        invariant old(files).Keys <= files.Keys
        invariant UnwindUnder(old(files), changed, backups, fault, 0)
            == UnwindUnder(files, changed[i..], backups[i..], fault, i)
      {
        assert changed[i..][1..] == changed[i + 1..] && backups[i..][1..] == backups[i + 1..];
        var failed := AtomicWriteText(changed[i], files[backups[i]], fault(i));
        if failed { return None; }
        restored := restored + [changed[i]];
      }
      assert changed[..|changed|] == changed;
      r := Some(restored);
    }
  }

  // ---- what a rotation promises ----

  /** No target is named like the backup of an existing target listed before it. */
  ghost predicate NoAlias(files: Files, plan: Plan) {
    NoPathIsBackup(files, plan.changedPaths, plan.operationId)
  }

  ghost predicate SameAt(before: Files, after: Files, path: string) {
    (path in before <==> path in after) && (path in before ==> before[path] == after[path])
  }

  /** The targets that exist, in plan order. */
  function Existing(files: Files, paths: seq<string>): seq<string> {
    if paths == [] then []
    else if paths[0] in files then [paths[0]] + Existing(files, paths[1..])
    else Existing(files, paths[1..])
  }

  /** One target rewritten, and its backup. */
  predicate RotatedAt(before: Files, after: Files, plan: Plan, p: string, b: string) {
    && p in before && p in after && after[p] == Rewrite(before[p], plan.key, plan.newValue)
    && b == p + ".pre-rotation-" + plan.operationId && b !in before && b in after && after[b] == before[p]
  }

  /** The outcome of a completed rotation. */
  ghost predicate Rotated(before: Files, after: Files, plan: Plan, done: Applied) {
    && done.changedPaths == Existing(before, plan.changedPaths)
    && |done.backupPaths| == |done.changedPaths|
    && (forall i :: 0 <= i < |done.changedPaths| ==>
          RotatedAt(before, after, plan, done.changedPaths[i], done.backupPaths[i]))
    && (forall i, j :: 0 <= i < j < |done.changedPaths| ==>
          done.changedPaths[i] != done.changedPaths[j] && done.backupPaths[i] != done.backupPaths[j])
    && (forall q :: q !in done.changedPaths && q !in done.backupPaths ==> SameAt(before, after, q))
  }

  /** A manifest of distinct targets, each backed up intact. */
  ghost predicate BackedUp(before: Files, files: Files, manifest: seq<Entry>, op: string) {
    && (forall i :: 0 <= i < |manifest| ==>
          && manifest[i].backup == BackupOf(manifest[i].path, op)
          && manifest[i].path in before && manifest[i].backup !in before
          && manifest[i].backup in files && files[manifest[i].backup] == before[manifest[i].path])
    && (forall i, j :: 0 <= i < j < |manifest| ==>
          manifest[i].path != manifest[j].path && manifest[i].backup != manifest[j].backup)
    && (forall i, j :: 0 <= i < |manifest| && 0 <= j < |manifest| ==> manifest[i].path != manifest[j].backup)
  }

  ghost predicate NoPathIsBackup(files: Files, paths: seq<string>, op: string) {
    forall i, j :: 0 <= i < j < |paths| && paths[i] in files ==> paths[j] != BackupOf(paths[i], op)
  }

  function Paths(manifest: seq<Entry>): seq<string> {
    seq(|manifest|, i requires 0 <= i < |manifest| => manifest[i].path)
  }

  /** Preparing only adds files, and only backups. */
  lemma {:induction false} PrepareAdds(files: Files, paths: seq<string>, op: string, fault: nat -> Fault, writes: nat)
    ensures var r := Prepare(files, paths, op, fault, writes);
      && (forall q :: q in files ==> q in r.files && r.files[q] == files[q])
      && (forall q :: q in r.files && q !in files ==> IsBackupName(paths, op, q))
    decreases |paths|
  {
    if paths != [] {
      var p, b := paths[0], BackupOf(paths[0], op);
      var mid := if p in files && b !in files then files[b := files[p]] else files;
      var w := if p in files then writes + 1 else writes;
      PrepareAdds(mid, paths[1..], op, fault, w);
      forall q | IsBackupName(paths[1..], op, q) ensures IsBackupName(paths, op, q) {
        var i :| 0 <= i < |paths[1..]| && q == BackupOf(paths[1..][i], op);
        assert q == BackupOf(paths[i + 1], op);
      }
      assert IsBackupName(paths, op, b);
    }
  }

  ghost predicate IsBackupName(paths: seq<string>, op: string, q: string) {
    exists i :: 0 <= i < |paths| && q == BackupOf(paths[i], op)
  }

  /** The manifest lists existing targets, each backed up intact. */
  lemma {:induction false} PrepareBacksUp(files: Files, paths: seq<string>, op: string, fault: nat -> Fault,
                                          writes: nat)
    requires NoPathIsBackup(files, paths, op)
    ensures var r := Prepare(files, paths, op, fault, writes);
      && BackedUp(files, r.files, r.manifest, op)
      && (forall i :: 0 <= i < |r.manifest| ==> r.manifest[i].path in paths)
    decreases |paths|
  {
    if paths != [] {
      var p, b := paths[0], BackupOf(paths[0], op);
      assert forall i :: 0 <= i < |paths[1..]| ==> paths[1..][i] == paths[i + 1];
      if p !in files {
        PrepareBacksUp(files, paths[1..], op, fault, writes);
      } else if IsAbsolute(p) && b !in files && fault(writes) == Fine {
        var mid := files[b := files[p]];
        var rest := Prepare(mid, paths[1..], op, fault, writes + 1);
        PrepareBacksUp(mid, paths[1..], op, fault, writes + 1);
        PrepareAdds(mid, paths[1..], op, fault, writes + 1);
        assert b !in paths[1..];
        BackedUpCons(files, rest.files, Entry(p, b), rest.manifest, op);
      }
    }
  }

  lemma BackedUpCons(files: Files, after: Files, e: Entry, rest: seq<Entry>, op: string)
    requires e.path in files && e.backup == BackupOf(e.path, op) && e.backup !in files
    requires BackedUp(files[e.backup := files[e.path]], after, rest, op)
    requires e.backup in after && after[e.backup] == files[e.path]
    requires forall i :: 0 <= i < |rest| ==> rest[i].path != e.backup
    ensures BackedUp(files, after, [e] + rest, op)
  {
    var m := [e] + rest;
    assert forall i :: 0 < i < |m| ==> m[i] == rest[i - 1];
    forall i | 0 <= i < |rest| ensures rest[i].path != e.path {
      BackupInjective(rest[i].path, e.path, op);
    }
  }

  /** When nothing raises the manifest lists exactly the existing targets, and
      every new file is one of its backups. */
  lemma {:induction false} PrepareListsExisting(files: Files, paths: seq<string>, op: string, fault: nat -> Fault,
                                                writes: nat)
    requires NoPathIsBackup(files, paths, op)
    requires !Prepare(files, paths, op, fault, writes).raised
    ensures var r := Prepare(files, paths, op, fault, writes);
      && Paths(r.manifest) == Existing(files, paths)
      && (forall q :: q in r.files && q !in files ==> q in Backups(r.manifest))
    decreases |paths|
  {
    if paths != [] {
      var p, b := paths[0], BackupOf(paths[0], op);
      assert forall i :: 0 <= i < |paths[1..]| ==> paths[1..][i] == paths[i + 1];
      if p !in files {
        PrepareListsExisting(files, paths[1..], op, fault, writes);
      } else {
        var mid := files[b := files[p]];
        var rest := Prepare(mid, paths[1..], op, fault, writes + 1);
        var r := Prepare(files, paths, op, fault, writes);
        PrepareListsExisting(mid, paths[1..], op, fault, writes + 1);
        ExistingIgnoresBackup(files, paths[1..], b, files[p]);
        assert r.manifest == [Entry(p, b)] + rest.manifest;
        assert Paths(r.manifest) == [p] + Paths(rest.manifest);
        assert Backups(r.manifest) == [b] + Backups(rest.manifest);
      }
    }
  }

  lemma {:induction false} ExistingIgnoresBackup(files: Files, paths: seq<string>, b: string, text: string)
    requires b !in paths
    ensures Existing(files[b := text], paths) == Existing(files, paths)
  {
    if paths != [] { ExistingIgnoresBackup(files, paths[1..], b, text); }
  }

  ghost predicate OnManifest(manifest: seq<Entry>, q: string) {
    exists i :: 0 <= i < |manifest| && manifest[i].path == q
  }

  lemma OnManifestTail(manifest: seq<Entry>, q: string)
    requires manifest != []
    ensures OnManifest(manifest, q) <==> manifest[0].path == q || OnManifest(manifest[1..], q)
  {
    if OnManifest(manifest[1..], q) {
      var i :| 0 <= i < |manifest[1..]| && manifest[1..][i].path == q;
      assert manifest[i + 1].path == q;
    }
    if i :| 0 < i < |manifest| && manifest[i].path == q {
      assert manifest[1..][i - 1].path == q;
    }
  }

  ghost predicate DistinctTargets(files: Files, manifest: seq<Entry>) {
    && (forall i :: 0 <= i < |manifest| ==> manifest[i].path in files)
    && (forall i, j :: 0 <= i < j < |manifest| ==> manifest[i].path != manifest[j].path)
  }

  /** Replacing touches only manifest paths; without a fault it does not raise. */
  lemma {:induction false} ReplaceTouches(files: Files, manifest: seq<Entry>, plan: Plan, fault: nat -> Fault,
                                          writes: nat)
    requires DistinctTargets(files, manifest)
    ensures var r := ReplaceAll(files, manifest, plan, fault, writes);
      && r.files.Keys == files.Keys
      && (forall q :: q in files && !OnManifest(manifest, q) ==> r.files[q] == files[q])
      && ((forall n :: fault(n) == Fine) ==> !r.raised)
    decreases |manifest|
  {
    if manifest != [] {
      var p := manifest[0].path;
      var next := files[p := Rewrite(files[p], plan.key, plan.newValue)];
      forall q ensures OnManifest(manifest, q) <==> p == q || OnManifest(manifest[1..], q) {
        OnManifestTail(manifest, q);
      }
      assert forall i :: 0 <= i < |manifest[1..]| ==> manifest[1..][i] == manifest[i + 1];
      ReplaceTouches(next, manifest[1..], plan, fault, writes + 1);
    }
  }

  /** What a completed replacement reports and rewrote: all of the manifest. */
  lemma {:induction false} ReplaceReports(files: Files, manifest: seq<Entry>, plan: Plan, fault: nat -> Fault,
                                          writes: nat)
    requires !ReplaceAll(files, manifest, plan, fault, writes).raised
    ensures ReplaceAll(files, manifest, plan, fault, writes).changed == Paths(manifest)
    decreases |manifest|
  {
    if manifest != [] {
      var p := manifest[0].path;
      var next := files[p := Rewrite(files[p], plan.key, plan.newValue)];
      ReplaceReports(next, manifest[1..], plan, fault, writes + 1);
      assert Paths(manifest) == [p] + Paths(manifest[1..]);
    }
  }

  lemma {:induction false} ReplaceRewrites(files: Files, manifest: seq<Entry>, plan: Plan, fault: nat -> Fault,
                                           writes: nat, k: nat)
    requires DistinctTargets(files, manifest) && k < |manifest|
    requires !ReplaceAll(files, manifest, plan, fault, writes).raised
    ensures var r, p := ReplaceAll(files, manifest, plan, fault, writes), manifest[k].path;
            p in r.files && r.files[p] == Rewrite(files[p], plan.key, plan.newValue)
    decreases |manifest|
  {
    var p := manifest[0].path;
    var next := files[p := Rewrite(files[p], plan.key, plan.newValue)];
    assert forall i :: 0 <= i < |manifest[1..]| ==> manifest[1..][i] == manifest[i + 1];
    if k == 0 {
      assert !OnManifest(manifest[1..], p);
      ReplaceTouches(next, manifest[1..], plan, fault, writes + 1);
    } else {
      ReplaceRewrites(next, manifest[1..], plan, fault, writes + 1, k - 1);
    }
  }

  lemma CompletedTarget(files: Files, plan: Plan, fault: nat -> Fault, i: nat)
    requires NoAlias(files, plan)
    requires Apply(files, plan, fault).1.Some?
    requires i < |Prepare(files, plan.changedPaths, plan.operationId, fault, 0).manifest|
    ensures var e := Prepare(files, plan.changedPaths, plan.operationId, fault, 0).manifest[i];
            RotatedAt(files, Apply(files, plan, fault).0, plan, e.path, e.backup)
  {
    var prep := Prepare(files, plan.changedPaths, plan.operationId, fault, 0);
    PrepareAdds(files, plan.changedPaths, plan.operationId, fault, 0);
    PrepareBacksUp(files, plan.changedPaths, plan.operationId, fault, 0);
    ReplaceRewrites(prep.files, prep.manifest, plan, fault, prep.writes, i);
    ReplaceTouches(prep.files, prep.manifest, plan, fault, prep.writes);
    assert !OnManifest(prep.manifest, prep.manifest[i].backup);
  }

  /** The manifest is reported position by position. */
  lemma CompletedReport(files: Files, plan: Plan, fault: nat -> Fault)
    requires Apply(files, plan, fault).1.Some?
    ensures var manifest := Prepare(files, plan.changedPaths, plan.operationId, fault, 0).manifest;
            var done := Apply(files, plan, fault).1.value;
      && |done.changedPaths| == |done.backupPaths| == |manifest|
      && forall i :: 0 <= i < |manifest| ==> manifest[i] == Entry(done.changedPaths[i], done.backupPaths[i])
  {
    var prep := Prepare(files, plan.changedPaths, plan.operationId, fault, 0);
    ReplaceReports(prep.files, prep.manifest, plan, fault, prep.writes);
  }

  /** All existing targets are reported, once each. */
  lemma CompletedLists(files: Files, plan: Plan, fault: nat -> Fault)
    requires NoAlias(files, plan)
    requires Apply(files, plan, fault).1.Some?
    ensures var done := Apply(files, plan, fault).1.value;
      && done.changedPaths == Existing(files, plan.changedPaths)
      && |done.backupPaths| == |done.changedPaths|
      && (forall i, j :: 0 <= i < j < |done.changedPaths| ==>
            done.changedPaths[i] != done.changedPaths[j] && done.backupPaths[i] != done.backupPaths[j])
  {
    var prep := Prepare(files, plan.changedPaths, plan.operationId, fault, 0);
    var done := Apply(files, plan, fault).1.value;
    PrepareBacksUp(files, plan.changedPaths, plan.operationId, fault, 0);
    PrepareListsExisting(files, plan.changedPaths, plan.operationId, fault, 0);
    CompletedReport(files, plan, fault);
    assert forall i :: 0 <= i < |prep.manifest| ==> Paths(prep.manifest)[i] == done.changedPaths[i];
  }

  /** Nothing off the manifest is touched. */
  lemma CompletedTouches(files: Files, plan: Plan, fault: nat -> Fault, q: string)
    requires NoAlias(files, plan)
    requires Apply(files, plan, fault).1.Some?
    requires var done := Apply(files, plan, fault).1.value; q !in done.changedPaths && q !in done.backupPaths
    ensures SameAt(files, Apply(files, plan, fault).0, q)
  {
    var prep := Prepare(files, plan.changedPaths, plan.operationId, fault, 0);
    var done := Apply(files, plan, fault).1.value;
    CompletedReport(files, plan, fault);
    PrepareAdds(files, plan.changedPaths, plan.operationId, fault, 0);
    PrepareBacksUp(files, plan.changedPaths, plan.operationId, fault, 0);
    PrepareListsExisting(files, plan.changedPaths, plan.operationId, fault, 0);
    ReplaceTouches(prep.files, prep.manifest, plan, fault, prep.writes);
    forall i | 0 <= i < |prep.manifest| ensures prep.manifest[i].path != q && prep.manifest[i].backup != q {
      assert done.changedPaths[i] == prep.manifest[i].path && done.backupPaths[i] == prep.manifest[i].backup;
    }
  }

  /** Main result, the "all" half. */
  lemma CompletedRotationRotates(files: Files, plan: Plan, fault: nat -> Fault)
    requires NoAlias(files, plan)
    requires Apply(files, plan, fault).1.Some?
    ensures Rotated(files, Apply(files, plan, fault).0, plan, Apply(files, plan, fault).1.value)
  {
    CompletedReport(files, plan, fault);
    CompletedLists(files, plan, fault);
    var after, done := Apply(files, plan, fault).0, Apply(files, plan, fault).1.value;
    forall i | 0 <= i < |done.changedPaths|
      ensures RotatedAt(files, after, plan, done.changedPaths[i], done.backupPaths[i])
    {
      CompletedTarget(files, plan, fault, i);
    }
    forall q | q !in done.changedPaths && q !in done.backupPaths ensures SameAt(files, after, q) {
      CompletedTouches(files, plan, fault, q);
    }
  }

  /** A rotation fails only for a reason: absolute, distinct targets whose backup
      names are free are always rotated when no write raises. */
  lemma {:induction false} PrepareSucceeds(files: Files, paths: seq<string>, op: string, fault: nat -> Fault,
                                           writes: nat)
    requires NoPathIsBackup(files, paths, op) && forall n :: fault(n) == Fine
    requires forall i :: 0 <= i < |paths| ==> IsAbsolute(paths[i]) && BackupOf(paths[i], op) !in files
    requires forall i, j :: 0 <= i < j < |paths| ==> paths[i] != paths[j]
    ensures !Prepare(files, paths, op, fault, writes).raised
    decreases |paths|
  {
    if paths != [] {
      var p, b := paths[0], BackupOf(paths[0], op);
      forall i | 0 <= i < |paths[1..]| ensures BackupOf(paths[1..][i], op) != b {
        BackupInjective(paths[i + 1], p, op);
      }
      if p in files {
        PrepareSucceeds(files[b := files[p]], paths[1..], op, fault, writes + 1);
      } else {
        PrepareSucceeds(files, paths[1..], op, fault, writes);
      }
    }
  }

  lemma BackupInjective(p: string, q: string, op: string)
    ensures BackupOf(p, op) == BackupOf(q, op) ==> p == q
  {
    var suffix := ".pre-rotation-" + op;
    assert BackupOf(p, op) == p + suffix && BackupOf(q, op) == q + suffix;
    if BackupOf(p, op) == BackupOf(q, op) {
      assert |p| == |q|;
      assert p == (p + suffix)[..|p|] && q == (q + suffix)[..|q|];
    }
  }

  lemma FaultFreeRotationCompletes(files: Files, plan: Plan, fault: nat -> Fault)
    requires NoAlias(files, plan) && forall n :: fault(n) == Fine
    requires forall i :: 0 <= i < |plan.changedPaths| ==>
               IsAbsolute(plan.changedPaths[i]) && BackupOf(plan.changedPaths[i], plan.operationId) !in files
    requires forall i, j :: 0 <= i < j < |plan.changedPaths| ==> plan.changedPaths[i] != plan.changedPaths[j]
    ensures Apply(files, plan, fault).1.Some?
  {
    var prep := Prepare(files, plan.changedPaths, plan.operationId, fault, 0);
    PrepareSucceeds(files, plan.changedPaths, plan.operationId, fault, 0);
    PrepareAdds(files, plan.changedPaths, plan.operationId, fault, 0);
    PrepareBacksUp(files, plan.changedPaths, plan.operationId, fault, 0);
    ReplaceTouches(prep.files, prep.manifest, plan, fault, prep.writes);
  }

  /** A target that is there when its turn comes is on the manifest. */
  lemma {:induction false} PrepareListsPresent(files: Files, paths: seq<string>, op: string, fault: nat -> Fault,
                                               writes: nat, k: nat)
    requires !Prepare(files, paths, op, fault, writes).raised && k < |paths| && paths[k] in files
    ensures paths[k] in Paths(Prepare(files, paths, op, fault, writes).manifest)
    decreases |paths|
  {
    var p, b := paths[0], BackupOf(paths[0], op);
    var mid := if p in files then files[b := files[p]] else files;
    var w := if p in files then writes + 1 else writes;
    var here := Paths(Prepare(files, paths, op, fault, writes).manifest);
    var rest := Paths(Prepare(mid, paths[1..], op, fault, w).manifest);
    assert here == if p in files then [p] + rest else rest;
    if k > 0 { PrepareListsPresent(mid, paths[1..], op, fault, w, k - 1); }
  }

  /** A backup listed as a later target is rotated although it was not there. */
  lemma {:induction false} PrepareListsAlias(files: Files, paths: seq<string>, op: string, fault: nat -> Fault,
                                             writes: nat, i: nat, j: nat)
    requires !Prepare(files, paths, op, fault, writes).raised
    requires i < j < |paths| && paths[i] in files && paths[j] == BackupOf(paths[i], op)
    ensures paths[j] in Paths(Prepare(files, paths, op, fault, writes).manifest) && paths[j] !in files
    decreases |paths|
  {
    var p, b := paths[0], BackupOf(paths[0], op);
    var mid := if p in files then files[b := files[p]] else files;
    var w := if p in files then writes + 1 else writes;
    var here := Paths(Prepare(files, paths, op, fault, writes).manifest);
    var rest := Paths(Prepare(mid, paths[1..], op, fault, w).manifest);
    assert here == if p in files then [p] + rest else rest;
    if i == 0 {
      PrepareListsPresent(mid, paths[1..], op, fault, w, j - 1);
    } else {
      PrepareListsAlias(mid, paths[1..], op, fault, w, i - 1, j - 1);
    }
  }

  lemma {:induction false} ExistingExists(files: Files, paths: seq<string>)
    ensures forall q :: q in Existing(files, paths) ==> q in files
  {
    if paths != [] { ExistingExists(files, paths[1..]); }
  }

  lemma AliasBreaksRotation(files: Files, plan: Plan, fault: nat -> Fault, i: nat, j: nat)
    requires Apply(files, plan, fault).1.Some?
    requires i < j < |plan.changedPaths| && plan.changedPaths[i] in files
    requires plan.changedPaths[j] == BackupOf(plan.changedPaths[i], plan.operationId)
    ensures !Rotated(files, Apply(files, plan, fault).0, plan, Apply(files, plan, fault).1.value)
  {
    var prep := Prepare(files, plan.changedPaths, plan.operationId, fault, 0);
    var done := Apply(files, plan, fault).1.value;
    PrepareListsAlias(files, plan.changedPaths, plan.operationId, fault, 0, i, j);
    CompletedReport(files, plan, fault);
    ExistingExists(files, plan.changedPaths);
    assert done.changedPaths == Paths(prep.manifest);
  }

  /** Main result, exact: a completed rotation has rewritten every existing target
      and kept each original in its backup if and only if no target was named like
      the backup of an existing one before it. */
  lemma CompletedRotationExact(files: Files, plan: Plan, fault: nat -> Fault)
    requires Apply(files, plan, fault).1.Some?
    ensures Rotated(files, Apply(files, plan, fault).0, plan, Apply(files, plan, fault).1.value)
        <==> NoAlias(files, plan)
  {
    if NoAlias(files, plan) {
      CompletedRotationRotates(files, plan, fault);
    } else {
      var i, j :| 0 <= i < j < |plan.changedPaths| && plan.changedPaths[i] in files
                  && plan.changedPaths[j] == BackupOf(plan.changedPaths[i], plan.operationId);
      AliasBreaksRotation(files, plan, fault, i, j);
    }
  }

  // ---- rollback ----

  lemma {:induction false} UnwindRestores(before: Files, files: Files, changed: seq<string>, backups: seq<string>)
    requires |changed| == |backups|
    requires forall i :: 0 <= i < |changed| ==>
               changed[i] in before && backups[i] in files && files[backups[i]] == before[changed[i]]
    requires forall i, j :: 0 <= i < |changed| && 0 <= j < |backups| ==> changed[i] != backups[j]
    requires forall i, j :: 0 <= i < j < |changed| ==> changed[i] != changed[j]
    ensures var r := Unwind(files, changed, backups);
      && (forall i :: 0 <= i < |changed| ==> changed[i] in r && r[changed[i]] == before[changed[i]])
      && (forall q :: q !in changed ==> SameAt(files, r, q))
    decreases |changed|
  {
    if changed != [] {
      var next := files[changed[0] := files[backups[0]]];
      UnwindRestores(before, next, changed[1..], backups[1..]);
      var r := Unwind(files, changed, backups);
      assert changed[0] !in changed[1..];
      assert SameAt(next, r, changed[0]);
      forall i | 0 <= i < |changed| ensures changed[i] in r && r[changed[i]] == before[changed[i]] {
        if i > 0 { assert changed[1..][i - 1] == changed[i]; }
      }
      forall q | q !in changed ensures SameAt(files, r, q) {
        assert SameAt(next, r, q);
      }
    }
  }

  /** Main result: rolling back with the manifest a rotation reported restores every
      rotated file and leaves every other path as the rotation left it, so nothing
      but the backups differs from before. */
  lemma RollbackUndoesRotation(before: Files, after: Files, links: set<string>, plan: Plan, done: Applied)
    requires Rotated(before, after, plan, done)
    requires forall i :: 0 <= i < |done.changedPaths| ==>
               IsAbsolute(done.changedPaths[i]) && done.changedPaths[i] !in links && done.backupPaths[i] !in links
    ensures var (files, r) := Rollback(after, links, done.changedPaths, done.backupPaths);
      && r == Some(done.changedPaths)
      && (forall q :: q !in done.changedPaths ==> SameAt(after, files, q))
      && (forall q :: q !in done.backupPaths ==> SameAt(before, files, q))
  {
    var changed, backups := done.changedPaths, done.backupPaths;
    forall i, j | 0 <= i < |changed| && 0 <= j < |backups| ensures changed[i] != backups[j] {
      assert changed[i] in before && backups[j] !in before;
    }
    assert forall i :: 0 <= i < |changed| ==> Restorable(after, links, changed[i], backups[i]);
    UnwindRestores(before, after, changed, backups);
    var files := Rollback(after, links, changed, backups).0;
    forall q | q !in backups ensures SameAt(before, files, q) {
      if q in changed {
        var i :| 0 <= i < |changed| && changed[i] == q;
      }
    }
  }

  lemma {:induction false} PrepareAbsolute(files: Files, paths: seq<string>, op: string, fault: nat -> Fault,
                                           writes: nat)
    requires !Prepare(files, paths, op, fault, writes).raised
    ensures forall q :: q in paths ==> IsAbsolute(q)
    decreases |paths|
  {
    if paths != [] {
      var p, b := paths[0], BackupOf(paths[0], op);
      if p in files { PrepareAbsolute(files[b := files[p]], paths[1..], op, fault, writes + 1); }
      else { PrepareAbsolute(files, paths[1..], op, fault, writes); }
    }
  }

  /** Where aliasing breaks it: a target named like the backup of another target.
      The rotation completes, yet the backup of "/a" no longer holds its text. */
  lemma AliasedBackupIsOverwritten(text: string, fault: nat -> Fault)
    requires Rewrite(text, "K", "v") != text && forall n :: fault(n) == Fine
    ensures var alias := BackupOf("/a", "1");
            var plan := Plan("K", "v", ["/a", alias], "1");
            var (files, r) := Apply(map["/a" := text], plan, fault);
            && r == Some(Applied(["/a", alias], [alias, BackupOf(alias, "1")]))
            && alias in files && files[alias] != text
  {
    var a, alias := "/a", BackupOf("/a", "1");
    var second := BackupOf(alias, "1");
    assert |a| < |alias| < |second| && alias[0] == '/';
    var f2 := map[a := text][alias := text][second := text];
    var manifest := [Entry(a, alias), Entry(alias, second)];
    AliasedPrepare(a, alias, second, text, fault);
    AliasedReplace(a, alias, second, text, Plan("K", "v", [a, alias], "1"), fault, f2);
    assert Backups(manifest) == [alias, second];
  }

  lemma AliasedPrepare(a: string, alias: string, second: string, text: string, fault: nat -> Fault)
    requires forall n :: fault(n) == Fine
    requires alias == BackupOf(a, "1") && second == BackupOf(alias, "1") && |a| < |alias| < |second|
    requires IsAbsolute(a) && IsAbsolute(alias)
    ensures Prepare(map[a := text], [a, alias], "1", fault, 0)
         == Prepared(map[a := text][alias := text][second := text], false, [Entry(a, alias), Entry(alias, second)], 2)
  {
    var f1 := map[a := text][alias := text];
    var f2 := f1[second := text];
    var tail: seq<string> := [alias];
    assert [a, alias][1..] == tail && tail[1..] == [];
    assert Prepare(f2, [], "1", fault, 2) == Prepared(f2, false, [], 2);
    assert Prepare(f1, tail, "1", fault, 1) == Prepared(f2, false, [Entry(alias, second)], 2);
  }

  lemma AliasedReplace(a: string, alias: string, second: string, text: string, plan: Plan, fault: nat -> Fault,
                       files: Files)
    requires forall n :: fault(n) == Fine
    requires a != alias && a in files && alias in files && files[a] == files[alias] == text
    ensures var text' := Rewrite(text, plan.key, plan.newValue);
            ReplaceAll(files, [Entry(a, alias), Entry(alias, second)], plan, fault, 2)
            == Replaced(files[a := text'][alias := text'], false, [a, alias])
  {
    var text' := Rewrite(text, plan.key, plan.newValue);
    var manifest, tail: seq<Entry> := [Entry(a, alias), Entry(alias, second)], [Entry(alias, second)];
    var f3 := files[a := text'];
    var f4 := f3[alias := text'];
    assert manifest[1..] == tail && tail[1..] == [];
    assert ReplaceAll(f4, [], plan, fault, 4) == Replaced(f4, false, []);
    assert ReplaceAll(f3, tail, plan, fault, 3) == Replaced(f4, false, [alias]);
    assert [a] + [alias] == [a, alias];
  }
}
