/** When a failing rotation leaves nothing behind, and when a rollback undoes a
    completed one, exactly (src/hermes_mcp_bridge/secret_rotation.py). What decides
    both is a target that is the backup of an earlier target. */
module RotationFaults {
  import opened Wrappers
  import opened EnvFile
  import opened SecretRotation

  /** No write raises. */
  function Quiet(n: nat): Fault { Fine }

  // ---- what preparing leaves, whatever the plan ----

  /** Each listed path and its backup hold the same text; no path is listed twice. */
  ghost predicate Paired(files: Files, manifest: seq<Entry>, op: string) {
    && (forall i :: 0 <= i < |manifest| ==>
          && manifest[i].backup == BackupOf(manifest[i].path, op)
          && manifest[i].path in files && manifest[i].backup in files
          && files[manifest[i].path] == files[manifest[i].backup])
    && (forall i, j :: 0 <= i < j < |manifest| ==> manifest[i].path != manifest[j].path)
  }

  lemma {:induction false} PreparePairs(files: Files, paths: seq<string>, op: string, fault: nat -> Fault, writes: nat)
    ensures var r := Prepare(files, paths, op, fault, writes);
      && Paired(r.files, r.manifest, op)
      && (forall i :: 0 <= i < |r.manifest| ==> r.manifest[i].backup !in files)
    decreases |paths|
  {
    if paths != [] {
      var p, b := paths[0], BackupOf(paths[0], op);
      if IsAbsolute(p) && p !in files {
        PreparePairs(files, paths[1..], op, fault, writes);
      } else if IsAbsolute(p) && b !in files && fault(writes) == Fine {
        var mid := files[b := files[p]];
        var rest := Prepare(mid, paths[1..], op, fault, writes + 1);
        PreparePairs(mid, paths[1..], op, fault, writes + 1);
        PrepareAdds(mid, paths[1..], op, fault, writes + 1);
        PairedCons(rest.files, Entry(p, b), rest.manifest, op);
      }
    }
  }

  lemma PairedCons(files: Files, e: Entry, rest: seq<Entry>, op: string)
    requires Paired(files, rest, op)
    requires e.backup == BackupOf(e.path, op) && e.path in files && e.backup in files
    requires files[e.path] == files[e.backup]
    requires forall i :: 0 <= i < |rest| ==> rest[i].backup != e.backup
    ensures Paired(files, [e] + rest, op)
  {
    var m := [e] + rest;
    assert forall i :: 0 < i < |m| ==> m[i] == rest[i - 1];
  }

  /** A path and its backup that are both targets come in that order. */
  lemma {:induction false} PrepareOrders(files: Files, paths: seq<string>, op: string, fault: nat -> Fault,
                                         writes: nat, i: nat, j: nat)
    requires var r := Prepare(files, paths, op, fault, writes);
      !r.raised && i < |r.manifest| && j < |r.manifest| && r.manifest[j].path == BackupOf(r.manifest[i].path, op)
    ensures i < j
    ensures var m := Prepare(files, paths, op, fault, writes).manifest;
            Lists(paths, m[i].path, m[j].path)
    decreases |paths|
  {
    var p, b := paths[0], BackupOf(paths[0], op);
    var r := Prepare(files, paths, op, fault, writes);
    if p !in files {
      PrepareOrders(files, paths[1..], op, fault, writes, i, j);
      ListsLater(paths, r.manifest[i].path, r.manifest[j].path);
    } else {
      var mid := files[b := files[p]];
      var rest := Prepare(mid, paths[1..], op, fault, writes + 1);
      assert r.manifest == [Entry(p, b)] + rest.manifest;
      PreparePairs(mid, paths[1..], op, fault, writes + 1);
      assert |BackupOf(r.manifest[i].path, op)| > |r.manifest[i].path|;
      if i == 0 {
        assert r.manifest[j] == rest.manifest[j - 1];
        ListedPath(mid, paths[1..], op, fault, writes + 1, j - 1);
        var k :| 0 <= k < |paths[1..]| && paths[1..][k] == r.manifest[j].path;
        assert paths[0] == r.manifest[i].path && paths[k + 1] == r.manifest[j].path;
      } else {
        assert r.manifest[i] == rest.manifest[i - 1];
        assert rest.manifest[i - 1].backup !in mid;
        PrepareOrders(mid, paths[1..], op, fault, writes + 1, i - 1, j - 1);
        ListsLater(paths, r.manifest[i].path, r.manifest[j].path);
      }
    }
  }

  /** `a` is listed before `b`. */
  ghost predicate Lists(paths: seq<string>, a: string, b: string) {
    exists i, j :: 0 <= i < j < |paths| && paths[i] == a && paths[j] == b
  }

  lemma ListsLater(paths: seq<string>, a: string, b: string)
    requires paths != [] && Lists(paths[1..], a, b)
    ensures Lists(paths, a, b)
  {
    var i, j :| 0 <= i < j < |paths[1..]| && paths[1..][i] == a && paths[1..][j] == b;
    assert paths[i + 1] == a && paths[j + 1] == b;
  }

  lemma {:induction false} ListedPath(files: Files, paths: seq<string>, op: string, fault: nat -> Fault, writes: nat,
                                      k: nat)
    requires k < |Prepare(files, paths, op, fault, writes).manifest|
    ensures Prepare(files, paths, op, fault, writes).manifest[k].path in paths
    decreases |paths|
  {
    var p, b := paths[0], BackupOf(paths[0], op);
    if p !in files {
      ListedPath(files, paths[1..], op, fault, writes, k);
    } else if k > 0 {
      ListedPath(files[b := files[p]], paths[1..], op, fault, writes + 1, k - 1);
    }
  }

  // ---- what restoring leaves ----

  ghost predicate AllThere(files: Files, manifest: seq<Entry>) {
    && (forall i :: 0 <= i < |manifest| ==> manifest[i].path in files && manifest[i].backup in files)
    && (forall i, j :: 0 <= i < j < |manifest| ==> manifest[i].path != manifest[j].path)
  }

  lemma RestoreStep(files: Files, manifest: seq<Entry>)
    requires manifest != [] && AllThere(files, manifest)
    ensures var next := files[manifest[0].path := files[manifest[0].backup]];
            Restore(files, manifest) == Restore(next, manifest[1..]) && AllThere(next, manifest[1..])
  {
    var e := manifest[0];
    var next := files[e.path := files[e.backup]];
    assert next == if files[e.path] != files[e.backup] then next else files;
    assert forall i :: 0 <= i < |manifest[1..]| ==> manifest[1..][i] == manifest[i + 1];
  }

  /** Restoring touches only the listed paths. */
  lemma {:induction false} RestoreTouches(files: Files, manifest: seq<Entry>)
    requires AllThere(files, manifest)
    ensures var r := Restore(files, manifest);
      && r.Keys == files.Keys
      && (forall q :: q in files && !OnManifest(manifest, q) ==> r[q] == files[q])
    decreases |manifest|
  {
    if manifest != [] {
      var next := files[manifest[0].path := files[manifest[0].backup]];
      RestoreStep(files, manifest);
      RestoreTouches(next, manifest[1..]);
      forall q ensures OnManifest(manifest, q) <==> manifest[0].path == q || OnManifest(manifest[1..], q) {
        OnManifestTail(manifest, q);
      }
    }
  }

  /** A listed path ends with the text its backup had, if the backup is not itself
      restored before it. */
  lemma {:induction false} RestoreGives(files: Files, manifest: seq<Entry>, k: nat)
    requires AllThere(files, manifest) && k < |manifest|
    requires forall j :: 0 <= j <= k ==> manifest[j].path != manifest[k].backup
    ensures var r := Restore(files, manifest); manifest[k].path in r && r[manifest[k].path] == files[manifest[k].backup]
    decreases |manifest|
  {
    var next := files[manifest[0].path := files[manifest[0].backup]];
    RestoreStep(files, manifest);
    assert forall i :: 0 <= i < |manifest[1..]| ==> manifest[1..][i] == manifest[i + 1];
    if k == 0 {
      RestoreTouches(next, manifest[1..]);
      assert !OnManifest(manifest[1..], manifest[0].path);
    } else {
      RestoreGives(next, manifest[1..], k - 1);
    }
  }

  /** Where every pair agrees, restoring changes nothing. */
  lemma {:induction false} RestoreNothing(files: Files, manifest: seq<Entry>, op: string)
    requires Paired(files, manifest, op)
    ensures Restore(files, manifest) == files
    decreases |manifest|
  {
    if manifest != [] {
      assert forall i :: 0 <= i < |manifest[1..]| ==> manifest[1..][i] == manifest[i + 1];
      RestoreNothing(files, manifest[1..], op);
    }
  }

  // ---- what replacing leaves, raised or not ----

  /** Every file is as it was or rewritten. */
  lemma {:induction false} ReplaceRewritesOrNot(files: Files, manifest: seq<Entry>, plan: Plan, fault: nat -> Fault,
                                                writes: nat, q: string)
    requires DistinctTargets(files, manifest) && q in files
    ensures var r := ReplaceAll(files, manifest, plan, fault, writes);
            q in r.files && (r.files[q] == files[q] || r.files[q] == Rewrite(files[q], plan.key, plan.newValue))
    decreases |manifest|
  {
    if manifest != [] {
      var p := manifest[0].path;
      var next := files[p := Rewrite(files[p], plan.key, plan.newValue)];
      assert forall i :: 0 <= i < |manifest[1..]| ==> manifest[1..][i] == manifest[i + 1];
      if p == q {
        ReplaceTouches(next, manifest[1..], plan, fault, writes + 1);
        assert !OnManifest(manifest[1..], p);
      } else {
        ReplaceRewritesOrNot(next, manifest[1..], plan, fault, writes + 1, q);
      }
    }
  }

  // ---- a failing rotation ----

  /** An existing target whose backup is a later target, and which the rotation would
      change. */
  ghost predicate Harmful(files: Files, plan: Plan, i: nat, j: nat) {
    && i < j < |plan.changedPaths| && plan.changedPaths[i] in files
    && plan.changedPaths[j] == BackupOf(plan.changedPaths[i], plan.operationId)
    && Rewrite(files[plan.changedPaths[i]], plan.key, plan.newValue) != files[plan.changedPaths[i]]
  }

  /** Not a backup that the rotation may have made: there before, or not named like one. */
  ghost predicate Kept(files: Files, plan: Plan, q: string) {
    q in files || !IsBackupName(plan.changedPaths, plan.operationId, q)
  }

  /** No rewriting of `q` can reach its backup. */
  ghost predicate Unharmed(files: Files, plan: Plan, q: string) {
    forall i: nat, j: nat :: Harmful(files, plan, i, j) ==> plan.changedPaths[i] != q
  }

  /** Preparing would be refused, or no target harms the recovery. */
  ghost predicate Recoverable(files: Files, plan: Plan) {
    || Prepare(files, plan.changedPaths, plan.operationId, Quiet, 0).raised
    || forall i: nat, j: nat :: !Harmful(files, plan, i, j)
  }

  /** Preparing is the same until a write raises. */
  lemma {:induction false} PrepareQuietly(files: Files, paths: seq<string>, op: string, fault: nat -> Fault,
                                          writes: nat)
    requires !Prepare(files, paths, op, fault, writes).raised
    ensures Prepare(files, paths, op, Quiet, writes) == Prepare(files, paths, op, fault, writes)
    decreases |paths|
  {
    if paths != [] {
      var p, b := paths[0], BackupOf(paths[0], op);
      if p !in files { PrepareQuietly(files, paths[1..], op, fault, writes); }
      else { PrepareQuietly(files[b := files[p]], paths[1..], op, fault, writes + 1); }
    }
  }

  /** Where a listed path ends after a failed replacement. */
  lemma FailedTarget(files: Files, plan: Plan, fault: nat -> Fault, k: nat)
    requires var prep := Prepare(files, plan.changedPaths, plan.operationId, fault, 0);
      !prep.raised && k < |prep.manifest| && Apply(files, plan, fault).1.None?
    ensures var prep := Prepare(files, plan.changedPaths, plan.operationId, fault, 0);
            var rep := ReplaceAll(prep.files, prep.manifest, plan, fault, prep.writes);
            var e, after := prep.manifest[k], Apply(files, plan, fault).0;
      && e.backup in rep.files && e.path in after && after[e.path] == rep.files[e.backup]
  {
    var prep := Prepare(files, plan.changedPaths, plan.operationId, fault, 0);
    var rep := ReplaceAll(prep.files, prep.manifest, plan, fault, prep.writes);
    PreparePairs(files, plan.changedPaths, plan.operationId, fault, 0);
    ReplaceTouches(prep.files, prep.manifest, plan, fault, prep.writes);
    forall j | 0 <= j <= k ensures prep.manifest[j].path != prep.manifest[k].backup {
      if prep.manifest[j].path == prep.manifest[k].backup {
        PrepareOrders(files, plan.changedPaths, plan.operationId, fault, 0, k, j);
      }
    }
    RestoreGives(rep.files, prep.manifest, k);
  }

  /** The text a target's backup has after a failed replacement: the original, unless
      the backup is itself a later target that the rotation changes. */
  lemma BackupKeepsText(files: Files, plan: Plan, fault: nat -> Fault, k: nat)
    requires var prep := Prepare(files, plan.changedPaths, plan.operationId, fault, 0);
      !prep.raised && k < |prep.manifest| && prep.manifest[k].path in files
    requires Unharmed(files, plan, Prepare(files, plan.changedPaths, plan.operationId, fault, 0).manifest[k].path)
    ensures var prep := Prepare(files, plan.changedPaths, plan.operationId, fault, 0);
            var rep := ReplaceAll(prep.files, prep.manifest, plan, fault, prep.writes);
            var e := prep.manifest[k];
      && e.backup in rep.files && rep.files[e.backup] == files[e.path]
  {
    var prep := Prepare(files, plan.changedPaths, plan.operationId, fault, 0);
    var e := prep.manifest[k];
    PreparePairs(files, plan.changedPaths, plan.operationId, fault, 0);
    PrepareAdds(files, plan.changedPaths, plan.operationId, fault, 0);
    ReplaceTouches(prep.files, prep.manifest, plan, fault, prep.writes);
    if OnManifest(prep.manifest, e.backup) {
      var j :| 0 <= j < |prep.manifest| && prep.manifest[j].path == e.backup;
      PrepareOrders(files, plan.changedPaths, plan.operationId, fault, 0, k, j);
      var a, b :| 0 <= a < b < |plan.changedPaths| && plan.changedPaths[a] == e.path
          && plan.changedPaths[b] == e.backup;
      assert !Harmful(files, plan, a, b);
      ReplaceRewritesOrNot(prep.files, prep.manifest, plan, fault, prep.writes, e.backup);
    }
  }

  /** A rotation that fails while preparing restores nothing, having nothing to. */
  lemma FailedPreparing(files: Files, plan: Plan, fault: nat -> Fault, q: string)
    requires Prepare(files, plan.changedPaths, plan.operationId, fault, 0).raised
    requires Kept(files, plan, q)
    ensures SameAt(files, Apply(files, plan, fault).0, q)
  {
    var prep := Prepare(files, plan.changedPaths, plan.operationId, fault, 0);
    PrepareAdds(files, plan.changedPaths, plan.operationId, fault, 0);
    PreparePairs(files, plan.changedPaths, plan.operationId, fault, 0);
    RestoreNothing(prep.files, prep.manifest, plan.operationId);
  }

  /** One that fails while replacing restores every unharmed path. */
  lemma FailedReplacing(files: Files, plan: Plan, fault: nat -> Fault, q: string)
    requires !Prepare(files, plan.changedPaths, plan.operationId, fault, 0).raised && Apply(files, plan, fault).1.None?
    requires Unharmed(files, plan, q) && Kept(files, plan, q)
    ensures SameAt(files, Apply(files, plan, fault).0, q)
  {
    var prep := Prepare(files, plan.changedPaths, plan.operationId, fault, 0);
    PrepareAdds(files, plan.changedPaths, plan.operationId, fault, 0);
    if k: nat :| k < |prep.manifest| && prep.manifest[k].path == q {
      ListedWasThere(files, plan, fault, k);
      BackupKeepsText(files, plan, fault, k);
      FailedTarget(files, plan, fault, k);
    } else {
      FailedElsewhere(files, plan, fault, q);
    }
  }

  lemma ListedWasThere(files: Files, plan: Plan, fault: nat -> Fault, k: nat)
    requires k < |Prepare(files, plan.changedPaths, plan.operationId, fault, 0).manifest|
    ensures var q := Prepare(files, plan.changedPaths, plan.operationId, fault, 0).manifest[k].path;
            q in files || IsBackupName(plan.changedPaths, plan.operationId, q)
  {
    PreparePairs(files, plan.changedPaths, plan.operationId, fault, 0);
    PrepareAdds(files, plan.changedPaths, plan.operationId, fault, 0);
  }

  lemma FailedElsewhere(files: Files, plan: Plan, fault: nat -> Fault, q: string)
    requires var prep := Prepare(files, plan.changedPaths, plan.operationId, fault, 0);
      !prep.raised && !OnManifest(prep.manifest, q) && Apply(files, plan, fault).1.None?
    requires Kept(files, plan, q)
    ensures SameAt(files, Apply(files, plan, fault).0, q)
  {
    var prep := Prepare(files, plan.changedPaths, plan.operationId, fault, 0);
    PrepareAdds(files, plan.changedPaths, plan.operationId, fault, 0);
    PreparePairs(files, plan.changedPaths, plan.operationId, fault, 0);
    ReplaceTouches(prep.files, prep.manifest, plan, fault, prep.writes);
    RestoreTouches(ReplaceAll(prep.files, prep.manifest, plan, fault, prep.writes).files, prep.manifest);
  }

  /** Main result, the "nothing" half: from a recoverable state a failing rotation,
      whichever write raised and whether before or after its rename, leaves every file
      there was as it was, and adds none but backups. */
  lemma FailedRotationChangesNothing(files: Files, plan: Plan, fault: nat -> Fault, q: string)
    requires Recoverable(files, plan)
    requires Apply(files, plan, fault).1.None?
    requires Kept(files, plan, q)
    ensures SameAt(files, Apply(files, plan, fault).0, q)
  {
    if Prepare(files, plan.changedPaths, plan.operationId, fault, 0).raised {
      FailedPreparing(files, plan, fault, q);
    } else {
      PrepareQuietly(files, plan.changedPaths, plan.operationId, fault, 0);
      assert Unharmed(files, plan, q);
      FailedReplacing(files, plan, fault, q);
    }
  }

  lemma {:induction false} PrepareCountsWrites(files: Files, paths: seq<string>, op: string, fault: nat -> Fault,
                                               writes: nat)
    ensures writes <= Prepare(files, paths, op, fault, writes).writes
    decreases |paths|
  {
    if paths != [] {
      var p, b := paths[0], BackupOf(paths[0], op);
      if p !in files { PrepareCountsWrites(files, paths[1..], op, fault, writes); }
      else { PrepareCountsWrites(files[b := files[p]], paths[1..], op, fault, writes + 1); }
    }
  }

  /** Preparing asks only about its own writes. */
  lemma {:induction false} PrepareUntil(files: Files, paths: seq<string>, op: string, fault: nat -> Fault, writes: nat)
    requires forall n :: writes <= n < Prepare(files, paths, op, Quiet, writes).writes ==> fault(n) == Fine
    ensures Prepare(files, paths, op, fault, writes) == Prepare(files, paths, op, Quiet, writes)
    decreases |paths|
  {
    if paths != [] {
      var p, b := paths[0], BackupOf(paths[0], op);
      if IsAbsolute(p) && p !in files {
        PrepareUntil(files, paths[1..], op, fault, writes);
      } else if IsAbsolute(p) && b !in files {
        PrepareCountsWrites(files[b := files[p]], paths[1..], op, Quiet, writes + 1);
        PrepareUntil(files[b := files[p]], paths[1..], op, fault, writes + 1);
      }
    }
  }

  /** Raising after the rename of target `k` leaves that target rewritten. */
  lemma {:induction false} ReplaceRaisesAt(files: Files, manifest: seq<Entry>, plan: Plan, fault: nat -> Fault,
                                           writes: nat, k: nat)
    requires DistinctTargets(files, manifest) && k < |manifest|
    requires (forall n :: writes <= n < writes + k ==> fault(n) == Fine) && fault(writes + k) == AfterRename
    ensures var r, p := ReplaceAll(files, manifest, plan, fault, writes), manifest[k].path;
            r.raised && p in r.files && r.files[p] == Rewrite(files[p], plan.key, plan.newValue)
    decreases |manifest|
  {
    if k > 0 {
      var p := manifest[0].path;
      var next := files[p := Rewrite(files[p], plan.key, plan.newValue)];
      assert forall i :: 0 <= i < |manifest[1..]| ==> manifest[1..][i] == manifest[i + 1];
      ReplaceRaisesAt(next, manifest[1..], plan, fault, writes + 1, k - 1);
    }
  }

  /** Raising right after target `j` was replaced loses target `i`: both then hold the
      new text, so the comparison finds nothing to restore. */
  lemma HarmIsDone(files: Files, plan: Plan, i: nat, j: nat) returns (fault: nat -> Fault)
    requires !Prepare(files, plan.changedPaths, plan.operationId, Quiet, 0).raised && Harmful(files, plan, i, j)
    ensures Apply(files, plan, fault).1.None? && !SameAt(files, Apply(files, plan, fault).0, plan.changedPaths[i])
  {
    var paths, op := plan.changedPaths, plan.operationId;
    var prep := Prepare(files, paths, op, Quiet, 0);
    PrepareListsPresent(files, paths, op, Quiet, 0, i);
    PrepareListsAlias(files, paths, op, Quiet, 0, i, j);
    PreparePairs(files, paths, op, Quiet, 0);
    PrepareAdds(files, paths, op, Quiet, 0);
    var a: nat :| a < |prep.manifest| && Paths(prep.manifest)[a] == paths[i];
    var b: nat :| b < |prep.manifest| && Paths(prep.manifest)[b] == paths[j];
    fault := (n: nat) => if n == prep.writes + b then AfterRename else Fine;
    PrepareUntil(files, paths, op, fault, 0);
    ReplaceRaisesAt(prep.files, prep.manifest, plan, fault, prep.writes, b);
    FailedTarget(files, plan, fault, a);
  }

  /** A failing rotation never changes a file there was, nor adds any but backups. */
  ghost predicate NothingOnFailure(files: Files, plan: Plan) {
    forall fault: nat -> Fault, q: string ::
      Apply(files, plan, fault).1.None? && Kept(files, plan, q) ==> SameAt(files, Apply(files, plan, fault).0, q)
  }

  lemma RecoverableSuffices(files: Files, plan: Plan)
    requires Recoverable(files, plan)
    ensures NothingOnFailure(files, plan)
  {
    forall fault: nat -> Fault, q: string | Apply(files, plan, fault).1.None? && Kept(files, plan, q)
      ensures SameAt(files, Apply(files, plan, fault).0, q)
    {
      FailedRotationChangesNothing(files, plan, fault, q);
    }
  }

  lemma HarmSuffices(files: Files, plan: Plan, i: nat, j: nat)
    requires !Prepare(files, plan.changedPaths, plan.operationId, Quiet, 0).raised && Harmful(files, plan, i, j)
    ensures !NothingOnFailure(files, plan)
  {
    var fault := HarmIsDone(files, plan, i, j);
    assert Kept(files, plan, plan.changedPaths[i]);
  }

  /** Main result, exact: failing changes nothing, whatever fails, if and only if the
      state is recoverable. */
  lemma FailedRotationExact(files: Files, plan: Plan)
    ensures NothingOnFailure(files, plan) <==> Recoverable(files, plan)
  {
    if Recoverable(files, plan) {
      RecoverableSuffices(files, plan);
    } else {
      var i: nat, j: nat :| Harmful(files, plan, i, j);
      HarmSuffices(files, plan, i, j);
    }
  }

  /** The smallest case: raising after the rename of the second target leaves "/a"
      rewritten, because its backup was rewritten to the same text. */
  lemma AliasedFailureKeepsNewText(text: string) returns (fault: nat -> Fault)
    requires Rewrite(text, "K", "v") != text
    ensures var plan := Plan("K", "v", ["/a", BackupOf("/a", "1")], "1");
            var (files, r) := Apply(map["/a" := text], plan, fault);
            r.None? && !SameAt(map["/a" := text], files, "/a")
  {
    var a, alias := "/a", BackupOf("/a", "1");
    assert |a| < |alias| < |BackupOf(alias, "1")| && alias[0] == '/';
    var plan := Plan("K", "v", [a, alias], "1");
    AliasedPrepare(a, alias, BackupOf(alias, "1"), text, Quiet);
    assert Harmful(map[a := text], plan, 0, 1);
    fault := HarmIsDone(map[a := text], plan, 0, 1);
  }

  /** And where the target left rewritten is itself named like a backup, of a target
      that is not there. */
  lemma AliasedBackupNameKeepsNewText(text: string) returns (fault: nat -> Fault)
    requires Rewrite(text, "K", "v") != text
    ensures var b := BackupOf("/a", "1");
            var plan := Plan("K", "v", ["/a", b, BackupOf(b, "1")], "1");
            var (files, r) := Apply(map[b := text], plan, fault);
            r.None? && !SameAt(map[b := text], files, b) && Kept(map[b := text], plan, b)
  {
    var a, b := "/a", BackupOf("/a", "1");
    var second := BackupOf(b, "1");
    assert |a| < |b| < |second| < |BackupOf(second, "1")| && b[0] == '/' && second[0] == '/';
    var files, plan := map[b := text], Plan("K", "v", [a, b, second], "1");
    assert [a, b, second][1..] == [b, second];
    AliasedPrepare(b, second, BackupOf(second, "1"), text, Quiet);
    assert Prepare(files, [a, b, second], "1", Quiet, 0) == Prepare(files, [b, second], "1", Quiet, 0);
    assert Harmful(files, plan, 1, 2);
    fault := HarmIsDone(files, plan, 1, 2);
  }

  // ---- rolling back a completed rotation ----

  lemma {:induction false} PrepareAddsBackups(files: Files, paths: seq<string>, op: string, fault: nat -> Fault,
                                              writes: nat)
    requires !Prepare(files, paths, op, fault, writes).raised
    ensures var r := Prepare(files, paths, op, fault, writes);
            forall q :: q in r.files && q !in files ==> q in Backups(r.manifest)
    decreases |paths|
  {
    if paths != [] {
      var p, b := paths[0], BackupOf(paths[0], op);
      if p !in files {
        PrepareAddsBackups(files, paths[1..], op, fault, writes);
      } else {
        var rest := Prepare(files[b := files[p]], paths[1..], op, fault, writes + 1);
        PrepareAddsBackups(files[b := files[p]], paths[1..], op, fault, writes + 1);
        assert Backups([Entry(p, b)] + rest.manifest) == [b] + Backups(rest.manifest);
      }
    }
  }

  ghost predicate Pairs(files: Files, changed: seq<string>, backups: seq<string>) {
    && |changed| == |backups|
    && (forall i :: 0 <= i < |backups| ==> backups[i] in files)
    && (forall i, j :: 0 <= i < j < |changed| ==> changed[i] != changed[j])
  }

  lemma {:induction false} UnwindTouches(files: Files, changed: seq<string>, backups: seq<string>, q: string)
    requires Pairs(files, changed, backups) && q !in changed
    ensures SameAt(files, Unwind(files, changed, backups), q)
    decreases |changed|
  {
    if changed != [] {
      UnwindTouches(files[changed[0] := files[backups[0]]], changed[1..], backups[1..], q);
    }
  }

  /** A path ends with the text of its backup, unless that was overwritten first. */
  lemma {:induction false} UnwindGives(files: Files, changed: seq<string>, backups: seq<string>, k: nat)
    requires Pairs(files, changed, backups) && k < |changed|
    requires forall j :: 0 <= j <= k ==> changed[j] != backups[k]
    ensures var r := Unwind(files, changed, backups); changed[k] in r && r[changed[k]] == files[backups[k]]
    decreases |changed|
  {
    var next := files[changed[0] := files[backups[0]]];
    if k == 0 {
      assert changed[0] !in changed[1..];
      UnwindTouches(next, changed[1..], backups[1..], changed[0]);
    } else {
      UnwindGives(next, changed[1..], backups[1..], k - 1);
    }
  }

  /** None of the rotated paths and their backups is a symbolic link. */
  ghost predicate NoLinks(links: set<string>, done: Applied) {
    forall q :: q in done.changedPaths || q in done.backupPaths ==> q !in links
  }

  /** The manifest of a completed rotation is accepted. */
  lemma RollbackAccepts(files: Files, plan: Plan, fault: nat -> Fault, links: set<string>)
    requires Apply(files, plan, fault).1.Some? && NoLinks(links, Apply(files, plan, fault).1.value)
    ensures var (after, done) := Apply(files, plan, fault);
            var (c, b) := (done.value.changedPaths, done.value.backupPaths);
      && Pairs(after, c, b) && Rollback(after, links, c, b) == (Unwind(after, c, b), Some(c))
  {
    var prep := Prepare(files, plan.changedPaths, plan.operationId, fault, 0);
    var (after, done) := Apply(files, plan, fault);
    CompletedReport(files, plan, fault);
    PreparePairs(files, plan.changedPaths, plan.operationId, fault, 0);
    PrepareAbsolute(files, plan.changedPaths, plan.operationId, fault, 0);
    ReplaceTouches(prep.files, prep.manifest, plan, fault, prep.writes);
    forall i | 0 <= i < |prep.manifest|
      ensures Restorable(after, links, done.value.changedPaths[i], done.value.backupPaths[i])
    {
      ListedPath(files, plan.changedPaths, plan.operationId, fault, 0, i);
      assert prep.manifest[i] == Entry(done.value.changedPaths[i], done.value.backupPaths[i]);
      assert prep.manifest[i].backup[0] == prep.manifest[i].path[0];
    }
    forall i, j | 0 <= i < j < |prep.manifest| ensures done.value.changedPaths[i] != done.value.changedPaths[j] {
      assert prep.manifest[i].path != prep.manifest[j].path;
    }
  }

  /** Where a rotated path ends after rollback. */
  lemma RolledBackTarget(files: Files, plan: Plan, fault: nat -> Fault, links: set<string>, k: nat)
    requires Apply(files, plan, fault).1.Some? && NoLinks(links, Apply(files, plan, fault).1.value)
    requires k < |Prepare(files, plan.changedPaths, plan.operationId, fault, 0).manifest|
    ensures var (after, done) := Apply(files, plan, fault);
            var back := Rollback(after, links, done.value.changedPaths, done.value.backupPaths).0;
            var e := Prepare(files, plan.changedPaths, plan.operationId, fault, 0).manifest[k];
            e.backup in after && e.path in back && back[e.path] == after[e.backup]
  {
    var prep := Prepare(files, plan.changedPaths, plan.operationId, fault, 0);
    var (after, done) := Apply(files, plan, fault);
    RollbackAccepts(files, plan, fault, links);
    CompletedReport(files, plan, fault);
    PreparePairs(files, plan.changedPaths, plan.operationId, fault, 0);
    assert forall i :: 0 <= i < |prep.manifest| ==>
          prep.manifest[i] == Entry(done.value.changedPaths[i], done.value.backupPaths[i]);
    forall j | 0 <= j <= k ensures done.value.changedPaths[j] != done.value.backupPaths[k] {
      if prep.manifest[j].path == prep.manifest[k].backup {
        PrepareOrders(files, plan.changedPaths, plan.operationId, fault, 0, k, j);
      }
    }
    UnwindGives(after, done.value.changedPaths, done.value.backupPaths, k);
  }

  /** Rolling a completed rotation back leaves nothing changed but its backups. */
  ghost predicate Undone(files: Files, plan: Plan, fault: nat -> Fault, links: set<string>)
    requires Apply(files, plan, fault).1.Some?
  {
    var (after, done) := Apply(files, plan, fault);
    var back := Rollback(after, links, done.value.changedPaths, done.value.backupPaths).0;
    forall q :: q !in done.value.backupPaths ==> SameAt(files, back, q)
  }

  lemma HarmIsNotUndone(files: Files, plan: Plan, fault: nat -> Fault, links: set<string>, i: nat, j: nat)
    requires Apply(files, plan, fault).1.Some? && Harmful(files, plan, i, j)
    requires NoLinks(links, Apply(files, plan, fault).1.value)
    ensures !Undone(files, plan, fault, links)
  {
    var paths, op := plan.changedPaths, plan.operationId;
    var prep := Prepare(files, paths, op, fault, 0);
    var (after, done) := Apply(files, plan, fault);
    PrepareListsPresent(files, paths, op, fault, 0, i);
    PrepareListsAlias(files, paths, op, fault, 0, i, j);
    PreparePairs(files, paths, op, fault, 0);
    PrepareAdds(files, paths, op, fault, 0);
    var a: nat :| a < |prep.manifest| && Paths(prep.manifest)[a] == paths[i];
    var b: nat :| b < |prep.manifest| && Paths(prep.manifest)[b] == paths[j];
    ReplaceRewrites(prep.files, prep.manifest, plan, fault, prep.writes, b);
    RolledBackTarget(files, plan, fault, links, a);
    CompletedReport(files, plan, fault);
    assert paths[i] !in done.value.backupPaths;
  }

  /** Paths that were not rotated are left alone, by the rotation and the rollback. */
  lemma RotatedElsewhere(files: Files, plan: Plan, fault: nat -> Fault, q: string)
    requires Apply(files, plan, fault).1.Some?
    requires !OnManifest(Prepare(files, plan.changedPaths, plan.operationId, fault, 0).manifest, q)
    requires q !in Apply(files, plan, fault).1.value.backupPaths
    ensures SameAt(files, Apply(files, plan, fault).0, q) && q !in Apply(files, plan, fault).1.value.changedPaths
  {
    var prep := Prepare(files, plan.changedPaths, plan.operationId, fault, 0);
    PrepareAdds(files, plan.changedPaths, plan.operationId, fault, 0);
    PrepareAddsBackups(files, plan.changedPaths, plan.operationId, fault, 0);
    PreparePairs(files, plan.changedPaths, plan.operationId, fault, 0);
    ReplaceTouches(prep.files, prep.manifest, plan, fault, prep.writes);
    ReplaceReports(prep.files, prep.manifest, plan, fault, prep.writes);
  }

  lemma RolledBackElsewhere(files: Files, plan: Plan, fault: nat -> Fault, links: set<string>, q: string)
    requires Apply(files, plan, fault).1.Some? && q !in Apply(files, plan, fault).1.value.changedPaths
    requires NoLinks(links, Apply(files, plan, fault).1.value)
    ensures var (after, done) := Apply(files, plan, fault);
            SameAt(after, Rollback(after, links, done.value.changedPaths, done.value.backupPaths).0, q)
  {
    var (after, done) := Apply(files, plan, fault);
    RollbackAccepts(files, plan, fault, links);
    UnwindTouches(after, done.value.changedPaths, done.value.backupPaths, q);
  }

  /** What is listed and is not one of the backups was there before. */
  lemma RotatedWasThere(files: Files, plan: Plan, fault: nat -> Fault, k: nat)
    requires Apply(files, plan, fault).1.Some?
    requires k < |Prepare(files, plan.changedPaths, plan.operationId, fault, 0).manifest|
    ensures var q := Prepare(files, plan.changedPaths, plan.operationId, fault, 0).manifest[k].path;
            q in files || q in Apply(files, plan, fault).1.value.backupPaths
  {
    PrepareAddsBackups(files, plan.changedPaths, plan.operationId, fault, 0);
    PreparePairs(files, plan.changedPaths, plan.operationId, fault, 0);
  }

  lemma HarmlessIsUndone(files: Files, plan: Plan, fault: nat -> Fault, links: set<string>, q: string)
    requires Apply(files, plan, fault).1.Some? && Unharmed(files, plan, q)
    requires NoLinks(links, Apply(files, plan, fault).1.value)
    requires q !in Apply(files, plan, fault).1.value.backupPaths
    ensures var (after, done) := Apply(files, plan, fault);
            SameAt(files, Rollback(after, links, done.value.changedPaths, done.value.backupPaths).0, q)
  {
    var prep := Prepare(files, plan.changedPaths, plan.operationId, fault, 0);
    if k: nat :| k < |prep.manifest| && prep.manifest[k].path == q {
      RotatedWasThere(files, plan, fault, k);
      BackupKeepsText(files, plan, fault, k);
      RolledBackTarget(files, plan, fault, links, k);
    } else {
      RotatedElsewhere(files, plan, fault, q);
      RolledBackElsewhere(files, plan, fault, links, q);
    }
  }

  /** A link among the paths or backups refuses the manifest, and nothing changes. */
  lemma RollbackRefuses(files: Files, plan: Plan, fault: nat -> Fault, links: set<string>)
    requires Apply(files, plan, fault).1.Some? && !NoLinks(links, Apply(files, plan, fault).1.value)
    ensures var (after, done) := Apply(files, plan, fault);
            Rollback(after, links, done.value.changedPaths, done.value.backupPaths) == (after, None)
  {
    CompletedReport(files, plan, fault);
  }

  /** Main result, exact: rolling a completed rotation back with its own manifest is
      accepted if and only if no path in it is a symbolic link; it touches only what was
      rotated; and it leaves nothing changed but the backups if and only if no changed
      target's backup is a later target. */
  lemma RotateThenRollBackExact(files: Files, plan: Plan, fault: nat -> Fault, links: set<string>)
    requires Apply(files, plan, fault).1.Some?
    ensures var (after, done) := Apply(files, plan, fault);
            var (back, r) := Rollback(after, links, done.value.changedPaths, done.value.backupPaths);
      && r == (if NoLinks(links, done.value) then Some(done.value.changedPaths) else None)
      && (r.None? ==> back == after)
      && (forall q :: q !in done.value.changedPaths ==> SameAt(after, back, q))
      && (r.Some? ==> (Undone(files, plan, fault, links) <==> forall i: nat, j: nat :: !Harmful(files, plan, i, j)))
  {
    if NoLinks(links, Apply(files, plan, fault).1.value) {
      RollbackAccepts(files, plan, fault, links);
      RolledBackOnly(files, plan, fault, links);
      UndoneExact(files, plan, fault, links);
    } else {
      RollbackRefuses(files, plan, fault, links);
    }
  }

  lemma RolledBackOnly(files: Files, plan: Plan, fault: nat -> Fault, links: set<string>)
    requires Apply(files, plan, fault).1.Some? && NoLinks(links, Apply(files, plan, fault).1.value)
    ensures var (after, done) := Apply(files, plan, fault);
            var back := Rollback(after, links, done.value.changedPaths, done.value.backupPaths).0;
            forall q :: q !in done.value.changedPaths ==> SameAt(after, back, q)
  {
    forall q | q !in Apply(files, plan, fault).1.value.changedPaths
      ensures var (after, done) := Apply(files, plan, fault);
              SameAt(after, Rollback(after, links, done.value.changedPaths, done.value.backupPaths).0, q)
    {
      RolledBackElsewhere(files, plan, fault, links, q);
    }
  }

  lemma UndoneExact(files: Files, plan: Plan, fault: nat -> Fault, links: set<string>)
    requires Apply(files, plan, fault).1.Some? && NoLinks(links, Apply(files, plan, fault).1.value)
    ensures Undone(files, plan, fault, links) <==> forall i: nat, j: nat :: !Harmful(files, plan, i, j)
  {
    if i: nat, j: nat :| Harmful(files, plan, i, j) {
      HarmIsNotUndone(files, plan, fault, links, i, j);
    } else {
      var (after, done) := Apply(files, plan, fault);
      forall q | q !in done.value.backupPaths
        ensures SameAt(files, Rollback(after, links, done.value.changedPaths, done.value.backupPaths).0, q)
      {
        HarmlessIsUndone(files, plan, fault, links, q);
      }
    }
  }

  // ---- a rollback that raises ----

  /** No backup is restored before what it restores. */
  ghost predicate Ordered(changed: seq<string>, backups: seq<string>)
    requires |changed| == |backups|
  {
    forall j, k :: 0 <= j <= k < |changed| ==> changed[j] != backups[k]
  }

  lemma OrderedTail(changed: seq<string>, backups: seq<string>)
    requires |changed| == |backups| && changed != [] && Ordered(changed, backups)
    ensures Ordered(changed[1..], backups[1..])
  {
    forall j, k | 0 <= j <= k < |changed| - 1 ensures changed[1..][j] != backups[1..][k] {
      assert changed[j + 1] != backups[k + 1];
    }
  }

  /** A rollback cut short has touched only the paths it restores. */
  lemma {:induction false} CutTouches(files: Files, changed: seq<string>, backups: seq<string>, fault: nat -> Fault,
                                      n: nat, q: string)
    requires Pairs(files, changed, backups) && q !in changed
    ensures SameAt(files, UnwindUnder(files, changed, backups, fault, n).0, q)
    decreases |changed|
  {
    if changed != [] && fault(n) == Fine {
      CutTouches(files[changed[0] := files[backups[0]]], changed[1..], backups[1..], fault, n + 1, q);
    }
  }

  /** And each of those has its old text or its backup's. */
  lemma {:induction false} CutGives(files: Files, changed: seq<string>, backups: seq<string>, fault: nat -> Fault,
                                    n: nat, k: nat)
    requires Pairs(files, changed, backups) && Ordered(changed, backups) && k < |changed|
    ensures var cut := UnwindUnder(files, changed, backups, fault, n).0;
            SameAt(files, cut, changed[k]) || (changed[k] in cut && cut[changed[k]] == files[backups[k]])
    decreases |changed|
  {
    if fault(n) == Fine {
      var next := files[changed[0] := files[backups[0]]];
      if k == 0 {
        assert changed[0] !in changed[1..];
        CutTouches(next, changed[1..], backups[1..], fault, n + 1, changed[0]);
      } else {
        OrderedTail(changed, backups);
        CutGives(next, changed[1..], backups[1..], fault, n + 1, k - 1);
      }
    }
  }

  lemma {:induction false} CutRaisesAt(files: Files, changed: seq<string>, backups: seq<string>, fault: nat -> Fault,
                                       n: nat, k: nat)
    requires Pairs(files, changed, backups) && Ordered(changed, backups) && k < |changed|
    requires (forall i :: n <= i < n + k ==> fault(i) == Fine) && fault(n + k) == AfterRename
    ensures var cut := UnwindUnder(files, changed, backups, fault, n).0;
            changed[k] in cut && cut[changed[k]] == files[backups[k]]
    decreases |changed|
  {
    if k > 0 {
      OrderedTail(changed, backups);
      CutRaisesAt(files[changed[0] := files[backups[0]]], changed[1..], backups[1..], fault, n + 1, k - 1);
    }
  }

  /** A cut rollback leaves every backup there. */
  lemma CutKeepsPairs(files: Files, changed: seq<string>, backups: seq<string>, fault: nat -> Fault)
    requires Pairs(files, changed, backups) && Ordered(changed, backups)
    ensures Pairs(UnwindUnder(files, changed, backups, fault, 0).0, changed, backups)
  {
    var cut := UnwindUnder(files, changed, backups, fault, 0).0;
    forall j | 0 <= j < |backups| ensures backups[j] in cut {
      if k: nat :| k < |changed| && changed[k] == backups[j] {
        CutGives(files, changed, backups, fault, 0, k);
      } else {
        CutTouches(files, changed, backups, fault, 0, backups[j]);
      }
    }
  }

  /** A restored path that is also a backup holds already what it is restored to. */
  ghost predicate Settled(files: Files, changed: seq<string>, backups: seq<string>)
    requires Pairs(files, changed, backups)
  {
    forall j, k :: 0 <= j < |changed| && 0 <= k < |changed| && changed[j] == backups[k] ==>
      changed[j] in files && files[changed[j]] == files[backups[j]]
  }

  lemma CutKeepsBackup(files: Files, changed: seq<string>, backups: seq<string>, fault: nat -> Fault, k: nat)
    requires Pairs(files, changed, backups) && Ordered(changed, backups) && Settled(files, changed, backups)
    requires k < |changed|
    ensures SameAt(files, UnwindUnder(files, changed, backups, fault, 0).0, backups[k])
  {
    if j: nat :| j < |changed| && changed[j] == backups[k] {
      CutGives(files, changed, backups, fault, 0, j);
    } else {
      CutTouches(files, changed, backups, fault, 0, backups[k]);
    }
  }

  lemma SameFiles(a: Files, b: Files)
    requires forall q :: SameAt(a, b, q)
    ensures a == b
  {
    assert forall q :: q in a ==> SameAt(a, b, q);
    assert forall q :: q in b ==> SameAt(a, b, q);
  }

  lemma SettledRetries(files: Files, changed: seq<string>, backups: seq<string>, fault: nat -> Fault)
    requires Pairs(files, changed, backups) && Ordered(changed, backups) && Settled(files, changed, backups)
    ensures var cut := UnwindUnder(files, changed, backups, fault, 0).0;
            Pairs(cut, changed, backups) && Unwind(cut, changed, backups) == Unwind(files, changed, backups)
  {
    var cut := UnwindUnder(files, changed, backups, fault, 0).0;
    CutKeepsPairs(files, changed, backups, fault);
    forall q ensures SameAt(Unwind(cut, changed, backups), Unwind(files, changed, backups), q) {
      if k: nat :| k < |changed| && changed[k] == q {
        UnwindGives(cut, changed, backups, k);
        UnwindGives(files, changed, backups, k);
        CutKeepsBackup(files, changed, backups, fault, k);
      } else {
        UnwindTouches(cut, changed, backups, q);
        UnwindTouches(files, changed, backups, q);
        CutTouches(files, changed, backups, fault, 0, q);
      }
    }
    SameFiles(Unwind(cut, changed, backups), Unwind(files, changed, backups));
  }

  /** Raising right after an unsettled path was restored makes the retry differ. */
  lemma UnsettledDiffers(files: Files, changed: seq<string>, backups: seq<string>, j: nat, k: nat)
    returns (fault: nat -> Fault)
    requires Pairs(files, changed, backups) && Ordered(changed, backups) && j < |changed| && k < |changed|
    requires changed[j] == backups[k] && files[backups[k]] != files[backups[j]]
    ensures var cut := UnwindUnder(files, changed, backups, fault, 0).0;
            Pairs(cut, changed, backups) && Unwind(cut, changed, backups) != Unwind(files, changed, backups)
  {
    fault := (n: nat) => if n == j then AfterRename else Fine;
    var cut := UnwindUnder(files, changed, backups, fault, 0).0;
    CutKeepsPairs(files, changed, backups, fault);
    CutRaisesAt(files, changed, backups, fault, 0, j);
    UnwindGives(cut, changed, backups, k);
    UnwindGives(files, changed, backups, k);
  }

  /** However a rollback is cut short, rolling back again ends where an undisturbed one
      does. */
  ghost predicate Retries(files: Files, links: set<string>, changed: seq<string>, backups: seq<string>) {
    forall fault: nat -> Fault ::
      Rollback(RollbackUnder(files, links, changed, backups, fault).0, links, changed, backups)
      == Rollback(files, links, changed, backups)
  }

  /** Main result, exact, for any ordered manifest: a cut rollback can be retried if and
      only if every restored path that is also a backup is settled. */
  lemma RollbackRetries(files: Files, links: set<string>, changed: seq<string>, backups: seq<string>)
    requires Acceptable(files, links, changed, backups) && Pairs(files, changed, backups) && Ordered(changed, backups)
    ensures Retries(files, links, changed, backups) <==> Settled(files, changed, backups)
  {
    if Settled(files, changed, backups) {
      forall fault: nat -> Fault
        ensures Rollback(RollbackUnder(files, links, changed, backups, fault).0, links, changed, backups)
             == Rollback(files, links, changed, backups)
      {
        SettledRetries(files, changed, backups, fault);
      }
    } else {
      var j, k :| 0 <= j < |changed| && 0 <= k < |changed| && changed[j] == backups[k]
                  && files[backups[k]] != files[backups[j]];
      var fault := UnsettledDiffers(files, changed, backups, j, k);
      var cut := RollbackUnder(files, links, changed, backups, fault).0;
      assert Rollback(cut, links, changed, backups) != Rollback(files, links, changed, backups);
    }
  }

  // ---- retrying the rollback of a completed rotation ----

  /** The text a rotated path had once prepared, of which it is now the rewriting. */
  function Prior(files: Files, plan: Plan, fault: nat -> Fault, k: nat): string
    requires k < |Prepare(files, plan.changedPaths, plan.operationId, fault, 0).manifest|
  {
    var prep := Prepare(files, plan.changedPaths, plan.operationId, fault, 0);
    var p := prep.manifest[k].path;
    if p in prep.files then prep.files[p] else ""
  }

  /** Entry `k`'s backup is entry `j`'s path. */
  predicate Linked(files: Files, plan: Plan, fault: nat -> Fault, k: nat, j: nat) {
    var m := Prepare(files, plan.changedPaths, plan.operationId, fault, 0).manifest;
    k < |m| && j < |m| && m[j].path == m[k].backup
  }

  lemma LinkedFacts(files: Files, plan: Plan, fault: nat -> Fault, k: nat, j: nat)
    requires Apply(files, plan, fault).1.Some? && Linked(files, plan, fault, k, j)
    ensures k < j && Prior(files, plan, fault, k) == Prior(files, plan, fault, j)
    ensures var m := Prepare(files, plan.changedPaths, plan.operationId, fault, 0).manifest;
            Lists(plan.changedPaths, m[k].path, m[j].path) && m[j].path == BackupOf(m[k].path, plan.operationId)
  {
    PreparePairs(files, plan.changedPaths, plan.operationId, fault, 0);
    PrepareOrders(files, plan.changedPaths, plan.operationId, fault, 0, k, j);
  }

  /** Linked entries that the rotation changes come from a harmful pair of targets. */
  lemma {:induction false} HarmTraces(files: Files, plan: Plan, fault: nat -> Fault, k: nat, j: nat)
    requires Apply(files, plan, fault).1.Some? && Linked(files, plan, fault, k, j)
    requires forall a: nat, b: nat :: !Harmful(files, plan, a, b)
    ensures Rewrite(Prior(files, plan, fault, k), plan.key, plan.newValue) == Prior(files, plan, fault, k)
    decreases k
  {
    var prep := Prepare(files, plan.changedPaths, plan.operationId, fault, 0);
    LinkedFacts(files, plan, fault, k, j);
    PreparePairs(files, plan.changedPaths, plan.operationId, fault, 0);
    if prep.manifest[k].path in files {
      PrepareAdds(files, plan.changedPaths, plan.operationId, fault, 0);
      var a, b :| 0 <= a < b < |plan.changedPaths|
                  && plan.changedPaths[a] == prep.manifest[k].path && plan.changedPaths[b] == prep.manifest[j].path;
      assert !Harmful(files, plan, a, b);
    } else {
      PrepareAddsBackups(files, plan.changedPaths, plan.operationId, fault, 0);
      var m: nat :| m < |prep.manifest| && Backups(prep.manifest)[m] == prep.manifest[k].path;
      LinkedFacts(files, plan, fault, m, k);
      HarmTraces(files, plan, fault, m, k);
    }
  }

  /** The last link of a chain. */
  lemma {:induction false} LastLink(files: Files, plan: Plan, fault: nat -> Fault, k: nat, j: nat)
    returns (k': nat, j': nat)
    requires Apply(files, plan, fault).1.Some? && Linked(files, plan, fault, k, j)
    ensures Linked(files, plan, fault, k', j') && Prior(files, plan, fault, j') == Prior(files, plan, fault, k)
    ensures var m := Prepare(files, plan.changedPaths, plan.operationId, fault, 0).manifest;
            !OnManifest(m, m[j'].backup)
    decreases |Prepare(files, plan.changedPaths, plan.operationId, fault, 0).manifest| - k
  {
    var m := Prepare(files, plan.changedPaths, plan.operationId, fault, 0).manifest;
    LinkedFacts(files, plan, fault, k, j);
    if l: nat :| l < |m| && m[l].path == m[j].backup {
      k', j' := LastLink(files, plan, fault, j, l);
    } else {
      k', j' := k, j;
    }
  }

  /** What a rotated path and its backup hold after the rotation. */
  lemma RotatedTexts(files: Files, plan: Plan, fault: nat -> Fault, j: nat)
    requires Apply(files, plan, fault).1.Some?
    requires j < |Prepare(files, plan.changedPaths, plan.operationId, fault, 0).manifest|
    ensures var m := Prepare(files, plan.changedPaths, plan.operationId, fault, 0).manifest;
            var after, prior := Apply(files, plan, fault).0, Prior(files, plan, fault, j);
      && m[j].path in after && after[m[j].path] == Rewrite(prior, plan.key, plan.newValue)
      && m[j].backup in after
      && after[m[j].backup] == if OnManifest(m, m[j].backup) then Rewrite(prior, plan.key, plan.newValue) else prior
  {
    var prep := Prepare(files, plan.changedPaths, plan.operationId, fault, 0);
    PreparePairs(files, plan.changedPaths, plan.operationId, fault, 0);
    ReplaceRewrites(prep.files, prep.manifest, plan, fault, prep.writes, j);
    ReplaceTouches(prep.files, prep.manifest, plan, fault, prep.writes);
    if l: nat :| l < |prep.manifest| && prep.manifest[l].path == prep.manifest[j].backup {
      ReplaceRewrites(prep.files, prep.manifest, plan, fault, prep.writes, l);
    }
  }

  /** The manifest of a completed rotation is ordered, and settled exactly when no pair
      of targets is harmful. */
  lemma RotationOrdered(files: Files, plan: Plan, fault: nat -> Fault)
    requires Apply(files, plan, fault).1.Some?
    ensures var done := Apply(files, plan, fault).1.value;
            |done.changedPaths| == |done.backupPaths| && Ordered(done.changedPaths, done.backupPaths)
  {
    CompletedReport(files, plan, fault);
    var m := Prepare(files, plan.changedPaths, plan.operationId, fault, 0).manifest;
    var done := Apply(files, plan, fault).1.value;
    forall j, k | 0 <= j <= k < |m| ensures done.changedPaths[j] != done.backupPaths[k] {
      assert m[j] == Entry(done.changedPaths[j], done.backupPaths[j]);
      assert m[k] == Entry(done.changedPaths[k], done.backupPaths[k]);
      if Linked(files, plan, fault, k, j) { LinkedFacts(files, plan, fault, k, j); }
    }
  }

  lemma RotationSettled(files: Files, plan: Plan, fault: nat -> Fault, links: set<string>)
    requires Apply(files, plan, fault).1.Some? && NoLinks(links, Apply(files, plan, fault).1.value)
    requires forall i: nat, j: nat :: !Harmful(files, plan, i, j)
    ensures var (after, done) := Apply(files, plan, fault);
            Pairs(after, done.value.changedPaths, done.value.backupPaths)
            && Settled(after, done.value.changedPaths, done.value.backupPaths)
  {
    RollbackAccepts(files, plan, fault, links);
    CompletedReport(files, plan, fault);
    var m := Prepare(files, plan.changedPaths, plan.operationId, fault, 0).manifest;
    var (after, done) := Apply(files, plan, fault);
    var c, b := done.value.changedPaths, done.value.backupPaths;
    forall j, k | 0 <= j < |c| && 0 <= k < |c| && c[j] == b[k] ensures c[j] in after && after[c[j]] == after[b[j]] {
      assert m[j] == Entry(c[j], b[j]) && m[k] == Entry(c[k], b[k]);
      LinkedFacts(files, plan, fault, k, j);
      HarmTraces(files, plan, fault, k, j);
      RotatedTexts(files, plan, fault, j);
    }
  }

  lemma HarmIsUnsettled(files: Files, plan: Plan, fault: nat -> Fault, links: set<string>, i: nat, j: nat)
    requires Apply(files, plan, fault).1.Some? && NoLinks(links, Apply(files, plan, fault).1.value)
    requires Harmful(files, plan, i, j)
    ensures var (after, done) := Apply(files, plan, fault);
            Pairs(after, done.value.changedPaths, done.value.backupPaths)
            && !Settled(after, done.value.changedPaths, done.value.backupPaths)
  {
    var paths, op := plan.changedPaths, plan.operationId;
    var prep := Prepare(files, paths, op, fault, 0);
    RollbackAccepts(files, plan, fault, links);
    PrepareListsPresent(files, paths, op, fault, 0, i);
    PrepareListsAlias(files, paths, op, fault, 0, i, j);
    PreparePairs(files, paths, op, fault, 0);
    PrepareAdds(files, paths, op, fault, 0);
    var a: nat :| a < |prep.manifest| && Paths(prep.manifest)[a] == paths[i];
    var b: nat :| b < |prep.manifest| && Paths(prep.manifest)[b] == paths[j];
    var k, l := LastLink(files, plan, fault, a, b);
    RotatedTexts(files, plan, fault, l);
    CompletedReport(files, plan, fault);
    var done := Apply(files, plan, fault).1.value;
    assert prep.manifest[k] == Entry(done.changedPaths[k], done.backupPaths[k]);
    assert prep.manifest[l] == Entry(done.changedPaths[l], done.backupPaths[l]);
  }

  /** Main result, exact: the rollback of a completed rotation can be cut short and
      retried if and only if no changed target's backup is a later target, or a symbolic
      link has it refused anyway. */
  lemma RotationRetriesExact(files: Files, plan: Plan, fault: nat -> Fault, links: set<string>)
    requires Apply(files, plan, fault).1.Some?
    ensures var (after, done) := Apply(files, plan, fault);
            Retries(after, links, done.value.changedPaths, done.value.backupPaths)
            <==> (!NoLinks(links, done.value) || forall i: nat, j: nat :: !Harmful(files, plan, i, j))
  {
    var (after, done) := Apply(files, plan, fault);
    if !NoLinks(links, done.value) {
      RollbackRefuses(files, plan, fault, links);
    } else {
      RollbackAccepts(files, plan, fault, links);
      RotationOrdered(files, plan, fault);
      RollbackRetries(after, links, done.value.changedPaths, done.value.backupPaths);
      if i: nat, j: nat :| Harmful(files, plan, i, j) {
        HarmIsUnsettled(files, plan, fault, links, i, j);
      } else {
        RotationSettled(files, plan, fault, links);
      }
    }
  }

  // ---- refusals, and a restore that raises ----

  /** A manifest is taken exactly when its lists pair off, every path and backup starts
      at the root and is no symbolic link, and every backup is there; refused, nothing
      changes. */
  lemma RollbackAcceptsExact(files: Files, links: set<string>, changed: seq<string>, backups: seq<string>)
    ensures var (back, r) := Rollback(files, links, changed, backups);
      && (r == Some(changed) <==>
            |changed| == |backups| && forall i :: 0 <= i < |changed| ==>
              && "/" <= changed[i] && "/" <= backups[i] && backups[i] in files
              && changed[i] !in links && backups[i] !in links)
      && (r == None ==> back == files)
  {
  }

  /** However restoring is cut short, it has touched only the listed paths. */
  lemma {:induction false} RestoreCutTouches(files: Files, manifest: seq<Entry>, undo: nat -> Fault, n: nat, q: string)
    requires !OnManifest(manifest, q)
    ensures SameAt(files, RestoreUnder(files, manifest, undo, n), q)
    decreases |manifest|
  {
    if manifest != [] {
      var e := manifest[0];
      OnManifestTail(manifest, q);
      if e.path in files && e.backup in files && files[e.path] != files[e.backup] {
        RestoreCutTouches(files[e.path := files[e.backup]], manifest[1..], undo, n + 1, q);
      } else {
        RestoreCutTouches(files, manifest[1..], undo, n, q);
      }
    }
  }

  /** And each of those holds its text or its backup's. */
  lemma {:induction false} RestoreCutGives(files: Files, manifest: seq<Entry>, undo: nat -> Fault, n: nat, k: nat)
    requires AllThere(files, manifest) && k < |manifest|
    requires forall j :: 0 <= j <= k ==> manifest[j].path != manifest[k].backup
    ensures var r, e := RestoreUnder(files, manifest, undo, n), manifest[k];
            e.path in r && (r[e.path] == files[e.path] || r[e.path] == files[e.backup])
    decreases |manifest|
  {
    var e := manifest[0];
    var next := files[e.path := files[e.backup]];
    RestoreStep(files, manifest);
    assert forall i :: 0 <= i < |manifest[1..]| ==> manifest[1..][i] == manifest[i + 1];
    var same := files[e.path] == files[e.backup];
    assert same ==> next == files;
    if same || undo(n) == Fine {
      var n' := if same then n else n + 1;
      if k == 0 {
        assert !OnManifest(manifest[1..], e.path);
        RestoreCutTouches(next, manifest[1..], undo, n', e.path);
      } else {
        RestoreCutGives(next, manifest[1..], undo, n', k - 1);
      }
    }
  }

  /** The first restoring write that is needed and raises after its rename has been made. */
  lemma RestoreRaisesAtOnce(files: Files, manifest: seq<Entry>, undo: nat -> Fault, n: nat)
    requires manifest != [] && AllThere(files, manifest)
    requires files[manifest[0].path] != files[manifest[0].backup] && undo(n) != Fine
    ensures RestoreUnder(files, manifest, undo, n)
         == if undo(n) == AfterRename then files[manifest[0].path := files[manifest[0].backup]] else files
  {
  }
}
