/**
 The upgrade tool's file transaction (scripts/ugs_upgrade.py): plan operations, back up what they touch, apply them,
 and restore the backup, by hand later or automatically when the application fails half-way.
 */
module Upgrade {
  import opened Common

  /** Contents and permission bits, the latter including set-user-id, set-group-id and sticky. */
  datatype File = File(content: string, mode: nat)

  /** The regular files of a worktree. A directory exists as far as something lies below it. */
  type Disk = map<Path, File>

  type Digest = string -> string

  const HOOKS := ".githooks"

  /** The permission bits that a backup records. */
  function Permissions(mode: nat): nat { mode % 512 }

  /** Some ancestor of `p` is a file, so nothing can be written at `p`. */
  predicate Blocked(disk: Disk, p: Path) { exists q | q in disk :: Below(p, q) }

  predicate IsDirectory(disk: Disk, p: Path) { exists q | q in disk :: Below(q, p) }

  // ----- Planning -----

  datatype Status = Add | Update | Unchanged | ProjectPreserved | Conflict

  datatype Operation = Operation(path: Path, content: string, mode: nat, status: Status)

  /** Decides what becomes of one file; refused if a file is in the way of its directory. */
  function MakeOperation(disk: Disk, path: Path, content: string, mode: nat, ownedByProject: bool): Option<Operation> {
    if Blocked(disk, path) then None
    else
      var status :=
        if path in disk then
          if disk[path] == File(content, mode) then Unchanged else if ownedByProject then ProjectPreserved else Update
        else if IsDirectory(disk, path) then Conflict else Add;
      Some(Operation(path, content, mode, status))
  }

  /** The operations were planned against this worktree. */
  predicate Planned(disk: Disk, ops: seq<Operation>) {
    forall op | op in ops :: exists owned | owned in {false, true} ::
      MakeOperation(disk, op.path, op.content, op.mode, owned) == Some(op)
  }

  predicate Changes(op: Operation) { op.status == Add || op.status == Update }

  function Changed(ops: seq<Operation>): (changed: seq<Operation>)
    ensures forall op :: op in changed <==> op in ops && Changes(op)
  {
    if ops == [] then [] else Changed(ops[..|ops| - 1]) + if Changes(ops[|ops| - 1]) then [ops[|ops| - 1]] else []
  }

  // ----- Effects on the worktree -----

  function Replaced(disk: Disk, ops: seq<Operation>): Disk {
    if ops == [] then disk
    else var op := ops[|ops| - 1]; Replaced(disk, ops[..|ops| - 1])[op.path := File(op.content, op.mode)]
  }

  /** One entry of a backup: what was there, and what the upgrade was to put there. */
  datatype Saved = Saved(path: Path, before: Option<File>, beforeDigest: Option<string>, afterDigest: string, afterMode: nat)

  datatype Backup = Backup(entries: seq<Saved>, hooks: Option<string>)

  /** The mode is recorded without the bits above the permissions. */
  function Snapshot(digest: Digest, disk: Disk, op: Operation): Saved {
    if op.path in disk then
      var f := disk[op.path];
      Saved(op.path, Some(File(f.content, Permissions(f.mode))), Some(digest(f.content)), digest(op.content), op.mode)
    else Saved(op.path, None, None, digest(op.content), op.mode)
  }

  function BackupOf(digest: Digest, disk: Disk, ops: seq<Operation>, hooks: Option<string>): Backup {
    Backup(seq(|ops|, i requires 0 <= i < |ops| => Snapshot(digest, disk, ops[i])), hooks)
  }

  function PutBack(disk: Disk, entries: seq<Saved>): Disk {
    if entries == [] then disk
    else
      var rest, e := PutBack(disk, entries[..|entries| - 1]), entries[|entries| - 1];
      if e.before.Some? then rest[e.path := e.before.value] else rest - {e.path}
  }

  predicate DistinctPaths(paths: seq<Path>) {
    forall i, j | 0 <= i < j < |paths| :: paths[i] != paths[j]
  }

  function Paths(ops: seq<Operation>): seq<Path> { seq(|ops|, i requires 0 <= i < |ops| => ops[i].path) }

  function EntryPaths(entries: seq<Saved>): seq<Path> { seq(|entries|, i requires 0 <= i < |entries| => entries[i].path) }

  /** One destination lies below another. */
  predicate Nested(ops: seq<Operation>) {
    exists i, j | 0 <= i < |ops| && 0 <= j < |ops| :: Below(ops[i].path, ops[j].path)
  }

  // ----- Restoring -----

  datatype RestoreError = RepeatedPath | UnsafePath | DamagedBackup | FilesChanged | NowDirectory | NotVerified

  predicate ChangedSince(digest: Digest, disk: Disk, e: Saved) {
    e.path !in disk || digest(disk[e.path].content) != e.afterDigest || disk[e.path].mode != e.afterMode
  }

  predicate Damaged(digest: Digest, e: Saved) {
    e.before.Some? && e.beforeDigest != None && Some(digest(e.before.value.content)) != e.beforeDigest
  }

  /** The metadata can be restored at all: no path twice, none below a file, every saved file intact. */
  predicate Restorable(digest: Digest, disk: Disk, entries: seq<Saved>) {
    && DistinctPaths(EntryPaths(entries))
    && forall e | e in entries :: !Blocked(disk, e.path) && !Damaged(digest, e)
  }

  /** No destination is a directory, nor will be one once the saved files are back. */
  predicate Flat(disk: Disk, entries: seq<Saved>) {
    && (forall e | e in entries :: !IsDirectory(disk, e.path))
    && (forall e, e' | e in entries && e' in entries && e.before.Some? :: !Below(e.path, e'.path))
  }

  predicate RestoredAt(disk: Disk, e: Saved) {
    if e.before.Some? then e.path in disk && disk[e.path] == e.before.value else e.path !in disk
  }

  /** What verification after a restore asks of a file: present with the saved digest and mode, or absent. */
  predicate LooksRestored(digest: Digest, disk: Disk, e: Saved) {
    if e.before.Some? then
      && e.path in disk && disk[e.path].mode == e.before.value.mode
      && (e.beforeDigest == None || e.beforeDigest == Some(digest(disk[e.path].content)))
    else e.path !in disk && !IsDirectory(disk, e.path)
  }

  lemma {:induction false} PutBackKeys(disk: Disk, entries: seq<Saved>, p: Path)
    ensures p in PutBack(disk, entries) ==> p in disk || exists i | 0 <= i < |entries| :: entries[i].path == p && entries[i].before.Some?
    ensures p !in EntryPaths(entries) ==> (p in PutBack(disk, entries) <==> p in disk)
    ensures p !in EntryPaths(entries) && p in disk ==> PutBack(disk, entries)[p] == disk[p]
  {
    if entries != [] {
      var shorter := entries[..|entries| - 1];
      PutBackKeys(disk, shorter, p);
      assert EntryPaths(entries) == EntryPaths(shorter) + [entries[|entries| - 1].path];
      assert forall i | 0 <= i < |shorter| :: shorter[i] == entries[i];
      if p == entries[|entries| - 1].path { assert p in EntryPaths(entries); }
    }
  }

  /** Once put back, an entry stays as it was saved. */
  lemma {:induction false} PutBackAt(disk: Disk, entries: seq<Saved>, i: nat)
    requires DistinctPaths(EntryPaths(entries)) && i < |entries|
    ensures RestoredAt(PutBack(disk, entries), entries[i])
  {
    if i < |entries| - 1 {
      var shorter := entries[..|entries| - 1];
      assert EntryPaths(entries) == EntryPaths(shorter) + [entries[|entries| - 1].path];
      assert EntryPaths(entries)[i] != EntryPaths(entries)[|entries| - 1];
      assert DistinctPaths(EntryPaths(shorter)) by {
        forall a, b | 0 <= a < b < |shorter| ensures EntryPaths(shorter)[a] != EntryPaths(shorter)[b] {
          assert EntryPaths(entries)[a] != EntryPaths(entries)[b];
        }
      }
      PutBackAt(disk, shorter, i);
    }
  }

  lemma PutBackIsFlat(disk: Disk, entries: seq<Saved>, k: nat, e: Saved)
    requires Flat(disk, entries) && k <= |entries| && e in entries
    ensures !IsDirectory(PutBack(disk, entries[..k]), e.path)
  {
    hide Below, PutBack;
    var now := PutBack(disk, entries[..k]);
    forall q | q in now ensures !Below(q, e.path) {
      PutBackKeys(disk, entries[..k], q);
      if q !in disk {
        var i :| 0 <= i < |entries[..k]| && entries[..k][i].path == q && entries[..k][i].before.Some?;
        assert entries[i] in entries;
      }
    }
  }

  // ----- The worktree as it changes -----

  datatype Fault = NoFault | StagingFails | ReplaceFails(at: nat) | HooksFail

  datatype Outcome = NoChanges | Applied(backup: Backup) | Failed(backup: Backup, rollback: Option<RestoreError>)

  class Worktree {
    const digest: Digest
    var files: Disk
    var hooks: Option<string>

    /** Saves what the operations are about to change. */
    method CreateBackup(ops: seq<Operation>) returns (backup: Backup)
      ensures backup == BackupOf(digest, files, ops, hooks)
    {
      var entries := [];
      for i := 0 to |ops|
        invariant |entries| == i && forall j | 0 <= j < i :: entries[j] == Snapshot(digest, files, ops[j])
      {
        entries := entries + [Snapshot(digest, files, ops[i])];
      }
      backup := Backup(entries, hooks);
    }

    /** The checks of a restore, before anything is touched. */
    method CheckBackup(entries: seq<Saved>, force: bool) returns (error: Option<RestoreError>)
      ensures error == None <==> Restorable(digest, files, entries)
                                 && (force || forall e | e in entries :: !ChangedSince(digest, files, e))
      ensures error == Some(FilesChanged) <==> Restorable(digest, files, entries) && !force
                                               && exists e | e in entries :: ChangedSince(digest, files, e)
      ensures error == Some(RepeatedPath) ==> !DistinctPaths(EntryPaths(entries))
      ensures !DistinctPaths(EntryPaths(entries)) && (forall e | e in entries :: !Blocked(files, e.path) && !Damaged(digest, e)) ==>
                error == Some(RepeatedPath)
    {
      hide Blocked, Damaged, ChangedSince;
      var seen: set<Path>, conflicts := {}, false;
      for i := 0 to |entries|
        invariant forall p :: p in seen <==> p in EntryPaths(entries)[..i]
        invariant DistinctPaths(EntryPaths(entries)[..i])
        invariant forall e | e in entries[..i] :: !Blocked(files, e.path) && !Damaged(digest, e)
        invariant conflicts <==> !force && exists e | e in entries[..i] :: ChangedSince(digest, files, e)
      {
        var e := entries[i];
        assert EntryPaths(entries)[..i + 1] == EntryPaths(entries)[..i] + [e.path] && entries[..i + 1] == entries[..i] + [e];
        if e.path in seen {
          var j :| 0 <= j < i && EntryPaths(entries)[j] == e.path;
          assert EntryPaths(entries)[i] == e.path;
          return Some(RepeatedPath);
        }
        seen := seen + {e.path};
        if Blocked(files, e.path) { return Some(UnsafePath); }
        if !force && ChangedSince(digest, files, e) { conflicts := true; }
        if Damaged(digest, e) { return Some(DamagedBackup); }
      }
      assert entries[..|entries|] == entries && EntryPaths(entries)[..|entries|] == EntryPaths(entries);
      error := if conflicts then Some(FilesChanged) else None;
    }

    /** Puts every saved file back and removes every added one. */
    method RestoreFiles(entries: seq<Saved>) returns (ok: bool)
      modifies this`files
      ensures ok ==> files == PutBack(old(files), entries)
      ensures !ok ==> StoppedAtDirectory(old(files), entries, files)
      ensures Flat(old(files), entries) ==> ok
    {
      hide IsDirectory, Flat, PutBack;
      NothingPutBack(files);
      assert entries[..0] == [];
      for i := 0 to |entries|
        invariant files == PutBack(old(files), entries[..i])
      {
        var e := entries[i];
        PutBackStep(old(files), entries, i);
        if Flat(old(files), entries) { PutBackIsFlat(old(files), entries, i, e); }
        if IsDirectory(files, e.path) {
          assert StoppedAtDirectory(old(files), entries, files);
          return false;
        }
        if e.before.Some? {
          files := files[e.path := e.before.value];
        } else if e.path in files {
          files := files - {e.path};
        } else {
          assert files - {e.path} == files;
        }
      }
      assert entries[..|entries|] == entries;
      return true;
    }

    /** Looks at every file again after a restore. */
    method VerifyRestored(entries: seq<Saved>) returns (ok: bool)
      ensures ok <==> forall e | e in entries :: LooksRestored(digest, files, e)
    {
      hide IsDirectory;
      ok := true;
      for i := 0 to |entries|
        invariant ok <==> forall e | e in entries[..i] :: LooksRestored(digest, files, e)
      {
        var e := entries[i];
        ghost var before, now := entries[..i], entries[..i + 1];
        assert now == before + [e] && now[i] == e;
        assert !LooksRestored(digest, files, e) ==> exists x | x in now :: !LooksRestored(digest, files, x);
        if e.before.Some? {
          if e.path !in files { ok := false; }
          else if e.beforeDigest != None && Some(digest(files[e.path].content)) != e.beforeDigest { ok := false; }
          else if files[e.path].mode != e.before.value.mode { ok := false; }
        } else if e.path in files || IsDirectory(files, e.path) { ok := false; }
      }
      assert entries[..|entries|] == entries;
    }

    /**
     Restores a backup. It refuses before touching anything if the metadata is unusable or, unless forced, if any file is not
     as the upgrade left it. Otherwise it succeeds and every file and the hooks path are as they were saved, which is certain
     with no directory in the way; or it stops at a directory with a prefix restored and the hooks path untouched; or its
     own verification objects after everything was put back.
     */
    method Restore(backup: Backup, force: bool) returns (error: Option<RestoreError>)
      modifies this
      ensures var unchanged' := forall e | e in backup.entries :: !ChangedSince(digest, old(files), e);
        && (!(Restorable(digest, old(files), backup.entries) && (force || unchanged')) ==>
              error.Some? && files == old(files) && hooks == old(hooks))
        && (Restorable(digest, old(files), backup.entries) && !force && !unchanged' ==> error == Some(FilesChanged))
        && (Restorable(digest, old(files), backup.entries) && (force || unchanged') && Flat(old(files), backup.entries) ==>
              error.None? && files == PutBack(old(files), backup.entries) && hooks == backup.hooks)
        && (error.None? ==> files == PutBack(old(files), backup.entries) && hooks == backup.hooks)
        && (Restorable(digest, old(files), backup.entries) && (force || unchanged') && error.Some? ==>
              || (error == Some(NowDirectory) && StoppedAtDirectory(old(files), backup.entries, files) && hooks == old(hooks))
              || (error == Some(NotVerified) && files == PutBack(old(files), backup.entries) && hooks == backup.hooks))
      ensures error.None? ==> forall e | e in backup.entries :: LooksRestored(digest, files, e)
      ensures !DistinctPaths(EntryPaths(backup.entries)) ==>
                (forall e | e in backup.entries :: !Blocked(old(files), e.path) && !Damaged(digest, e)) ==> error == Some(RepeatedPath)
    {
      hide Blocked, Damaged, ChangedSince, IsDirectory, RestoredAt, Flat, StoppedAtDirectory, PutBack, LooksRestored;
      error := CheckBackup(backup.entries, force);
      if error.Some? { return; }
      var ok := RestoreFiles(backup.entries);
      if !ok { return Some(NowDirectory); }
      hooks := backup.hooks;
      RestoredEverywhere(digest, old(files), backup.entries);
      var verified := VerifyRestored(backup.entries);
      error := if verified then None else Some(NotVerified);
    }

    /** Writes every new file into a private directory first. Destinations inside one another cannot be staged. */
    method Stage(ops: seq<Operation>, fails: bool) returns (staged: Option<Disk>)
      ensures staged.Some? ==> !Nested(ops) && staged.value == Replaced(map[], ops)
      ensures staged.Some? <==> !fails && !Nested(ops)
    {
      hide Below;
      if fails { return None; }
      var written: Disk := map[];
      for i := 0 to |ops|
        invariant written == Replaced(map[], ops[..i])
        invariant forall p :: p in written <==> exists j | 0 <= j < i :: ops[j].path == p
        invariant !Nested(ops[..i])
      {
        var op := ops[i];
        assert ops[..i + 1][..i] == ops[..i];
        if Blocked(written, op.path) || IsDirectory(written, op.path) { return None; }
        written := written[op.path := File(op.content, op.mode)];
        StillNotNested(ops, i);
      }
      assert ops[..|ops|] == ops;
      staged := Some(written);
    }

    /** Moves the staged files into place one by one; a staged file can be moved only once. */
    method ReplaceAll(ops: seq<Operation>, staged: Disk, fault: Fault) returns (ok: bool, ghost done: nat)
      requires staged == Replaced(map[], ops)
      modifies this`files
      ensures done <= |ops| && (DistinctPaths(Paths(ops)) ==> files == Replaced(old(files), ops[..done]))
      ensures forall p :: p in files <==> p in old(files) || p in Paths(ops[..done])
      ensures ok ==> done == |ops| && DistinctPaths(Paths(ops))
      ensures ok <==> DistinctPaths(Paths(ops)) && !(fault.ReplaceFails? && fault.at < |ops|)
    {
      hide Replaced, DistinctPaths;
      var left := staged;
      StagedContents(map[], ops);
      NothingReplaced(files);
      assert DistinctPaths(Paths(ops[..0])) by { NoPathsDistinct(ops[..0]); }
      for i := 0 to |ops|
        invariant DistinctPaths(Paths(ops)) ==> files == Replaced(old(files), ops[..i])
        invariant forall p :: p in files <==> p in old(files) || p in Paths(ops[..i])
        invariant DistinctPaths(Paths(ops[..i])) && !(fault.ReplaceFails? && fault.at < i)
        invariant forall p :: p in left <==> p in Paths(ops) && p !in Paths(ops[..i])
        invariant forall p | p in left :: left[p] == staged[p]
      {
        var op := ops[i];
        assert ops[..i + 1][..i] == ops[..i] && Paths(ops[..i + 1]) == Paths(ops[..i]) + [op.path];
        assert Paths(ops)[i] == op.path;
        if fault == ReplaceFails(i) || op.path !in left {
          if op.path !in left { RepeatFound(ops, i); }
          return false, i;
        }
        if DistinctPaths(Paths(ops)) { StagedAt(map[], ops, i); }
        ReplacedStep(old(files), ops, i);
        DistinctStep(ops, i);
        files := files[op.path := left[op.path]];
        left := left - {op.path};
      }
      assert ops[..|ops|] == ops;
      return true, |ops|;
    }

    /**
     Applies a plan behind a backup. Whatever fails, the automatic restore puts the operated files and the hooks path back,
     down to the permission bits, unless the plan names a destination twice: then nothing can be restored.
     */
    method Apply(ops: seq<Operation>, fault: Fault) returns (outcome: Outcome)
      requires WellFormed(files) && Planned(files, ops)
      modifies this
      ensures var changed, disk := Changed(ops), old(files);
        match outcome
        case NoChanges => changed == [] && hooks == old(hooks) == Some(HOOKS) && files == disk
        case Applied(b) =>
          && b == BackupOf(digest, disk, changed, old(hooks)) && DistinctPaths(Paths(changed)) && !Nested(changed)
          && files == Replaced(disk, changed) && hooks == Some(HOOKS)
        case Failed(b, rollback) =>
          && b == BackupOf(digest, disk, changed, old(hooks)) && hooks == old(hooks)
          && (DistinctPaths(Paths(changed)) ==> rollback == None && files == Masked(disk, changed))
          && (!DistinctPaths(Paths(changed)) ==> rollback == Some(RepeatedPath))
      ensures DistinctPaths(Paths(Changed(ops))) && !Nested(Changed(ops)) && fault == NoFault ==> !outcome.Failed?
    {
      hide Planned, Nested, WellFormed, Restorable, Flat, Replaced, PutBack, ChangedSince, DistinctPaths, Blocked, Damaged;
      var changed := Changed(ops);
      var hooksChanged := hooks != Some(HOOKS);
      if changed == [] && !hooksChanged { return NoChanges; }
      var backup := CreateBackup(changed);
      var staged := Stage(changed, fault == StagingFails);
      var ok := false;
      NothingReplaced(files);
      assert changed[..0] == [];
      if staged.Some? {
        ghost var moved: nat;
        ok, moved := ReplaceAll(changed, staged.value, fault);
        if ok && hooksChanged && fault == HooksFail { ok := false; }
        assert changed[..|changed|] == changed;
        if !ok { RollbackWorks(digest, old(files), files, ops, moved, old(hooks)); }
      } else {
        RollbackWorks(digest, old(files), files, ops, 0, old(hooks));
      }
      if !ok {
        var rollback := Restore(backup, true);
        return Failed(backup, rollback);
      }
      if hooksChanged { hooks := Some(HOOKS); }
      return Applied(backup);
    }
  }

  /** No file lies below a file. */
  predicate WellFormed(disk: Disk) {
    forall p, q | p in disk && q in disk :: !Below(p, q)
  }

  /** The worktree with the operated files reduced to their permission bits. */
  function Masked(disk: Disk, ops: seq<Operation>): Disk {
    map p | p in disk :: if p in Paths(ops) then File(disk[p].content, Permissions(disk[p].mode)) else disk[p]
  }

  lemma PlannedPlace(disk: Disk, ops: seq<Operation>, op: Operation)
    requires WellFormed(disk) && Planned(disk, ops) && op in Changed(ops)
    ensures !Blocked(disk, op.path) && !IsDirectory(disk, op.path)
  {
    hide Below;
  }

  /** In whatever state the application stopped, every destination can be written and is no directory. */
  lemma PlacesStayClear(disk: Disk, now: Disk, ops: seq<Operation>, k: nat, op: Operation)
    requires WellFormed(disk) && Planned(disk, ops) && op in Changed(ops) && k <= |Changed(ops)|
    requires k == 0 || !Nested(Changed(ops))
    requires forall p :: p in now <==> p in disk || p in Paths(Changed(ops)[..k])
    ensures !Blocked(now, op.path) && !IsDirectory(now, op.path)
  {
    hide Below, Planned, WellFormed;
    var changed := Changed(ops);
    PlannedPlace(disk, ops, op);
    var i :| 0 <= i < |changed| && changed[i] == op;
    forall q | q in now ensures !Below(op.path, q) && !Below(q, op.path) {
      if q !in disk {
        var j :| 0 <= j < k && Paths(changed[..k])[j] == q;
        assert changed[j].path == q;
      }
    }
  }

  lemma BackupEntries(digest: Digest, disk: Disk, changed: seq<Operation>, hooks: Option<string>)
    ensures var b := BackupOf(digest, disk, changed, hooks);
      && EntryPaths(b.entries) == Paths(changed) && |b.entries| == |changed|
      && (forall i | 0 <= i < |changed| :: b.entries[i] == Snapshot(digest, disk, changed[i]))
      && (forall e | e in b.entries :: !Damaged(digest, e))
  {
  }

  lemma BackupIsFlat(digest: Digest, disk: Disk, now: Disk, ops: seq<Operation>, k: nat, hooks: Option<string>)
    requires WellFormed(disk) && Planned(disk, ops) && k <= |Changed(ops)| && (k == 0 || !Nested(Changed(ops)))
    requires forall p :: p in now <==> p in disk || p in Paths(Changed(ops)[..k])
    ensures var entries := BackupOf(digest, disk, Changed(ops), hooks).entries;
      Flat(now, entries) && forall e | e in entries :: !Blocked(now, e.path) && !Damaged(digest, e)
  {
    hide Below, Planned, WellFormed, Nested, Blocked, IsDirectory, Damaged;
    var changed, entries := Changed(ops), BackupOf(digest, disk, Changed(ops), hooks).entries;
    BackupEntries(digest, disk, changed, hooks);
    forall e | e in entries ensures !Blocked(now, e.path) && !IsDirectory(now, e.path) {
      var i :| 0 <= i < |entries| && entries[i] == e;
      PlacesStayClear(disk, now, ops, k, changed[i]);
    }
    forall e, e' | e in entries && e' in entries && e.before.Some? ensures !Below(e.path, e'.path) {
      var i :| 0 <= i < |entries| && entries[i] == e;
      var j :| 0 <= j < |entries| && entries[j] == e';
      PlannedPlace(disk, ops, changed[j]);
      NotBelowDestination(disk, e.path, e'.path);
    }
  }

  lemma NotBelowDestination(disk: Disk, p: Path, destination: Path)
    requires p in disk && !IsDirectory(disk, destination)
    ensures !Below(p, destination)
  {
    hide Below;
  }

  /** Restoring the backup undoes any part of the application, down to the permission bits. */
  lemma PutBackUndoes(digest: Digest, disk: Disk, changed: seq<Operation>, k: nat, hooks: Option<string>)
    requires DistinctPaths(Paths(changed)) && k <= |changed|
    ensures PutBack(Replaced(disk, changed[..k]), BackupOf(digest, disk, changed, hooks).entries) == Masked(disk, changed)
  {
    hide Replaced, PutBack, DistinctPaths;
    var entries := BackupOf(digest, disk, changed, hooks).entries;
    var now := Replaced(disk, changed[..k]);
    var back := PutBack(now, entries);
    BackupEntries(digest, disk, changed, hooks);
    StagedContents(disk, changed[..k]);
    forall p ensures p in back <==> p in disk
             ensures p in back ==> back[p] == Masked(disk, changed)[p]
    {
      PutBackKeys(now, entries, p);
      if p in Paths(changed) {
        var i :| 0 <= i < |changed| && changed[i].path == p;
        PutBackAt(now, entries, i);
      } else {
        NotInPrefix(changed, k, p);
      }
    }
  }

  lemma NotInPrefix(changed: seq<Operation>, k: nat, p: Path)
    requires k <= |changed| && p !in Paths(changed)
    ensures p !in Paths(changed[..k])
  {
    assert Paths(changed[..k]) == Paths(changed)[..k];
  }

  lemma RollbackWorks(digest: Digest, disk: Disk, now: Disk, ops: seq<Operation>, k: nat, hooks: Option<string>)
    requires WellFormed(disk) && Planned(disk, ops) && k <= |Changed(ops)| && (k == 0 || !Nested(Changed(ops)))
    requires forall p :: p in now <==> p in disk || p in Paths(Changed(ops)[..k])
    requires DistinctPaths(Paths(Changed(ops))) ==> now == Replaced(disk, Changed(ops)[..k])
    ensures var entries := BackupOf(digest, disk, Changed(ops), hooks).entries;
      && (forall e | e in entries :: !Blocked(now, e.path) && !Damaged(digest, e)) && Flat(now, entries)
      && (DistinctPaths(EntryPaths(entries)) <==> DistinctPaths(Paths(Changed(ops))))
      && (DistinctPaths(Paths(Changed(ops))) ==>
            Restorable(digest, now, entries) && PutBack(now, entries) == Masked(disk, Changed(ops)))
  {
    hide Flat, Blocked, Damaged, Planned, WellFormed, Replaced, PutBack, DistinctPaths, Nested;
    BackupEntries(digest, disk, Changed(ops), hooks);
    BackupIsFlat(digest, disk, now, ops, k, hooks);
    if DistinctPaths(Paths(Changed(ops))) { PutBackUndoes(digest, disk, Changed(ops), k, hooks); }
  }

  lemma NoPathsDistinct(ops: seq<Operation>)
    requires ops == []
    ensures DistinctPaths(Paths(ops))
  {
  }

  lemma DistinctStep(ops: seq<Operation>, i: nat)
    requires i < |ops| && DistinctPaths(Paths(ops[..i])) && ops[i].path !in Paths(ops[..i])
    ensures DistinctPaths(Paths(ops[..i + 1]))
  {
    assert Paths(ops[..i + 1]) == Paths(ops[..i]) + [ops[i].path];
  }

  lemma NothingReplaced(disk: Disk)
    ensures Replaced(disk, []) == disk
  {
  }

  lemma ReplacedStep(disk: Disk, ops: seq<Operation>, i: nat)
    requires i < |ops|
    ensures Replaced(disk, ops[..i + 1]) == Replaced(disk, ops[..i])[ops[i].path := File(ops[i].content, ops[i].mode)]
  {
    assert ops[..i + 1][..i] == ops[..i];
  }

  lemma RepeatFound(ops: seq<Operation>, i: nat)
    requires i < |ops| && ops[i].path in Paths(ops[..i])
    ensures !DistinctPaths(Paths(ops))
  {
    var j :| 0 <= j < i && Paths(ops[..i])[j] == ops[i].path;
    assert Paths(ops)[j] == Paths(ops)[i];
  }

  lemma {:induction false} StagedContents(disk: Disk, ops: seq<Operation>)
    ensures forall p :: p in Replaced(disk, ops) <==> p in disk || p in Paths(ops)
    ensures forall p | p in disk && p !in Paths(ops) :: Replaced(disk, ops)[p] == disk[p]
  {
    if ops != [] {
      var shorter := ops[..|ops| - 1];
      StagedContents(disk, shorter);
      assert Paths(ops) == Paths(shorter) + [ops[|ops| - 1].path];
    }
  }

  lemma {:induction false} StagedAt(disk: Disk, ops: seq<Operation>, i: nat)
    requires i < |ops| && DistinctPaths(Paths(ops))
    ensures ops[i].path in Replaced(disk, ops) && Replaced(disk, ops)[ops[i].path] == File(ops[i].content, ops[i].mode)
  {
    if i < |ops| - 1 {
      var shorter := ops[..|ops| - 1];
      assert DistinctPaths(Paths(shorter)) by {
        forall a, b | 0 <= a < b < |shorter| ensures Paths(shorter)[a] != Paths(shorter)[b] { assert Paths(ops)[a] != Paths(ops)[b]; }
      }
      assert Paths(ops)[i] != Paths(ops)[|ops| - 1];
      StagedAt(disk, shorter, i);
    }
  }

  lemma StillNotNested(ops: seq<Operation>, i: nat)
    requires i < |ops| && !Nested(ops[..i])
    requires forall j | 0 <= j < i :: !Below(ops[i].path, ops[j].path) && !Below(ops[j].path, ops[i].path)
    ensures !Nested(ops[..i + 1])
  {
    forall a, b | 0 <= a <= i && 0 <= b <= i ensures !Below(ops[a].path, ops[b].path) {
      if a < i && b < i { assert ops[..i][a] == ops[a] && ops[..i][b] == ops[b]; }
    }
  }

  /** Some prefix of the entries is restored, and a directory stands where the next one belongs. */
  ghost predicate StoppedAtDirectory(disk: Disk, entries: seq<Saved>, now: Disk) {
    exists k | 0 <= k < |entries| :: now == PutBack(disk, entries[..k]) && IsDirectory(now, entries[k].path)
  }

  lemma NothingPutBack(disk: Disk)
    ensures PutBack(disk, []) == disk
  {
  }

  lemma PutBackStep(disk: Disk, entries: seq<Saved>, i: nat)
    requires i < |entries|
    ensures PutBack(disk, entries[..i + 1]) ==
      (var now, e := PutBack(disk, entries[..i]), entries[i]; if e.before.Some? then now[e.path := e.before.value] else now - {e.path})
  {
    assert entries[..i + 1][..i] == entries[..i];
  }

  lemma RestoredEverywhere(digest: Digest, disk: Disk, entries: seq<Saved>)
    requires Restorable(digest, disk, entries)
    ensures Flat(disk, entries) ==> forall e | e in entries :: LooksRestored(digest, PutBack(disk, entries), e)
  {
    hide PutBack, IsDirectory, Flat, DistinctPaths, Blocked;
    if Flat(disk, entries) {
      forall e | e in entries ensures LooksRestored(digest, PutBack(disk, entries), e) {
        var i :| 0 <= i < |entries| && entries[i] == e;
        PutBackAt(disk, entries, i);
        assert entries[..|entries|] == entries;
        PutBackIsFlat(disk, entries, |entries|, e);
      }
    }
  }

  // ----- What a restore means -----

  /** The restored worktree is the original one exactly when no operated file had a bit above the permissions. */
  lemma MaskedIsOriginalIff(disk: Disk, ops: seq<Operation>)
    ensures Masked(disk, ops) == disk <==> forall p | p in disk && p in Paths(ops) :: disk[p].mode < 512
  {
    if Masked(disk, ops) == disk {
      forall p | p in disk && p in Paths(ops) ensures disk[p].mode < 512 {
        assert Masked(disk, ops)[p] == disk[p];
      }
    }
  }

  ghost predicate Injective(digest: Digest) {
    forall s, t | digest(s) == digest(t) :: s == t
  }

  /** An entry counts as changed exactly when the file is not what the operation wrote. */
  lemma ChangedSinceMeaning(digest: Digest, disk: Disk, now: Disk, op: Operation)
    requires Injective(digest)
    ensures ChangedSince(digest, now, Snapshot(digest, disk, op)) <==>
              !(op.path in now && now[op.path] == File(op.content, op.mode))
  {
  }

  /** Applying a plan and restoring its backup without force brings back every operated file and the hooks path. */
  method ApplyThenRestore(w: Worktree, ops: seq<Operation>) returns (outcome: Outcome, error: Option<RestoreError>)
    requires WellFormed(w.files) && Planned(w.files, ops)
    modifies w
    ensures outcome.Applied? ==> error == None && w.files == Masked(old(w.files), Changed(ops)) && w.hooks == old(w.hooks)
    ensures outcome.NoChanges? ==> w.files == old(w.files) && w.hooks == old(w.hooks)
    ensures DistinctPaths(Paths(Changed(ops))) && !Nested(Changed(ops)) ==> !outcome.Failed?
  {
    hide Planned, Nested, WellFormed, Flat, Replaced, PutBack, ChangedSince, DistinctPaths, Blocked, Damaged, Restorable;
    outcome := w.Apply(ops, NoFault);
    error := None;
    if outcome.Applied? {
      RestoreIsAllowed(w.digest, old(w.files), ops, old(w.hooks));
      error := w.Restore(outcome.backup, false);
    }
  }

  lemma RestoreIsAllowed(digest: Digest, disk: Disk, ops: seq<Operation>, hooks: Option<string>)
    requires WellFormed(disk) && Planned(disk, ops) && DistinctPaths(Paths(Changed(ops))) && !Nested(Changed(ops))
    ensures var now, entries := Replaced(disk, Changed(ops)), BackupOf(digest, disk, Changed(ops), hooks).entries;
      && Restorable(digest, now, entries) && Flat(now, entries) && (forall e | e in entries :: !ChangedSince(digest, now, e))
      && PutBack(now, entries) == Masked(disk, Changed(ops))
  {
    hide Flat, Blocked, Damaged, Planned, WellFormed, Replaced, PutBack, DistinctPaths, Nested, Restorable;
    var changed := Changed(ops);
    var now, entries := Replaced(disk, changed), BackupOf(digest, disk, changed, hooks).entries;
    assert changed[..|changed|] == changed;
    StagedContents(disk, changed);
    RollbackWorks(digest, disk, now, ops, |changed|, hooks);
    BackupEntries(digest, disk, changed, hooks);
    forall e | e in entries ensures !ChangedSince(digest, now, e) {
      var i :| 0 <= i < |entries| && entries[i] == e;
      StagedAt(disk, changed, i);
    }
  }

  // ----- What a plan does -----

  function At(disk: Disk, p: Path): Option<File> { if p in disk then Some(disk[p]) else None }

  /** What one wanted file becomes: a file that belongs to the project is kept, a directory is left alone, all else is as wanted. */
  predicate Served(disk: Disk, now: Disk, path: Path, content: string, mode: nat, ownedByProject: bool) {
    At(now, path) == (if path in disk && ownedByProject then At(disk, path)
                      else if exists q | q in disk :: Below(q, path) then At(disk, path)
                      else Some(File(content, mode)))
  }

  lemma {:induction false} ChangedIsDistinct(ops: seq<Operation>)
    requires DistinctPaths(Paths(ops))
    ensures DistinctPaths(Paths(Changed(ops)))
  {
    if ops != [] {
      var shorter, last := ops[..|ops| - 1], ops[|ops| - 1];
      forall a, b | 0 <= a < b < |shorter| ensures Paths(shorter)[a] != Paths(shorter)[b] { assert Paths(ops)[a] != Paths(ops)[b]; }
      ChangedIsDistinct(shorter);
      var before := Changed(shorter);
      forall a | 0 <= a < |before| ensures before[a].path != last.path {
        assert before[a] in shorter;
        var i :| 0 <= i < |shorter| && shorter[i] == before[a];
        assert Paths(ops)[i] != Paths(ops)[|ops| - 1];
      }
      assert !Changes(last) ==> Changed(ops) == before;
      assert Changes(last) ==> Changed(ops) == before + [last] && Paths(Changed(ops)) == Paths(before) + [last.path];
    }
  }

  lemma ChangedPaths(ops: seq<Operation>, i: nat, p: Path)
    requires DistinctPaths(Paths(ops)) && i < |ops| && p in Paths(Changed(ops))
    ensures p in Paths(ops) && (p == ops[i].path ==> Changes(ops[i]))
  {
    hide DistinctPaths;
    var changed := Changed(ops);
    var j :| 0 <= j < |changed| && changed[j].path == p;
    assert changed[j] in ops;
    var l :| 0 <= l < |ops| && ops[l] == changed[j];
    assert Paths(ops)[l] == p;
    if p == ops[i].path { SamePlace(ops, i, l); }
  }

  lemma ChangedIsReplaced(disk: Disk, ops: seq<Operation>, op: Operation)
    requires DistinctPaths(Paths(ops)) && op in ops && Changes(op)
    ensures At(Replaced(disk, Changed(ops)), op.path) == Some(File(op.content, op.mode))
  {
    hide Replaced, DistinctPaths;
    ChangedIsDistinct(ops);
    assert op in Changed(ops);
    var j :| 0 <= j < |Changed(ops)| && Changed(ops)[j] == op;
    StagedAt(disk, Changed(ops), j);
  }

  /** Applying a plan serves every file in it and touches no other. */
  lemma AppliedServes(disk: Disk, ops: seq<Operation>, i: nat, ownedByProject: bool)
    requires WellFormed(disk) && DistinctPaths(Paths(ops)) && i < |ops|
    requires MakeOperation(disk, ops[i].path, ops[i].content, ops[i].mode, ownedByProject) == Some(ops[i])
    ensures Served(disk, Replaced(disk, Changed(ops)), ops[i].path, ops[i].content, ops[i].mode, ownedByProject)
    ensures forall p | p !in Paths(ops) :: At(Replaced(disk, Changed(ops)), p) == At(disk, p)
  {
    hide Replaced, DistinctPaths, Below, WellFormed, Changed, Paths;
    var op := ops[i];
    StagedContents(disk, Changed(ops));
    forall p | p in Paths(Changed(ops)) ensures p in Paths(ops) && (p == op.path ==> Changes(op)) { ChangedPaths(ops, i, p); }
    if Changes(op) { ChangedIsReplaced(disk, ops, op); }
    if op.path in disk { FileIsNoDirectory(disk, op.path); }
  }

  lemma SamePlace(ops: seq<Operation>, i: nat, j: nat)
    requires DistinctPaths(Paths(ops)) && i < |ops| && j < |ops| && ops[i].path == ops[j].path
    ensures i == j
  {
    assert Paths(ops)[i] == Paths(ops)[j];
  }

  lemma FileIsNoDirectory(disk: Disk, p: Path)
    requires WellFormed(disk) && p in disk
    ensures !exists q | q in disk :: Below(q, p)
  {
  }
}
