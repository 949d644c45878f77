/**
 The environment manager as it runs: fields changed step by step, renames that may fail, compensating renames that may
 fail too. Every method is proved to implement the transition of Environment.dfy.
 */
module EnvironmentManager {
  import opened Common
  import opened Manifests
  import opened Environment
  import opened EnvironmentAgreement
  import opened EnvironmentRollback

  /**
   Which compensation fails: deleting the new tree, putting the active tree back, putting the rollback tree back. Their
   failures are ignored.
   */
  datatype UndoFaults = UndoFaults(clear: bool, active: bool, rollback: bool) {
    predicate None() { !clear && !active && !rollback }
  }

  // ----- Trees on the move -----

  /** Every tree is still somewhere. */
  ghost predicate Conserves(before: map<Path, Tree>, after: map<Path, Tree>) {
    before.Values <= after.Values
  }

  lemma MoveConserves(trees: map<Path, Tree>, from: Path, to: Path)
    requires from in trees && to !in trees
    ensures Conserves(trees, Move(trees, from, to))
  {
    var after := Move(trees, from, to);
    forall tree | tree in trees.Values ensures tree in after.Values {
      var p :| p in trees && trees[p] == tree;
      if p == from { assert to in after && after[to] == tree; } else { assert p in after && after[p] == tree; }
    }
  }

  /** The rollback tree moved to its side place. */
  function Rotated(trees: map<Path, Tree>, root: Path): map<Path, Tree> {
    if RollbackPath(root) in trees then Move(trees, RollbackPath(root), PreviousPath(root)) else trees
  }

  /** The active tree moved to the rollback place as well. */
  function Displaced(trees: map<Path, Tree>, root: Path): map<Path, Tree> {
    if root in trees then Move(Rotated(trees, root), root, RollbackPath(root)) else Rotated(trees, root)
  }

  lemma DisplacedFacts(trees: map<Path, Tree>, root: Path)
    requires PreviousPath(root) !in trees
    ensures root !in Displaced(trees, root)
    ensures root in trees ==> RollbackPath(root) in Displaced(trees, root)
    ensures RollbackPath(root) in trees ==> PreviousPath(root) in Displaced(trees, root)
  {
  }

  /** Moving the new tree in gives the trees of a committed install whose cleanup is still to come. */
  lemma DisplacedThenPlaced(trees: map<Path, Tree>, root: Path, staged: Tree)
    requires PreviousPath(root) !in trees
    ensures var placed := Displaced(trees, root)[root := staged];
      placed == InstalledTrees(trees, root, staged, true) && placed - {root} == Displaced(trees, root)
  {
    hide RollbackPath, PreviousPath;
    PlacesDiffer(root);
  }

  /** Deleting the rotated tree completes it. */
  lemma PlacedThenCleaned(trees: map<Path, Tree>, root: Path, staged: Tree)
    requires PreviousPath(root) !in trees
    ensures InstalledTrees(trees, root, staged, false) ==
      (var placed := InstalledTrees(trees, root, staged, true);
       if RollbackPath(root) in trees then placed - {PreviousPath(root)} else placed)
  {
    hide RollbackPath, PreviousPath;
    PlacesDiffer(root);
  }

  lemma PlacingConserves(trees: map<Path, Tree>, root: Path, staged: Tree)
    requires root !in trees
    ensures Conserves(trees, trees[root := staged])
  {
    var placed := trees[root := staged];
    forall tree | tree in trees.Values ensures tree in placed.Values {
      var p :| p in trees && trees[p] == tree;
      assert p in placed && placed[p] == tree;
    }
  }

  lemma PlacesDiffer(root: Path)
    ensures root != RollbackPath(root) && root != PreviousPath(root) && root != CurrentPath(root) && root != RemovePath(root)
    ensures RollbackPath(root) != PreviousPath(root) && RollbackPath(root) != CurrentPath(root)
  {
    assert |RollbackPath(root)| < |CurrentPath(root)| < |PreviousPath(root)|;
  }

  /** Putting the active tree back. */
  function Reinstated(trees: map<Path, Tree>, root: Path): map<Path, Tree> {
    if root in trees then Move(Displaced(trees, root), RollbackPath(root), root) else Displaced(trees, root)
  }

  lemma ReinstatedIsRotated(trees: map<Path, Tree>, root: Path)
    requires PreviousPath(root) !in trees
    ensures root in trees ==> RollbackPath(root) in Displaced(trees, root)
    ensures Reinstated(trees, root) == Rotated(trees, root)
    ensures RollbackPath(root) !in Rotated(trees, root)
    ensures RollbackPath(root) !in trees ==> Rotated(trees, root) == trees
    ensures RollbackPath(root) in trees ==>
              PreviousPath(root) in Rotated(trees, root) && Move(Rotated(trees, root), PreviousPath(root), RollbackPath(root)) == trees
  {
  }

  class Manager {
    const world: World
    var trees: map<Path, Tree>
    var records: map<string, Record>
    var saved: map<string, Record>
    var trust: map<string, PublicKey>

    constructor (world: World, trust: map<string, PublicKey>)
      ensures this.world == world && Initial(Value()) && this.trust == trust
    {
      this.world := world;
      this.trust := trust;
      trees, records, saved := map[], map[], map[];
    }

    function Value(): State
      reads this
    {
      State(trees, records, saved, trust)
    }

    // ----- Files -----

    /** Renames a directory. Nothing happens on failure, or if the target is taken. */
    method Rename(from: Path, to: Path, fails: bool) returns (ok: bool)
      modifies this`trees
      ensures ok <==> !fails && from in old(trees) && to !in old(trees)
      ensures trees == if ok then Move(old(trees), from, to) else old(trees)
      ensures Conserves(old(trees), trees)
    {
      ok := !fails && from in trees && to !in trees;
      if ok {
        MoveConserves(trees, from, to);
        trees := Move(trees, from, to);
      }
    }

    /** Writes the records to the state file, all or nothing. */
    method Save(fails: bool) returns (ok: bool)
      modifies this`saved
      ensures ok == !fails && saved == if ok then records else old(saved)
    {
      ok := !fails;
      if ok { saved := records; }
    }

    /** Enters a record and saves; takes the entry back if saving fails. */
    method Enroll(k: string, r: Record, saveFails: bool) returns (ok: bool)
      modifies this`records, this`saved
      ensures ok == !saveFails
      ensures Value() == CommitRecord(old(Value()), k, r, saveFails)
    {
      var before := records;
      records := records[k := r];
      ok := Save(saveFails);
      if !ok {
        records := if k in before then records[k := before[k]] else records - {k};
        assert records == before;
      }
    }

    // ----- Generations -----

    method NextGeneration(id: string) returns (g: Uint64)
      ensures g == Environment.NextGeneration(records, id)
    {
      var n: Uint64 := 0;
      var rest := records.Keys;
      while rest != {}
        invariant rest <= records.Keys
        invariant forall k | k in records && k !in rest && records[k].environmentID == id :: records[k].generation <= n
        invariant n > 0 ==> exists k :: k in records && records[k].environmentID == id && records[k].generation == n
        decreases rest
      {
        var k :| k in rest;
        if records[k].environmentID == id && records[k].generation > n { n := records[k].generation; }
        rest := rest - {k};
      }
      TopIsUnique(records, id, n);
      g := if n == MAX_UINT64 then 0 else n + 1;
    }

    // ----- Install -----

    /** Moves a known rollback tree aside. */
    method Rotate(m: Manifest, fails: bool) returns (error: Option<Error>, hasRollback: bool)
      modifies this`trees
      ensures var root, s := Root(m.environmentID, m.version), old(Value());
        && error == RoomError(world, s, m, fails, false)
        && hasRollback == (error.None? && RollbackPath(root) in s.trees)
        && trees == (if error.None? then Rotated(s.trees, root) else s.trees)
        && (error.None? ==> PreviousPath(root) !in s.trees)
      ensures Conserves(old(trees), trees)
    {
      hide ValidateAt, Crowded, Root, RollbackPath, PreviousPath;
      var root := Root(m.environmentID, m.version);
      hasRollback := false;
      if Exists(trees, PreviousPath(root)) { return Some(ExternalModification), false; }
      if Exists(trees, RollbackPath(root)) {
        if !PackageAt(world, Value(), RollbackPath(root), m.environmentID, m.version) {
          return Some(ExternalModification), false;
        }
        PackageIsPresent(world, Value(), RollbackPath(root), m.environmentID, m.version);
        hasRollback := Rename(RollbackPath(root), PreviousPath(root), fails);
        if !hasRollback { return Some(Transaction), false; }
      }
      error := None;
    }

    /** Moves the active tree, if it still is what its record says, into the rollback place. */
    method Preserve(id: string, version: string, fails: bool) returns (error: Option<Error>, hadOld: bool)
      requires RollbackPath(Root(id, version)) !in trees && !Crowded(trees, Root(id, version))
      modifies this`trees
      ensures var root := Root(id, version);
        && error == (if root !in old(trees) then None
                     else if !VerifyExisting(world, old(Value()), id, version) then Some(ExternalModification)
                     else if fails then Some(Transaction) else None)
        && hadOld == (error.None? && root in old(trees))
        && trees == if hadOld then Move(old(trees), root, RollbackPath(root)) else old(trees)
      ensures Conserves(old(trees), trees)
    {
      hide VerifyExisting, Crowded, Root, RollbackPath;
      error, hadOld := None, false;
      if Exists(trees, Root(id, version)) {
        if !VerifyExisting(world, Value(), id, version) { return Some(ExternalModification), false; }
        hadOld := Rename(Root(id, version), RollbackPath(Root(id, version)), fails);
        if !hadOld { error := Some(Transaction); }
      }
    }

    /** Makes room at the root: rotates the rollback tree away and preserves the active one. */
    method MakeRoom(m: Manifest, f: InstallFaults) returns (error: Option<Error>, hasRollback: bool, hadOld: bool)
      requires ValidIdentity(m.environmentID, m.version) && !Crowded(trees, Root(m.environmentID, m.version))
      requires Root(m.environmentID, m.version) in trees ==> VerifyExisting(world, Value(), m.environmentID, m.version)
      modifies this`trees
      ensures error == RoomError(world, old(Value()), m, f.rotate, f.preserve)
      ensures var root := Root(m.environmentID, m.version);
        && (error.None? ==> trees == Displaced(old(trees), root)
                            && hasRollback == (RollbackPath(root) in old(trees)) && hadOld == (root in old(trees)))
        && (error.Some? ==> trees == if RoomError(world, old(Value()), m, f.rotate, false).None?
                                     then Rotated(old(trees), root) else old(trees))
      ensures Conserves(old(trees), trees)
    {
      hide VerifyExisting, ValidIdentity, ValidateAt, Crowded, Root, RollbackPath, PreviousPath, PackageAt, Exists;
      error, hasRollback := Rotate(m, f.rotate);
      hadOld := false;
      if error.None? {
        RotationKeepsRoot(world, old(Value()), m.environmentID, m.version);
        RotationFreesRollback(old(trees), Root(m.environmentID, m.version));
        error, hadOld := Preserve(m.environmentID, m.version, f.preserve);
      }
    }

    /** The compensating renames of a failed install. */
    method PutBack(root: Path, hadOld: bool, hasRollback: bool, undo: UndoFaults, ghost before: map<Path, Tree>)
      requires PreviousPath(root) !in before
      requires hadOld == (root in before) && hasRollback == (RollbackPath(root) in before)
      modifies this`trees
      ensures old(trees) == Displaced(before, root) && !undo.active && !undo.rollback ==> trees == before
      ensures Conserves(old(trees), trees)
    {
      hide RollbackPath, PreviousPath, Rotated, Displaced, Move;
      ReinstatedIsRotated(before, root);
      DisplacedFacts(before, root);
      if hadOld { var _ := Rename(RollbackPath(root), root, undo.active); }
      if hasRollback { var _ := Rename(PreviousPath(root), RollbackPath(root), undo.rollback); }
    }

    /** Replaces the active tree by the staged one and records it, or takes everything back. */
    method Replace(m: Manifest, staged: Tree, f: InstallFaults, undo: UndoFaults, now: Instant)
      returns (outcome: Result<Record, Error>)
      requires ValidIdentity(m.environmentID, m.version) && !Crowded(trees, Root(m.environmentID, m.version))
      requires Root(m.environmentID, m.version) in trees ==> VerifyExisting(world, Value(), m.environmentID, m.version)
      requires ValidateTree(world, trust, staged).Some?
      requires ValidateTree(world, trust, staged).value.manifestDigest == m.manifestDigest
      modifies this`trees, this`records, this`saved
      ensures var s, root, k := old(Value()), Root(m.environmentID, m.version), Key(m.environmentID, m.version);
        var room := RoomError(world, s, m, f.rotate, f.preserve);
        var r := NewRecord(m, Environment.NextGeneration(s.records, m.environmentID), now);
        && outcome == (if room.Some? then Err(room.value) else if f.commit || f.save then Err(Transaction) else Ok(r))
        && (outcome.Err? ==> records == s.records && saved == s.saved && Conserves(s.trees, trees))
        && (outcome.Ok? ==> records == s.records[k := r] && saved == records
                            && trees == InstalledTrees(s.trees, root, staged, f.cleanup))
        && (room.None? && outcome.Err? && undo.None() ==> trees == s.trees)
        && (room.Some? ==> trees == if RoomError(world, s, m, f.rotate, false).None? then Rotated(s.trees, root) else s.trees)
    {
      hide VerifyExisting, ValidIdentity, ValidateTree, Crowded, Root, Key, RollbackPath, PreviousPath, Exists, PackageAt;
      hide InstalledTrees, Displaced, Rotated, IsTopGeneration, Environment.NextGeneration;
      var root, k := Root(m.environmentID, m.version), Key(m.environmentID, m.version);
      RoomMeansFree(world, Value(), m, f.rotate, f.preserve);
      var error, hasRollback, hadOld := MakeRoom(m, f);
      if error.Some? { return Err(error.value); }
      DisplacedFacts(old(trees), root);
      DisplacedThenPlaced(old(trees), root, staged);
      PlacedThenCleaned(old(trees), root, staged);
      PlacingConserves(trees, root, staged);
      if f.commit {
        PutBack(root, hadOld, hasRollback, undo, old(trees));
        return Err(Transaction);
      }
      trees := trees[root := staged];
      var generation := NextGeneration(m.environmentID);
      var r := NewRecord(m, generation, now);
      var ok := Enroll(k, r, f.save);
      if !ok {
        PlacedValidates(world, old(Value()), Value(), m.environmentID, m.version, staged);
        var checked := ValidateAt(world, Value(), root);
        if checked.None? || checked.value.manifestDigest != m.manifestDigest { return Err(ExternalModification); }
        if !undo.clear { trees := trees - {root}; }
        PutBack(root, hadOld, hasRollback, undo, old(trees));
        return Err(Transaction);
      }
      if hasRollback && !f.cleanup { trees := trees - {PreviousPath(root)}; }
      return Ok(r);
    }

    /** The checks that precede every move: the verdict, or none if the install may go ahead. */
    method Admit(m: Manifest, staged: Tree, f: InstallFaults) returns (verdict: Option<Result<Record, Error>>)
      ensures verdict == Verdict(world, Value(), m, staged, f)
    {
      hide VerifyExisting, ValidateTree, Exists, Root, Key, EqualFold;
      AlreadyMeans(world, Value(), m);
      if f.prepare { return Some(Err(Io)); }
      if Key(m.environmentID, m.version) in records {
        if !VerifyExisting(world, Value(), m.environmentID, m.version) { return Some(Err(ExternalModification)); }
        if Matches(m, records[Key(m.environmentID, m.version)]) { return Some(Ok(records[Key(m.environmentID, m.version)])); }
      } else if Exists(trees, Root(m.environmentID, m.version)) {
        return Some(Err(ExternalModification));
      }
      if f.stage { return Some(Err(Transaction)); }
      var checked := ValidateTree(world, trust, staged);
      if checked.None? || checked.value.manifestDigest != m.manifestDigest || checked.value.signer != m.signer {
        return Some(Err(Transaction));
      }
      return None;
    }

    /**
     Installs a package. With working compensation this is the transition Environment.Install. Whatever fails,
     compensation included, a failed install leaves the records and the state file alone and loses no tree.
     */
    method Install(source: Tree, staged: Tree, f: InstallFaults, undo: UndoFaults, now: Instant)
      returns (outcome: Result<Record, Error>)
      modifies this`trees, this`records, this`saved
      ensures outcome == Environment.Install(world, old(Value()), source, staged, f, now).1
      ensures undo.None() ==> Value() == Environment.Install(world, old(Value()), source, staged, f, now).0
      ensures outcome.Err? ==> records == old(records) && saved == old(saved) && Conserves(old(trees), trees)
    {
      hide VerifyExisting, ValidateTree, Crowded, Root, Key, PackageAt, ValidIdentity, EqualFold;
      hide InstalledTrees, Environment.NextGeneration, Environment.Install, RoomError, Rotated, Verdict;
      ghost var s := Value();
      InstallByStages(world, s, source, staged, f, now);
      var validated := ValidateTree(world, trust, source);
      if validated.None? { return Err(InvalidPackage); }
      var m := validated.value;
      var verdict := Admit(m, staged, f);
      if verdict.Some? { return verdict.value; }
      AdmittedPlaces(world, s, source, m, staged, f);
      outcome := Replace(m, staged, f, undo, now);
    }

    // ----- Rollback and Remove -----

    /** Restores the rollback tree. A failed rollback leaves the records and the state file alone and loses no tree. */
    method Rollback(id: string, version: string, f: RollbackFaults, undo: UndoFaults, now: Instant)
      returns (outcome: Option<Error>)
      modifies this`trees, this`records, this`saved
      ensures outcome == Environment.Rollback(world, old(Value()), id, version, f, now).1
      ensures undo.None() ==> Value() == Environment.Rollback(world, old(Value()), id, version, f, now).0
      ensures outcome.Some? ==> records == old(records) && saved == old(saved) && Conserves(old(trees), trees)
    {
      hide ValidateTree, Crowded, Root, Key, RollbackPath, CurrentPath, ValidIdentity, ValidateAt, EqualFold, Exists, Move;
      hide Environment.NextGeneration, RolledBackTrees, RollbackRefusal, Environment.Rollback;
      var root, k := Root(id, version), Key(id, version);
      var rollback, staging := RollbackPath(root), CurrentPath(root);
      var refusal := RollbackRefusal(world, Value(), id, version);
      if refusal.Some? {
        RefusedRollback(world, Value(), id, version, f, now);
        return refusal;
      }
      CommittedRollback(world, Value(), id, version, f, now);
      RollbackMoves(world, Value(), id, version);
      var previous := ValidateAt(world, Value(), rollback).value;
      var preserved := Rename(root, staging, f.preserve);
      if !preserved { return Some(Transaction); }
      var restored := Rename(rollback, root, f.restore);
      if !restored {
        var _ := Rename(staging, root, undo.active);
        return Some(Transaction);
      }
      var generation := NextGeneration(id);
      var ok := Enroll(k, NewRecord(previous, generation, now), f.save);
      if !ok {
        var _ := Rename(root, rollback, undo.rollback);
        var _ := Rename(staging, root, undo.active);
        return Some(Transaction);
      }
      if !f.cleanup { trees := trees - {staging}; }
      return None;
    }

    /** Removes a package. Unless the removal commits, the records, the state file and every tree are kept. */
    method Remove(id: string, version: string, f: RemoveFaults, undoFails: bool) returns (outcome: Option<Error>)
      modifies this`trees, this`records, this`saved
      ensures outcome == Environment.Remove(world, old(Value()), id, version, f).1
      ensures !undoFails ==> Value() == Environment.Remove(world, old(Value()), id, version, f).0
      ensures Key(id, version) in records ==> records == old(records) && saved == old(saved) && Conserves(old(trees), trees)
    {
      hide ValidateTree, Crowded, Root, Key, RemovePath, ValidIdentity, ValidateAt, EqualFold, Exists, RemoveRefusal;
      var root, k := Root(id, version), Key(id, version);
      var refusal := RemoveRefusal(world, Value(), id, version);
      if refusal.Some? { return refusal; }
      if k !in records { return None; }
      RemoveMoves(world, Value(), id, version);
      var r := records[k];
      ghost var before := records;
      var moved := Rename(root, RemovePath(root), f.rename);
      if !moved { return Some(Transaction); }
      records := records - {k};
      var ok := Save(f.save);
      if !ok {
        records := records[k := r];
        assert records == before;
        var restored := Rename(RemovePath(root), root, undoFails);
        return Some(Transaction);
      }
      if f.cleanup { return Some(Transaction); }
      trees := trees - {RemovePath(root)};
      return None;
    }

    // ----- Gates -----

    method Verify(id: string, version: string, saveFails: bool, now: Instant) returns (outcome: Result<Record, Error>)
      modifies this`records, this`saved
      ensures (Value(), outcome) == Environment.Verify(world, old(Value()), id, version, saveFails, now)
    {
      hide Current, Key;
      var k := Key(id, version);
      if k !in records || !records[k].installed { return Err(NotInstalled); }
      var r := records[k];
      var current := Current(world, Value(), id, version);
      r := r.(verified := current);
      if !current { r := r.(trusted := false, enabled := false, healthy := false, ready := false); }
      r := r.(updatedAt := now);
      var ok := Enroll(k, r, saveFails);
      return if !ok then Err(Transaction) else if current then Ok(r) else Err(NotVerified);
    }

    method SetTrusted(id: string, version: string, trusted: bool, saveFails: bool, now: Instant)
      returns (outcome: Result<Record, Error>)
      modifies this`records, this`saved
      ensures (Value(), outcome) == Environment.SetTrusted(world, old(Value()), id, version, trusted, saveFails, now)
    {
      hide Current, Key;
      var k := Key(id, version);
      if k !in records { return Err(NotInstalled); }
      var r := records[k];
      if !r.verified { return Err(NotVerified); }
      if !Current(world, Value(), id, version) {
        var ok := Enroll(k, r.Unverified(), saveFails);
        return Err(if ok then NotVerified else Transaction);
      }
      if trusted && r.signer !in trust { return Err(UntrustedSigner); }
      r := r.(trusted := trusted);
      if !trusted { r := r.(enabled := false, healthy := false, ready := false); }
      r := r.(updatedAt := now);
      var ok := Enroll(k, r, saveFails);
      return if ok then Ok(r) else Err(Transaction);
    }

    method SetEnabled(id: string, version: string, enabled: bool, saveFails: bool, now: Instant)
      returns (outcome: Result<Record, Error>)
      modifies this`records, this`saved
      ensures (Value(), outcome) == Environment.SetEnabled(world, old(Value()), id, version, enabled, saveFails, now)
    {
      hide Current, Key;
      var k := Key(id, version);
      if k !in records { return Err(NotInstalled); }
      var r := records[k];
      if enabled {
        if !r.trusted { return Err(NotTrusted); }
        if !Current(world, Value(), id, version) {
          var ok := Enroll(k, r.Unverified(), saveFails);
          return Err(if ok then NotVerified else Transaction);
        }
      }
      r := r.(enabled := enabled);
      if !enabled { r := r.(ready := false); }
      r := r.(updatedAt := now);
      var ok := Enroll(k, r, saveFails);
      return if ok then Ok(r) else Err(Transaction);
    }

    method HealthCheck(id: string, version: string, probe: Probe, saveFails: bool, now: Instant)
      returns (outcome: Result<Record, Error>)
      modifies this`records, this`saved
      ensures (Value(), outcome) == Environment.HealthCheck(world, old(Value()), id, version, probe, saveFails, now)
    {
      hide Current, Key, Exists, ValidIdentity, Root;
      var k := Key(id, version);
      if k !in records { return Err(NotInstalled); }
      var r := records[k];
      if !r.verified { return Err(NotVerified); }
      if !ValidIdentity(id, version) { return Err(InvalidPath); }
      if !Exists(trees, Root(id, version)) {
        var ok := Enroll(k, r.Unverified().(installed := false, updatedAt := now), saveFails);
        return Err(if ok then NotInstalled else Transaction);
      }
      if !Current(world, Value(), id, version) {
        var ok := Enroll(k, r.Unverified(), saveFails);
        return Err(if ok then NotVerified else Transaction);
      }
      if probe == Sick {
        var ok := Enroll(k, r.(healthy := false, ready := false, updatedAt := now), saveFails);
        return Err(if ok then NotHealthy else Transaction);
      }
      if probe == Interrupted { return Err(Cancelled); }
      r := r.(healthy := true, ready := r.installed && r.verified && r.trusted && r.enabled, updatedAt := now);
      var ok := Enroll(k, r, saveFails);
      return if !ok then Err(Transaction) else if r.ready then Ok(r) else Err(NotReady);
    }

    /** Selects a package to run: every gate open, the tree unchanged, the entry point declared. */
    method Resolve(id: string, version: string, entry: string, saveFails: bool) returns (outcome: Result<Manifest, Error>)
      modifies this`records, this`saved
      ensures (Value(), outcome) == Environment.Resolve(world, old(Value()), id, version, entry, saveFails)
    {
      hide Current, Key, Root, ValidateAt;
      var k := Key(id, version);
      if k !in records { return Err(NotInstalled); }
      var r := records[k];
      if !r.verified { return Err(NotVerified); }
      if !r.trusted { return Err(NotTrusted); }
      if !r.enabled { return Err(Disabled); }
      if !r.healthy { return Err(NotHealthy); }
      if !(r.ready && r.installed) { return Err(NotReady); }
      if !Current(world, Value(), id, version) {
        var _ := Enroll(k, r.Unverified(), saveFails);
        return Err(NotVerified);
      }
      CurrentIsValidated(world, Value(), id, version);
      var m := ValidateAt(world, Value(), Root(id, version)).value;
      var selected := "";
      var i := 0;
      while i < |m.entrypoints| && selected == ""
        invariant 0 <= i <= |m.entrypoints|
        invariant selected == "" <==> forall j | 0 <= j < i :: m.entrypoints[j].name != entry
      {
        if m.entrypoints[i].name == entry { selected := m.entrypoints[i].path; }
        i := i + 1;
      }
      return if selected == "" then Err(InvalidPackage) else Ok(m);
    }

    // ----- Mirroring into the store -----

    /**
     Mirrors the records into the store's catalog, one call at a time, the listing of the catalog included; call number
     `failAt` fails. Success leaves the catalog equal to the records, so that nothing revoked survives in it. A failure
     leaves each entry old or current.
     */
    method SyncRecords(catalog: Catalog, failAt: nat) returns (ok: bool)
      requires forall k | k in records :: k == Key(records[k].environmentID, records[k].version)
      modifies catalog
      ensures ok ==> catalog.entries == records
      ensures !ok ==> forall k | k in catalog.entries ::
                (k in records && catalog.entries[k] == records[k])
                || (k in old(catalog.entries) && catalog.entries[k] == old(catalog.entries)[k])
      ensures forall k | k in records && k in old(catalog.entries) :: k in catalog.entries
    {
      hide Key;
      var calls := 0;
      var keys := records.Keys;
      while keys != {}
        invariant keys <= records.Keys
        invariant forall k | k in records && k !in keys :: k in catalog.entries && catalog.entries[k] == records[k]
        invariant forall k | k in catalog.entries && (k !in records || k in keys) ::
                    k in old(catalog.entries) && catalog.entries[k] == old(catalog.entries)[k]
        invariant forall k | k in old(catalog.entries) :: k in catalog.entries
        decreases keys
      {
        var k :| k in keys;
        if calls == failAt { return false; }
        catalog.Put(records[k]);
        calls := calls + 1;
        keys := keys - {k};
      }
      if calls == failAt { return false; }
      var existing := catalog.entries.Keys;
      calls := calls + 1;
      while existing != {}
        invariant existing <= catalog.entries.Keys
        invariant forall k | k in records :: k in catalog.entries && catalog.entries[k] == records[k]
        invariant forall k | k in catalog.entries && k !in records :: k in existing
        invariant forall k | k in catalog.entries && k !in records ::
                    k in old(catalog.entries) && catalog.entries[k] == old(catalog.entries)[k]
        decreases existing
      {
        var k :| k in existing;
        if k !in records {
          if calls == failAt { return false; }
          catalog.Delete(k);
          calls := calls + 1;
        }
        existing := existing - {k};
      }
      assert catalog.entries.Keys == records.Keys;
      return true;
    }
  }

  lemma CurrentIsValidated(w: World, s: State, id: string, version: string)
    requires Current(w, s, id, version)
    ensures ValidateAt(w, s, Root(id, version)).Some?
    ensures forall e | e in ValidateAt(w, s, Root(id, version)).value.entrypoints :: e.path != ""
  {
    hide Crowded, TrustVerifies, UniqueTokens, ValidEnvironmentID, ValidEnvironmentVersion, ValidToken, EqualFold, ResourcesOk;
    hide ProbesOk;
  }

  /** The store's copy of the records, keyed by identity. */
  class Catalog {
    var entries: map<string, Record>

    method Put(r: Record)
      modifies this
      ensures entries == old(entries)[Key(r.environmentID, r.version) := r]
    {
      entries := entries[Key(r.environmentID, r.version) := r];
    }

    method Delete(k: string)
      modifies this
      ensures entries == old(entries) - {k}
    {
      entries := entries - {k};
    }
  }

  /** Three renames of a rollback and their inverses. */
  lemma RollbackMoves(w: World, s: State, id: string, version: string)
    requires RollbackRefusal(w, s, id, version).None?
    ensures var root, trees := Root(id, version), s.trees;
      var rollback, staging := RollbackPath(root), CurrentPath(root);
      && root in trees && rollback in trees && staging !in trees && root != rollback && root != staging && rollback != staging
      && var preserved := Move(trees, root, staging);
         && rollback in preserved && root !in preserved && staging in preserved && Move(preserved, staging, root) == trees
         && var restored := Move(preserved, rollback, root);
            && root in restored && rollback !in restored && staging in restored
            && Move(restored, root, rollback) == preserved
            && restored == RolledBackTrees(trees, root, true)
            && restored - {staging} == RolledBackTrees(trees, root, false)
  {
    hide ValidateTree, Crowded, Root, Key, ValidIdentity, EqualFold, RollbackPath, CurrentPath;
    PlacesDiffer(Root(id, version));
  }

  lemma RemoveMoves(w: World, s: State, id: string, version: string)
    requires RemoveRefusal(w, s, id, version).None? && Key(id, version) in s.records
    ensures var root, trees := Root(id, version), s.trees;
      && root in trees && RemovePath(root) !in trees && root != RemovePath(root)
      && var moved := Move(trees, root, RemovePath(root));
         && root !in moved && RemovePath(root) in moved && Move(moved, RemovePath(root), root) == trees
         && moved - {RemovePath(root)} == trees - {root}
  {
    hide ValidateTree, Crowded, Root, Key, ValidIdentity, EqualFold, RemovePath;
    PlacesDiffer(Root(id, version));
  }

  /** How an install ends before it looks for room, if it does. */
  function Verdict(w: World, s: State, m: Manifest, staged: Tree, f: InstallFaults): Option<Result<Record, Error>> {
    var k := Key(m.environmentID, m.version);
    if f.prepare then Some(Err(Io))
    else if AlreadyInstalled(w, s, m) then Some(Ok(s.records[k]))
    else if k in s.records && !VerifyExisting(w, s, m.environmentID, m.version) then Some(Err(ExternalModification))
    else if k !in s.records && Exists(s.trees, Root(m.environmentID, m.version)) then Some(Err(ExternalModification))
    else if f.stage || ValidateTree(w, s.trust, staged).None?
         || ValidateTree(w, s.trust, staged).value.manifestDigest != m.manifestDigest
         || ValidateTree(w, s.trust, staged).value.signer != m.signer then Some(Err(Transaction))
    else None
  }

  lemma AlreadyMeans(w: World, s: State, m: Manifest)
    ensures AlreadyInstalled(w, s, m) <==>
              && Key(m.environmentID, m.version) in s.records && VerifyExisting(w, s, m.environmentID, m.version)
              && Matches(m, s.records[Key(m.environmentID, m.version)])
  {
    hide ValidateTree, Crowded, Root, EqualFold, Key;
  }

  /** What an admitted install may rely on. */
  lemma AdmittedPlaces(w: World, s: State, source: Tree, m: Manifest, staged: Tree, f: InstallFaults)
    requires ValidateTree(w, s.trust, source) == Some(m) && Verdict(w, s, m, staged, f).None?
    ensures ValidIdentity(m.environmentID, m.version) && !Crowded(s.trees, Root(m.environmentID, m.version))
    ensures Root(m.environmentID, m.version) in s.trees ==> VerifyExisting(w, s, m.environmentID, m.version)
    ensures ValidateTree(w, s.trust, staged).Some? && ValidateTree(w, s.trust, staged).value.manifestDigest == m.manifestDigest
  {
    hide ValidateTree, Crowded, Root, Key, VerifyExisting, ValidIdentity, Verdict, TrustVerifies, Exists;
    ValidatedIdentity(w, s.trust, source);
    ExistingIsUncrowded(w, s, m.environmentID, m.version);
    AdmittedMeans(w, s, m, staged, f);
    if !VerifyExisting(w, s, m.environmentID, m.version) { NothingThere(s.trees, Root(m.environmentID, m.version)); }
  }

  lemma AdmittedMeans(w: World, s: State, m: Manifest, staged: Tree, f: InstallFaults)
    requires Verdict(w, s, m, staged, f).None?
    ensures VerifyExisting(w, s, m.environmentID, m.version) || !Exists(s.trees, Root(m.environmentID, m.version))
    ensures ValidateTree(w, s.trust, staged).Some? && ValidateTree(w, s.trust, staged).value.manifestDigest == m.manifestDigest
  {
    hide ValidateTree, Exists, Root, Key, VerifyExisting, AlreadyInstalled;
  }

  lemma NothingThere(trees: map<Path, Tree>, p: Path)
    requires !Exists(trees, p)
    ensures p !in trees && !Crowded(trees, p)
  {
    hide Crowded;
  }

  lemma ExistingIsUncrowded(w: World, s: State, id: string, version: string)
    ensures VerifyExisting(w, s, id, version) ==> !Crowded(s.trees, Root(id, version))
  {
    hide ValidateTree, Crowded, Root, EqualFold, Key;
  }

  /** The transition of an install, in the order in which the code goes about it. */
  lemma InstallByStages(w: World, s: State, source: Tree, staged: Tree, f: InstallFaults, now: Instant)
    ensures var validated := ValidateTree(w, s.trust, source);
      Environment.Install(w, s, source, staged, f, now) ==
      if validated.None? then (s, Err(InvalidPackage))
      else
        var m := validated.value;
        var root, k := Root(m.environmentID, m.version), Key(m.environmentID, m.version);
        var verdict, room := Verdict(w, s, m, staged, f), RoomError(w, s, m, f.rotate, f.preserve);
        var r := NewRecord(m, NextGeneration(s.records, m.environmentID), now);
        if verdict.Some? then (s, verdict.value)
        else if room.Some? then
          (if RoomError(w, s, m, f.rotate, false).None? then s.(trees := Rotated(s.trees, root)) else s, Err(room.value))
        else if f.commit || f.save then (s, Err(Transaction))
        else (State(InstalledTrees(s.trees, root, staged, f.cleanup), s.records[k := r], s.records[k := r], s.trust), Ok(r))
  {
    hide ValidateTree, Crowded, Root, EqualFold, Key, VerifyExisting, PackageAt, RollbackPath, PreviousPath, NextGeneration;
    hide AlreadyInstalled, InstalledTrees, Move;
    if ValidateTree(w, s.trust, source).Some? {
      var m := ValidateTree(w, s.trust, source).value;
      AlreadyInRecords(w, s, m);
    }
  }

  lemma AlreadyInRecords(w: World, s: State, m: Manifest)
    ensures AlreadyInstalled(w, s, m) ==> Key(m.environmentID, m.version) in s.records
  {
    hide ValidateTree, Crowded, Root, EqualFold, Key;
  }

  lemma RoomMeansFree(w: World, s: State, m: Manifest, rotateFails: bool, preserveFails: bool)
    ensures RoomError(w, s, m, rotateFails, preserveFails).None? ==>
              PreviousPath(Root(m.environmentID, m.version)) !in s.trees
  {
    hide PackageAt, Root, RollbackPath, PreviousPath, Crowded;
  }

  /** The tree just moved in is what validation sees at the root. */
  lemma PlacedValidates(w: World, s: State, t: State, id: string, version: string, staged: Tree)
    requires ValidIdentity(id, version) && !Crowded(s.trees, Root(id, version)) && t.trust == s.trust
    requires t.trees == Displaced(s.trees, Root(id, version))[Root(id, version) := staged]
    ensures ValidateAt(w, t, Root(id, version)) == ValidateTree(w, s.trust, staged)
  {
    hide ValidIdentity, ValidateTree, Crowded, IsSuffix, Below;
    var root := Root(id, version);
    RootEndsInVersion(id, version);
    Suffixes();
    SiblingBelow(root, ".rollback", root);
    assert OnlyNear(s.trees, t.trees, root);
    StaysUncrowded(s.trees, t.trees, root, root);
  }

  /** Why an install stops before the new tree is moved in. */
  function RoomError(w: World, s: State, m: Manifest, rotateFails: bool, preserveFails: bool): Option<Error> {
    var root := Root(m.environmentID, m.version);
    if Exists(s.trees, PreviousPath(root)) then Some(ExternalModification)
    else if Exists(s.trees, RollbackPath(root)) && !PackageAt(w, s, RollbackPath(root), m.environmentID, m.version) then
      Some(ExternalModification)
    else if rotateFails && RollbackPath(root) in s.trees then Some(Transaction)
    else if preserveFails && root in s.trees then Some(Transaction) else None
  }

  lemma RotationFreesRollback(trees: map<Path, Tree>, root: Path)
    ensures RollbackPath(root) !in Rotated(trees, root)
  {
  }

  lemma PackageIsPresent(w: World, s: State, p: Path, id: string, version: string)
    requires PackageAt(w, s, p, id, version)
    ensures p in s.trees && !Crowded(s.trees, p)
  {
    hide ValidateTree, Crowded;
  }

  /** Moving the rollback tree aside leaves the active root as it was. */
  lemma RotationKeepsRoot(w: World, s: State, id: string, version: string)
    requires ValidIdentity(id, version) && PreviousPath(Root(id, version)) !in s.trees && !Crowded(s.trees, Root(id, version))
    ensures var root, t := Root(id, version), s.(trees := Rotated(s.trees, Root(id, version)));
      && (root in t.trees <==> root in s.trees) && !Crowded(t.trees, root)
      && (VerifyExisting(w, t, id, version) <==> VerifyExisting(w, s, id, version))
  {
    hide ValidIdentity, ValidateTree, Crowded, IsSuffix, Below;
    var root, t := Root(id, version), s.(trees := Rotated(s.trees, Root(id, version)));
    RootEndsInVersion(id, version);
    Suffixes();
    SiblingBelow(root, ".rollback", root);
    assert OnlyNear(s.trees, t.trees, root);
    StaysUncrowded(s.trees, t.trees, root, root);
  }

  lemma TopIsUnique(records: map<string, Record>, id: string, n: Uint64)
    requires IsTopGeneration(records, id, n)
    ensures n == TopGeneration(records, id)
  {
    assert IsTopGeneration(records, id, TopGeneration(records, id));
  }
}
