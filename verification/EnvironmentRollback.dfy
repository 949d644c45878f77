/**
 Two long-range facts about the renames of the manager: rolling back undoes an install exactly; and exactly which installs
 leave an old rollback tree behind, which then blocks every later upgrade of that package.
 */
module EnvironmentRollback {
  import opened Common
  import opened Manifests
  import opened Environment
  import opened EnvironmentAgreement
  import opened EnvironmentHistory

  // ----- Rolling back an install -----

  ghost predicate AllGates(ops: seq<Op>) {
    forall n | 0 <= n < |ops| :: IsGateOp(ops[n])
  }

  lemma {:induction false} GateRun(w: World, s: State, ops: seq<Op>)
    requires AllGates(ops)
    ensures GateStep(s, Run(w, s, ops))
    decreases |ops|
  {
    hide Step, IsGateOp;
    if ops != [] {
      GateRun(w, s, ops[..|ops| - 1]);
      GateOpsOnlyGate(w, Run(w, s, ops[..|ops| - 1]), ops[|ops| - 1]);
    }
  }

  lemma DigestBindsSigner(w: World, trust: map<string, PublicKey>, m: Manifest, n: Manifest)
    requires Separates(w.crypto, m, n) && TrustVerifies(w.crypto, trust, m) && TrustVerifies(w.crypto, trust, n)
    requires EqualFold(m.manifestDigest, n.manifestDigest)
    ensures m.signer == n.signer
  {
    hide InOrder, ContentOk, Canonical;
    DigestBindsContent(w.crypto, m, n);
    CanonicalForm(m);
    CanonicalForm(n);
  }

  /** The places of a package are never inside one of its own siblings. */
  lemma NotInsideSibling(root: Path, suffix: string, sibling: string)
    requires root != "" && root[|root| - 1] != '/' && IsSuffix(suffix) && IsSuffix(sibling)
    ensures !Below(root, root + sibling) && !Below(root + suffix, root + sibling)
  {
    hide IsSuffix;
    SiblingBelow(root, suffix, root + sibling);
  }

  /** An install changes nothing about what stands in the way of a sibling it does not use. */
  lemma InstallLeavesCurrentPath(trees: map<Path, Tree>, root: Path, staged: Tree, cleanupFails: bool)
    requires root != "" && root[|root| - 1] != '/'
    ensures var after := InstalledTrees(trees, root, staged, cleanupFails);
      && (Exists(after, CurrentPath(root)) <==> Exists(trees, CurrentPath(root)))
      && (CurrentPath(root) in after <==> CurrentPath(root) in trees)
  {
    var after, p := InstalledTrees(trees, root, staged, cleanupFails), CurrentPath(root);
    hide IsSuffix, Below;
    assert IsSuffix(".rollback") && IsSuffix(".rollback-previous") && IsSuffix(".rollback-current") by { Suffixes(); }
    NotInsideSibling(root, ".rollback", ".rollback-current");
    NotInsideSibling(root, ".rollback-previous", ".rollback-current");
    assert forall q | q != root && q != RollbackPath(root) && q != PreviousPath(root) :: q in after <==> q in trees;
    assert forall q | Below(q, p) :: q in after <==> q in trees;
  }

  lemma Suffixes()
    ensures IsSuffix(".rollback") && IsSuffix(".rollback-previous") && IsSuffix(".rollback-current") && IsSuffix(".remove")
  {
  }

  /** What an install that was not refused left in the two places a rollback reads. */
  lemma InstalledPlaces(w: World, s: State, t: State, m: Manifest, staged: Tree, f: InstallFaults)
    requires InstallRefusal(w, s, m, staged, f).None? && ValidIdentity(m.environmentID, m.version)
    requires t.trust == s.trust && Root(m.environmentID, m.version) in s.trees
    requires t.trees == InstalledTrees(s.trees, Root(m.environmentID, m.version), staged, f.cleanup)
    ensures var root := Root(m.environmentID, m.version);
      && ValidateAt(w, t, root) == ValidateTree(w, s.trust, staged)
      && ValidateAt(w, t, RollbackPath(root)) == ValidateAt(w, s, root)
  {
    hide ValidateTree, Crowded, Below, ValidIdentity, InstallRefusal, IsSuffix, OnlyNear, SameAt;
    var root := Root(m.environmentID, m.version);
    Suffixes();
    NotRefused(w, s, m, staged, f);
    RollbackUncrowded(w, s, m, staged, f);
    RootEndsInVersion(m.environmentID, m.version);
    InstalledTreesRelocate(w, s, t, m.environmentID, m.version, staged, f.cleanup);
    NotInsideSibling(root, ".rollback", ".rollback");
    SiblingBelow(root, ".rollback", root);
    StaysUncrowded(s.trees, t.trees, root, root);
    StaysUncrowded(s.trees, t.trees, root, RollbackPath(root));
  }

  lemma RollbackUncrowded(w: World, s: State, m: Manifest, staged: Tree, f: InstallFaults)
    requires InstallRefusal(w, s, m, staged, f).None?
    ensures !Crowded(s.trees, RollbackPath(Root(m.environmentID, m.version)))
  {
    hide ValidateTree, Root, RollbackPath, PreviousPath, Key, EqualFold, VerifyExisting;
  }

  /** After a committed install over a live package, a rollback is refused only for a ready package or a leftover. */
  lemma InstallOpensRollback(w: World, s: State, t: State, m: Manifest, staged: Tree, f: InstallFaults)
    requires InstallRefusal(w, s, m, staged, f).None? && !AlreadyInstalled(w, s, m)
    requires ValidateTree(w, s.trust, staged).Some? ==> Separates(w.crypto, m, ValidateTree(w, s.trust, staged).value)
    requires Root(m.environmentID, m.version) in s.trees ==> TellsApart(w, staged, s.trees[Root(m.environmentID, m.version)])
    requires ValidIdentity(m.environmentID, m.version) && TrustVerifies(w.crypto, s.trust, m)
    requires Key(m.environmentID, m.version) in s.records && AgreesAt(w, s, Key(m.environmentID, m.version))
    requires t.trust == s.trust && Key(m.environmentID, m.version) in t.records
    requires t.trees == InstalledTrees(s.trees, Root(m.environmentID, m.version), staged, f.cleanup)
    ensures Root(m.environmentID, m.version) in s.trees
    ensures RollbackRefusal(w, t, m.environmentID, m.version) ==
      if t.records[Key(m.environmentID, m.version)].ready then Some(NotReady)
      else if Exists(s.trees, CurrentPath(Root(m.environmentID, m.version))) then Some(ExternalModification)
      else None
  {
    hide ValidateTree, Crowded, Below, ValidIdentity, InstallRefusal, TrustVerifies, Separates, EqualFold, InstalledTrees;
    var k, root := Key(m.environmentID, m.version), Root(m.environmentID, m.version);
    KeyIsInjective(m.environmentID, m.version, s.records[k].environmentID, s.records[k].version);
    InstalledPlaces(w, s, t, m, staged, f);
    NotRefused(w, s, m, staged, f);
    ValidatedIdentity(w, s.trust, staged);
    ValidatedIdentity(w, s.trust, s.trees[root]);
    var n := ValidateTree(w, s.trust, staged).value;
    var a := ValidateAt(w, s, root).value;
    StagedIsSource(w, s.trust, m, n);
    RootEndsInVersion(m.environmentID, m.version);
    InstallLeavesCurrentPath(s.trees, root, staged, f.cleanup);
    if EqualFold(n.manifestDigest, a.manifestDigest) {
      StagedIsSeparate(w, s, staged, s.trees[root], n);
      DigestBindsSigner(w, s.trust, n, a);
      EqualFoldReflexive(a.manifestDigest);
      assert false;
    }
    assert RollbackPath(root) in t.trees by { InstalledHasRollback(s.trees, root, staged, f.cleanup); }
  }

  lemma InstalledHasRollback(trees: map<Path, Tree>, root: Path, staged: Tree, cleanupFails: bool)
    requires root in trees
    ensures RollbackPath(root) in InstalledTrees(trees, root, staged, cleanupFails)
  {
  }

  lemma EqualFoldReflexive(d: string)
    ensures EqualFold(d, d)
  {
  }

  /** The trees after an install and a rollback, with both cleanups working: an older rollback tree is all that is lost. */
  lemma RolledBackTreesAreTheOld(trees: map<Path, Tree>, root: Path, staged: Tree)
    requires root in trees && PreviousPath(root) !in trees
    ensures var after := InstalledTrees(trees, root, staged, false);
      && root in after && RollbackPath(root) in after
      && RolledBackTrees(after, root, false) == trees - {RollbackPath(root)}
  {
  }

  lemma RolledBackPlaces(trees: map<Path, Tree>, root: Path, staged: Tree, installCleanup: bool, rollbackCleanup: bool)
    requires root in trees
    ensures var after := InstalledTrees(trees, root, staged, installCleanup);
      && root in after && RollbackPath(root) in after
      && root in RolledBackTrees(after, root, rollbackCleanup)
      && RolledBackTrees(after, root, rollbackCleanup)[root] == trees[root]
      && RollbackPath(root) !in RolledBackTrees(after, root, rollbackCleanup)
  {
  }

  /** After a rollback nothing stands where the rollback tree was. */
  lemma RollbackPlaceIsFree(w: World, t: State, u: State, id: string, version: string, cleanupFails: bool)
    requires ValidIdentity(id, version) && Root(id, version) in t.trees
    requires RollbackPath(Root(id, version)) in t.trees && !Crowded(t.trees, RollbackPath(Root(id, version)))
    requires u.trees == RolledBackTrees(t.trees, Root(id, version), cleanupFails)
    ensures !Exists(u.trees, RollbackPath(Root(id, version)))
  {
    hide ValidIdentity, Below;
    var root := Root(id, version);
    RootEndsInVersion(id, version);
    Suffixes();
    NotInsideSibling(root, ".rollback-current", ".rollback");
    assert OnlyNear(t.trees, u.trees, root);
    StaysUncrowded(t.trees, u.trees, root, RollbackPath(root));
  }

  /** A rollback that was not refused and met no fault. */
  lemma CommittedRollback(w: World, t: State, id: string, version: string, f: RollbackFaults, now: Instant)
    requires RollbackRefusal(w, t, id, version).None?
    ensures var root := Root(id, version);
      && root in t.trees && RollbackPath(root) in t.trees && !Crowded(t.trees, RollbackPath(root))
      && ValidIdentity(id, version) && ValidateAt(w, t, RollbackPath(root)).Some?
      && Rollback(w, t, id, version, f, now) ==
         if f.preserve || f.restore || f.save then (t, Some(Transaction)) else
         (var r := NewRecord(ValidateAt(w, t, RollbackPath(root)).value, NextGeneration(t.records, id), now);
          (State(RolledBackTrees(t.trees, root, f.cleanup), t.records[Key(id, version) := r],
                 t.records[Key(id, version) := r], t.trust), None))
  {
    hide ValidateTree, Crowded, ValidIdentity, Root, RollbackPath, Key, EqualFold, NextGeneration, RolledBackTrees;
  }

  /**
   Rolling back an install over a live package, whatever happened to its gates in between: it succeeds exactly when the
   package is not ready, no leftover is in the way and no step fails. Then the old tree is active again under a record that
   is installed and verified only, and there is nothing further to roll back to.
   */
  lemma RollbackUndoesInstall(w: World, s: State, source: Tree, staged: Tree, f: InstallFaults, now: Instant, m: Manifest,
                              t: State, rf: RollbackFaults, later: Instant)
    requires Committed(w, s, source, staged, f, now) && ValidateTree(w, s.trust, source) == Some(m)
    requires TellsApart(w, source, staged)
    requires Root(m.environmentID, m.version) in s.trees ==> TellsApart(w, staged, s.trees[Root(m.environmentID, m.version)])
    requires Key(m.environmentID, m.version) in s.records && AgreesAt(w, s, Key(m.environmentID, m.version))
    requires GateStep(Install(w, s, source, staged, f, now).0, t)
    ensures var root, k := Root(m.environmentID, m.version), Key(m.environmentID, m.version);
      && root in s.trees && k in t.records
      && var (u, outcome) := Rollback(w, t, m.environmentID, m.version, rf, later);
         && (outcome.None? <==> !t.records[k].ready && !Exists(s.trees, CurrentPath(root))
                                && !rf.preserve && !rf.restore && !rf.save)
         && (outcome.None? ==> Restored(s, u, root, k) && Gone(w, u, m.environmentID, m.version))
         && (outcome.None? && !f.cleanup && !rf.cleanup ==> u.trees == s.trees - {RollbackPath(root)})
         && (outcome.Some? ==> u == t)
  {
    hide ValidateTree, Crowded, InstallRefusal, TellsApart, Separates, Install, Rollback, RollbackRefusal, Committed, AlreadyInstalled;
    hide InstalledTrees, RolledBackTrees, NextGeneration, ValidIdentity, Below, TrustVerifies, Exists, Gone, VerifyExisting;
    var root, k := Root(m.environmentID, m.version), Key(m.environmentID, m.version);
    CommittedInstall(w, s, source, staged, f, now, m);
    CommittedIsNew(w, s, source, staged, f, now);
    ValidatedIdentity(w, s.trust, source);
    NotRefused(w, s, m, staged, f);
    StagedIsSeparate(w, s, source, staged, m);
    InstallOpensRollback(w, s, t, m, staged, f);
    if RollbackRefusal(w, t, m.environmentID, m.version).None? {
      CommittedRollback(w, t, m.environmentID, m.version, rf, later);
      if !(rf.preserve || rf.restore || rf.save) {
        var u := Rollback(w, t, m.environmentID, m.version, rf, later).0;
        InstalledPlaces(w, s, t, m, staged, f);
        RolledBackPlaces(s.trees, root, staged, f.cleanup, rf.cleanup);
        RolledBackTreesAreTheOld(s.trees, root, staged);
        KeyIsInjective(m.environmentID, m.version, s.records[k].environmentID, s.records[k].version);
        RollbackPlaceIsFree(w, t, u, m.environmentID, m.version, rf.cleanup);
        NothingToRollBack(w, u, m.environmentID, m.version);
      }
    } else {
      RefusedRollback(w, t, m.environmentID, m.version, rf, later);
    }
  }

  /** The tree of `s` is active again in `u`, under a fresh record of the same package with only its first two gates open. */
  ghost predicate Restored(s: State, u: State, root: Path, k: string)
    requires k in s.records && root in s.trees
  {
    && root in u.trees && u.trees[root] == s.trees[root]
    && k in u.records && JustCommitted(u.records[k])
    && u.records[k].manifestDigest == s.records[k].manifestDigest && u.records[k].signer == s.records[k].signer
  }

  /** Any further rollback is unavailable. */
  ghost predicate Gone(w: World, u: State, id: string, version: string) {
    forall f: RollbackFaults, now: Instant :: Rollback(w, u, id, version, f, now) == (u, Some(RollbackUnavailable))
  }

  lemma NothingToRollBack(w: World, u: State, id: string, version: string)
    requires ValidIdentity(id, version) && Key(id, version) in u.records && !u.records[Key(id, version)].ready
    requires !Exists(u.trees, RollbackPath(Root(id, version)))
    ensures Gone(w, u, id, version)
  {
    hide ValidateTree, ValidIdentity, Key, Exists, EqualFold;
  }

  lemma RefusedRollback(w: World, t: State, id: string, version: string, f: RollbackFaults, now: Instant)
    requires RollbackRefusal(w, t, id, version).Some?
    ensures Rollback(w, t, id, version, f, now) == (t, RollbackRefusal(w, t, id, version))
  {
    hide RollbackRefusal, Key, Root, NextGeneration;
  }

  lemma CommittedIsNew(w: World, s: State, source: Tree, staged: Tree, f: InstallFaults, now: Instant)
    requires Committed(w, s, source, staged, f, now)
    ensures ValidateTree(w, s.trust, source).Some? && !AlreadyInstalled(w, s, ValidateTree(w, s.trust, source).value)
  {
    hide Install, AlreadyInstalled, ValidateTree;
    CommittedHasManifest(w, s, source, staged, f, now);
  }

  /** The life of a package: install A, install B over it, roll back to A, with gate calls anywhere in between. */
  lemma InstallInstallRollback(w: World, s: State, a: Op, gates: seq<Op>, b: Op, more: seq<Op>, back: Op, m: Manifest, n: Manifest)
    requires AllGates(gates) && AllGates(more) && a.OpInstall? && b.OpInstall? && back.OpRollback?
    requires TellsApart(w, a.source, a.staged) && TellsApart(w, b.source, b.staged) && TellsApart(w, b.staged, a.staged)
    requires Committed(w, s, a.source, a.staged, a.installFaults, a.now) && ValidateTree(w, s.trust, a.source) == Some(m)
    requires var t := Run(w, Step(w, s, a), gates);
      Committed(w, t, b.source, b.staged, b.installFaults, b.now) && ValidateTree(w, t.trust, b.source) == Some(n)
    requires n.environmentID == m.environmentID && n.version == m.version && back.id == m.environmentID && back.version == m.version
    ensures var t := Run(w, Step(w, Run(w, Step(w, s, a), gates), b), more);
      var root, k := Root(m.environmentID, m.version), Key(m.environmentID, m.version);
      && k in t.records
      && var (u, outcome) := Rollback(w, t, back.id, back.version, back.rollbackFaults, back.now);
         outcome.None? ==>
           && root in u.trees && u.trees[root] == a.staged && k in u.records && JustCommitted(u.records[k])
           && u.records[k].manifestDigest == m.manifestDigest && u.records[k].signer == m.signer
           && Gone(w, u, m.environmentID, m.version)
  {
    hide Install, Rollback, Committed, ValidateTree, Run, TellsApart, Separates, GateStep, Gone, AgreesAt, TrustVerifies, ValidIdentity;
    hide Exists, InstallResult;
    var s1 := Step(w, s, a);
    var s2 := Run(w, s1, gates);
    GateRun(w, s1, gates);
    CommittedInstall(w, s, a.source, a.staged, a.installFaults, a.now, m);
    ValidatedIdentity(w, s.trust, a.source);
    StagedIsSeparate(w, s, a.source, a.staged, m);
    InstallEstablishesOwn(w, s, m, a.staged, a.installFaults, a.now);
    InstallPlaces(s, m, a.staged, a.installFaults.cleanup, a.now);
    GatesKeepPlace(w, s1, s2, Key(m.environmentID, m.version));
    var s3 := Step(w, s2, b);
    GateRun(w, s3, more);
    RollbackUndoesInstall(w, s2, b.source, b.staged, b.installFaults, b.now, n, Run(w, s3, more), back.rollbackFaults, back.now);
  }

  lemma InstallPlaces(s: State, m: Manifest, staged: Tree, cleanupFails: bool, now: Instant)
    ensures var t, root, k := InstallResult(s, m, staged, cleanupFails, now), Root(m.environmentID, m.version), Key(m.environmentID, m.version);
      && root in t.trees && t.trees[root] == staged && k in t.records
      && t.records[k].manifestDigest == m.manifestDigest && t.records[k].signer == m.signer
  {
    hide NextGeneration, Key, Root;
  }

  lemma GatesKeepPlace(w: World, s: State, t: State, k: string)
    requires GateStep(s, t) && k in s.records && AgreesAt(w, s, k)
    ensures t.trees == s.trees && k in t.records && AgreesAt(w, t, k)
    ensures t.records[k].manifestDigest == s.records[k].manifestDigest && t.records[k].signer == s.records[k].signer
  {
    hide ValidateTree, ValidIdentity, Crowded;
    UntouchedAgrees(w, s, t, k);
  }

  // ----- Leftovers that block upgrades -----

  /** A tree stands under `.rollback-previous` of the package, and it is no other package's active root. */
  ghost predicate Wedged(s: State, id: string, version: string) {
    && ValidIdentity(id, version) && PreviousPath(Root(id, version)) in s.trees
    && forall i, v | ValidIdentity(i, v) && Root(i, v) == PreviousPath(Root(id, version)) :: Key(i, v) !in s.records
  }

  /** A failed preservation after the rollback tree was rotated away wedges the package. */
  lemma FailedPreservationWedges(w: World, s: State, source: Tree, staged: Tree, f: InstallFaults, now: Instant, m: Manifest)
    requires Agree(w, s) && ValidateTree(w, s.trust, source) == Some(m) && !AlreadyInstalled(w, s, m)
    requires InstallRefusal(w, s, m, staged, f).None? && !f.rotate && f.preserve
    requires Root(m.environmentID, m.version) in s.trees && RollbackPath(Root(m.environmentID, m.version)) in s.trees
    ensures Install(w, s, source, staged, f, now).1 == Err(Transaction)
    ensures Wedged(Install(w, s, source, staged, f, now).0, m.environmentID, m.version)
  {
    hide ValidateTree, InstallRefusal, ValidIdentity, AlreadyInstalled, Exists, Key, Crowded;
    var t, root := Install(w, s, source, staged, f, now).0, Root(m.environmentID, m.version);
    ValidatedIdentity(w, s.trust, source);
    NotRefused(w, s, m, staged, f);
    assert t == s.(trees := Move(s.trees, RollbackPath(root), PreviousPath(root)));
    forall i, v | ValidIdentity(i, v) && Root(i, v) == PreviousPath(root) ensures Key(i, v) !in t.records {
      if Key(i, v) in s.records { LiveRootIsPresent(w, s, i, v); assert false; }
    }
  }

  /** Where the trees end up, for every outcome of an install. */
  lemma TreesAfterInstall(w: World, s: State, source: Tree, staged: Tree, f: InstallFaults, now: Instant, m: Manifest)
    requires ValidateTree(w, s.trust, source) == Some(m)
    ensures var root, t := Root(m.environmentID, m.version), Install(w, s, source, staged, f, now).0;
      t.trees ==
      if AlreadyInstalled(w, s, m) || InstallRefusal(w, s, m, staged, f).Some? || (f.rotate && RollbackPath(root) in s.trees) then
        s.trees
      else if f.preserve && root in s.trees then
        (if RollbackPath(root) in s.trees then Move(s.trees, RollbackPath(root), PreviousPath(root)) else s.trees)
      else if f.commit || f.save then s.trees
      else InstalledTrees(s.trees, root, staged, f.cleanup)
    ensures var t := Install(w, s, source, staged, f, now).0;
      t.records.Keys <= s.records.Keys + {Key(m.environmentID, m.version)}
  {
    hide ValidateTree, Exists, NextGeneration, VerifyExisting, InstalledTrees, PackageAt, Root, RollbackPath, PreviousPath, Key;
    hide AlreadyInstalled, Move;
  }

  /** An install leaves a rotated rollback tree behind: its preservation failed, or its last cleanup did. */
  predicate LeavesRotated(w: World, s: State, m: Manifest, staged: Tree, f: InstallFaults) {
    var root := Root(m.environmentID, m.version);
    && !AlreadyInstalled(w, s, m) && InstallRefusal(w, s, m, staged, f).None?
    && RollbackPath(root) in s.trees && !f.rotate
    && ((f.preserve && root in s.trees) || (!(f.preserve && root in s.trees) && !f.commit && !f.save && f.cleanup))
  }

  lemma PreviousAfterInstalled(trees: map<Path, Tree>, root: Path, staged: Tree, cleanupFails: bool)
    requires PreviousPath(root) !in trees
    ensures PreviousPath(root) in InstalledTrees(trees, root, staged, cleanupFails) <==> cleanupFails && RollbackPath(root) in trees
    ensures RollbackPath(root) in trees ==> PreviousPath(root) in Move(trees, RollbackPath(root), PreviousPath(root))
  {
    SiblingsDiffer(root, root);
    assert |root| < |PreviousPath(root)|;
  }

  /**
   Exactly which installs wedge a package that was not wedged: those that get past every check and move the rollback tree
   aside, and then either fail to preserve the active tree or commit without managing to delete what they moved aside.
   */
  lemma InstallWedgesIff(w: World, s: State, source: Tree, staged: Tree, f: InstallFaults, now: Instant, m: Manifest)
    requires Agree(w, s) && ValidateTree(w, s.trust, source) == Some(m)
    requires PreviousPath(Root(m.environmentID, m.version)) !in s.trees
    ensures Wedged(Install(w, s, source, staged, f, now).0, m.environmentID, m.version) <==> LeavesRotated(w, s, m, staged, f)
  {
    hide ValidateTree, InstallRefusal, ValidIdentity, AlreadyInstalled, Key, Install, Root, PreviousPath, InstalledTrees, Move;
    hide RollbackPath, Agree;
    var t, root := Install(w, s, source, staged, f, now).0, Root(m.environmentID, m.version);
    TreesAfterInstall(w, s, source, staged, f, now, m);
    PreviousAfterInstalled(s.trees, root, staged, f.cleanup);
    assert PreviousPath(root) in t.trees <==> LeavesRotated(w, s, m, staged, f);
    ValidatedIdentity(w, s.trust, source);
    PreviousIsNotRoot(root);
    forall i, v | ValidIdentity(i, v) && Root(i, v) == PreviousPath(root) ensures Key(i, v) !in t.records {
      if Key(i, v) in s.records { LiveRootIsPresent(w, s, i, v); assert false; }
      if Key(i, v) == Key(m.environmentID, m.version) { KeyIsInjective(i, v, m.environmentID, m.version); assert false; }
    }
  }

  lemma PreviousIsNotRoot(root: Path)
    ensures PreviousPath(root) != root
  {
    assert |root| < |PreviousPath(root)|;
  }

  lemma LiveRootIsPresent(w: World, s: State, id: string, version: string)
    requires Agree(w, s) && ValidIdentity(id, version) && Key(id, version) in s.records
    ensures Root(id, version) in s.trees
  {
    hide ValidIdentity, ValidateTree, Crowded;
    var r := s.records[Key(id, version)];
    assert AgreesAt(w, s, Key(id, version));
    KeyIsInjective(id, version, r.environmentID, r.version);
  }

  /** Once wedged, no install of the package changes anything: it reports the package as already installed or fails. */
  lemma WedgedInstallChangesNothing(w: World, s: State, source: Tree, staged: Tree, f: InstallFaults, now: Instant, m: Manifest)
    requires Wedged(s, m.environmentID, m.version) && ValidateTree(w, s.trust, source) == Some(m)
    ensures Install(w, s, source, staged, f, now).0 == s
    ensures Install(w, s, source, staged, f, now).1.Ok? ==> !f.prepare && AlreadyInstalled(w, s, m)
  {
    hide ValidateTree, ValidIdentity, VerifyExisting, Crowded, PackageAt, Key, NextGeneration, InstalledTrees;
  }

  /** Distinct siblings of valid roots are distinct paths. */
  lemma SiblingsDiffer(root: Path, other: Path)
    ensures PreviousPath(root) != RollbackPath(other) && PreviousPath(root) != CurrentPath(other)
    ensures PreviousPath(root) != RemovePath(other)
    ensures PreviousPath(root) == PreviousPath(other) ==> root == other
  {
    var p := PreviousPath(root);
    assert p[|p| - 1] == 's';
    assert RollbackPath(other)[|RollbackPath(other)| - 1] == 'k';
    assert CurrentPath(other)[|CurrentPath(other)| - 1] == 't';
    assert RemovePath(other)[|RemovePath(other)| - 1] == 'e';
    if p == PreviousPath(other) { assert root == p[..|root|] && other == p[..|other|]; }
  }

  lemma FailedInstallKeepsWedge(w: World, s: State, op: Op, id: string, version: string)
    requires Wedged(s, id, version) && op.OpInstall? && !Committed(w, s, op.source, op.staged, op.installFaults, op.now)
    ensures Wedged(Step(w, s, op), id, version)
  {
    hide ValidateTree, ValidIdentity, AlreadyInstalled, NextGeneration, Key, InstalledTrees, Root, Exists, VerifyExisting, PackageAt;
    FailedInstallKeepsRecords(w, s, op.source, op.staged, op.installFaults, op.now);
    if ValidateTree(w, s.trust, op.source).Some? {
      var m := ValidateTree(w, s.trust, op.source).value;
      SiblingsDiffer(Root(id, version), Root(m.environmentID, m.version));
    }
  }

  lemma InstalledKeepsOther(trees: map<Path, Tree>, root: Path, staged: Tree, cleanupFails: bool, p: Path)
    requires p in trees && p != RollbackPath(root)
    ensures p in InstalledTrees(trees, root, staged, cleanupFails)
  {
  }

  lemma InstallKeepsWedge(w: World, s: State, op: Op, id: string, version: string)
    requires Wedged(s, id, version) && op.OpInstall?
    ensures Wedged(Step(w, s, op), id, version)
  {
    hide ValidateTree, ValidIdentity, NextGeneration, Key, Committed, InstallRefusal, Install, Root, InstalledTrees, PreviousPath;
    if Committed(w, s, op.source, op.staged, op.installFaults, op.now) {
      CommittedHasManifest(w, s, op.source, op.staged, op.installFaults, op.now);
      var m := ValidateTree(w, s.trust, op.source).value;
      SiblingsDiffer(Root(id, version), Root(m.environmentID, m.version));
      ValidatedIdentity(w, s.trust, op.source);
      CommittedInstall(w, s, op.source, op.staged, op.installFaults, op.now, m);
      RefusesOccupied(w, s, m, op.staged, op.installFaults);
      InstalledKeepsOther(s.trees, Root(m.environmentID, m.version), op.staged, op.installFaults.cleanup, PreviousPath(Root(id, version)));
      NewKeyElsewhere(s, Step(w, s, op), m.environmentID, m.version, id, version);
    } else {
      FailedInstallKeepsWedge(w, s, op, id, version);
    }
  }

  /** An install is refused where something stands that it has no record of. */
  lemma RefusesOccupied(w: World, s: State, m: Manifest, staged: Tree, f: InstallFaults)
    requires InstallRefusal(w, s, m, staged, f).None?
    ensures Root(m.environmentID, m.version) in s.trees ==> Key(m.environmentID, m.version) in s.records
  {
    hide ValidateTree, VerifyExisting, Crowded, PackageAt, Key, Root;
  }

  lemma NewKeyElsewhere(s: State, t: State, i: string, v: string, id: string, version: string)
    requires Wedged(s, id, version) && PreviousPath(Root(id, version)) in t.trees
    requires ValidIdentity(i, v) && Root(i, v) != PreviousPath(Root(id, version))
    requires t.records.Keys <= s.records.Keys + {Key(i, v)}
    ensures Wedged(t, id, version)
  {
    hide ValidIdentity, Key, Root;
    forall i', v' | ValidIdentity(i', v') && Root(i', v') == PreviousPath(Root(id, version)) ensures Key(i', v') !in t.records {
      if Key(i', v') == Key(i, v) { KeyIsInjective(i, v, i', v'); assert false; }
    }
  }

  lemma RollbackKeepsWedge(w: World, s: State, op: Op, id: string, version: string)
    requires Wedged(s, id, version) && op.OpRollback?
    ensures Wedged(Step(w, s, op), id, version)
  {
    hide ValidIdentity, Crowded, NextGeneration, Key, RollbackRefusal, ValidateAt, Rollback;
    if RollbackRefusal(w, s, op.id, op.version).Some? {
      RefusedRollback(w, s, op.id, op.version, op.rollbackFaults, op.now);
    } else {
      CommittedRollback(w, s, op.id, op.version, op.rollbackFaults, op.now);
      RolledBackHasKey(w, s, op.id, op.version);
      SiblingsDiffer(Root(id, version), Root(op.id, op.version));
      NewKeyElsewhere(s, Step(w, s, op), op.id, op.version, id, version);
    }
  }

  lemma RolledBackHasKey(w: World, s: State, id: string, version: string)
    requires RollbackRefusal(w, s, id, version).None?
    ensures Key(id, version) in s.records
  {
    hide ValidateAt, ValidIdentity, Key, Root, Exists;
  }

  lemma RemoveKeepsWedge(w: World, s: State, op: Op, id: string, version: string)
    requires Wedged(s, id, version) && op.OpRemove?
    ensures Wedged(Step(w, s, op), id, version)
  {
    hide Crowded, Key, ValidateAt, ValidIdentity;
    if Step(w, s, op) != s {
      SiblingsDiffer(Root(id, version), Root(op.id, op.version));
      NewKeyElsewhere(s, Step(w, s, op), op.id, op.version, id, version);
    }
  }

  lemma StepKeepsWedge(w: World, s: State, op: Op, id: string, version: string)
    requires Wedged(s, id, version) && Durable(s) && !op.Tamper?
    ensures Wedged(Step(w, s, op), id, version)
  {
    hide ValidIdentity, Key, Root, Install, Rollback, Remove, Verify, SetTrusted, SetEnabled, HealthCheck, Resolve, ValidToken;
    hide Loadable;
    match op {
      case OpInstall(_, _, _, _) => InstallKeepsWedge(w, s, op, id, version);
      case OpRollback(_, _, _, _) => RollbackKeepsWedge(w, s, op, id, version);
      case OpRemove(_, _, _) => RemoveKeepsWedge(w, s, op, id, version);
      case OpAddSigner(_, _) =>
      case OpRestart =>
      case _ => GateOpsOnlyGate(w, s, op);
    }
  }

  ghost predicate Untampered(ops: seq<Op>) {
    forall n | 0 <= n < |ops| :: !ops[n].Tamper?
  }

  /**
   A wedged package stays wedged through every run of the manager: rollbacks, removals, restarts and installs never
   clear the leftover, so by WedgedInstallChangesNothing the package can never be upgraded again.
   */
  lemma {:induction false} WedgeIsForever(w: World, s: State, ops: seq<Op>, id: string, version: string)
    requires Wedged(s, id, version) && Durable(s) && Untampered(ops)
    ensures Wedged(Run(w, s, ops), id, version) && Durable(Run(w, s, ops))
    decreases |ops|
  {
    hide Step, Wedged;
    if ops != [] {
      var shorter := ops[..|ops| - 1];
      WedgeIsForever(w, s, shorter, id, version);
      StepKeepsWedge(w, Run(w, s, shorter), ops[|ops| - 1], id, version);
      StepKeepsDurable(w, Run(w, s, shorter), ops[|ops| - 1]);
    }
  }
}
