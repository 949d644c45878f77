/**
 When an install, a rollback and a removal succeed and what they leave, in terms of the records, the trees at every path and
 the manifests found in them.
 */
module EnvironmentCalls {
  import opened Common
  import opened Manifests
  import opened Environment

  // ----- What is found on disk -----

  /** Something is at `p`: a tree, or a directory leading to one. */
  ghost predicate Stands(trees: map<Path, Tree>, p: Path) {
    exists q | q in trees :: q == p || Below(q, p)
  }

  /** The tree carries the valid manifest `m` for this target, sealed by a trusted signer. */
  ghost predicate Genuine(w: World, trust: map<string, PublicKey>, tree: Tree, m: Manifest) {
    && w.inspect(tree) == Some(m) && ValidManifest(m) && (w.target == "" || w.target in m.targets)
    && m.signer in trust && VerifyDigest(w.crypto, m) && VerifySignature(w.crypto, m, trust[m.signer])
  }

  /** At `p` is the genuine package of manifest `m`, and nothing further down. */
  ghost predicate HoldsPackage(w: World, s: State, p: Path, m: Manifest) {
    && p in s.trees && (forall q | q in s.trees :: !Below(q, p))
    && Genuine(w, s.trust, s.trees[p], m)
  }

  /** A genuine package of that name is at `p`. */
  ghost predicate HoldsVersion(w: World, s: State, p: Path, id: string, version: string) {
    exists m :: HoldsPackage(w, s, p, m) && m.environmentID == id && m.version == version
  }

  ghost predicate Describes(r: Record, m: Manifest) {
    EqualFold(m.manifestDigest, r.manifestDigest) && m.signer == r.signer
  }

  /** The active tree is a genuine package with the record's digest and signer. */
  ghost predicate Intact(w: World, s: State, id: string, version: string, r: Record) {
    exists m :: HoldsPackage(w, s, Root(id, version), m) && Describes(r, m)
  }

  /** The same, and it has the right name. */
  ghost predicate IntactVersion(w: World, s: State, id: string, version: string, r: Record) {
    exists m :: HoldsPackage(w, s, Root(id, version), m) && Describes(r, m) && m.environmentID == id && m.version == version
  }

  lemma StandsIff(trees: map<Path, Tree>, p: Path)
    ensures Exists(trees, p) <==> Stands(trees, p)
  {
  }

  lemma ValidatesIff(w: World, trust: map<string, PublicKey>, tree: Tree, m: Manifest)
    ensures ValidateTree(w, trust, tree) == Some(m) <==> Genuine(w, trust, tree, m)
  {
    hide ValidManifest, VerifyDigest, VerifySignature;
  }

  lemma ValidatesAtIff(w: World, s: State, p: Path, m: Manifest)
    ensures ValidateAt(w, s, p) == Some(m) <==> HoldsPackage(w, s, p, m)
  {
    hide ValidateTree, Genuine;
    if p in s.trees { ValidatesIff(w, s.trust, s.trees[p], m); }
  }

  lemma PackageIff(w: World, s: State, p: Path, id: string, version: string)
    ensures PackageAt(w, s, p, id, version) <==> HoldsVersion(w, s, p, id, version)
  {
    hide ValidateAt, HoldsPackage;
    if ValidateAt(w, s, p).Some? { ValidatesAtIff(w, s, p, ValidateAt(w, s, p).value); }
    if m :| HoldsPackage(w, s, p, m) && m.environmentID == id && m.version == version { ValidatesAtIff(w, s, p, m); }
  }

  lemma IntactIff(w: World, s: State, id: string, version: string)
    requires Key(id, version) in s.records
    ensures Current(w, s, id, version) <==> ValidIdentity(id, version) && Intact(w, s, id, version, s.records[Key(id, version)])
    ensures VerifyExisting(w, s, id, version) <==> IntactVersion(w, s, id, version, s.records[Key(id, version)])
  {
    hide ValidateAt, HoldsPackage, Key, Root, EqualFold, ValidIdentity;
    var root, r := Root(id, version), s.records[Key(id, version)];
    if ValidateAt(w, s, root).Some? { ValidatesAtIff(w, s, root, ValidateAt(w, s, root).value); }
    if m :| HoldsPackage(w, s, root, m) && Describes(r, m) { ValidatesAtIff(w, s, root, m); }
    if m :| HoldsPackage(w, s, root, m) && Describes(r, m) && m.environmentID == id && m.version == version { ValidatesAtIff(w, s, root, m); }
  }

  // ----- Install -----

  /** The package is there already, with this digest and signer. */
  ghost predicate Present(w: World, s: State, m: Manifest) {
    var k := Key(m.environmentID, m.version);
    k in s.records && IntactVersion(w, s, m.environmentID, m.version, s.records[k]) && Describes(s.records[k], m)
  }

  /** The staged copy is genuine and has the digest and signer of the source. */
  ghost predicate Faithful(w: World, s: State, staged: Tree, m: Manifest) {
    exists n :: Genuine(w, s.trust, staged, n) && n.manifestDigest == m.manifestDigest && n.signer == m.signer
  }

  /** The place of the package is free, or holds the recorded version of it; and so does its rollback place. */
  ghost predicate Roomy(w: World, s: State, m: Manifest) {
    var root, k := Root(m.environmentID, m.version), Key(m.environmentID, m.version);
    && (if k in s.records then IntactVersion(w, s, m.environmentID, m.version, s.records[k]) else !Stands(s.trees, root))
    && !Stands(s.trees, root + ".rollback-previous")
    && (Stands(s.trees, root + ".rollback") ==> HoldsVersion(w, s, root + ".rollback", m.environmentID, m.version))
  }

  /** No step that the install takes fails. */
  predicate Unhindered(trees: map<Path, Tree>, root: Path, f: InstallFaults) {
    && !f.prepare && !f.stage && !f.commit && !f.save
    && !(f.rotate && root + ".rollback" in trees) && !(f.preserve && root in trees)
  }

  /** Where everything is after an install has committed, path by path. */
  ghost predicate Placed(trees: map<Path, Tree>, after: map<Path, Tree>, root: Path, staged: Tree, leftover: bool) {
    var back, older := root + ".rollback", root + ".rollback-previous";
    && root in after && after[root] == staged
    && (back in after <==> root in trees) && (root in trees ==> after[back] == trees[root])
    && (older in after <==> older in trees || (back in trees && leftover)) && (back in trees && leftover ==> after[older] == trees[back])
    && (forall p | p != root && p != back && p != older :: p in after <==> p in trees)
    && (forall p | p in after && p != root && p != back && p != older :: after[p] == trees[p])
  }

  ghost predicate NewlyInstalled(r: Record, m: Manifest, now: Instant) {
    && r.environmentID == m.environmentID && r.version == m.version && r.capabilities == m.capabilities
    && r.manifestDigest == m.manifestDigest && r.signer == m.signer && r.updatedAt == now
    && r.installed && r.verified && !r.trusted && !r.enabled && !r.healthy && !r.ready
  }

  /** Only the record under `k` differs; it is `r`, and it is saved. */
  ghost predicate Recorded(s: State, t: State, k: string, r: Record) {
    t.trust == s.trust && t.records == s.records[k := r] && t.saved == t.records
  }

  lemma PlacedByInstall(trees: map<Path, Tree>, root: Path, staged: Tree, cleanupFails: bool)
    ensures Placed(trees, InstalledTrees(trees, root, staged, cleanupFails), root, staged, cleanupFails)
  {
    var back, older := root + ".rollback", root + ".rollback-previous";
    assert |back| != |root| && |older| != |root| && |back| != |older|;
  }

  lemma PresentIff(w: World, s: State, m: Manifest)
    ensures AlreadyInstalled(w, s, m) <==> Present(w, s, m)
  {
    hide Key, VerifyExisting, IntactVersion, EqualFold;
    if Key(m.environmentID, m.version) in s.records { IntactIff(w, s, m.environmentID, m.version); } else { NotExisting(w, s, m.environmentID, m.version); }
  }

  lemma NotExisting(w: World, s: State, id: string, version: string)
    requires Key(id, version) !in s.records
    ensures !VerifyExisting(w, s, id, version)
  {
    hide Key, PackageAt, Root;
  }

  lemma FaithfulIff(w: World, s: State, staged: Tree, m: Manifest)
    ensures Faithful(w, s, staged, m) <==>
      && ValidateTree(w, s.trust, staged).Some?
      && ValidateTree(w, s.trust, staged).value.manifestDigest == m.manifestDigest
      && ValidateTree(w, s.trust, staged).value.signer == m.signer
  {
    hide ValidateTree, Genuine;
    if ValidateTree(w, s.trust, staged).Some? { ValidatesIff(w, s.trust, staged, ValidateTree(w, s.trust, staged).value); }
    if n :| Genuine(w, s.trust, staged, n) && n.manifestDigest == m.manifestDigest && n.signer == m.signer { ValidatesIff(w, s.trust, staged, n); }
  }

  /** The refusals of an install, in the terms used here. */
  lemma AdmittedIff(w: World, s: State, m: Manifest, staged: Tree, f: InstallFaults)
    ensures InstallRefusal(w, s, m, staged, f).None? <==> !f.prepare && !f.stage && Roomy(w, s, m) && Faithful(w, s, staged, m)
  {
    hide Key, Root, Exists, Stands, PackageAt, HoldsVersion, IntactVersion, VerifyExisting, ValidateTree, Faithful;
    var root, k := Root(m.environmentID, m.version), Key(m.environmentID, m.version);
    StandsIff(s.trees, root);
    StandsIff(s.trees, root + ".rollback");
    StandsIff(s.trees, root + ".rollback-previous");
    PackageIff(w, s, root + ".rollback", m.environmentID, m.version);
    FaithfulIff(w, s, staged, m);
    if k in s.records { IntactIff(w, s, m.environmentID, m.version); }
  }

  /**
   An install of a genuine source succeeds exactly when the very package is there already, or when its places are free or
   hold earlier versions of it, the staged copy is faithful and no step fails. Then the record is new, only installed and
   verified; the staged tree is active and the tree it replaces is the rollback tree. Otherwise no record changes.
   */
  lemma InstallOutcome(w: World, s: State, source: Tree, staged: Tree, f: InstallFaults, now: Instant, m: Manifest)
    requires Genuine(w, s.trust, source, m)
    ensures var (t, outcome) := Install(w, s, source, staged, f, now);
      var root, k := Root(m.environmentID, m.version), Key(m.environmentID, m.version);
      if !f.prepare && Present(w, s, m) then t == s && outcome == Ok(s.records[k])
      else if Roomy(w, s, m) && Faithful(w, s, staged, m) && Unhindered(s.trees, root, f) then
        && outcome.Ok? && NewlyInstalled(outcome.value, m, now)
        && Recorded(s, t, k, outcome.value) && Placed(s.trees, t.trees, root, staged, f.cleanup)
      else outcome.Err? && t.records == s.records && t.saved == s.saved && t.trust == s.trust
  {
    var root := Root(m.environmentID, m.version);
    ValidatesIff(w, s.trust, source, m);
    PresentIff(w, s, m);
    AdmittedIff(w, s, m, staged, f);
    PlacedByInstall(s.trees, root, staged, f.cleanup);
    hide Key, Root, Roomy, Faithful, Present, Placed, InstallRefusal, AlreadyInstalled, InstalledTrees, ValidateTree, Genuine;
    hide NextGeneration, Move;
  }

  /** A source that is not a genuine package changes nothing. */
  lemma OnlyGenuineInstalls(w: World, s: State, source: Tree, staged: Tree, f: InstallFaults, now: Instant)
    requires forall m :: !Genuine(w, s.trust, source, m)
    ensures Install(w, s, source, staged, f, now) == (s, Err(InvalidPackage))
  {
    hide ValidateTree, Genuine;
    if ValidateTree(w, s.trust, source).Some? { ValidatesIff(w, s.trust, source, ValidateTree(w, s.trust, source).value); }
  }

  // ----- Rollback and Remove -----

  /** Two genuine versions of the package with different digests, and room to swap them. */
  ghost predicate Reversible(w: World, s: State, id: string, version: string, active: Manifest, previous: Manifest) {
    var root := Root(id, version);
    && HoldsPackage(w, s, root, active) && active.environmentID == id && active.version == version
    && HoldsPackage(w, s, root + ".rollback", previous) && previous.environmentID == id && previous.version == version
    && !EqualFold(active.manifestDigest, previous.manifestDigest)
    && !Stands(s.trees, root + ".rollback-current")
  }

  ghost predicate Swapped(trees: map<Path, Tree>, after: map<Path, Tree>, root: Path, leftover: bool) {
    var back, aside := root + ".rollback", root + ".rollback-current";
    && back in trees && root in trees
    && root in after && after[root] == trees[back] && back !in after
    && (aside in after <==> aside in trees || leftover) && (leftover ==> after[aside] == trees[root])
    && (forall p | p != root && p != back && p != aside :: p in after <==> p in trees)
    && (forall p | p in after && p != root && p != back && p != aside :: after[p] == trees[p])
  }

  lemma SwappedByRollback(trees: map<Path, Tree>, root: Path, cleanupFails: bool)
    requires root in trees && root + ".rollback" in trees
    ensures Swapped(trees, RolledBackTrees(trees, root, cleanupFails), root, cleanupFails)
  {
    var back, aside := root + ".rollback", root + ".rollback-current";
    assert |back| != |root| && |aside| != |root| && |back| != |aside|;
  }

  /** What a rollback requires of the trees, in the terms used here. */
  lemma ReversibleIff(w: World, s: State, id: string, version: string)
    ensures RollbackRefusal(w, s, id, version).None? <==>
      && Key(id, version) in s.records && !s.records[Key(id, version)].ready && ValidIdentity(id, version)
      && exists a, b :: Reversible(w, s, id, version, a, b)
    ensures forall a, b | Reversible(w, s, id, version, a, b) ::
              && ValidateAt(w, s, Root(id, version)) == Some(a) && ValidateAt(w, s, Root(id, version) + ".rollback") == Some(b)
              && Root(id, version) in s.trees && Root(id, version) + ".rollback" in s.trees
  {
    hide Key, Root, EqualFold, ValidIdentity, ValidateAt, HoldsPackage, Stands, Exists;
    var root := Root(id, version);
    StandsIff(s.trees, root + ".rollback-current");
    StandsIff(s.trees, root + ".rollback");
    forall a, b | Reversible(w, s, id, version, a, b)
      ensures ValidateAt(w, s, root) == Some(a) && ValidateAt(w, s, root + ".rollback") == Some(b)
      ensures root in s.trees && root + ".rollback" in s.trees && Stands(s.trees, root + ".rollback")
    {
      HeldStands(w, s, root, a);
      ValidatesAtIff(w, s, root, a);
      ValidatesAtIff(w, s, root + ".rollback", b);
      HeldStands(w, s, root + ".rollback", b);
    }
    if ValidateAt(w, s, root).Some? && ValidateAt(w, s, root + ".rollback").Some? {
      ValidatesAtIff(w, s, root, ValidateAt(w, s, root).value);
      ValidatesAtIff(w, s, root + ".rollback", ValidateAt(w, s, root + ".rollback").value);
      assert RollbackRefusal(w, s, id, version).None? ==>
          Reversible(w, s, id, version, ValidateAt(w, s, root).value, ValidateAt(w, s, root + ".rollback").value);
    }
  }

  lemma HeldStands(w: World, s: State, p: Path, m: Manifest)
    requires HoldsPackage(w, s, p, m)
    ensures p in s.trees && Stands(s.trees, p)
  {
    hide Genuine;
  }

  /**
   A rollback succeeds exactly when the record is not ready, active and rollback tree are genuine versions of the package
   with different digests, and no step fails. Then the two trees have changed places and the record is that of the rollback
   tree, only installed and verified. Otherwise nothing changes.
   */
  lemma RollbackOutcome(w: World, s: State, id: string, version: string, f: RollbackFaults, now: Instant)
    ensures var (t, error) := Rollback(w, s, id, version, f, now);
      var k := Key(id, version);
      && (error.None? <==>
            && k in s.records && !s.records[k].ready && ValidIdentity(id, version)
            && (exists a, b :: Reversible(w, s, id, version, a, b))
            && !f.preserve && !f.restore && !f.save)
      && (error.Some? ==> t == s)
      && (error.None? ==> Swapped(s.trees, t.trees, Root(id, version), f.cleanup))
    ensures var (t, error) := Rollback(w, s, id, version, f, now);
      var k := Key(id, version);
      forall a, b | error.None? && Reversible(w, s, id, version, a, b) ::
        k in t.records && NewlyInstalled(t.records[k], b, now) && Recorded(s, t, k, t.records[k])
  {
    hide Key, Root, ValidIdentity, Reversible, RollbackRefusal, ValidateAt, NextGeneration, RolledBackTrees, Swapped, RollbackPath;
    var root := Root(id, version);
    assert RollbackPath(root) == root + ".rollback" by { RollbackIs(root); }
    ReversibleIff(w, s, id, version);
    if root in s.trees && root + ".rollback" in s.trees { SwappedByRollback(s.trees, root, f.cleanup); }
  }

  lemma RollbackIs(root: Path)
    ensures RollbackPath(root) == root + ".rollback"
  {
  }

  ghost predicate Withdrawn(trees: map<Path, Tree>, after: map<Path, Tree>, root: Path, leftover: bool) {
    var aside := root + ".remove";
    && root in trees && root !in after
    && (aside in after <==> aside in trees || leftover) && (leftover ==> after[aside] == trees[root])
    && (forall p | p != root && p != aside :: p in after <==> p in trees)
    && (forall p | p in after && p != root && p != aside :: after[p] == trees[p])
  }

  /** The removal of a recorded package goes ahead. */
  ghost predicate Removable(w: World, s: State, id: string, version: string) {
    var k := Key(id, version);
    && k in s.records && !s.records[k].ready && ValidIdentity(id, version)
    && IntactVersion(w, s, id, version, s.records[k])
    && !Stands(s.trees, Root(id, version) + ".remove")
  }

  lemma RemovableIff(w: World, s: State, id: string, version: string)
    ensures RemoveRefusal(w, s, id, version).None? <==>
      || Removable(w, s, id, version)
      || (ValidIdentity(id, version) && Key(id, version) !in s.records && !Stands(s.trees, Root(id, version)))
    ensures Removable(w, s, id, version) ==> Root(id, version) in s.trees
  {
    hide Key, Root, Exists, Stands, IntactVersion, VerifyExisting, ValidIdentity;
    StandsIff(s.trees, Root(id, version));
    StandsIff(s.trees, Root(id, version) + ".remove");
    if Key(id, version) in s.records {
      IntactIff(w, s, id, version);
      if IntactVersion(w, s, id, version, s.records[Key(id, version)]) { IntactStands(w, s, id, version, s.records[Key(id, version)]); }
    }
  }

  lemma IntactStands(w: World, s: State, id: string, version: string, r: Record)
    requires IntactVersion(w, s, id, version, r) || Intact(w, s, id, version, r)
    ensures Root(id, version) in s.trees && Stands(s.trees, Root(id, version))
  {
    hide HoldsPackage, Describes, Root, Stands;
    var m :| HoldsPackage(w, s, Root(id, version), m) && Describes(r, m);
    HeldStands(w, s, Root(id, version), m);
  }

  /**
   A removal takes the active tree and the record away exactly when the record is not ready, its tree is intact, the side
   place is free, and neither renaming nor saving fails; every other tree stays. It also succeeds, doing nothing, when there
   is neither record nor tree. Otherwise nothing changes.
   */
  lemma RemoveOutcome(w: World, s: State, id: string, version: string, f: RemoveFaults)
    ensures var (t, error) := Remove(w, s, id, version, f);
      var root, k := Root(id, version), Key(id, version);
      if Removable(w, s, id, version) && !f.rename && !f.save then
        && Withdrawn(s.trees, t.trees, root, f.cleanup) && (error.None? <==> !f.cleanup)
        && t.trust == s.trust && t.records == s.records - {k} && t.saved == t.records
      else t == s && (error.None? <==> ValidIdentity(id, version) && k !in s.records && !Stands(s.trees, root))
  {
    hide Key, Root, ValidIdentity, RemoveRefusal, Removable, Stands, Withdrawn, Move;
    RemovableIff(w, s, id, version);
    RemovableIsRecorded(w, s, id, version);
    var root := Root(id, version);
    if root in s.trees { WithdrawnByRemove(s.trees, root); }
  }

  lemma RemovableIsRecorded(w: World, s: State, id: string, version: string)
    ensures Removable(w, s, id, version) ==> Key(id, version) in s.records
  {
    hide Key, Root, ValidIdentity, Stands, IntactVersion;
  }

  lemma WithdrawnByRemove(trees: map<Path, Tree>, root: Path)
    requires root in trees
    ensures Withdrawn(trees, Move(trees, root, RemovePath(root)), root, true) && Withdrawn(trees, trees - {root}, root, false)
  {
    assert |root + ".remove"| != |root|;
  }
}
