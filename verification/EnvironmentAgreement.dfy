/**
 What every call to the environment manager keeps: saved records equal the in-memory ones, every record's active tree
 validates to exactly that record, and which calls can break that.
 */
module EnvironmentAgreement {
  import opened Common
  import opened Manifests
  import opened Environment

  /** The digest tells the manifests of two trees apart. */
  predicate TellsApart(w: World, a: Tree, b: Tree) {
    w.inspect(a).Some? && w.inspect(b).Some? ==> Separates(w.crypto, w.inspect(a).value, w.inspect(b).value)
  }

  lemma ValidatedIsInspected(w: World, trust: map<string, PublicKey>, tree: Tree)
    requires ValidateTree(w, trust, tree).Some?
    ensures w.inspect(tree) == ValidateTree(w, trust, tree)
  {
    hide ValidManifest, TrustVerifies;
  }

  // ----- Identities -----

  ghost predicate Keyed(s: State, k: string)
    requires k in s.records
  {
    var r := s.records[k];
    k == Key(r.environmentID, r.version) && ValidIdentity(r.environmentID, r.version)
  }

  lemma NoneOf(s: string, chars: set<char>, i: int)
    requires !ContainsAny(s, chars) && 0 <= i < |s|
    ensures s[i] !in chars
  {
  }

  /** Valid identities are told apart by their record keys. */
  lemma KeyIsInjective(id: string, version: string, id': string, version': string)
    requires ValidIdentity(id, version) && ValidIdentity(id', version')
    requires Key(id, version) == Key(id', version')
    ensures id == id' && version == version'
  {
    hide ValidToken, ValidPathParts;
    var k := Key(id, version);
    assert k[|id|] == '@' && k[|id'|] == '@';
    if |id| < |id'| { NoneOf(id', {'\\', ':', '@'}, |id|); assert false; }
    if |id'| < |id| { NoneOf(id, {'\\', ':', '@'}, |id'|); assert false; }
    assert k[..|id|] == id && k[..|id'|] == id';
    assert k[|id| + 1..] == version && k[|id'| + 1..] == version';
  }

  /** The root of a valid identity does not end in a separator. */
  lemma RootEndsInVersion(id: string, version: string)
    requires ValidIdentity(id, version)
    ensures var root := Root(id, version); root != "" && root[|root| - 1] != '/'
  {
    hide ValidPathParts, Utf8Length;
    NoneOf(version, {'/', '\\', ':', '@'}, |version| - 1);
  }

  predicate IsSuffix(suffix: string) {
    suffix == ".rollback" || suffix == ".rollback-previous" || suffix == ".rollback-current" || suffix == ".remove"
  }

  /** A sibling of a root is below a path only if the root itself is, and never below the root. */
  lemma SiblingBelow(root: Path, suffix: string, p: Path)
    requires root != "" && root[|root| - 1] != '/' && IsSuffix(suffix)
    ensures Below(root + suffix, p) ==> Below(root, p)
    ensures !Below(root + suffix, root) && !Below(root, root)
    ensures root + suffix != root
  {
    var path := root + suffix;
    assert path[|root|] == '.';
    if Below(path, p) {
      var n := |p|;
      assert path[n] == path[..n + 1][n] == (p + "/")[n] == '/';
      if n >= |root| { NoSlashInSuffix(suffix, n - |root|); assert false; }
      if n == |root| - 1 { assert false; }
      assert root[..n + 1] == path[..n + 1];
    }
    if Below(path, root) { assert false; }
  }

  lemma NoSlashInSuffix(suffix: string, i: int)
    requires IsSuffix(suffix) && 0 <= i < |suffix|
    ensures suffix[i] != '/'
  {
  }

  // ----- Agreement -----

  /** The record's active tree validates to exactly the record's identity, digest and signer. */
  ghost predicate AgreesAt(w: World, s: State, k: string)
    requires k in s.records
  {
    var r := s.records[k];
    && Keyed(s, k)
    && PackageAt(w, s, Root(r.environmentID, r.version), r.environmentID, r.version)
    && ValidateAt(w, s, Root(r.environmentID, r.version)).value.manifestDigest == r.manifestDigest
    && ValidateAt(w, s, Root(r.environmentID, r.version)).value.signer == r.signer
  }

  ghost predicate Agree(w: World, s: State) {
    forall k | k in s.records :: AgreesAt(w, s, k)
  }

  /** The new package would not be placed inside a live package's tree. */
  ghost predicate Apart(s: State, id: string, version: string) {
    forall k | k in s.records :: !Below(Root(id, version), Root(s.records[k].environmentID, s.records[k].version))
  }

  function RootOf(s: State, k: string): Path
    requires k in s.records
  {
    Root(s.records[k].environmentID, s.records[k].version)
  }

  /** A change that leaves a record, its tree and the surroundings of its root alone keeps its agreement. */
  lemma UntouchedAgrees(w: World, s: State, t: State, k: string)
    requires k in s.records && AgreesAt(w, s, k)
    requires k in t.records && t.records[k].environmentID == s.records[k].environmentID
    requires t.records[k].version == s.records[k].version && t.records[k].manifestDigest == s.records[k].manifestDigest
    requires t.records[k].signer == s.records[k].signer
    requires t.trust == s.trust
    requires RootOf(s, k) in t.trees && t.trees[RootOf(s, k)] == s.trees[RootOf(s, k)] && !Crowded(t.trees, RootOf(s, k))
    ensures AgreesAt(w, t, k)
  {
    hide ValidIdentity, ValidateTree, Crowded;
  }

  /** Paths a committed call may fill: the package's own root and its siblings. */
  ghost predicate OnlyNear(trees: map<Path, Tree>, trees': map<Path, Tree>, root: Path) {
    forall p | p in trees' :: p in trees || p == root || exists suffix | IsSuffix(suffix) :: p == root + suffix
  }

  /** A path stays uncrowded if nothing but the package and its siblings was added, and the package is not below it. */
  lemma StaysUncrowded(trees: map<Path, Tree>, trees': map<Path, Tree>, root: Path, p: Path)
    requires root != "" && root[|root| - 1] != '/'
    requires !Crowded(trees, p) && OnlyNear(trees, trees', root) && !Below(root, p)
    ensures !Crowded(trees', p)
  {
    hide IsSuffix;
    forall q | q in trees' ensures !Below(q, p) {
      if q !in trees && q != root {
        var suffix :| IsSuffix(suffix) && q == root + suffix;
        SiblingBelow(root, suffix, p);
      }
    }
  }

  ghost predicate SameAt(trees: map<Path, Tree>, trees': map<Path, Tree>, p: Path)
    requires p in trees
  {
    p in trees' && trees'[p] == trees[p]
  }

  /** A call on `id`@`version` moved only trees of that package, and only to its own places. */
  ghost predicate Relocates(w: World, s: State, t: State, id: string, version: string) {
    && ValidIdentity(id, version) && t.trust == s.trust
    && OnlyNear(s.trees, t.trees, Root(id, version))
    && (forall p | p in s.trees :: SameAt(s.trees, t.trees, p) || PackageAt(w, s, p, id, version))
  }

  lemma RelocationKeepsOther(w: World, s: State, t: State, id: string, version: string, k: string)
    requires Relocates(w, s, t, id, version)
    requires k in s.records && AgreesAt(w, s, k) && k != Key(id, version) && !Below(Root(id, version), RootOf(s, k))
    requires k in t.records && t.records[k] == s.records[k]
    ensures AgreesAt(w, t, k)
  {
    RootEndsInVersion(id, version);
    hide ValidIdentity, ValidateTree, OnlyNear;
    assert SameAt(s.trees, t.trees, RootOf(s, k));
    StaysUncrowded(s.trees, t.trees, Root(id, version), RootOf(s, k));
    UntouchedAgrees(w, s, t, k);
  }

  // ----- Install -----

  /** A staged tree with the source's digest and signer has the source's identity. */
  lemma StagedIsSource(w: World, trust: map<string, PublicKey>, m: Manifest, staged: Manifest)
    requires Separates(w.crypto, m, staged)
    requires TrustVerifies(w.crypto, trust, m) && TrustVerifies(w.crypto, trust, staged)
    requires staged.manifestDigest == m.manifestDigest
    ensures Names(staged, m.environmentID, m.version)
  {
    assert EqualFold(m.manifestDigest, staged.manifestDigest);
    DigestBindsContent(w.crypto, m, staged);
    CanonicalForm(m);
    CanonicalForm(staged);
  }

  ghost predicate Committed(w: World, s: State, source: Tree, staged: Tree, f: InstallFaults, now: Instant) {
    && Install(w, s, source, staged, f, now).1.Ok?
    && !AlreadyInstalled(w, s, ValidateTree(w, s.trust, source).value)
  }

  /** What was checked before an install moves anything. */
  lemma NotRefused(w: World, s: State, m: Manifest, staged: Tree, f: InstallFaults)
    requires InstallRefusal(w, s, m, staged, f).None?
    ensures var root := Root(m.environmentID, m.version);
      && (root in s.trees ==> PackageAt(w, s, root, m.environmentID, m.version))
      && (RollbackPath(root) in s.trees ==> PackageAt(w, s, RollbackPath(root), m.environmentID, m.version))
      && PreviousPath(root) !in s.trees && !Crowded(s.trees, root)
    ensures ValidateTree(w, s.trust, staged).Some?
    ensures ValidateTree(w, s.trust, staged).value.manifestDigest == m.manifestDigest
    ensures ValidateTree(w, s.trust, staged).value.signer == m.signer
  {
    hide ValidateTree, Crowded, Root, RollbackPath, PreviousPath, Key, EqualFold;
  }

  /** The state a committed install leads to. */
  ghost function InstallResult(s: State, m: Manifest, staged: Tree, cleanupFails: bool, now: Instant): State {
    var root, k := Root(m.environmentID, m.version), Key(m.environmentID, m.version);
    var r := NewRecord(m, NextGeneration(s.records, m.environmentID), now);
    s.(trees := InstalledTrees(s.trees, root, staged, cleanupFails), records := s.records[k := r], saved := s.records[k := r])
  }

  /** The shape of a committed install. */
  lemma CommittedInstall(w: World, s: State, source: Tree, staged: Tree, f: InstallFaults, now: Instant, m: Manifest)
    requires Committed(w, s, source, staged, f, now) && ValidateTree(w, s.trust, source) == Some(m)
    ensures InstallRefusal(w, s, m, staged, f).None?
    ensures Install(w, s, source, staged, f, now).0 == InstallResult(s, m, staged, f.cleanup, now)
  {
    hide ValidateTree, Crowded, Exists, Root, RollbackPath, PreviousPath, Key, InstalledTrees, NextGeneration, Move;
    hide VerifyExisting, AlreadyInstalled;
  }

  lemma ValidatedIdentity(w: World, trust: map<string, PublicKey>, tree: Tree)
    requires ValidateTree(w, trust, tree).Some?
    ensures var m := ValidateTree(w, trust, tree).value;
      ValidIdentity(m.environmentID, m.version) && TrustVerifies(w.crypto, trust, m)
  {
    hide ValidEnvironmentID, ValidEnvironmentVersion, TrustVerifies, UniqueTokens, ResourcesOk, EntrypointsOk, ValidToken;
  }

  lemma InstalledTreesRelocate(w: World, s: State, t: State, id: string, version: string, staged: Tree, cleanupFails: bool)
    requires ValidIdentity(id, version) && t.trust == s.trust
    requires t.trees == InstalledTrees(s.trees, Root(id, version), staged, cleanupFails)
    requires Root(id, version) in s.trees ==> PackageAt(w, s, Root(id, version), id, version)
    requires RollbackPath(Root(id, version)) in s.trees ==> PackageAt(w, s, RollbackPath(Root(id, version)), id, version)
    requires PreviousPath(Root(id, version)) !in s.trees
    ensures Relocates(w, s, t, id, version)
  {
    hide ValidIdentity, PackageAt;
    assert IsSuffix(".rollback") && IsSuffix(".rollback-previous");
  }

  lemma InstallRelocates(w: World, s: State, m: Manifest, staged: Tree, f: InstallFaults, now: Instant)
    requires InstallRefusal(w, s, m, staged, f).None? && ValidIdentity(m.environmentID, m.version)
    ensures Relocates(w, s, InstallResult(s, m, staged, f.cleanup, now), m.environmentID, m.version)
  {
    hide InstallRefusal, NextGeneration, ValidIdentity, InstalledTrees, PackageAt, Relocates, NewRecord;
    NotRefused(w, s, m, staged, f);
    InstalledTreesRelocate(w, s, InstallResult(s, m, staged, f.cleanup, now), m.environmentID, m.version, staged, f.cleanup);
  }

  lemma InstallEstablishesOwn(w: World, s: State, m: Manifest, staged: Tree, f: InstallFaults, now: Instant)
    requires InstallRefusal(w, s, m, staged, f).None?
    requires ValidateTree(w, s.trust, staged).Some? ==> Separates(w.crypto, m, ValidateTree(w, s.trust, staged).value)
    requires ValidIdentity(m.environmentID, m.version) && TrustVerifies(w.crypto, s.trust, m)
    ensures AgreesAt(w, InstallResult(s, m, staged, f.cleanup, now), Key(m.environmentID, m.version))
  {
    hide InstallRefusal, NextGeneration, ValidIdentity, OnlyNear, Crowded, TrustVerifies, ValidateTree, Separates;
    var t, root := InstallResult(s, m, staged, f.cleanup, now), Root(m.environmentID, m.version);
    NotRefused(w, s, m, staged, f);
    ValidatedIdentity(w, s.trust, staged);
    StagedIsSource(w, s.trust, m, ValidateTree(w, s.trust, staged).value);
    InstallRelocates(w, s, m, staged, f, now);
    RootEndsInVersion(m.environmentID, m.version);
    SiblingBelow(root, ".rollback", root);
    StaysUncrowded(s.trees, t.trees, root, root);
  }

  /**
   A committed install keeps every record in agreement with its tree if and only if the package is not placed inside the
   tree of a live package.
   */
  lemma InstallAgreesIffApart(w: World, s: State, source: Tree, staged: Tree, f: InstallFaults, now: Instant, m: Manifest)
    requires TellsApart(w, source, staged) && Agree(w, s)
    requires Committed(w, s, source, staged, f, now) && ValidateTree(w, s.trust, source) == Some(m)
    ensures Agree(w, Install(w, s, source, staged, f, now).0) <==> Apart(s, m.environmentID, m.version)
  {
    hide Install, ValidateTree, InstallRefusal, NextGeneration, TrustVerifies, Relocates, Committed, AgreesAt, ValidIdentity;
    hide TellsApart, Separates;
    CommittedInstall(w, s, source, staged, f, now, m);
    ValidatedIdentity(w, s.trust, source);
    InstallRelocates(w, s, m, staged, f, now);
    StagedIsSeparate(w, s, source, staged, m);
    InstallEstablishesOwn(w, s, m, staged, f, now);
    var root, own := Root(m.environmentID, m.version), Key(m.environmentID, m.version);
    var t := InstallResult(s, m, staged, f.cleanup, now);
    if Apart(s, m.environmentID, m.version) {
      forall k | k in t.records ensures AgreesAt(w, t, k) {
        if k != own { RelocationKeepsOther(w, s, t, m.environmentID, m.version, k); }
      }
    } else {
      var k :| k in s.records && Below(root, RootOf(s, k));
      InstallInsideBreaks(w, s, t, m.environmentID, m.version, k);
    }
  }

  lemma StagedIsSeparate(w: World, s: State, source: Tree, staged: Tree, m: Manifest)
    requires TellsApart(w, source, staged) && ValidateTree(w, s.trust, source) == Some(m)
    ensures ValidateTree(w, s.trust, staged).Some? ==> Separates(w.crypto, m, ValidateTree(w, s.trust, staged).value)
  {
    hide ValidateTree, Separates;
    ValidatedIsInspected(w, s.trust, source);
    if ValidateTree(w, s.trust, staged).Some? { ValidatedIsInspected(w, s.trust, staged); }
  }

  lemma InstallInsideBreaks(w: World, s: State, t: State, id: string, version: string, k: string)
    requires k in s.records && AgreesAt(w, s, k) && ValidIdentity(id, version)
    requires Below(Root(id, version), RootOf(s, k)) && Root(id, version) in t.trees
    requires k in t.records && (k != Key(id, version) ==> t.records[k] == s.records[k])
    ensures !Agree(w, t)
  {
    hide ValidIdentity, ValidateTree;
    var r := s.records[k];
    if k == Key(id, version) {
      KeyIsInjective(id, version, r.environmentID, r.version);
      assert false;
    }
    assert Crowded(t.trees, RootOf(s, k));
    assert !AgreesAt(w, t, k);
  }

  /** Both are valid identities, and the second lives inside the tree of the first. */
  lemma NestedIdentitiesExist()
    ensures ValidIdentity("a", "b") && ValidIdentity("a/b", "1")
    ensures Below(Root("a/b", "1"), Root("a", "b"))
  {
    assert Root("a", "b") == "a/b" && Root("a/b", "1") == "a/b/1";
    SplitSingle('a');
    SplitSingle('b');
    assert Split("/b", '/') == ["", "b"] by { assert ("/b")[1..] == "b"; }
    assert Split("a/b", '/') == ["a", "b"] by { assert ("a/b")[1..] == "/b"; assert ['a'] + "" == "a"; }
    assert Utf8Length("a") == 1 && Utf8Length("b") == 1 && Utf8Length("1") == 1 && Utf8Length("a/b") == 3 by {
      assert ("a")[1..] == "" && ("b")[1..] == "" && ("1")[1..] == "" && ("a/b")[1..] == "/b" && ("/b")[1..] == "b";
    }
  }

  lemma SplitSingle(c: char)
    requires c != '/'
    ensures Split([c], '/') == [[c]]
  {
    assert [c][1..] == "" && Split("", '/') == [""] && [c] + "" == [c];
  }

  // ----- The other calls -----

  /** A failed install leaves everything as it was, or has only rotated the rollback tree of that package. */
  lemma FailedInstallAgrees(w: World, s: State, source: Tree, staged: Tree, f: InstallFaults, now: Instant)
    requires Agree(w, s) && !Committed(w, s, source, staged, f, now)
    ensures Agree(w, Install(w, s, source, staged, f, now).0)
  {
    hide ValidateTree, AgreesAt, PackageAt, Install, Committed, Move, Root, InstallRefusal;
    var t := Install(w, s, source, staged, f, now).0;
    FailedInstallShape(w, s, source, staged, f, now);
    if t != s {
      var m := ValidateTree(w, s.trust, source).value;
      ValidatedIdentity(w, s.trust, source);
      NotRefused(w, s, m, staged, f);
      RotationRelocates(w, s, m.environmentID, m.version);
      RotationKeepsActive(s.trees, Root(m.environmentID, m.version));
      RelocationOfPresentAgrees(w, s, t, m.environmentID, m.version);
    }
  }

  /** A failed install changes nothing, or it has moved the rollback tree of its package aside. */
  lemma FailedInstallShape(w: World, s: State, source: Tree, staged: Tree, f: InstallFaults, now: Instant)
    requires !Committed(w, s, source, staged, f, now)
    ensures var t := Install(w, s, source, staged, f, now).0;
      t == s ||
      (&& ValidateTree(w, s.trust, source).Some?
       && var m := ValidateTree(w, s.trust, source).value;
          var root := Root(m.environmentID, m.version);
          && InstallRefusal(w, s, m, staged, f).None? && root in s.trees && RollbackPath(root) in s.trees
          && t == s.(trees := Move(s.trees, RollbackPath(root), PreviousPath(root))))
  {
    hide ValidateTree, Exists, NextGeneration, VerifyExisting, InstalledTrees, PackageAt, Root, RollbackPath, PreviousPath, Key;
    hide AlreadyInstalled;
  }

  lemma RotationKeepsActive(trees: map<Path, Tree>, root: Path)
    requires root in trees && RollbackPath(root) in trees
    ensures SameAt(trees, Move(trees, RollbackPath(root), PreviousPath(root)), root)
  {
  }

  lemma RotationRelocates(w: World, s: State, id: string, version: string)
    requires ValidIdentity(id, version) && RollbackPath(Root(id, version)) in s.trees
    requires PackageAt(w, s, RollbackPath(Root(id, version)), id, version) && PreviousPath(Root(id, version)) !in s.trees
    ensures Relocates(w, s, s.(trees := Move(s.trees, RollbackPath(Root(id, version)), PreviousPath(Root(id, version)))),
                      id, version)
  {
    hide ValidIdentity, PackageAt;
    assert IsSuffix(".rollback-previous");
  }

  /** Moving the trees of a package that is in place disturbs no other live package. */
  lemma RelocationOfPresentAgrees(w: World, s: State, t: State, id: string, version: string)
    requires Agree(w, s) && Relocates(w, s, t, id, version) && Root(id, version) in s.trees
    requires forall k | k in t.records :: k in s.records || k == Key(id, version)
    requires forall k | k in t.records && k != Key(id, version) :: t.records[k] == s.records[k]
    requires Key(id, version) !in t.records || AgreesAt(w, t, Key(id, version))
          || (t.records == s.records && SameAt(s.trees, t.trees, Root(id, version)))
    ensures Agree(w, t)
  {
    hide ValidateTree, ValidIdentity, OnlyNear, Below;
    forall k | k in t.records ensures AgreesAt(w, t, k) {
      if k != Key(id, version) {
        assert AgreesAt(w, s, k);
        RelocationKeepsOther(w, s, t, id, version, k);
      } else if !AgreesAt(w, t, k) {
        OwnRootKept(w, s, t, id, version);
      }
    }
  }

  lemma OwnRootKept(w: World, s: State, t: State, id: string, version: string)
    requires Relocates(w, s, t, id, version) && Key(id, version) in s.records && AgreesAt(w, s, Key(id, version))
    requires t.records == s.records && Root(id, version) in s.trees && SameAt(s.trees, t.trees, Root(id, version))
    ensures AgreesAt(w, t, Key(id, version))
  {
    hide ValidateTree, ValidIdentity, OnlyNear;
    var k, root := Key(id, version), Root(id, version);
    KeyIsInjective(id, version, s.records[k].environmentID, s.records[k].version);
    RootEndsInVersion(id, version);
    SiblingBelow(root, ".rollback", root);
    StaysUncrowded(s.trees, t.trees, root, root);
    UntouchedAgrees(w, s, t, k);
  }

  lemma RollbackAgrees(w: World, s: State, id: string, version: string, f: RollbackFaults, now: Instant)
    requires Agree(w, s)
    ensures Agree(w, Rollback(w, s, id, version, f, now).0)
  {
    hide ValidateTree, ValidIdentity, NextGeneration, RolledBackTrees, Agree, Below, Crowded;
    var t := Rollback(w, s, id, version, f, now).0;
    if RollbackRefusal(w, s, id, version).None? && !(f.preserve || f.restore || f.save) {
      RolledBackRelocates(w, s, t, id, version, f.cleanup);
      RolledBackAgrees(w, s, t, id, version, f.cleanup);
      RelocationOfPresentAgrees(w, s, t, id, version);
    }
  }

  lemma RolledBackRelocates(w: World, s: State, t: State, id: string, version: string, cleanupFails: bool)
    requires ValidIdentity(id, version) && t.trust == s.trust
    requires PackageAt(w, s, Root(id, version), id, version) && PackageAt(w, s, RollbackPath(Root(id, version)), id, version)
    requires CurrentPath(Root(id, version)) !in s.trees
    requires t.trees == RolledBackTrees(s.trees, Root(id, version), cleanupFails)
    ensures Relocates(w, s, t, id, version)
  {
    hide ValidIdentity, ValidateTree, Crowded;
    assert IsSuffix(".rollback-current");
  }

  lemma RolledBackAgrees(w: World, s: State, t: State, id: string, version: string, cleanupFails: bool)
    requires Relocates(w, s, t, id, version)
    requires PackageAt(w, s, Root(id, version), id, version) && PackageAt(w, s, RollbackPath(Root(id, version)), id, version)
    requires t.trees == RolledBackTrees(s.trees, Root(id, version), cleanupFails)
    requires Key(id, version) in t.records
    requires var m, r := ValidateAt(w, s, RollbackPath(Root(id, version))).value, t.records[Key(id, version)];
      && r.environmentID == m.environmentID && r.version == m.version
      && r.manifestDigest == m.manifestDigest && r.signer == m.signer
    ensures AgreesAt(w, t, Key(id, version))
  {
    hide ValidIdentity, ValidateTree, OnlyNear;
    var root := Root(id, version);
    RootEndsInVersion(id, version);
    SiblingBelow(root, ".rollback", root);
    StaysUncrowded(s.trees, t.trees, root, root);
    assert t.trees[root] == s.trees[RollbackPath(root)];
  }

  lemma RemoveAgrees(w: World, s: State, id: string, version: string, f: RemoveFaults)
    requires Agree(w, s)
    ensures Agree(w, Remove(w, s, id, version, f).0)
  {
    hide ValidateTree, ValidIdentity, Agree, Below, Crowded;
    var t := Remove(w, s, id, version, f).0;
    if t != s {
      RemovedRelocates(w, s, t, id, version, f.cleanup);
      RelocationOfPresentAgrees(w, s, t, id, version);
    }
  }

  lemma RemovedRelocates(w: World, s: State, t: State, id: string, version: string, cleanupFails: bool)
    requires ValidIdentity(id, version) && t.trust == s.trust && PackageAt(w, s, Root(id, version), id, version)
    requires t.trees == if cleanupFails then Move(s.trees, Root(id, version), RemovePath(Root(id, version)))
                        else s.trees - {Root(id, version)}
    requires RemovePath(Root(id, version)) !in s.trees
    ensures Relocates(w, s, t, id, version)
  {
    hide ValidIdentity, ValidateTree, Crowded;
    assert IsSuffix(".remove");
  }

  /** Same package, whatever its gates. */
  predicate SamePackage(r: Record, r': Record) {
    && r'.environmentID == r.environmentID && r'.version == r.version && r'.manifestDigest == r.manifestDigest
    && r'.signer == r.signer && r'.generation == r.generation && r'.capabilities == r.capabilities
  }

  /** Calls that only open or close gates: same trees, same packages under the same keys. */
  ghost predicate GateStep(s: State, t: State) {
    && t.trees == s.trees && t.trust == s.trust && t.records.Keys == s.records.Keys
    && (forall k | k in s.records :: SamePackage(s.records[k], t.records[k]))
  }

  lemma CommitOnlyGates(s: State, k: string, saveFails: bool)
    ensures GateStep(s, s)
    ensures k in s.records ==>
              forall r: Record | SamePackage(s.records[k], r) :: GateStep(s, CommitRecord(s, k, r, saveFails))
  {
  }

  predicate IsGateOp(op: Op) {
    op.OpVerify? || op.OpTrust? || op.OpEnable? || op.OpHealth? || op.OpResolve?
  }

  lemma GateOpsOnlyGate(w: World, s: State, op: Op)
    requires IsGateOp(op)
    ensures GateStep(s, Step(w, s, op))
  {
    hide Verify, SetTrusted, SetEnabled, HealthCheck, Resolve, GateStep;
    match op {
      case OpVerify(id, version, saveFails, now) => VerifyOnlyGates(w, s, id, version, saveFails, now);
      case OpTrust(id, version, on, saveFails, now) => TrustOnlyGates(w, s, id, version, on, saveFails, now);
      case OpEnable(id, version, on, saveFails, now) => EnableOnlyGates(w, s, id, version, on, saveFails, now);
      case OpHealth(id, version, probe, saveFails, now) => HealthOnlyGates(w, s, id, version, probe, saveFails, now);
      case OpResolve(id, version, entry, saveFails) => ResolveOnlyGates(w, s, id, version, entry, saveFails);
    }
  }

  lemma VerifyOnlyGates(w: World, s: State, id: string, version: string, saveFails: bool, now: Instant)
    ensures GateStep(s, Verify(w, s, id, version, saveFails, now).0)
  {
    hide CommitRecord, GateStep;
    hide Current, Key;
    CommitOnlyGates(s, Key(id, version), saveFails);
  }

  lemma TrustOnlyGates(w: World, s: State, id: string, version: string, on: bool, saveFails: bool, now: Instant)
    ensures GateStep(s, SetTrusted(w, s, id, version, on, saveFails, now).0)
  {
    hide CommitRecord, GateStep;
    hide Current, Key;
    CommitOnlyGates(s, Key(id, version), saveFails);
  }

  lemma EnableOnlyGates(w: World, s: State, id: string, version: string, on: bool, saveFails: bool, now: Instant)
    ensures GateStep(s, SetEnabled(w, s, id, version, on, saveFails, now).0)
  {
    hide CommitRecord, GateStep;
    hide Current, Key;
    CommitOnlyGates(s, Key(id, version), saveFails);
  }

  lemma HealthOnlyGates(w: World, s: State, id: string, version: string, probe: Probe, saveFails: bool, now: Instant)
    ensures GateStep(s, HealthCheck(w, s, id, version, probe, saveFails, now).0)
  {
    hide CommitRecord, GateStep;
    hide Current, Key, Exists, ValidIdentity;
    CommitOnlyGates(s, Key(id, version), saveFails);
  }

  lemma ResolveOnlyGates(w: World, s: State, id: string, version: string, entry: string, saveFails: bool)
    ensures GateStep(s, Resolve(w, s, id, version, entry, saveFails).0)
  {
    hide CommitRecord, GateStep;
    hide Current, Key, ValidateAt;
    CommitOnlyGates(s, Key(id, version), saveFails);
  }

  lemma GateStepAgrees(w: World, s: State, t: State)
    requires Agree(w, s) && GateStep(s, t)
    ensures Agree(w, t)
  {
    hide ValidateTree, ValidIdentity, Crowded;
    forall k | k in t.records ensures AgreesAt(w, t, k) {
      assert AgreesAt(w, s, k);
      UntouchedAgrees(w, s, t, k);
    }
  }

  /** Adding a signer never replaces a key, so what verified still verifies. */
  lemma AddSignerAgrees(w: World, s: State, signer: string, key: PublicKey)
    requires Agree(w, s)
    ensures Agree(w, AddTrustedSigner(s, signer, key).0)
  {
    hide ValidIdentity, Crowded, VerifyDigest, VerifySignature, ValidManifest, ValidToken;
    var t := AddTrustedSigner(s, signer, key).0;
    forall k | k in t.records ensures AgreesAt(w, t, k) { assert AgreesAt(w, s, k); }
  }

  // ----- Runs -----

  ghost predicate Durable(s: State) {
    s.saved == s.records
  }

  /** Every call, whatever fails in it, leaves the saved records equal to the in-memory ones. */
  lemma StepKeepsDurable(w: World, s: State, op: Op)
    requires Durable(s)
    ensures Durable(Step(w, s, op))
  {
    hide Current, Key, Exists, ValidateAt, ValidateTree, NextGeneration, InstalledTrees, RolledBackTrees, ValidIdentity;
    hide InstallRefusal, RollbackRefusal, RemoveRefusal, AlreadyInstalled, Loadable, Move;
  }

  /** An install that is called with a package that would land inside a live package is the only call that can break agreement. */
  ghost predicate Careful(w: World, s: State, op: Op) {
    && !op.Tamper?
    && (op.OpInstall? && ValidateTree(w, s.trust, op.source).Some? ==>
          Apart(s, ValidateTree(w, s.trust, op.source).value.environmentID, ValidateTree(w, s.trust, op.source).value.version))
  }

  lemma StepKeepsAgreement(w: World, s: State, op: Op)
    requires Agree(w, s) && Durable(s) && Careful(w, s, op)
    requires op.OpInstall? ==> TellsApart(w, op.source, op.staged)
    ensures Agree(w, Step(w, s, op))
  {
    hide ValidateTree, Install, Rollback, Remove, Verify, SetTrusted, SetEnabled, HealthCheck, Resolve, AddTrustedSigner;
    hide Agree, TellsApart, GateStep, Committed, Apart;
    match op {
      case OpInstall(source, staged, f, now) =>
        if Committed(w, s, source, staged, f, now) {
          CommittedHasManifest(w, s, source, staged, f, now);
          InstallAgreesIffApart(w, s, source, staged, f, now, ValidateTree(w, s.trust, source).value);
        } else {
          FailedInstallAgrees(w, s, source, staged, f, now);
        }
      case OpRollback(id, version, f, now) => RollbackAgrees(w, s, id, version, f, now);
      case OpRemove(id, version, f) => RemoveAgrees(w, s, id, version, f);
      case OpAddSigner(signer, key) => AddSignerAgrees(w, s, signer, key);
      case OpRestart =>
      case _ =>
        GateOpsOnlyGate(w, s, op);
        GateStepAgrees(w, s, Step(w, s, op));
    }
  }

  lemma CommittedHasManifest(w: World, s: State, source: Tree, staged: Tree, f: InstallFaults, now: Instant)
    requires Committed(w, s, source, staged, f, now)
    ensures ValidateTree(w, s.trust, source).Some?
  {
    hide ValidateTree, Exists, NextGeneration, InstalledTrees, InstallRefusal, AlreadyInstalled;
  }

  ghost predicate CarefulRun(w: World, s: State, ops: seq<Op>) {
    forall i | 0 <= i < |ops| :: Careful(w, Run(w, s, ops[..i]), ops[i])
  }

  lemma {:induction false} RunIsDurable(w: World, s: State, ops: seq<Op>)
    requires Initial(s)
    ensures Durable(Run(w, s, ops))
    decreases |ops|
  {
    hide Step;
    if ops != [] {
      RunIsDurable(w, s, ops[..|ops| - 1]);
      StepKeepsDurable(w, Run(w, s, ops[..|ops| - 1]), ops[|ops| - 1]);
    }
  }

  /**
   In every run in which only the manager touches the trees and no package is placed inside a live one, whichever
   renames and saves fail, each record's active tree validates to exactly that record.
   */
  lemma {:induction false} RunAgrees(w: World, s: State, ops: seq<Op>)
    requires Initial(s) && CarefulRun(w, s, ops)
    requires forall i | 0 <= i < |ops| && ops[i].OpInstall? :: TellsApart(w, ops[i].source, ops[i].staged)
    ensures Agree(w, Run(w, s, ops))
    decreases |ops|
  {
    hide Step, TellsApart, Careful;
    if ops != [] {
      var shorter := ops[..|ops| - 1];
      assert CarefulRun(w, s, shorter) by {
        forall i | 0 <= i < |shorter| ensures Careful(w, Run(w, s, shorter[..i]), shorter[i]) {
          assert shorter[..i] == ops[..i] && shorter[i] == ops[i];
        }
      }
      RunAgrees(w, s, shorter);
      RunIsDurable(w, s, shorter);
      StepKeepsAgreement(w, Run(w, s, shorter), ops[|ops| - 1]);
    }
  }
}
