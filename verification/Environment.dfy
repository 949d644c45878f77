/**
 The signed environment package manager (internal/environment/lifecycle.go), as a transition system: what each call does
 to the directory trees, the in-memory records, the saved records and the trust store, for every rename, save or cleanup
 that may fail on the way. EnvironmentManager.dfy proves the step-by-step code against these transitions.
 */
module Environment {
  import opened Common
  import opened Manifests

  /** A directory tree: relative file names and their contents. */
  type Tree = map<string, string>

  datatype Record = Record(
    environmentID: string, version: string, capabilities: seq<string>, manifestDigest: string, signer: string,
    installed: bool, verified: bool, trusted: bool, enabled: bool, healthy: bool, ready: bool,
    generation: Uint64, updatedAt: Instant)
  {
    /** The gate implications of the source's record validation. */
    predicate Gated() {
      && (verified ==> installed) && (trusted ==> verified) && (enabled ==> trusted) && (healthy ==> verified)
      && (ready ==> installed && verified && trusted && enabled && healthy)
    }

    predicate Valid() {
      && ValidEnvironmentID(environmentID) && ValidEnvironmentVersion(version) && ValidToken(signer, 256)
      && generation != 0 && updatedAt != 0 && ValidSHA256(manifestDigest)
      && UniqueTokens(capabilities, 128)
      && Gated()
    }

    function Unverified(): Record { this.(verified := false, trusted := false, enabled := false, healthy := false, ready := false) }
  }

  datatype Error =
    | InvalidPackage | InvalidPath | NotInstalled | NotVerified | NotTrusted | Disabled | NotHealthy | NotReady
    | RollbackUnavailable | Transaction | ExternalModification | UntrustedSigner | InvalidState | Cancelled | Io

  /** What the environment fixes: how a tree is read, the cryptography, and the target platform. */
  datatype World = World(inspect: Tree -> Option<Manifest>, crypto: Crypto, target: string)

  datatype State = State(
    trees: map<Path, Tree>, records: map<string, Record>, saved: map<string, Record>, trust: map<string, PublicKey>)

  // ----- Names and places -----

  function Key(id: string, version: string): string { id + "@" + version }

  /** The active root of a package, below the environments directory. */
  function Root(id: string, version: string): Path { id + "/" + version }

  function RollbackPath(root: Path): Path { root + ".rollback" }
  function PreviousPath(root: Path): Path { root + ".rollback-previous" }
  function CurrentPath(root: Path): Path { root + ".rollback-current" }
  function RemovePath(root: Path): Path { root + ".remove" }

  predicate ValidIdentity(id: string, version: string) {
    ValidEnvironmentID(id) && ValidEnvironmentVersion(version)
  }

  predicate Crowded(trees: map<Path, Tree>, p: Path) {
    exists q | q in trees :: Below(q, p)
  }

  predicate Exists(trees: map<Path, Tree>, p: Path) {
    p in trees || Crowded(trees, p)
  }

  function Move(trees: map<Path, Tree>, from: Path, to: Path): map<Path, Tree>
    requires from in trees
  {
    (trees - {from})[to := trees[from]]
  }

  // ----- Validation -----

  /** Reads and checks a tree: manifest fields, target, digest and trusted signature. */
  function ValidateTree(w: World, trust: map<string, PublicKey>, tree: Tree): Option<Manifest> {
    match w.inspect(tree)
    case None => None
    case Some(m) =>
      if ValidManifest(m) && (w.target != "" ==> w.target in m.targets) && TrustVerifies(w.crypto, trust, m)
      then Some(m) else None
  }

  /** What validation sees at a path: another package below it shows up as undeclared files. */
  function ValidateAt(w: World, s: State, p: Path): Option<Manifest> {
    if p in s.trees && !Crowded(s.trees, p) then ValidateTree(w, s.trust, s.trees[p]) else None
  }

  predicate Names(m: Manifest, id: string, version: string) {
    m.environmentID == id && m.version == version
  }

  /** The tree at `p` is the package `id`@`version`. */
  predicate PackageAt(w: World, s: State, p: Path, id: string, version: string) {
    ValidateAt(w, s, p).Some? && Names(ValidateAt(w, s, p).value, id, version)
  }

  predicate Matches(m: Manifest, r: Record) {
    EqualFold(m.manifestDigest, r.manifestDigest) && m.signer == r.signer
  }

  /** The active tree still is what the record says, or an error. */
  predicate VerifyExisting(w: World, s: State, id: string, version: string) {
    && Key(id, version) in s.records
    && PackageAt(w, s, Root(id, version), id, version)
    && Matches(ValidateAt(w, s, Root(id, version)).value, s.records[Key(id, version)])
  }

  /** The integrity check behind every gate. It does not compare the identity inside the manifest. */
  predicate Current(w: World, s: State, id: string, version: string) {
    && Key(id, version) in s.records
    && ValidIdentity(id, version)
    && ValidateAt(w, s, Root(id, version)).Some?
    && Matches(ValidateAt(w, s, Root(id, version)).value, s.records[Key(id, version)])
  }

  // ----- Generations -----

  /** The highest generation among the records of an environment, 0 if it has none. */
  ghost predicate IsTopGeneration(records: map<string, Record>, id: string, n: int) {
    && n >= 0
    && (forall k | k in records && records[k].environmentID == id :: records[k].generation <= n)
    && (n > 0 ==> exists k :: k in records && records[k].environmentID == id && records[k].generation == n)
  }

  ghost function TopGeneration(records: map<string, Record>, id: string): (n: Uint64)
    ensures IsTopGeneration(records, id, n)
  {
    var generations := set k | k in records && records[k].environmentID == id :: records[k].generation as int;
    assert forall k | k in records && records[k].environmentID == id :: records[k].generation in generations;
    Largest(generations)
  }

  ghost function Largest(xs: set<int>): (n: int)
    requires forall x | x in xs :: 0 <= x <= MAX_UINT64
    ensures 0 <= n <= MAX_UINT64 && (forall x | x in xs :: x <= n) && (n > 0 ==> n in xs)
  {
    if x: int :| x in xs then
      var n := Largest(xs - {x});
      assert forall y | y in xs :: y == x || y in xs - {x};
      if x > n then x else n
    else 0
  }

  /** The next generation, wrapping like the 64-bit word it is. */
  ghost function NextGeneration(records: map<string, Record>, id: string): Uint64 {
    var n := TopGeneration(records, id);
    if n == MAX_UINT64 then 0 else n + 1
  }

  function NewRecord(m: Manifest, generation: Uint64, now: Instant): Record {
    Record(m.environmentID, m.version, m.capabilities, m.manifestDigest, m.signer,
           true, true, false, false, false, false, generation, now)
  }

  // ----- Install -----

  /**
   Which step of an install fails: creating the parent directory, staging a copy, rotating the old rollback tree away,
   preserving the active tree, moving the staged tree into place, saving. `cleanup` is the deletion of the rotated tree after
   the commit.
   */
  datatype InstallFaults = InstallFaults(prepare: bool, stage: bool, rotate: bool, preserve: bool, commit: bool, save: bool, cleanup: bool)

  /** Why an install of the manifest `m` is refused before anything moves. */
  function InstallRefusal(w: World, s: State, m: Manifest, staged: Tree, f: InstallFaults): Option<Error> {
    var root := Root(m.environmentID, m.version);
    if f.prepare then Some(Io)
    else if Key(m.environmentID, m.version) in s.records && !VerifyExisting(w, s, m.environmentID, m.version) then
      Some(ExternalModification)
    else if Key(m.environmentID, m.version) !in s.records && Exists(s.trees, root) then Some(ExternalModification)
    else if f.stage then Some(Transaction)
    else if ValidateTree(w, s.trust, staged).None?
         || ValidateTree(w, s.trust, staged).value.manifestDigest != m.manifestDigest
         || ValidateTree(w, s.trust, staged).value.signer != m.signer then Some(Transaction)
    else if Exists(s.trees, PreviousPath(root)) then Some(ExternalModification)
    else if Exists(s.trees, RollbackPath(root)) && !PackageAt(w, s, RollbackPath(root), m.environmentID, m.version) then
      Some(ExternalModification)
    else None
  }

  predicate AlreadyInstalled(w: World, s: State, m: Manifest) {
    && VerifyExisting(w, s, m.environmentID, m.version)
    && Matches(m, s.records[Key(m.environmentID, m.version)])
  }

  /** The trees after a committed install: the old active tree becomes the rollback tree, an older one goes away. */
  function InstalledTrees(trees: map<Path, Tree>, root: Path, staged: Tree, cleanupFails: bool): map<Path, Tree> {
    var rotated := if RollbackPath(root) in trees
                   then (if cleanupFails then Move(trees, RollbackPath(root), PreviousPath(root))
                         else trees - {RollbackPath(root)})
                   else trees;
    (if root in trees then rotated[RollbackPath(root) := trees[root]] else rotated)[root := staged]
  }

  /**
   Install, given that every compensating rename works. A failed preservation and a failed cleanup leave the old rollback
   tree in its side place.
   */
  ghost function Install(w: World, s: State, source: Tree, staged: Tree, f: InstallFaults, now: Instant)
    : (State, Result<Record, Error>)
  {
    match ValidateTree(w, s.trust, source)
    case None => (s, Err(InvalidPackage))
    case Some(m) =>
      var root, k := Root(m.environmentID, m.version), Key(m.environmentID, m.version);
      if !f.prepare && AlreadyInstalled(w, s, m) then (s, Ok(s.records[k]))
      else if InstallRefusal(w, s, m, staged, f).Some? then (s, Err(InstallRefusal(w, s, m, staged, f).value))
      else if f.rotate && RollbackPath(root) in s.trees then (s, Err(Transaction))
      else if f.preserve && root in s.trees then
        (if RollbackPath(root) in s.trees then s.(trees := Move(s.trees, RollbackPath(root), PreviousPath(root))) else s,
         Err(Transaction))
      else if f.commit || f.save then (s, Err(Transaction))
      else
        var r := NewRecord(m, NextGeneration(s.records, m.environmentID), now);
        (s.(trees := InstalledTrees(s.trees, root, staged, f.cleanup), records := s.records[k := r], saved := s.records[k := r]),
         Ok(r))
  }

  // ----- Rollback and Remove -----

  datatype RollbackFaults = RollbackFaults(preserve: bool, restore: bool, save: bool, cleanup: bool)

  function RollbackRefusal(w: World, s: State, id: string, version: string): Option<Error> {
    var root := Root(id, version);
    if Key(id, version) !in s.records then Some(RollbackUnavailable)
    else if s.records[Key(id, version)].ready then Some(NotReady)
    else if !ValidIdentity(id, version) then Some(InvalidPath)
    else if !Exists(s.trees, RollbackPath(root)) then Some(RollbackUnavailable)
    else if !PackageAt(w, s, root, id, version) || !PackageAt(w, s, RollbackPath(root), id, version) then
      Some(ExternalModification)
    else if EqualFold(ValidateAt(w, s, root).value.manifestDigest, ValidateAt(w, s, RollbackPath(root)).value.manifestDigest)
    then Some(ExternalModification)
    else if Exists(s.trees, CurrentPath(root)) then Some(ExternalModification)
    else None
  }

  function RolledBackTrees(trees: map<Path, Tree>, root: Path, cleanupFails: bool): map<Path, Tree>
    requires root in trees && RollbackPath(root) in trees
  {
    var restored := (trees - {RollbackPath(root)})[root := trees[RollbackPath(root)]];
    if cleanupFails then restored[CurrentPath(root) := trees[root]] else restored
  }

  ghost function Rollback(w: World, s: State, id: string, version: string, f: RollbackFaults, now: Instant)
    : (State, Option<Error>)
  {
    var root, k := Root(id, version), Key(id, version);
    if RollbackRefusal(w, s, id, version).Some? then (s, RollbackRefusal(w, s, id, version))
    else if f.preserve || f.restore || f.save then (s, Some(Transaction))
    else
      var r := NewRecord(ValidateAt(w, s, RollbackPath(root)).value, NextGeneration(s.records, id), now);
      (s.(trees := RolledBackTrees(s.trees, root, f.cleanup), records := s.records[k := r], saved := s.records[k := r]), None)
  }

  datatype RemoveFaults = RemoveFaults(rename: bool, save: bool, cleanup: bool)

  function RemoveRefusal(w: World, s: State, id: string, version: string): Option<Error> {
    var root := Root(id, version);
    if !ValidIdentity(id, version) then Some(InvalidPath)
    else if Key(id, version) !in s.records then (if Exists(s.trees, root) then Some(ExternalModification) else None)
    else if s.records[Key(id, version)].ready then Some(NotReady)
    else if !VerifyExisting(w, s, id, version) then Some(ExternalModification)
    else if Exists(s.trees, RemovePath(root)) then Some(ExternalModification)
    else None
  }

  /** A failed final deletion is reported although the removal is committed. */
  function Remove(w: World, s: State, id: string, version: string, f: RemoveFaults): (State, Option<Error>) {
    var root, k := Root(id, version), Key(id, version);
    if RemoveRefusal(w, s, id, version).Some? then (s, RemoveRefusal(w, s, id, version))
    else if k !in s.records then (s, None)
    else if f.rename || f.save then (s, Some(Transaction))
    else
      var trees := if f.cleanup then Move(s.trees, root, RemovePath(root)) else s.trees - {root};
      (s.(trees := trees, records := s.records - {k}, saved := s.records - {k}), if f.cleanup then Some(Transaction) else None)
  }

  // ----- Gates -----

  /** Replaces one record and saves, or changes nothing. */
  function CommitRecord(s: State, k: string, r: Record, saveFails: bool): State {
    if saveFails then s else s.(records := s.records[k := r], saved := s.records[k := r])
  }

  function Verify(w: World, s: State, id: string, version: string, saveFails: bool, now: Instant)
    : (State, Result<Record, Error>)
  {
    var k := Key(id, version);
    if k !in s.records || !s.records[k].installed then (s, Err(NotInstalled))
    else
      var ok := Current(w, s, id, version);
      var r := (if ok then s.records[k].(verified := true) else s.records[k].Unverified()).(updatedAt := now);
      (CommitRecord(s, k, r, saveFails), if saveFails then Err(Transaction) else if ok then Ok(r) else Err(NotVerified))
  }

  function SetTrusted(w: World, s: State, id: string, version: string, trusted: bool, saveFails: bool, now: Instant)
    : (State, Result<Record, Error>)
  {
    var k := Key(id, version);
    if k !in s.records then (s, Err(NotInstalled))
    else if !s.records[k].verified then (s, Err(NotVerified))
    else if !Current(w, s, id, version) then
      (CommitRecord(s, k, s.records[k].Unverified(), saveFails), Err(if saveFails then Transaction else NotVerified))
    else if trusted && s.records[k].signer !in s.trust then (s, Err(UntrustedSigner))
    else
      var r := (if trusted then s.records[k].(trusted := true)
                else s.records[k].(trusted := false, enabled := false, healthy := false, ready := false)).(updatedAt := now);
      (CommitRecord(s, k, r, saveFails), if saveFails then Err(Transaction) else Ok(r))
  }

  function SetEnabled(w: World, s: State, id: string, version: string, enabled: bool, saveFails: bool, now: Instant)
    : (State, Result<Record, Error>)
  {
    var k := Key(id, version);
    if k !in s.records then (s, Err(NotInstalled))
    else if enabled && !s.records[k].trusted then (s, Err(NotTrusted))
    else if enabled && !Current(w, s, id, version) then
      (CommitRecord(s, k, s.records[k].Unverified(), saveFails), Err(if saveFails then Transaction else NotVerified))
    else
      var r := (if enabled then s.records[k].(enabled := true) else s.records[k].(enabled := false, ready := false))
               .(updatedAt := now);
      (CommitRecord(s, k, r, saveFails), if saveFails then Err(Transaction) else Ok(r))
  }

  /** How the probe of a health check ended. */
  datatype Probe = Passed | Sick | Interrupted

  function HealthCheck(w: World, s: State, id: string, version: string, probe: Probe, saveFails: bool, now: Instant)
    : (State, Result<Record, Error>)
  {
    var k := Key(id, version);
    if k !in s.records then (s, Err(NotInstalled))
    else if !s.records[k].verified then (s, Err(NotVerified))
    else if !ValidIdentity(id, version) then (s, Err(InvalidPath))
    else if !Exists(s.trees, Root(id, version)) then
      (CommitRecord(s, k, s.records[k].Unverified().(installed := false, updatedAt := now), saveFails),
       Err(if saveFails then Transaction else NotInstalled))
    else if !Current(w, s, id, version) then
      (CommitRecord(s, k, s.records[k].Unverified(), saveFails), Err(if saveFails then Transaction else NotVerified))
    else if probe == Sick then
      (CommitRecord(s, k, s.records[k].(healthy := false, ready := false, updatedAt := now), saveFails),
       Err(if saveFails then Transaction else NotHealthy))
    else if probe == Interrupted then (s, Err(Cancelled))
    else
      var r := s.records[k];
      var checked := r.(healthy := true, ready := r.installed && r.verified && r.trusted && r.enabled, updatedAt := now);
      (CommitRecord(s, k, checked, saveFails),
       if saveFails then Err(Transaction) else if checked.ready then Ok(checked) else Err(NotReady))
  }

  /** Selecting a package to run: the first closed gate refuses; a changed tree closes the gates. */
  function Resolve(w: World, s: State, id: string, version: string, entry: string, saveFails: bool)
    : (State, Result<Manifest, Error>)
  {
    var k := Key(id, version);
    if k !in s.records then (s, Err(NotInstalled))
    else
      var r := s.records[k];
      if !r.verified then (s, Err(NotVerified))
      else if !r.trusted then (s, Err(NotTrusted))
      else if !r.enabled then (s, Err(Disabled))
      else if !r.healthy then (s, Err(NotHealthy))
      else if !(r.ready && r.installed) then (s, Err(NotReady))
      else if !Current(w, s, id, version) then (CommitRecord(s, k, r.Unverified(), saveFails), Err(NotVerified))
      else
        var m := ValidateAt(w, s, Root(id, version)).value;
        (s, if exists e | e in m.entrypoints :: e.name == entry && e.path != "" then Ok(m) else Err(InvalidPackage))
  }

  // ----- Trust and restart -----

  /** A known signer's key cannot be replaced. */
  function AddTrustedSigner(s: State, signer: string, key: PublicKey): (State, Option<Error>) {
    if !ValidToken(signer, 256) || (signer in s.trust && s.trust[signer] != key) then (s, Some(UntrustedSigner))
    else (s.(trust := s.trust[signer := key]), None)
  }

  predicate Loadable(saved: map<string, Record>) {
    forall k | k in saved :: saved[k].Valid() && k == Key(saved[k].environmentID, saved[k].version)
  }

  /** A new process reads the saved records, or refuses to start. */
  function Restart(s: State): (State, Option<Error>) {
    if Loadable(s.saved) then (s.(records := s.saved), None) else (s, Some(InvalidState))
  }

  // ----- Runs -----

  datatype Op =
    | OpInstall(source: Tree, staged: Tree, installFaults: InstallFaults, now: Instant)
    | OpRollback(id: string, version: string, rollbackFaults: RollbackFaults, now: Instant)
    | OpRemove(id: string, version: string, removeFaults: RemoveFaults)
    | OpVerify(id: string, version: string, saveFails: bool, now: Instant)
    | OpTrust(id: string, version: string, on: bool, saveFails: bool, now: Instant)
    | OpEnable(id: string, version: string, on: bool, saveFails: bool, now: Instant)
    | OpHealth(id: string, version: string, probe: Probe, saveFails: bool, now: Instant)
    | OpResolve(id: string, version: string, entry: string, saveFails: bool)
    | OpAddSigner(signer: string, key: PublicKey)
    | OpRestart
    | Tamper(trees: map<Path, Tree>)

  /** One call to the manager, or an outside change to the directory trees. */
  ghost function Step(w: World, s: State, op: Op): State {
    match op
    case OpInstall(source, staged, f, now) => Install(w, s, source, staged, f, now).0
    case OpRollback(id, version, f, now) => Rollback(w, s, id, version, f, now).0
    case OpRemove(id, version, f) => Remove(w, s, id, version, f).0
    case OpVerify(id, version, saveFails, now) => Verify(w, s, id, version, saveFails, now).0
    case OpTrust(id, version, on, saveFails, now) => SetTrusted(w, s, id, version, on, saveFails, now).0
    case OpEnable(id, version, on, saveFails, now) => SetEnabled(w, s, id, version, on, saveFails, now).0
    case OpHealth(id, version, probe, saveFails, now) => HealthCheck(w, s, id, version, probe, saveFails, now).0
    case OpResolve(id, version, entry, saveFails) => Resolve(w, s, id, version, entry, saveFails).0
    case OpAddSigner(signer, key) => AddTrustedSigner(s, signer, key).0
    case OpRestart => Restart(s).0
    case Tamper(trees) => s.(trees := trees)
  }

  ghost function Run(w: World, s: State, ops: seq<Op>): State
    decreases |ops|
  {
    if ops == [] then s else Step(w, Run(w, s, ops[..|ops| - 1]), ops[|ops| - 1])
  }

  ghost predicate Initial(s: State) {
    s.records == map[] && s.saved == map[] && s.trees == map[]
  }
}
