/**
 What a run of the environment manager says about the past of its records: readiness was granted gate by gate, in order,
 after the commit of the package that the record names. It holds with arbitrary outside changes to the trees in between.
 */
module EnvironmentHistory {
  import opened Common
  import opened Manifests
  import opened Environment
  import opened EnvironmentAgreement

  // ----- What one call does to one record -----

  /** The call commits a new record under `k`: an install or a rollback of that package. */
  ghost predicate Assigns(w: World, s: State, op: Op, k: string) {
    match op
    case OpInstall(source, staged, f, now) =>
      && Committed(w, s, source, staged, f, now)
      && ValidateTree(w, s.trust, source).Some?
      && Key(ValidateTree(w, s.trust, source).value.environmentID, ValidateTree(w, s.trust, source).value.version) == k
    case OpRollback(id, version, f, now) => Rollback(w, s, id, version, f, now).1.None? && Key(id, version) == k
    case _ => false
  }

  /** The call reports success at opening the gate of `k`. */
  ghost predicate GrantsTrust(w: World, s: State, op: Op, k: string) {
    op.OpTrust? && op.on && Key(op.id, op.version) == k
    && SetTrusted(w, s, op.id, op.version, op.on, op.saveFails, op.now).1.Ok?
  }

  ghost predicate GrantsEnable(w: World, s: State, op: Op, k: string) {
    op.OpEnable? && op.on && Key(op.id, op.version) == k
    && SetEnabled(w, s, op.id, op.version, op.on, op.saveFails, op.now).1.Ok?
  }

  ghost predicate PassesHealth(w: World, s: State, op: Op, k: string) {
    op.OpHealth? && Key(op.id, op.version) == k
    && HealthCheck(w, s, op.id, op.version, op.probe, op.saveFails, op.now).1.Ok?
  }

  /** The clock read by the call, if any, is not the zero time. */
  predicate Clocked(op: Op) {
    match op
    case OpRemove(_, _, _) => true
    case OpResolve(_, _, _, _) => true
    case OpAddSigner(_, _) => true
    case OpRestart => true
    case Tamper(_) => true
    case _ => op.now != 0
  }

  predicate JustCommitted(r: Record) {
    r.installed && r.verified && !r.trusted && !r.enabled && !r.healthy && !r.ready
  }

  /** A gate that is open after the call was open before, or the call opened it. */
  ghost predicate Opens(w: World, s: State, op: Op, k: string, r: Record, r': Record) {
    && SamePackage(r, r')
    && (r'.trusted ==> r.trusted || GrantsTrust(w, s, op, k))
    && (r'.enabled ==> r.enabled || GrantsEnable(w, s, op, k))
    && (r'.ready ==> r.ready || PassesHealth(w, s, op, k))
    && (r.Gated() ==> r'.Gated())
    && (Clocked(op) && r.updatedAt != 0 ==> r'.updatedAt != 0)
  }

  ghost predicate Effect(w: World, s: State, op: Op, t: State, k: string)
    requires k in t.records
  {
    if Assigns(w, s, op, k) then JustCommitted(t.records[k]) && (Clocked(op) ==> t.records[k].updatedAt != 0)
    else k in s.records && Opens(w, s, op, k, s.records[k], t.records[k])
  }

  lemma CommitEffect(w: World, s: State, op: Op, id: string, version: string, saveFails: bool)
    requires IsGateOp(op) && op.id == id && op.version == version
    ensures forall k | k in s.records :: Effect(w, s, op, s, k)
    ensures Key(id, version) in s.records ==>
              forall r: Record, k: string | Opens(w, s, op, Key(id, version), s.records[Key(id, version)], r) && k in s.records ::
                Effect(w, s, op, CommitRecord(s, Key(id, version), r, saveFails), k)
  {
    hide Key, SetTrusted, SetEnabled, HealthCheck;
  }

  lemma VerifyEffect(w: World, s: State, op: Op, k: string)
    requires op.OpVerify? && k in Step(w, s, op).records
    ensures Effect(w, s, op, Step(w, s, op), k)
  {
    hide Key, Current, CommitRecord, Effect, GrantsTrust, GrantsEnable, PassesHealth;
    CommitKeepsKeys(s, Key(op.id, op.version), op.saveFails);
    CommitEffect(w, s, op, op.id, op.version, op.saveFails);
  }

  lemma CommitKeepsKeys(s: State, k: string, saveFails: bool)
    ensures k in s.records ==> forall r: Record :: CommitRecord(s, k, r, saveFails).records.Keys == s.records.Keys
  {
  }

  lemma TrustEffect(w: World, s: State, op: Op, k: string)
    requires op.OpTrust? && k in Step(w, s, op).records
    ensures Effect(w, s, op, Step(w, s, op), k)
  {
    hide Key, Current, CommitRecord, Effect, GrantsEnable, PassesHealth;
    CommitKeepsKeys(s, Key(op.id, op.version), op.saveFails);
    CommitEffect(w, s, op, op.id, op.version, op.saveFails);
    if op.saveFails { assert Step(w, s, op) == s by { CommitFails(s, Key(op.id, op.version)); } }
  }

  lemma CommitFails(s: State, k: string)
    ensures forall r: Record :: CommitRecord(s, k, r, true) == s
  {
  }

  lemma EnableEffect(w: World, s: State, op: Op, k: string)
    requires op.OpEnable? && k in Step(w, s, op).records
    ensures Effect(w, s, op, Step(w, s, op), k)
  {
    hide Key, Current, CommitRecord, Effect, GrantsTrust, PassesHealth;
    CommitKeepsKeys(s, Key(op.id, op.version), op.saveFails);
    CommitEffect(w, s, op, op.id, op.version, op.saveFails);
    if op.saveFails { assert Step(w, s, op) == s by { CommitFails(s, Key(op.id, op.version)); } }
  }

  lemma HealthEffect(w: World, s: State, op: Op, k: string)
    requires op.OpHealth? && k in Step(w, s, op).records
    ensures Effect(w, s, op, Step(w, s, op), k)
  {
    hide Key, Current, CommitRecord, Effect, GrantsTrust, GrantsEnable, Exists, ValidIdentity;
    CommitKeepsKeys(s, Key(op.id, op.version), op.saveFails);
    CommitEffect(w, s, op, op.id, op.version, op.saveFails);
    if op.saveFails { assert Step(w, s, op) == s by { CommitFails(s, Key(op.id, op.version)); } }
  }

  lemma ResolveEffect(w: World, s: State, op: Op, k: string)
    requires op.OpResolve? && k in Step(w, s, op).records
    ensures Effect(w, s, op, Step(w, s, op), k)
  {
    hide Key, Current, CommitRecord, Effect, GrantsTrust, GrantsEnable, PassesHealth, ValidateAt;
    CommitKeepsKeys(s, Key(op.id, op.version), op.saveFails);
    CommitEffect(w, s, op, op.id, op.version, op.saveFails);
  }

  lemma FailedInstallKeepsRecords(w: World, s: State, source: Tree, staged: Tree, f: InstallFaults, now: Instant)
    requires !Committed(w, s, source, staged, f, now)
    ensures Install(w, s, source, staged, f, now).0.records == s.records
  {
    hide Key, ValidateTree, AlreadyInstalled, NextGeneration, InstalledTrees, Move, Root, VerifyExisting, Exists, PackageAt;
  }

  lemma UnchangedEffect(w: World, s: State, op: Op, t: State, k: string)
    requires k in t.records && k in s.records && t.records[k] == s.records[k] && !Assigns(w, s, op, k)
    ensures Effect(w, s, op, t, k)
  {
    hide Assigns, GrantsTrust, GrantsEnable, PassesHealth;
  }

  lemma InstallEffect(w: World, s: State, op: Op, k: string)
    requires op.OpInstall? && k in Step(w, s, op).records
    ensures Effect(w, s, op, Step(w, s, op), k)
  {
    hide Install, Key, ValidateTree, InstallRefusal, AlreadyInstalled, NextGeneration, InstalledTrees, Committed, Root;
    if Committed(w, s, op.source, op.staged, op.installFaults, op.now) {
      CommittedHasManifest(w, s, op.source, op.staged, op.installFaults, op.now);
      var m := ValidateTree(w, s.trust, op.source).value;
      CommittedInstall(w, s, op.source, op.staged, op.installFaults, op.now, m);
      if Key(m.environmentID, m.version) != k { UnchangedEffect(w, s, op, Step(w, s, op), k); }
    } else {
      FailedInstallKeepsRecords(w, s, op.source, op.staged, op.installFaults, op.now);
      UnchangedEffect(w, s, op, Step(w, s, op), k);
    }
  }

  lemma RollbackEffect(w: World, s: State, op: Op, k: string)
    requires op.OpRollback? && k in Step(w, s, op).records
    ensures Effect(w, s, op, Step(w, s, op), k)
  {
    hide Key, ValidateAt, RollbackRefusal, NextGeneration, RolledBackTrees, Root, Opens;
    if !Assigns(w, s, op, k) { UnchangedEffect(w, s, op, Step(w, s, op), k); }
  }

  lemma RemoveEffect(w: World, s: State, op: Op, k: string)
    requires op.OpRemove? && k in Step(w, s, op).records
    ensures Effect(w, s, op, Step(w, s, op), k)
  {
    hide Key, RemoveRefusal, Move, Root, Opens;
    UnchangedEffect(w, s, op, Step(w, s, op), k);
  }

  /** Every call either commits a new record with all gates closed, or opens gates only by the call meant for it. */
  lemma StepEffect(w: World, s: State, op: Op, k: string)
    requires Durable(s) && k in Step(w, s, op).records
    ensures Effect(w, s, op, Step(w, s, op), k)
  {
    hide Install, Rollback, Remove, Verify, SetTrusted, SetEnabled, HealthCheck, Resolve, Key, GrantsTrust, GrantsEnable;
    hide PassesHealth, Committed, ValidateTree, AddTrustedSigner;
    match op {
      case OpInstall(_, _, _, _) => InstallEffect(w, s, op, k);
      case OpRollback(_, _, _, _) => RollbackEffect(w, s, op, k);
      case OpRemove(_, _, _) => RemoveEffect(w, s, op, k);
      case OpVerify(_, _, _, _) => VerifyEffect(w, s, op, k);
      case OpTrust(_, _, _, _, _) => TrustEffect(w, s, op, k);
      case OpEnable(_, _, _, _, _) => EnableEffect(w, s, op, k);
      case OpHealth(_, _, _, _, _) => HealthEffect(w, s, op, k);
      case OpResolve(_, _, _, _) => ResolveEffect(w, s, op, k);
      case OpAddSigner(signer, key) => AddSignerEffect(s, signer, key);
      case OpRestart =>
      case Tamper(_) =>
    }
  }

  lemma AddSignerEffect(s: State, signer: string, key: PublicKey)
    ensures AddTrustedSigner(s, signer, key).0.records == s.records
  {
    hide ValidToken;
  }

  // ----- The gates over whole runs -----

  ghost predicate AllGated(s: State) {
    forall k | k in s.records :: s.records[k].Gated()
  }

  /** The gate implications hold in every reachable state, outside changes included. */
  lemma {:induction false} RunIsGated(w: World, s: State, ops: seq<Op>)
    requires Initial(s)
    ensures AllGated(Run(w, s, ops))
    decreases |ops|
  {
    hide Step, Assigns, GrantsTrust, GrantsEnable, PassesHealth;
    if ops != [] {
      var before, op := Run(w, s, ops[..|ops| - 1]), ops[|ops| - 1];
      RunIsGated(w, s, ops[..|ops| - 1]);
      RunIsDurable(w, s, ops[..|ops| - 1]);
      forall k | k in Step(w, before, op).records ensures Step(w, before, op).records[k].Gated() {
        StepEffect(w, before, op, k);
      }
    }
  }

  /** The state just before call number `n`. */
  ghost function StateAt(w: World, s: State, ops: seq<Op>, n: nat): State
    requires n <= |ops|
  {
    Run(w, s, ops[..n])
  }

  lemma StateAtPrefix(w: World, s: State, ops: seq<Op>)
    requires ops != []
    ensures forall n | 0 <= n < |ops| :: StateAt(w, s, ops[..|ops| - 1], n) == StateAt(w, s, ops, n)
    ensures StateAt(w, s, ops, |ops|) == Run(w, s, ops)
    ensures StateAt(w, s, ops, |ops| - 1) == Run(w, s, ops[..|ops| - 1])
  {
    hide Run;
    forall n | 0 <= n < |ops| ensures StateAt(w, s, ops[..|ops| - 1], n) == StateAt(w, s, ops, n) {
      assert ops[..|ops| - 1][..n] == ops[..n];
    }
    assert ops[..|ops|] == ops;
  }

  /** Call `a` committed the package now recorded under `k`, and the record has named that package since. */
  ghost predicate CommittedSince(w: World, s: State, ops: seq<Op>, k: string, a: int) {
    && 0 <= a < |ops| && Assigns(w, StateAt(w, s, ops, a), ops[a], k)
    && k in Run(w, s, ops).records
    && forall n | a < n <= |ops| ::
         k in StateAt(w, s, ops, n).records && SamePackage(Run(w, s, ops).records[k], StateAt(w, s, ops, n).records[k])
  }

  ghost predicate TrustedSince(w: World, s: State, ops: seq<Op>, k: string, i: int) {
    && 0 <= i < |ops| && GrantsTrust(w, StateAt(w, s, ops, i), ops[i], k)
    && forall n | i < n <= |ops| :: k in StateAt(w, s, ops, n).records && StateAt(w, s, ops, n).records[k].trusted
  }

  ghost predicate EnabledSince(w: World, s: State, ops: seq<Op>, k: string, j: int) {
    && 0 <= j < |ops| && GrantsEnable(w, StateAt(w, s, ops, j), ops[j], k)
    && forall n | j < n <= |ops| :: k in StateAt(w, s, ops, n).records && StateAt(w, s, ops, n).records[k].enabled
  }

  ghost predicate ReadySince(w: World, s: State, ops: seq<Op>, k: string, l: int) {
    && 0 <= l < |ops| && PassesHealth(w, StateAt(w, s, ops, l), ops[l], k)
    && forall n | l < n <= |ops| :: k in StateAt(w, s, ops, n).records && StateAt(w, s, ops, n).records[k].ready
  }

  datatype Story = Story(committed: int, trusted: int, enabled: int, ready: int)

  /** As far as the gates of `k` are open now, they were opened in order after the commit, and stayed open. */
  ghost predicate Tells(w: World, s: State, ops: seq<Op>, k: string, y: Story)
    requires k in Run(w, s, ops).records
  {
    var r := Run(w, s, ops).records[k];
    && CommittedSince(w, s, ops, k, y.committed)
    && (r.trusted ==> y.committed < y.trusted && TrustedSince(w, s, ops, k, y.trusted))
    && (r.enabled ==> y.trusted < y.enabled && EnabledSince(w, s, ops, k, y.enabled))
    && (r.ready ==> y.enabled < y.ready && ReadySince(w, s, ops, k, y.ready))
  }

  /** A call that does not commit `k` anew continues its story. */
  lemma StoryContinues(w: World, s: State, ops: seq<Op>, k: string, y: Story) returns (z: Story)
    requires ops != [] && k in Run(w, s, ops).records && k in Run(w, s, ops[..|ops| - 1]).records
    requires Tells(w, s, ops[..|ops| - 1], k, y)
    requires Opens(w, Run(w, s, ops[..|ops| - 1]), ops[|ops| - 1], k,
                   Run(w, s, ops[..|ops| - 1]).records[k], Run(w, s, ops).records[k])
    requires Run(w, s, ops[..|ops| - 1]).records[k].Gated() && Run(w, s, ops).records[k].Gated()
    ensures Tells(w, s, ops, k, z)
  {
    hide Run, Step, Assigns, StateAt;
    hide SetTrusted, SetEnabled, HealthCheck, Key;
    StateAtPrefix(w, s, ops);
    var r, last := Run(w, s, ops[..|ops| - 1]).records[k], |ops| - 1;
    z := y.(trusted := if r.trusted then y.trusted else last,
            enabled := if r.enabled then y.enabled else last,
            ready := if r.ready then y.ready else last);
  }

  lemma StoryBegins(w: World, s: State, ops: seq<Op>, k: string) returns (z: Story)
    requires ops != [] && k in Run(w, s, ops).records
    requires Assigns(w, Run(w, s, ops[..|ops| - 1]), ops[|ops| - 1], k) && JustCommitted(Run(w, s, ops).records[k])
    ensures Tells(w, s, ops, k, z)
  {
    hide Run, Step, Assigns, StateAt;
    StateAtPrefix(w, s, ops);
    z := Story(|ops| - 1, 0, 0, 0);
  }

  lemma {:induction false} EveryRecordHasAStory(w: World, s: State, ops: seq<Op>, k: string) returns (y: Story)
    requires Initial(s) && k in Run(w, s, ops).records
    ensures Tells(w, s, ops, k, y)
    decreases |ops|
  {
    hide Step, Assigns, Opens, Tells;
    var shorter := ops[..|ops| - 1];
    RunIsDurable(w, s, shorter);
    StepEffect(w, Run(w, s, shorter), ops[|ops| - 1], k);
    if Assigns(w, Run(w, s, shorter), ops[|ops| - 1], k) {
      y := StoryBegins(w, s, ops, k);
    } else {
      RunIsGated(w, s, shorter);
      RunIsGated(w, s, ops);
      y := EveryRecordHasAStory(w, s, shorter, k);
      y := StoryContinues(w, s, ops, k, y);
    }
  }

  /**
   A ready record got there step by step under its own generation: after the install or rollback that assigned the
   generation a trust succeeded, after it an enable, after it a health check, and each gate stayed open from then on.
   */
  lemma ReadyWasEarned(w: World, s: State, ops: seq<Op>, k: string)
    requires Initial(s) && k in Run(w, s, ops).records && Run(w, s, ops).records[k].ready
    ensures exists a, i, j, l | 0 <= a < i < j < l < |ops| ::
              && CommittedSince(w, s, ops, k, a) && TrustedSince(w, s, ops, k, i)
              && EnabledSince(w, s, ops, k, j) && ReadySince(w, s, ops, k, l)
  {
    hide CommittedSince, TrustedSince, EnabledSince, ReadySince;
    RunIsGated(w, s, ops);
    var y := EveryRecordHasAStory(w, s, ops, k);
    assert 0 <= y.committed && y.ready < |ops| by { StoryInRange(w, s, ops, k, y); }
  }

  lemma StoryInRange(w: World, s: State, ops: seq<Op>, k: string, y: Story)
    requires CommittedSince(w, s, ops, k, y.committed) && ReadySince(w, s, ops, k, y.ready)
    ensures 0 <= y.committed && y.ready < |ops|
  {
  }
}
