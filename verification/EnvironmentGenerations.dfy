/**
 Generations: what the number assigned by a committed install or rollback identifies, and that a manager started anew
 from the saved records is the manager that saved them.
 */
module EnvironmentGenerations {
  import opened Common
  import opened Manifests
  import opened Environment
  import opened EnvironmentAgreement
  import opened EnvironmentHistory

  // ----- The records a commit writes -----

  /** The new record of a commit replaces the one under its own key and takes the next generation of its environment. */
  ghost predicate Numbers(s: State, t: State, k: string) {
    && k in t.records && t.records == s.records[k := t.records[k]]
    && t.records[k].generation == NextGeneration(s.records, t.records[k].environmentID)
    && Keyed(t, k)
  }

  lemma InstallNumbers(w: World, s: State, op: Op, k: string)
    requires op.OpInstall? && Assigns(w, s, op, k)
    ensures Numbers(s, Step(w, s, op), k)
  {
    hide Install, Key, ValidateTree, InstallRefusal, NextGeneration, InstalledTrees, Committed, Root, ValidIdentity;
    var m := ValidateTree(w, s.trust, op.source).value;
    CommittedInstall(w, s, op.source, op.staged, op.installFaults, op.now, m);
    ValidatedIdentity(w, s.trust, op.source);
  }

  lemma RollbackNumbers(w: World, s: State, op: Op, k: string)
    requires op.OpRollback? && Assigns(w, s, op, k)
    ensures Numbers(s, Step(w, s, op), k)
  {
    hide Key, ValidateAt, NextGeneration, RolledBackTrees, Root, ValidIdentity, EqualFold, Exists;
  }

  lemma CommitNumbers(w: World, s: State, op: Op, k: string)
    requires Assigns(w, s, op, k)
    ensures Numbers(s, Step(w, s, op), k)
  {
    hide Step, Numbers;
    if op.OpInstall? { InstallNumbers(w, s, op, k); } else { RollbackNumbers(w, s, op, k); }
  }

  /** The next generation is above every live generation of the environment unless the highest one is the largest word. */
  lemma CommitIsAboveAllLive(w: World, s: State, op: Op, k: string)
    requires Assigns(w, s, op, k)
    ensures k in Step(w, s, op).records
    ensures var r := Step(w, s, op).records[k];
      (forall j | j in s.records && s.records[j].environmentID == r.environmentID :: s.records[j].generation < r.generation)
      <==> !exists j :: j in s.records && s.records[j].environmentID == r.environmentID && s.records[j].generation == MAX_UINT64
  {
    hide Step, Assigns, Keyed;
    CommitNumbers(w, s, op, k);
  }

  // ----- Invariants of every run -----

  /** Records sit under the key of their own identity. */
  ghost predicate AllKeyed(s: State) {
    forall k | k in s.records :: Keyed(s, k)
  }

  lemma StepKeepsKeyed(w: World, s: State, op: Op)
    requires Durable(s) && AllKeyed(s)
    ensures AllKeyed(Step(w, s, op))
  {
    hide Step, Assigns, ValidIdentity, Key, GrantsTrust, GrantsEnable, PassesHealth;
    forall k | k in Step(w, s, op).records ensures Keyed(Step(w, s, op), k) {
      StepEffect(w, s, op, k);
      if Assigns(w, s, op, k) { CommitNumbers(w, s, op, k); } else { assert Keyed(s, k); }
    }
  }

  lemma {:induction false} RunIsKeyed(w: World, s: State, ops: seq<Op>)
    requires Initial(s)
    ensures AllKeyed(Run(w, s, ops))
    decreases |ops|
  {
    hide Step, Keyed;
    if ops != [] {
      RunIsKeyed(w, s, ops[..|ops| - 1]);
      RunIsDurable(w, s, ops[..|ops| - 1]);
      StepKeepsKeyed(w, Run(w, s, ops[..|ops| - 1]), ops[|ops| - 1]);
    }
  }

  /** No live generation is at the end of its range, so that the next one does not wrap around. */
  ghost predicate Unwrapped(s: State) {
    forall k | k in s.records :: s.records[k].generation < MAX_UINT64
  }

  ghost predicate NeverWraps(w: World, s: State, ops: seq<Op>) {
    forall n | 0 <= n < |ops| :: Unwrapped(StateAt(w, s, ops, n))
  }

  lemma NeverWrapsBefore(w: World, s: State, ops: seq<Op>)
    requires ops != [] && NeverWraps(w, s, ops)
    ensures NeverWraps(w, s, ops[..|ops| - 1]) && Unwrapped(Run(w, s, ops[..|ops| - 1]))
  {
    hide Run, Unwrapped, StateAt;
    var shorter := ops[..|ops| - 1];
    StateAtPrefix(w, s, ops);
    forall n | 0 <= n < |shorter| ensures Unwrapped(StateAt(w, s, shorter, n)) {
      assert Unwrapped(StateAt(w, s, ops, n));
    }
    assert Unwrapped(StateAt(w, s, ops, |ops| - 1));
  }

  lemma {:induction false} GenerationsCountCalls(w: World, s: State, ops: seq<Op>, k: string)
    requires Initial(s) && |ops| <= MAX_UINT64 && k in Run(w, s, ops).records
    ensures 1 <= Run(w, s, ops).records[k].generation <= |ops|
    decreases |ops|
  {
    hide Step, Assigns, GrantsTrust, GrantsEnable, PassesHealth, Keyed, TopGeneration;
    var shorter, op := ops[..|ops| - 1], ops[|ops| - 1];
    RunIsDurable(w, s, shorter);
    StepEffect(w, Run(w, s, shorter), op, k);
    if Assigns(w, Run(w, s, shorter), op, k) {
      CommitNumbers(w, Run(w, s, shorter), op, k);
      forall j | j in Run(w, s, shorter).records ensures Run(w, s, shorter).records[j].generation <= |ops| - 1 {
        GenerationsCountCalls(w, s, shorter, j);
      }
    } else {
      GenerationsCountCalls(w, s, shorter, k);
    }
  }

  /** It takes 2^64 - 1 calls to wrap a generation. */
  lemma ShortRunsNeverWrap(w: World, s: State, ops: seq<Op>)
    requires Initial(s) && |ops| <= MAX_UINT64
    ensures NeverWraps(w, s, ops)
  {
    hide Run;
    forall n | 0 <= n < |ops| ensures Unwrapped(StateAt(w, s, ops, n)) {
      forall k | k in StateAt(w, s, ops, n).records ensures StateAt(w, s, ops, n).records[k].generation < MAX_UINT64 {
        GenerationsCountCalls(w, s, ops[..n], k);
      }
    }
  }

  /** No two live records of an environment share a generation. */
  ghost predicate DistinctGenerations(s: State) {
    forall j, k | j in s.records && k in s.records && j != k && s.records[j].environmentID == s.records[k].environmentID ::
      s.records[j].generation != s.records[k].generation
  }

  lemma StepKeepsDistinct(w: World, s: State, op: Op)
    requires Durable(s) && DistinctGenerations(s) && Unwrapped(s)
    ensures DistinctGenerations(Step(w, s, op))
  {
    hide Step, Assigns, GrantsTrust, GrantsEnable, PassesHealth, Keyed, TopGeneration;
    var t := Step(w, s, op);
    forall j, k | j in t.records && k in t.records && j != k && t.records[j].environmentID == t.records[k].environmentID
      ensures t.records[j].generation != t.records[k].generation
    {
      StepEffect(w, s, op, j);
      StepEffect(w, s, op, k);
      if Assigns(w, s, op, j) { CommitNumbers(w, s, op, j); }
      if Assigns(w, s, op, k) { CommitNumbers(w, s, op, k); }
    }
  }

  /** Live generations of an environment are pairwise distinct in every reachable state. */
  lemma {:induction false} RunKeepsGenerationsDistinct(w: World, s: State, ops: seq<Op>)
    requires Initial(s) && NeverWraps(w, s, ops)
    ensures DistinctGenerations(Run(w, s, ops))
    decreases |ops|
  {
    hide Step, NeverWraps, DistinctGenerations, Unwrapped;
    if ops != [] {
      NeverWrapsBefore(w, s, ops);
      RunKeepsGenerationsDistinct(w, s, ops[..|ops| - 1]);
      RunIsDurable(w, s, ops[..|ops| - 1]);
      StepKeepsDistinct(w, Run(w, s, ops[..|ops| - 1]), ops[|ops| - 1]);
    } else {
      assert DistinctGenerations(s) by { EmptyIsDistinct(s); }
    }
  }

  lemma EmptyIsDistinct(s: State)
    requires s.records == map[]
    ensures DistinctGenerations(s)
  {
  }

  // ----- Generations as names of commits -----

  lemma OnlyRemoveDropsKeys(w: World, s: State, op: Op)
    requires Durable(s) && !op.OpRemove?
    ensures s.records.Keys <= Step(w, s, op).records.Keys
  {
    hide Install, Rollback, Verify, SetTrusted, SetEnabled, HealthCheck, Resolve, AddTrustedSigner, Committed, ValidateTree;
    hide NextGeneration, Keyed, Key;
    match op {
      case OpInstall(source, staged, f, now) =>
        if Committed(w, s, source, staged, f, now) {
          CommittedHasManifest(w, s, source, staged, f, now);
          var m := ValidateTree(w, s.trust, source).value;
          InstallNumbers(w, s, op, Key(m.environmentID, m.version));
        } else {
          FailedInstallKeepsRecords(w, s, source, staged, f, now);
        }
      case OpRollback(id, version, f, now) => RollbackKeepsKeys(w, s, id, version, f, now);
      case OpAddSigner(signer, key) => AddSignerEffect(s, signer, key);
      case OpRestart =>
      case Tamper(_) =>
      case _ => GateOpsOnlyGate(w, s, op);
    }
  }

  lemma RollbackKeepsKeys(w: World, s: State, id: string, version: string, f: RollbackFaults, now: Instant)
    ensures s.records.Keys <= Rollback(w, s, id, version, f, now).0.records.Keys
  {
    hide Key, ValidateAt, NextGeneration, RolledBackTrees, Root, RollbackRefusal;
  }

  /** Short of a removal, the record under a key stays with its environment and its generation never falls. */
  lemma StepOnlyRaises(w: World, s: State, op: Op, k: string)
    requires Durable(s) && AllKeyed(s) && Unwrapped(s) && !op.OpRemove? && k in s.records
    ensures k in Step(w, s, op).records
    ensures Step(w, s, op).records[k].environmentID == s.records[k].environmentID
    ensures Step(w, s, op).records[k].generation >= s.records[k].generation
  {
    hide Step, Assigns, GrantsTrust, GrantsEnable, PassesHealth, ValidIdentity, TopGeneration;
    OnlyRemoveDropsKeys(w, s, op);
    StepEffect(w, s, op, k);
    if Assigns(w, s, op, k) {
      var r, r' := s.records[k], Step(w, s, op).records[k];
      CommitNumbers(w, s, op, k);
      assert Keyed(s, k);
      KeyIsInjective(r.environmentID, r.version, r'.environmentID, r'.version);
    }
  }

  ghost predicate NoRemove(ops: seq<Op>) {
    forall n | 0 <= n < |ops| :: !ops[n].OpRemove?
  }

  /** The record that call `a` committed under `k`. */
  ghost function CommittedRecord(w: World, s: State, ops: seq<Op>, a: nat, k: string): Option<Record>
    requires a < |ops|
  {
    var t := Step(w, StateAt(w, s, ops, a), ops[a]);
    if Assigns(w, StateAt(w, s, ops, a), ops[a], k) && k in t.records then Some(t.records[k]) else None
  }

  lemma StateAfter(w: World, s: State, ops: seq<Op>, n: nat)
    requires n < |ops|
    ensures StateAt(w, s, ops, n + 1) == Step(w, StateAt(w, s, ops, n), ops[n])
  {
    hide Step;
    assert ops[..n + 1][..n] == ops[..n];
  }

  lemma ReachableAt(w: World, s: State, ops: seq<Op>, n: nat)
    requires Initial(s) && n <= |ops|
    ensures Durable(StateAt(w, s, ops, n)) && AllKeyed(StateAt(w, s, ops, n))
  {
    RunIsDurable(w, s, ops[..n]);
    RunIsKeyed(w, s, ops[..n]);
  }

  lemma {:induction false} RunOnlyRaises(w: World, s: State, ops: seq<Op>, a: nat, b: nat, k: string)
    requires Initial(s) && NeverWraps(w, s, ops) && NoRemove(ops) && a <= b <= |ops| && k in StateAt(w, s, ops, a).records
    ensures var r := StateAt(w, s, ops, a).records[k];
      && k in StateAt(w, s, ops, b).records
      && StateAt(w, s, ops, b).records[k].environmentID == r.environmentID
      && StateAt(w, s, ops, b).records[k].generation >= r.generation
    decreases b - a
  {
    hide Step, Keyed, StateAt, Unwrapped, Initial;
    if a < b {
      RunOnlyRaises(w, s, ops, a, b - 1, k);
      ReachableAt(w, s, ops, b - 1);
      assert Unwrapped(StateAt(w, s, ops, b - 1));
      StateAfter(w, s, ops, b - 1);
      StepOnlyRaises(w, StateAt(w, s, ops, b - 1), ops[b - 1], k);
    }
  }

  /** In a run without removals a later commit in the same environment has a higher generation: a generation names one commit. */
  lemma GenerationNamesOneCommit(w: World, s: State, ops: seq<Op>, a: nat, b: nat, j: string, k: string)
    requires Initial(s) && NeverWraps(w, s, ops) && NoRemove(ops) && a < b < |ops|
    requires CommittedRecord(w, s, ops, a, j).Some? && CommittedRecord(w, s, ops, b, k).Some?
    requires CommittedRecord(w, s, ops, a, j).value.environmentID == CommittedRecord(w, s, ops, b, k).value.environmentID
    ensures CommittedRecord(w, s, ops, a, j).value.generation < CommittedRecord(w, s, ops, b, k).value.generation
  {
    hide Step, Keyed, StateAt, Initial, Assigns, TopGeneration;
    StateAfter(w, s, ops, a);
    RunOnlyRaises(w, s, ops, a + 1, b, j);
    assert Unwrapped(StateAt(w, s, ops, b));
    CommitNumbers(w, StateAt(w, s, ops, b), ops[b], k);
  }

  /**
   The next commit after a removal takes a generation above the one the removal retired if and only if a younger record of
   the environment is still live.
   */
  lemma NextCommitAfterRemovalIsAboveIff(w: World, s: State, id: string, version: string, f: RemoveFaults)
    requires AllKeyed(s) && Unwrapped(s) && Key(id, version) in s.records && ValidIdentity(id, version)
    requires Key(id, version) !in Remove(w, s, id, version, f).0.records && s.records[Key(id, version)].generation != 0
    ensures s.records[Key(id, version)].environmentID == id
    ensures NextGeneration(Remove(w, s, id, version, f).0.records, id) > s.records[Key(id, version)].generation
      <==> exists j :: j in s.records && j != Key(id, version) && s.records[j].environmentID == id
                       && s.records[j].generation >= s.records[Key(id, version)].generation
  {
    hide RemoveRefusal, Key, Move, Root, TopGeneration, ValidIdentity;
    var k, t := Key(id, version), Remove(w, s, id, version, f).0;
    assert Keyed(s, k);
    KeyIsInjective(id, version, s.records[k].environmentID, s.records[k].version);
    assert t.records == s.records - {k};
    NextExceeds(t.records, id, s.records[k].generation);
    assert forall j :: j in t.records <==> j in s.records && j != k;
  }

  lemma NextExceeds(records: map<string, Record>, id: string, g: Uint64)
    requires g != 0 && forall j | j in records :: records[j].generation < MAX_UINT64
    ensures NextGeneration(records, id) > g
      <==> exists j :: j in records && records[j].environmentID == id && records[j].generation >= g
  {
    var n := TopGeneration(records, id);
    assert IsTopGeneration(records, id, n);
    if n > 0 {
      var j :| j in records && records[j].environmentID == id && records[j].generation == n;
    }
  }

  // ----- When a generation is assigned again -----

  /** Some live record of the environment has generation `g` or a higher one. */
  ghost predicate Reaches(s: State, id: string, g: int) {
    exists k :: k in s.records && s.records[k].environmentID == id && s.records[k].generation >= g
  }

  /** Call `n` commits a record of environment `id` with generation `g`. */
  ghost predicate AssignsGeneration(w: World, s: State, ops: seq<Op>, n: int, id: string, g: int) {
    && 0 <= n < |ops|
    && exists k :: CommittedRecord(w, s, ops, n, k).Some?
                   && CommittedRecord(w, s, ops, n, k).value.environmentID == id
                   && CommittedRecord(w, s, ops, n, k).value.generation == g
  }

  /** A commit takes generation `g` or a lower one exactly when no live record of the environment reaches `g`. */
  lemma CommitReusesIff(w: World, s: State, op: Op, k: string, g: int)
    requires Assigns(w, s, op, k) && 1 <= g <= MAX_UINT64
    ensures k in Step(w, s, op).records
    ensures var r := Step(w, s, op).records[k];
      && (1 <= r.generation <= g <==> !Reaches(s, r.environmentID, g))
      && (r.generation != 0 ==> Reaches(Step(w, s, op), r.environmentID, r.generation))
  {
    hide Step, Assigns, Keyed, TopGeneration;
    CommitNumbers(w, s, op, k);
    var r := Step(w, s, op).records[k];
    var n := TopGeneration(s.records, r.environmentID);
    assert IsTopGeneration(s.records, r.environmentID, n);
    if n > 0 {
      var j :| j in s.records && s.records[j].environmentID == r.environmentID && s.records[j].generation == n;
    }
  }

  /** The highest generation of an environment rises past `g` only by a commit that takes exactly `g`. */
  lemma RisingTakesEveryStep(w: World, s: State, ops: seq<Op>, n: nat, id: string, g: int)
    requires Initial(s) && n < |ops| && 1 <= g <= MAX_UINT64
    requires !Reaches(StateAt(w, s, ops, n), id, g) && Reaches(StateAt(w, s, ops, n + 1), id, g)
    ensures AssignsGeneration(w, s, ops, n, id, g)
  {
    hide Step, Assigns, StateAt, Initial, GrantsTrust, GrantsEnable, PassesHealth, TopGeneration, AllKeyed;
    var before, after := StateAt(w, s, ops, n), StateAt(w, s, ops, n + 1);
    StateAfter(w, s, ops, n);
    ReachableAt(w, s, ops, n);
    var k :| k in after.records && after.records[k].environmentID == id && after.records[k].generation >= g;
    StepEffect(w, before, ops[n], k);
    if Assigns(w, before, ops[n], k) {
      CommitReusesIff(w, before, ops[n], k, g);
      CommitNumbers(w, before, ops[n], k);
      assert CommittedRecord(w, s, ops, n, k) == Some(after.records[k]);
    } else {
      assert false;
    }
  }

  lemma {:induction false} RisesSomewhere(w: World, s: State, ops: seq<Op>, low: nat, high: nat, id: string, g: int)
    returns (n: nat)
    requires low < high <= |ops|
    requires !Reaches(StateAt(w, s, ops, low), id, g) && Reaches(StateAt(w, s, ops, high), id, g)
    ensures low <= n < high && !Reaches(StateAt(w, s, ops, n), id, g) && Reaches(StateAt(w, s, ops, n + 1), id, g)
    decreases high - low
  {
    hide StateAt, Reaches;
    if Reaches(StateAt(w, s, ops, high - 1), id, g) { n := RisesSomewhere(w, s, ops, low, high - 1, id, g); } else { n := high - 1; }
  }

  /** The environment's live generations are all below `g` at some point from `a` on, and reach `g` at a later one. */
  ghost predicate FallsAndReturns(w: World, s: State, ops: seq<Op>, a: int, id: string, g: int) {
    exists low, high | 0 <= a <= low < high <= |ops| ::
      !Reaches(StateAt(w, s, ops, low), id, g) && Reaches(StateAt(w, s, ops, high), id, g)
  }

  /**
   From any point of any run on, a generation of an environment is assigned again if and only if, from there on, every live
   record of the environment is at some time below it and one reaches it later.
   */
  lemma ReassignedIffTopFallsAndReturns(w: World, s: State, ops: seq<Op>, a: nat, id: string, g: int)
    requires Initial(s) && a <= |ops| && 1 <= g <= MAX_UINT64
    ensures (exists n | a <= n < |ops| :: AssignsGeneration(w, s, ops, n, id, g)) <==> FallsAndReturns(w, s, ops, a, id, g)
  {
    hide Step, Assigns, StateAt, Initial, Reaches;
    if n :| a <= n < |ops| && AssignsGeneration(w, s, ops, n, id, g) {
      var k :| CommittedRecord(w, s, ops, n, k).Some? && CommittedRecord(w, s, ops, n, k).value.environmentID == id
               && CommittedRecord(w, s, ops, n, k).value.generation == g;
      CommitReusesIff(w, StateAt(w, s, ops, n), ops[n], k, g);
      StateAfter(w, s, ops, n);
      assert 0 <= a <= n < n + 1 <= |ops|;
    }
    if FallsAndReturns(w, s, ops, a, id, g) {
      var low, high :| 0 <= a <= low < high <= |ops|
                       && !Reaches(StateAt(w, s, ops, low), id, g) && Reaches(StateAt(w, s, ops, high), id, g);
      var n := RisesSomewhere(w, s, ops, low, high, id, g);
      RisingTakesEveryStep(w, s, ops, n, id, g);
    }
  }

  /** As long as some live record reaches a retired generation, it is not assigned again. */
  lemma RetiredStaysRetired(w: World, s: State, ops: seq<Op>, a: nat, id: string, g: int)
    requires Initial(s) && a <= |ops| && 1 <= g <= MAX_UINT64
    requires forall n | a <= n < |ops| :: Reaches(StateAt(w, s, ops, n), id, g)
    ensures forall n | a <= n < |ops| :: !AssignsGeneration(w, s, ops, n, id, g)
  {
    hide StateAt, Reaches, AssignsGeneration, Initial;
    ReassignedIffTopFallsAndReturns(w, s, ops, a, id, g);
  }

  /** Only a removal can bring the live generations of an environment below one they reached. */
  lemma OnlyRemovalsFall(w: World, s: State, ops: seq<Op>, n: nat, id: string, g: int)
    requires Initial(s) && NeverWraps(w, s, ops) && n < |ops|
    requires Reaches(StateAt(w, s, ops, n), id, g) && !Reaches(StateAt(w, s, ops, n + 1), id, g)
    ensures ops[n].OpRemove?
  {
    hide Step, StateAt, Initial, Keyed, Unwrapped;
    StateAfter(w, s, ops, n);
    ReachableAt(w, s, ops, n);
    assert Unwrapped(StateAt(w, s, ops, n));
    if !ops[n].OpRemove? {
      var before := StateAt(w, s, ops, n);
      var k :| k in before.records && before.records[k].environmentID == id && before.records[k].generation >= g;
      StepOnlyRaises(w, before, ops[n], k);
      assert false;
    }
  }

  // ----- Restart -----

  /** What a committed record takes over from a validated manifest. */
  predicate Certified(r: Record) {
    ValidToken(r.signer, 256) && ValidSHA256(r.manifestDigest) && UniqueTokens(r.capabilities, 128)
  }

  lemma ValidatedIsCertified(w: World, trust: map<string, PublicKey>, tree: Tree, generation: Uint64, now: Instant)
    requires Sound(w.crypto) && ValidateTree(w, trust, tree).Some?
    ensures Certified(NewRecord(ValidateTree(w, trust, tree).value, generation, now))
  {
    hide ValidEnvironmentID, ValidEnvironmentVersion, VerifySignature, UniqueTokens, ResourcesOk, EntrypointsOk, ValidToken;
    hide Canonical, ProbesOk;
    assert Sound(w.crypto) ==> forall text :: |w.crypto.hash(text)| == 64;
  }

  lemma CommitCertifies(w: World, s: State, op: Op, k: string)
    requires Sound(w.crypto) && Assigns(w, s, op, k) && k in Step(w, s, op).records
    ensures Certified(Step(w, s, op).records[k])
  {
    hide Install, Key, ValidateTree, InstallRefusal, NextGeneration, InstalledTrees, Committed, Root, ValidIdentity;
    hide EqualFold, Exists, RolledBackTrees, Certified, Sound;
    if op.OpInstall? {
      var m := ValidateTree(w, s.trust, op.source).value;
      CommittedInstall(w, s, op.source, op.staged, op.installFaults, op.now, m);
      ValidatedIsCertified(w, s.trust, op.source, NextGeneration(s.records, m.environmentID), op.now);
    } else {
      var p := RollbackPath(Root(op.id, op.version));
      ValidatedIsCertified(w, s.trust, s.trees[p], NextGeneration(s.records, op.id), op.now);
    }
  }

  ghost predicate AllLoadable(s: State) {
    forall k | k in s.records :: Certified(s.records[k]) && s.records[k].generation != 0 && s.records[k].updatedAt != 0
  }

  lemma StepKeepsLoadable(w: World, s: State, op: Op)
    requires Sound(w.crypto) && Durable(s) && AllLoadable(s) && Unwrapped(s) && Clocked(op)
    ensures AllLoadable(Step(w, s, op))
  {
    hide Step, Assigns, GrantsTrust, GrantsEnable, PassesHealth, Keyed, TopGeneration, ValidToken, ValidSHA256, UniqueTokens;
    hide Sound;
    forall k | k in Step(w, s, op).records
      ensures var r := Step(w, s, op).records[k]; Certified(r) && r.generation != 0 && r.updatedAt != 0
    {
      StepEffect(w, s, op, k);
      if Assigns(w, s, op, k) {
        CommitNumbers(w, s, op, k);
        CommitCertifies(w, s, op, k);
      }
    }
  }

  ghost predicate AllClocked(ops: seq<Op>) {
    forall n | 0 <= n < |ops| :: Clocked(ops[n])
  }

  lemma {:induction false} RunIsLoadable(w: World, s: State, ops: seq<Op>)
    requires Sound(w.crypto) && Initial(s) && NeverWraps(w, s, ops) && AllClocked(ops)
    ensures AllLoadable(Run(w, s, ops))
    decreases |ops|
  {
    hide Step, NeverWraps, Unwrapped, Sound, Certified, Clocked;
    if ops != [] {
      NeverWrapsBefore(w, s, ops);
      RunIsLoadable(w, s, ops[..|ops| - 1]);
      RunIsDurable(w, s, ops[..|ops| - 1]);
      StepKeepsLoadable(w, Run(w, s, ops[..|ops| - 1]), ops[|ops| - 1]);
    }
  }

  /** After every run a new process accepts the saved records and is in the very state the old one was in. */
  lemma RestartIsTransparent(w: World, s: State, ops: seq<Op>)
    requires Sound(w.crypto) && Initial(s) && NeverWraps(w, s, ops) && AllClocked(ops)
    ensures Restart(Run(w, s, ops)) == (Run(w, s, ops), None)
  {
    hide Run, Step, NeverWraps, Sound, Clocked, ValidToken, ValidSHA256, UniqueTokens, ValidEnvironmentID, Key;
    hide ValidEnvironmentVersion;
    RunIsLoadable(w, s, ops);
    RunIsDurable(w, s, ops);
    RunIsKeyed(w, s, ops);
    RunIsGated(w, s, ops);
    var t := Run(w, s, ops);
    forall k | k in t.saved ensures t.saved[k].Valid() && k == Key(t.saved[k].environmentID, t.saved[k].version) {
      assert Keyed(t, k);
    }
  }
}
