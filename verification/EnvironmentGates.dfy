/**
 The gates of the environment manager, from the outside: which call opens or closes which gate, field by field; that a
 package whose gate was closed is not resolved again before the calls that open it, in order; and that a sealed package
 gets all the way from an empty installation to being resolved.
 */
module EnvironmentGates {
  import opened Common
  import opened Manifests
  import opened Environment
  import opened EnvironmentAgreement
  import opened EnvironmentHistory
  import opened EnvironmentCalls

  // ----- One call -----

  /** `r'` is `r` but for its gates and its date. */
  ghost predicate SameButGates(r: Record, r': Record) {
    && r'.environmentID == r.environmentID && r'.version == r.version && r'.capabilities == r.capabilities
    && r'.manifestDigest == r.manifestDigest && r'.signer == r.signer && r'.generation == r.generation
  }

  ghost predicate AllClosed(r: Record) {
    !r.verified && !r.trusted && !r.enabled && !r.healthy && !r.ready
  }

  /** Only the record under `k` changed, from `r` to `r'`, and that is saved. */
  ghost predicate Regated(s: State, t: State, k: string, r: Record, r': Record) {
    && t.trees == s.trees && t.trust == s.trust
    && k in s.records && s.records[k] == r
    && t.records == s.records[k := r'] && t.saved == t.records
    && SameButGates(r, r')
  }

  /** All gates of `k` were closed, its date kept. */
  ghost predicate Shut(s: State, t: State, k: string)
    requires k in s.records
  {
    && k in t.records && Regated(s, t, k, s.records[k], t.records[k]) && AllClosed(t.records[k])
    && t.records[k].installed == s.records[k].installed
  }

  ghost predicate IntactAt(w: World, s: State, id: string, version: string)
    requires Key(id, version) in s.records
  {
    ValidIdentity(id, version) && Intact(w, s, id, version, s.records[Key(id, version)])
  }

  lemma CurrentIff(w: World, s: State, id: string, version: string)
    requires Key(id, version) in s.records
    ensures Current(w, s, id, version) <==> IntactAt(w, s, id, version)
  {
    hide Key, Intact, ValidIdentity, Current;
    IntactIff(w, s, id, version);
  }

  lemma IntactAtStands(w: World, s: State, id: string, version: string)
    requires Key(id, version) in s.records
    ensures IntactAt(w, s, id, version) ==> Stands(s.trees, Root(id, version))
  {
    hide Key, Intact, ValidIdentity, Root, Stands;
    if IntactAt(w, s, id, version) { IntactStands(w, s, id, version, s.records[Key(id, version)]); }
  }

  lemma RecommitIs(s: State, k: string, r: Record)
    requires k in s.records && SameButGates(s.records[k], r)
    ensures Regated(s, CommitRecord(s, k, r, false), k, s.records[k], r) && CommitRecord(s, k, r, true) == s
    ensures k in CommitRecord(s, k, r, false).records && CommitRecord(s, k, r, false).records[k] == r
  {
  }

  /**
   A failed save changes nothing. A missing tree takes the package off the record; a changed one closes all gates. On an
   intact tree a failed probe leaves the record neither healthy nor ready; a passed one leaves it healthy, and ready
   exactly when it is installed, trusted and enabled.
   */
  lemma HealthOutcome(w: World, s: State, id: string, version: string, probe: Probe, saveFails: bool, now: Instant)
    ensures var (t, outcome) := HealthCheck(w, s, id, version, probe, saveFails, now);
      var k := Key(id, version);
      if k !in s.records then t == s && outcome == Err(NotInstalled)
      else if !s.records[k].verified then t == s && outcome == Err(NotVerified)
      else if !ValidIdentity(id, version) then t == s && outcome == Err(InvalidPath)
      else if saveFails && !(IntactAt(w, s, id, version) && probe == Interrupted) then t == s && outcome == Err(Transaction)
      else if !Stands(s.trees, Root(id, version)) then
        && outcome == Err(NotInstalled) && k in t.records && Regated(s, t, k, s.records[k], t.records[k])
        && AllClosed(t.records[k]) && !t.records[k].installed
      else if !IntactAt(w, s, id, version) then outcome == Err(NotVerified) && Shut(s, t, k)
      else if probe == Interrupted then t == s && outcome == Err(Cancelled)
      else
        && k in t.records && Regated(s, t, k, s.records[k], t.records[k])
        && var r, r' := s.records[k], t.records[k];
        && r'.installed == r.installed && r'.verified && r'.trusted == r.trusted && r'.enabled == r.enabled && r'.updatedAt == now
        && (r'.healthy <==> probe == Passed)
        && (r'.ready <==> probe == Passed && r.installed && r.trusted && r.enabled)
        && outcome == (if r'.ready then Ok(r') else if probe == Passed then Err(NotReady) else Err(NotHealthy))
  {
    hide Key, Root, Current, IntactAt, Stands, Exists, ValidIdentity, CommitRecord, Regated;
    var k := Key(id, version);
    StandsIff(s.trees, Root(id, version));
    if k in s.records {
      IntactAtStands(w, s, id, version);
      CurrentIff(w, s, id, version);
      var r := s.records[k];
      RecommitIs(s, k, r.Unverified().(installed := false, updatedAt := now));
      RecommitIs(s, k, r.Unverified());
      RecommitIs(s, k, r.(healthy := false, ready := false, updatedAt := now));
      RecommitIs(s, k, r.(healthy := true, ready := r.installed && r.verified && r.trusted && r.enabled, updatedAt := now));
    }
  }

  /** Verification of an intact tree opens the first gate and touches no other; of a changed one it closes them all. */
  lemma VerifyOutcome(w: World, s: State, id: string, version: string, saveFails: bool, now: Instant)
    ensures var (t, outcome) := Verify(w, s, id, version, saveFails, now);
      var k := Key(id, version);
      if k !in s.records || !s.records[k].installed then t == s && outcome == Err(NotInstalled)
      else if saveFails then t == s && outcome == Err(Transaction)
      else if !IntactAt(w, s, id, version) then outcome == Err(NotVerified) && Shut(s, t, k)
      else
        && k in t.records && Regated(s, t, k, s.records[k], t.records[k]) && outcome == Ok(t.records[k])
        && var r, r' := s.records[k], t.records[k];
        && r'.installed && r'.verified && r'.trusted == r.trusted && r'.enabled == r.enabled
        && r'.healthy == r.healthy && r'.ready == r.ready && r'.updatedAt == now
  {
    hide Key, Current, IntactAt, CommitRecord, Regated;
    var k := Key(id, version);
    if k in s.records {
      CurrentIff(w, s, id, version);
      RecommitIs(s, k, s.records[k].(verified := true, updatedAt := now));
      RecommitIs(s, k, s.records[k].Unverified().(updatedAt := now));
    }
  }

  /** Trust is granted on an intact tree of a known signer, touching no other gate; withdrawing it closes all gates behind it. */
  lemma TrustOutcome(w: World, s: State, id: string, version: string, on: bool, saveFails: bool, now: Instant)
    ensures var (t, outcome) := SetTrusted(w, s, id, version, on, saveFails, now);
      var k := Key(id, version);
      if k !in s.records then t == s && outcome == Err(NotInstalled)
      else if !s.records[k].verified then t == s && outcome == Err(NotVerified)
      else if IntactAt(w, s, id, version) && on && s.records[k].signer !in s.trust then t == s && outcome == Err(UntrustedSigner)
      else if saveFails then t == s && outcome == Err(Transaction)
      else if !IntactAt(w, s, id, version) then outcome == Err(NotVerified) && Shut(s, t, k)
      else
        && k in t.records && Regated(s, t, k, s.records[k], t.records[k]) && outcome == Ok(t.records[k])
        && var r, r' := s.records[k], t.records[k];
        && r'.installed == r.installed && r'.verified && r'.trusted == on && r'.enabled == (on && r.enabled)
        && r'.healthy == (on && r.healthy) && r'.ready == (on && r.ready) && r'.updatedAt == now
  {
    hide Key, Current, IntactAt, CommitRecord, Regated;
    var k := Key(id, version);
    if k in s.records {
      CurrentIff(w, s, id, version);
      var r := s.records[k];
      RecommitIs(s, k, r.Unverified());
      RecommitIs(s, k, r.(trusted := true, updatedAt := now));
      RecommitIs(s, k, r.(trusted := false, enabled := false, healthy := false, ready := false, updatedAt := now));
    }
  }

  /** Enabling needs a trusted record and an intact tree; disabling needs neither, and ends readiness but not health. */
  lemma EnableOutcome(w: World, s: State, id: string, version: string, on: bool, saveFails: bool, now: Instant)
    ensures var (t, outcome) := SetEnabled(w, s, id, version, on, saveFails, now);
      var k := Key(id, version);
      if k !in s.records then t == s && outcome == Err(NotInstalled)
      else if on && !s.records[k].trusted then t == s && outcome == Err(NotTrusted)
      else if saveFails then t == s && outcome == Err(Transaction)
      else if on && !IntactAt(w, s, id, version) then outcome == Err(NotVerified) && Shut(s, t, k)
      else
        && k in t.records && Regated(s, t, k, s.records[k], t.records[k]) && outcome == Ok(t.records[k])
        && var r, r' := s.records[k], t.records[k];
        && r'.installed == r.installed && r'.verified == r.verified && r'.trusted == r.trusted && r'.enabled == on
        && r'.healthy == r.healthy && r'.ready == (on && r.ready) && r'.updatedAt == now
  {
    hide Key, Current, IntactAt, CommitRecord, Regated;
    var k := Key(id, version);
    if k in s.records {
      CurrentIff(w, s, id, version);
      var r := s.records[k];
      RecommitIs(s, k, r.Unverified());
      RecommitIs(s, k, r.(enabled := true, updatedAt := now));
      RecommitIs(s, k, r.(enabled := false, ready := false, updatedAt := now));
    }
  }

  predicate Open(r: Record) {
    r.installed && r.verified && r.trusted && r.enabled && r.healthy && r.ready
  }

  /** The manifest declares an entry point of that name. */
  predicate Declares(m: Manifest, entry: string) {
    exists i | 0 <= i < |m.entrypoints| :: m.entrypoints[i].name == entry
  }

  /**
   Resolving yields `m` exactly when all gates are open, `m` is the manifest of the intact active tree, and `m` declares the
   entry point. With all gates open and a changed tree it closes them all, if it can save; otherwise it changes nothing.
   */
  lemma ResolveOutcome(w: World, s: State, id: string, version: string, entry: string, saveFails: bool, m: Manifest)
    ensures var (t, outcome) := Resolve(w, s, id, version, entry, saveFails);
      var k := Key(id, version);
      && (outcome == Ok(m) <==>
            && k in s.records && Open(s.records[k]) && ValidIdentity(id, version)
            && HoldsPackage(w, s, Root(id, version), m) && Describes(s.records[k], m) && Declares(m, entry))
      && if k in s.records && Open(s.records[k]) && !IntactAt(w, s, id, version) && !saveFails
         then outcome == Err(NotVerified) && Shut(s, t, k) else t == s
  {
    hide Key, Root, Current, IntactAt, CommitRecord, Regated, ValidateAt, HoldsPackage, Describes, ValidIdentity, Declares;
    var k := Key(id, version);
    if k in s.records {
      CurrentIff(w, s, id, version);
      RecommitIs(s, k, s.records[k].Unverified());
      ValidatesAtIff(w, s, Root(id, version), m);
      CurrentDescribes(w, s, id, version, m);
      DeclaresIff(w, s, Root(id, version), m, entry);
    }
  }

  lemma CurrentDescribes(w: World, s: State, id: string, version: string, m: Manifest)
    requires Key(id, version) in s.records
    ensures Current(w, s, id, version) ==> ValidateAt(w, s, Root(id, version)).Some?
    ensures ValidateAt(w, s, Root(id, version)) == Some(m) ==>
              (Current(w, s, id, version) <==> ValidIdentity(id, version) && Describes(s.records[Key(id, version)], m))
  {
    hide Key, Root, ValidateAt, ValidIdentity, EqualFold;
  }

  lemma DeclaresIff(w: World, s: State, p: Path, m: Manifest, entry: string)
    ensures HoldsPackage(w, s, p, m) ==>
              (Declares(m, entry) <==> exists e | e in m.entrypoints :: e.name == entry && e.path != "")
  {
    hide VerifyDigest, VerifySignature, ResourcesOk, UniqueTokens, ValidEnvironmentID, ValidEnvironmentVersion, ValidToken;
    hide ValidPathParts, ContainsAny, ProbesOk, Below;
    if HoldsPackage(w, s, p, m) {
      assert forall e | e in m.entrypoints :: EntrypointOk(e) && !Blank(e.path);
    }
  }

  // ----- Whole runs -----

  /** Call `c` passed the health check of `k`, after call `b` enabled it, after call `a` trusted it. */
  ghost predicate OpenedBy(w: World, s: State, ops: seq<Op>, k: string, a: nat, b: nat, c: nat) {
    && a < b < c < |ops|
    && GrantsTrust(w, StateAt(w, s, ops, a), ops[a], k) && GrantsEnable(w, StateAt(w, s, ops, b), ops[b], k)
    && PassesHealth(w, StateAt(w, s, ops, c), ops[c], k)
  }

  /** Where the open gates of a package were last opened: after every point of the run at which they were closed. */
  lemma ReopenedAfter(w: World, s: State, ops: seq<Op>, i: nat, k: string) returns (a: nat, b: nat, c: nat)
    requires Initial(s) && i < |ops| && k in Run(w, s, ops).records && Open(Run(w, s, ops).records[k])
    requires k in StateAt(w, s, ops, i + 1).records
    ensures OpenedBy(w, s, ops, k, a, b, c)
    ensures var r := StateAt(w, s, ops, i + 1).records[k];
      (!r.trusted ==> i < a) && (!r.enabled ==> i < b) && (!r.ready ==> i < c)
  {
    hide Run, StateAt, GrantsTrust, GrantsEnable, PassesHealth, Assigns, Step;
    var y := EveryRecordHasAStory(w, s, ops, k);
    a, b, c := y.trusted, y.enabled, y.ready;
  }

  lemma StateAfterCall(w: World, s: State, ops: seq<Op>, i: nat)
    requires i < |ops|
    ensures StateAt(w, s, ops, i + 1) == Step(w, StateAt(w, s, ops, i), ops[i])
  {
    hide Step;
    assert ops[..i + 1][..i] == ops[..i];
  }

  /** The package resolves in the end. */
  ghost predicate Resolves(w: World, t: State, id: string, version: string, entry: string, saveFails: bool) {
    Resolve(w, t, id, version, entry, saveFails).1.Ok?
  }

  lemma ResolvedIsOpen(w: World, t: State, id: string, version: string, entry: string, saveFails: bool)
    requires Resolves(w, t, id, version, entry, saveFails)
    ensures Key(id, version) in t.records && Open(t.records[Key(id, version)])
  {
    hide Resolve, HoldsPackage, IntactAt, Shut, Describes, Declares, ValidIdentity, Key;
    ResolveOutcome(w, t, id, version, entry, saveFails, Resolve(w, t, id, version, entry, saveFails).1.value);
  }

  /** After a failed health check a package is not resolved before a later one has passed. */
  lemma SickUntilPassed(w: World, s: State, ops: seq<Op>, i: nat, id: string, version: string, entry: string, saveFails: bool)
    returns (c: nat)
    requires Initial(s) && i < |ops| && ops[i].OpHealth? && Key(ops[i].id, ops[i].version) == Key(id, version)
    requires HealthCheck(w, StateAt(w, s, ops, i), ops[i].id, ops[i].version, ops[i].probe, ops[i].saveFails, ops[i].now).1 == Err(NotHealthy)
    requires Resolves(w, Run(w, s, ops), id, version, entry, saveFails)
    ensures i < c < |ops| && PassesHealth(w, StateAt(w, s, ops, c), ops[c], Key(id, version))
  {
    hide Key, Run, Resolves, StateAt, HealthCheck, GrantsTrust, GrantsEnable, PassesHealth, IntactAt, Stands, ValidIdentity;
    var op := ops[i];
    StateAfterCall(w, s, ops, i);
    HealthOutcome(w, StateAt(w, s, ops, i), op.id, op.version, op.probe, op.saveFails, op.now);
    ResolvedIsOpen(w, Run(w, s, ops), id, version, entry, saveFails);
    var a, b, d := ReopenedAfter(w, s, ops, i, Key(id, version));
    c := d;
  }

  /** After a withdrawal of trust it is not resolved before it was trusted, then enabled, then found healthy again. */
  lemma DistrustedUntilReopened(w: World, s: State, ops: seq<Op>, i: nat, id: string, version: string, entry: string, saveFails: bool)
    returns (a: nat, b: nat, c: nat)
    requires Initial(s) && i < |ops| && ops[i].OpTrust? && !ops[i].on && Key(ops[i].id, ops[i].version) == Key(id, version)
    requires SetTrusted(w, StateAt(w, s, ops, i), ops[i].id, ops[i].version, false, ops[i].saveFails, ops[i].now).1.Ok?
    requires Resolves(w, Run(w, s, ops), id, version, entry, saveFails)
    ensures i < a && OpenedBy(w, s, ops, Key(id, version), a, b, c)
  {
    hide Key, Run, Resolves, StateAt, SetTrusted, OpenedBy, IntactAt;
    var op := ops[i];
    StateAfterCall(w, s, ops, i);
    TrustOutcome(w, StateAt(w, s, ops, i), op.id, op.version, false, op.saveFails, op.now);
    ResolvedIsOpen(w, Run(w, s, ops), id, version, entry, saveFails);
    a, b, c := ReopenedAfter(w, s, ops, i, Key(id, version));
  }

  /** After a disabling it is not resolved before it was enabled, then found healthy again. */
  lemma DisabledUntilReopened(w: World, s: State, ops: seq<Op>, i: nat, id: string, version: string, entry: string, saveFails: bool)
    returns (a: nat, b: nat, c: nat)
    requires Initial(s) && i < |ops| && ops[i].OpEnable? && !ops[i].on && Key(ops[i].id, ops[i].version) == Key(id, version)
    requires SetEnabled(w, StateAt(w, s, ops, i), ops[i].id, ops[i].version, false, ops[i].saveFails, ops[i].now).1.Ok?
    requires Resolves(w, Run(w, s, ops), id, version, entry, saveFails)
    ensures i < b && OpenedBy(w, s, ops, Key(id, version), a, b, c)
  {
    hide Key, Run, Resolves, StateAt, SetEnabled, OpenedBy, IntactAt;
    var op := ops[i];
    StateAfterCall(w, s, ops, i);
    EnableOutcome(w, StateAt(w, s, ops, i), op.id, op.version, false, op.saveFails, op.now);
    ResolvedIsOpen(w, Run(w, s, ops), id, version, entry, saveFails);
    a, b, c := ReopenedAfter(w, s, ops, i, Key(id, version));
  }

  /** A call for `k` that reads the tree, while its gates are open up to that call's own, and can save what it finds. */
  ghost predicate Inspects(s: State, op: Op, k: string) {
    && IsGateOp(op) && Key(op.id, op.version) == k && k in s.records && !op.saveFails
    && match op
       case OpVerify(_, _, _, _) => s.records[k].installed
       case OpEnable(_, _, on, _, _) => on && s.records[k].trusted
       case OpResolve(_, _, _, _) => Open(s.records[k])
       case OpHealth(_, _, _, _, _) => s.records[k].verified && ValidIdentity(op.id, op.version)
       case _ => s.records[k].verified
  }

  /** Every call that reads a changed tree closes all gates of its package. */
  lemma ChangedTreeShuts(w: World, s: State, op: Op, k: string)
    requires Inspects(s, op, k) && !IntactAt(w, s, op.id, op.version)
    ensures k in Step(w, s, op).records && AllClosed(Step(w, s, op).records[k])
  {
    hide Key, IntactAt, Regated, Stands, ValidIdentity, Verify, SetTrusted, SetEnabled, HealthCheck, Resolve, HoldsPackage, Describes;
    hide Declares;
    match op {
      case OpVerify(id, version, saveFails, now) => VerifyOutcome(w, s, id, version, saveFails, now);
      case OpTrust(id, version, on, saveFails, now) => TrustOutcome(w, s, id, version, on, saveFails, now);
      case OpEnable(id, version, on, saveFails, now) => EnableOutcome(w, s, id, version, on, saveFails, now);
      case OpHealth(id, version, probe, saveFails, now) => HealthOutcome(w, s, id, version, probe, saveFails, now);
      case OpResolve(id, version, entry, saveFails) =>
        var m: Manifest :| true;
        ResolveOutcome(w, s, id, version, entry, saveFails, m);
    }
  }

  /**
   Once a call has read a changed tree, the package is not resolved before it was verified or committed anew, then trusted,
   then enabled, then found healthy; and it is resolved only if its tree is intact again.
   */
  lemma ChangedUntilReopened(w: World, s: State, ops: seq<Op>, i: nat, id: string, version: string, entry: string, saveFails: bool)
    returns (v: nat, a: nat, b: nat, c: nat)
    requires Initial(s) && i < |ops| && Inspects(StateAt(w, s, ops, i), ops[i], Key(id, version))
    requires !IntactAt(w, StateAt(w, s, ops, i), ops[i].id, ops[i].version)
    requires Resolves(w, Run(w, s, ops), id, version, entry, saveFails)
    ensures i < v < a < |ops| && Certifies(w, StateAt(w, s, ops, v), ops[v], Key(id, version))
    ensures OpenedBy(w, s, ops, Key(id, version), a, b, c)
    ensures Key(id, version) in Run(w, s, ops).records && IntactAt(w, Run(w, s, ops), id, version)
  {
    hide Key, Run, Resolves, StateAt, IntactAt, Inspects, Certifies, Step, GrantsTrust, GrantsEnable, PassesHealth, Initial;
    StateAfterCall(w, s, ops, i);
    ChangedTreeShuts(w, StateAt(w, s, ops, i), ops[i], Key(id, version));
    ResolvedIsOpen(w, Run(w, s, ops), id, version, entry, saveFails);
    ResolvedIsIntact(w, Run(w, s, ops), id, version, entry, saveFails);
    a, b, c := ReopenedAfter(w, s, ops, i, Key(id, version));
    TrustedWasVerified(w, StateAt(w, s, ops, a), ops[a], Key(id, version));
    v := VerifiedAfter(w, s, ops, i + 1, a, Key(id, version));
  }

  lemma ResolvedIsIntact(w: World, t: State, id: string, version: string, entry: string, saveFails: bool)
    requires Resolves(w, t, id, version, entry, saveFails) && Key(id, version) in t.records
    ensures IntactAt(w, t, id, version)
  {
    hide Resolve, HoldsPackage, Shut, Describes, Declares, ValidIdentity, Key;
    ResolveOutcome(w, t, id, version, entry, saveFails, Resolve(w, t, id, version, entry, saveFails).1.value);
  }

  lemma TrustedWasVerified(w: World, s: State, op: Op, k: string)
    requires GrantsTrust(w, s, op, k)
    ensures k in s.records && s.records[k].verified
  {
    hide Key, SetTrusted, IntactAt, Shut, Regated;
    TrustOutcome(w, s, op.id, op.version, op.on, op.saveFails, op.now);
  }

  /** The call verifies the package, or commits it anew. */
  ghost predicate Certifies(w: World, s: State, op: Op, k: string) {
    || Assigns(w, s, op, k)
    || (op.OpVerify? && Key(op.id, op.version) == k && Verify(w, s, op.id, op.version, op.saveFails, op.now).1.Ok?)
  }

  /** The first gate opens only by verifying or committing. */
  lemma VerifiedByCall(w: World, s: State, op: Op, k: string)
    requires Durable(s) && k in Step(w, s, op).records && Step(w, s, op).records[k].verified
    requires k in s.records ==> !s.records[k].verified
    ensures Certifies(w, s, op, k)
  {
    hide Step, Assigns, Verify, Opens;
    StepEffect(w, s, op, k);
    if !Assigns(w, s, op, k) { UnverifiedStays(w, s, op, k); }
  }

  lemma UnverifiedStays(w: World, s: State, op: Op, k: string)
    requires Durable(s) && k in Step(w, s, op).records && Step(w, s, op).records[k].verified && !Assigns(w, s, op, k)
    requires k in s.records && !s.records[k].verified
    ensures Certifies(w, s, op, k)
  {
    hide Key, IntactAt, Stands, ValidIdentity, Verify, SetTrusted, SetEnabled, HealthCheck, Resolve, HoldsPackage, Describes;
    hide Declares, Assigns, Install, Rollback, Remove, AddTrustedSigner, Regated;
    match op {
      case OpVerify(id, version, saveFails, now) => VerifyOutcome(w, s, id, version, saveFails, now); OthersKept(s, Step(w, s, op), Key(id, version), k);
      case OpTrust(id, version, on, saveFails, now) => TrustOutcome(w, s, id, version, on, saveFails, now); OthersKept(s, Step(w, s, op), Key(id, version), k);
      case OpEnable(id, version, on, saveFails, now) => EnableOutcome(w, s, id, version, on, saveFails, now); OthersKept(s, Step(w, s, op), Key(id, version), k);
      case OpHealth(id, version, probe, saveFails, now) => HealthOutcome(w, s, id, version, probe, saveFails, now); OthersKept(s, Step(w, s, op), Key(id, version), k);
      case OpResolve(id, version, entry, saveFails) =>
        var m: Manifest :| true;
        ResolveOutcome(w, s, id, version, entry, saveFails, m);
        OthersKept(s, Step(w, s, op), Key(id, version), k);
      case OpInstall(_, _, _, _) => CommitlessKeeps(w, s, op, k);
      case OpRollback(_, _, _, _) => CommitlessKeeps(w, s, op, k);
      case OpRemove(id, version, f) => RemoveKeepsOthers(w, s, id, version, f, k);
      case OpAddSigner(signer, key) => AddSignerEffect(s, signer, key);
      case OpRestart =>
      case Tamper(_) =>
    }
  }

  lemma OthersKept(s: State, t: State, own: string, k: string)
    requires k in s.records
    ensures forall r, r' | Regated(s, t, own, r, r') && k != own :: k in t.records && t.records[k] == s.records[k]
  {
  }

  lemma CommitlessKeeps(w: World, s: State, op: Op, k: string)
    requires (op.OpInstall? || op.OpRollback?) && !Assigns(w, s, op, k) && k in s.records && k in Step(w, s, op).records
    ensures Step(w, s, op).records[k] == s.records[k]
  {
    hide Key, Install, Root, RolledBackTrees, RollbackRefusal, ValidateAt, NextGeneration, ValidateTree, Committed;
    if op.OpInstall? {
      if Committed(w, s, op.source, op.staged, op.installFaults, op.now) {
        CommittedHasManifest(w, s, op.source, op.staged, op.installFaults, op.now);
        CommittedInstall(w, s, op.source, op.staged, op.installFaults, op.now, ValidateTree(w, s.trust, op.source).value);
      } else {
        FailedInstallKeepsRecords(w, s, op.source, op.staged, op.installFaults, op.now);
      }
    }
  }

  lemma RemoveKeepsOthers(w: World, s: State, id: string, version: string, f: RemoveFaults, k: string)
    requires k in s.records && k in Remove(w, s, id, version, f).0.records
    ensures Remove(w, s, id, version, f).0.records[k] == s.records[k]
  {
    hide Remove, Removable, Withdrawn, Key, Root, Stands, ValidIdentity;
    RemoveOutcome(w, s, id, version, f);
  }

  /** Between a state in which the package is not verified and one in which it is, some call verified or committed it. */
  lemma {:induction false} VerifiedAfter(w: World, s: State, ops: seq<Op>, low: nat, high: nat, k: string) returns (v: nat)
    requires Initial(s) && low <= high <= |ops|
    requires k in StateAt(w, s, ops, low).records ==> !StateAt(w, s, ops, low).records[k].verified
    requires k in StateAt(w, s, ops, high).records && StateAt(w, s, ops, high).records[k].verified
    ensures low <= v < high && Certifies(w, StateAt(w, s, ops, v), ops[v], k)
    decreases high
  {
    hide Run, Step, Certifies;
    v := high - 1;
    StateAfterCall(w, s, ops, v);
    RunIsDurable(w, s, ops[..v]);
    var before := StateAt(w, s, ops, v);
    if k in before.records && before.records[k].verified { v := VerifiedAfter(w, s, ops, low, v, k); } else { VerifiedByCall(w, before, ops[v], k); }
  }

  // ----- From nothing to a resolved package -----

  const NO_FAULTS := InstallFaults(false, false, false, false, false, false, false)

  /** Nothing is recorded for the package, and all its places are free. */
  ghost predicate Vacant(s: State, id: string, version: string) {
    var root := Root(id, version);
    && Key(id, version) !in s.records
    && !Stands(s.trees, root) && !Stands(s.trees, root + ".rollback") && !Stands(s.trees, root + ".rollback-previous")
  }

  /** The first install of a genuine package into free places succeeds, and its tree is then the active package. */
  lemma FirstInstallCommits(w: World, s: State, tree: Tree, now: Instant, m: Manifest)
    requires Genuine(w, s.trust, tree, m) && Vacant(s, m.environmentID, m.version)
    ensures var (t, outcome) := Install(w, s, tree, tree, NO_FAULTS, now);
      var root, k := Root(m.environmentID, m.version), Key(m.environmentID, m.version);
      && outcome.Ok? && NewlyInstalled(outcome.value, m, now) && Recorded(s, t, k, outcome.value)
      && HoldsPackage(w, t, root, m) && t.trees == s.trees[root := tree]
  {
    hide Key, Root, Stands, Genuine, Install, HoldsPackage, NewlyInstalled, IntactVersion;
    InstallOutcome(w, s, tree, tree, NO_FAULTS, now, m);
    assert Faithful(w, s, tree, m);
    var t, root := Install(w, s, tree, tree, NO_FAULTS, now).0, Root(m.environmentID, m.version);
    FreeIsAbsent(s.trees, root);
    FreeIsAbsent(s.trees, root + ".rollback");
    FreeIsAbsent(s.trees, root + ".rollback-previous");
    assert t.trees == s.trees[root := tree];
    GenuineIdentity(w, s.trust, tree, m);
    PlacedIsHeld(w, s, t, tree, m);
  }

  lemma FreeIsAbsent(trees: map<Path, Tree>, p: Path)
    requires !Stands(trees, p)
    ensures p !in trees && forall q | q in trees :: !Below(q, p)
  {
    hide Below;
  }

  lemma GenuineIdentity(w: World, trust: map<string, PublicKey>, tree: Tree, m: Manifest)
    requires Genuine(w, trust, tree, m)
    ensures ValidIdentity(m.environmentID, m.version)
  {
    hide ValidEnvironmentID, ValidEnvironmentVersion, VerifyDigest, VerifySignature, UniqueTokens, ResourcesOk, EntrypointsOk, ValidToken;
  }

  lemma PlacedIsHeld(w: World, s: State, t: State, tree: Tree, m: Manifest)
    requires ValidIdentity(m.environmentID, m.version) && Genuine(w, s.trust, tree, m) && t.trust == s.trust
    requires !Stands(s.trees, Root(m.environmentID, m.version)) && t.trees == s.trees[Root(m.environmentID, m.version) := tree]
    ensures HoldsPackage(w, t, Root(m.environmentID, m.version), m)
  {
    hide ValidIdentity, Genuine, Root, Below;
    var root := Root(m.environmentID, m.version);
    FreeIsAbsent(s.trees, root);
    RootEndsInVersion(m.environmentID, m.version);
    SiblingBelow(root, ".rollback", root);
  }

  /**
   An upgrade of an intact package to a genuine one with another digest succeeds when nothing stands in the side place and
   the rollback place is free or holds a version of the package: the new tree is active, the old one is the rollback tree.
   */
  lemma UpgradeCommits(w: World, s: State, tree: Tree, now: Instant, m: Manifest)
    requires Genuine(w, s.trust, tree, m) && Key(m.environmentID, m.version) in s.records
    requires var r := s.records[Key(m.environmentID, m.version)];
      IntactVersion(w, s, m.environmentID, m.version, r) && !EqualFold(m.manifestDigest, r.manifestDigest)
    requires var root := Root(m.environmentID, m.version);
      && !Stands(s.trees, root + ".rollback-previous")
      && (Stands(s.trees, root + ".rollback") ==> HoldsVersion(w, s, root + ".rollback", m.environmentID, m.version))
    ensures var (t, outcome) := Install(w, s, tree, tree, NO_FAULTS, now);
      var root, k := Root(m.environmentID, m.version), Key(m.environmentID, m.version);
      && outcome.Ok? && NewlyInstalled(outcome.value, m, now) && Recorded(s, t, k, outcome.value)
      && root in s.trees && t.trees == s.trees[root := tree][root + ".rollback" := s.trees[root]]
  {
    hide Key, Root, Stands, Genuine, Install, NewlyInstalled, IntactVersion, HoldsVersion, EqualFold;
    var root := Root(m.environmentID, m.version);
    InstallOutcome(w, s, tree, tree, NO_FAULTS, now, m);
    assert Faithful(w, s, tree, m);
    FreeIsAbsent(s.trees, root + ".rollback-previous");
    IntactStands(w, s, m.environmentID, m.version, s.records[Key(m.environmentID, m.version)]);
    var t := Install(w, s, tree, tree, NO_FAULTS, now).0;
    assert t.trees.Keys == s.trees.Keys + {root, root + ".rollback"};
  }

  /** The calls that bring a package into service. */
  function Service(tree: Tree, m: Manifest, now: Instant): seq<Op> {
    var id, version := m.environmentID, m.version;
    [OpInstall(tree, tree, NO_FAULTS, now), OpTrust(id, version, true, false, now), OpEnable(id, version, true, false, now),
     OpHealth(id, version, Passed, false, now)]
  }

  ghost predicate Serves(w: World, s: State, m: Manifest) {
    forall entry, saveFails | Declares(m, entry) :: Resolve(w, s, m.environmentID, m.version, entry, saveFails) == (s, Ok(m))
  }

  ghost predicate InPlace(w: World, s: State, m: Manifest) {
    var k := Key(m.environmentID, m.version);
    && k in s.records && s.records[k].installed && s.records[k].verified
    && s.records[k].manifestDigest == m.manifestDigest && s.records[k].signer == m.signer
    && HoldsPackage(w, s, Root(m.environmentID, m.version), m) && ValidIdentity(m.environmentID, m.version)
  }

  lemma InPlaceIsIntact(w: World, s: State, m: Manifest)
    requires InPlace(w, s, m)
    ensures IntactAt(w, s, m.environmentID, m.version) && Describes(s.records[Key(m.environmentID, m.version)], m)
    ensures m.signer in s.trust && Stands(s.trees, Root(m.environmentID, m.version))
  {
    hide Key, Root, ValidIdentity;
    hide ValidManifest, VerifyDigest, VerifySignature;
    assert EqualFold(m.manifestDigest, m.manifestDigest);
    assert Describes(s.records[Key(m.environmentID, m.version)], m);
  }

  lemma RegatedInPlace(w: World, s: State, t: State, m: Manifest)
    requires InPlace(w, s, m)
    requires var k := Key(m.environmentID, m.version);
      && k in t.records && Regated(s, t, k, s.records[k], t.records[k]) && t.records[k].installed && t.records[k].verified
    ensures InPlace(w, t, m)
  {
    hide Key, Root, ValidIdentity, Genuine, Below;
  }

  lemma ServedOnceInstalled(w: World, s: State, m: Manifest, now: Instant)
    requires InPlace(w, s, m)
    ensures var id, version := m.environmentID, m.version;
      var t := SetTrusted(w, s, id, version, true, false, now).0;
      var u := SetEnabled(w, t, id, version, true, false, now).0;
      var v := HealthCheck(w, u, id, version, Passed, false, now).0;
      Serves(w, v, m) && Key(id, version) in v.records && Open(v.records[Key(id, version)])
  {
    hide Key, Root, SetTrusted, SetEnabled, HealthCheck, InPlace, Resolve, IntactAt, HoldsPackage, Describes, Declares, ValidIdentity, Stands;
    hide Regated;
    var id, version, k := m.environmentID, m.version, Key(m.environmentID, m.version);
    var t := SetTrusted(w, s, id, version, true, false, now).0;
    var u := SetEnabled(w, t, id, version, true, false, now).0;
    var v := HealthCheck(w, u, id, version, Passed, false, now).0;
    InPlaceFacts(w, s, m);
    InPlaceIsIntact(w, s, m);
    TrustOutcome(w, s, id, version, true, false, now);
    RegatedInPlace(w, s, t, m);
    InPlaceFacts(w, t, m);
    InPlaceIsIntact(w, t, m);
    EnableOutcome(w, t, id, version, true, false, now);
    RegatedInPlace(w, t, u, m);
    InPlaceFacts(w, u, m);
    InPlaceIsIntact(w, u, m);
    HealthOutcome(w, u, id, version, Passed, false, now);
    RegatedInPlace(w, u, v, m);
    InPlaceFacts(w, v, m);
    InPlaceIsIntact(w, v, m);
    forall entry, saveFails | Declares(m, entry) ensures Resolve(w, v, id, version, entry, saveFails) == (v, Ok(m)) {
      ResolveOutcome(w, v, id, version, entry, saveFails, m);
    }
  }

  lemma InPlaceFacts(w: World, s: State, m: Manifest)
    requires InPlace(w, s, m)
    ensures var k := Key(m.environmentID, m.version);
      && k in s.records && s.records[k].installed && s.records[k].verified && s.records[k].signer == m.signer
      && HoldsPackage(w, s, Root(m.environmentID, m.version), m) && ValidIdentity(m.environmentID, m.version)
  {
    hide Key, Root, ValidIdentity, HoldsPackage;
  }

  /** Installing, trusting, enabling and checking a genuine package puts it into service, whatever else is installed. */
  lemma ServiceServes(w: World, s: State, tree: Tree, m: Manifest, now: Instant)
    requires Genuine(w, s.trust, tree, m) && Vacant(s, m.environmentID, m.version)
    ensures var t := Run(w, s, Service(tree, m, now)); Serves(w, t, m) && Key(m.environmentID, m.version) in t.records
  {
    hide Key, Root, SetTrusted, SetEnabled, HealthCheck, Serves, HoldsPackage, Genuine, Vacant, ValidIdentity, Install;
    var ops := Service(tree, m, now);
    StateAfterCall(w, s, ops, 0);
    StateAfterCall(w, s, ops, 1);
    StateAfterCall(w, s, ops, 2);
    StateAfterCall(w, s, ops, 3);
    assert ops[..4] == ops;
    FirstInstallCommits(w, s, tree, now, m);
    GenuineIdentity(w, s.trust, tree, m);
    var t := Install(w, s, tree, tree, NO_FAULTS, now).0;
    assert InPlace(w, t, m);
    ServedOnceInstalled(w, t, m, now);
  }

  /**
   From an empty installation: adding the signer of any sealed package with valid contents for this target and putting the
   package into service ends with every declared entry point resolving to it.
   */
  lemma SealedPackageIsServed(w: World, s: State, content: Manifest, key: PrivateKey, tree: Tree, now: Instant)
    requires Initial(s) && s.trust == map[] && Sound(w.crypto) && ContentOk(content) && (w.target == "" || w.target in content.targets)
    requires Seal(w.crypto, content, key).Some? ==> w.inspect(tree) == Seal(w.crypto, content, key)
    ensures Seal(w.crypto, content, key).Some?
    ensures var m := Seal(w.crypto, content, key).value;
      var t := Run(w, s, [OpAddSigner(content.signer, w.crypto.publicKey(key))] + Service(tree, m, now));
      Serves(w, t, m) && Key(m.environmentID, m.version) in t.records
  {
    hide Seal, ContentOk, ValidManifest, VerifyDigest, VerifySignature, Sound, Serves, Key, Run, Step, Service;
    SealedVerifies(w.crypto, content, key);
    var m, add := Seal(w.crypto, content, key).value, OpAddSigner(content.signer, w.crypto.publicKey(key));
    var t := Step(w, s, add);
    SignerAdded(w, s, content, key);
    assert Genuine(w, t.trust, tree, m);
    assert Vacant(t, m.environmentID, m.version);
    ServiceServes(w, t, tree, m, now);
    RunAfter(w, s, add, Service(tree, m, now));
  }

  lemma SignerAdded(w: World, s: State, content: Manifest, key: PrivateKey)
    requires Initial(s) && s.trust == map[] && ContentOk(content)
    ensures Step(w, s, OpAddSigner(content.signer, w.crypto.publicKey(key)))
      == s.(trust := map[content.signer := w.crypto.publicKey(key)])
  {
    hide ValidToken, UniqueTokens, ResourcesOk, EntrypointsOk, ProbesOk, ValidEnvironmentID, ValidEnvironmentVersion;
  }

  lemma {:induction false} RunAfter(w: World, s: State, first: Op, ops: seq<Op>)
    ensures Run(w, s, [first] + ops) == Run(w, Step(w, s, first), ops)
    decreases |ops|
  {
    hide Step;
    var whole := [first] + ops;
    if ops == [] {
      assert whole[..0] == [];
    } else {
      assert whole[..|whole| - 1] == [first] + ops[..|ops| - 1];
      RunAfter(w, s, first, ops[..|ops| - 1]);
    }
  }

  // ----- An installation that serves a package -----

  const NIL: string := seq(64, _ => '0')

  const TOY := Crypto((m: Manifest) => "", (text: string) => NIL, (key: PrivateKey) => key,
                      (key: PrivateKey, text: string) => "s", (key: PublicKey, text: string, signature: string) => true)

  const SAMPLE := Manifest(
    API, "a", "b", ["t"], ["c"], [], [Resource("f", NIL, 1)], [], Policies(true, false, false, true), [],
    [Entrypoint("e", "f", "agent")], "s", "", "", "")

  /** A letter is a token, and a path of one part. */
  lemma LetterIsToken(c: char, max: nat)
    requires 'a' <= c <= 'z' && max > 0
    ensures ValidToken([c], max) && ValidPathParts([c]) && Utf8Length([c]) == 1
  {
    SplitSingle(c);
    assert [c][1..] == "";
  }

  lemma SampleResources()
    ensures ResourcesOk(SAMPLE.resources) && EntrypointsOk(SAMPLE.entrypoints, SAMPLE.resources)
  {
    hide ValidToken, ValidPathParts;
    LetterIsToken('f', 128);
    LetterIsToken('e', 128);
    assert Extension("f") == "" by { assert ("f")[..0] == ""; }
    assert !Blank("f") by { assert !IsSpace("f"[0]); }
    assert SAMPLE.resources[0] in SAMPLE.resources;
  }

  lemma SampleIsValid()
    ensures ContentOk(SAMPLE) && Sound(TOY)
  {
    hide ValidToken, ValidPathParts, ResourcesOk, EntrypointsOk;
    SampleResources();
    LetterIsToken('a', 256);
    LetterIsToken('b', 128);
    LetterIsToken('s', 256);
    LetterIsToken('t', 128);
    LetterIsToken('c', 128);
  }

  /** The empty installation does reach states in which a package is recorded and served. */
  lemma EmptyInstallationCanServe() returns (w: World, s: State, ops: seq<Op>, m: Manifest)
    ensures Initial(s) && Serves(w, Run(w, s, ops), m) && Declares(m, "e")
    ensures Key(m.environmentID, m.version) in Run(w, s, ops).records
  {
    hide Run, Serves, Sound, ContentOk, Canonical;
    SampleIsValid();
    SealedVerifies(TOY, SAMPLE, "k");
    m := Seal(TOY, SAMPLE, "k").value;
    var sealed := m;
    w, s := World((tree: Tree) => Some(sealed), TOY, ""), State(map[], map[], map[], map[]);
    ops := [OpAddSigner("s", w.crypto.publicKey("k"))] + Service(map[], m, 1);
    SealedPackageIsServed(w, s, SAMPLE, "k", map[], 1);
    assert m.entrypoints[0].name == "e";
  }

  /** No call changes the key of a signer once it is trusted. */
  lemma StepKeepsSigners(w: World, s: State, op: Op, signer: string)
    requires signer in s.trust
    ensures signer in Step(w, s, op).trust && Step(w, s, op).trust[signer] == s.trust[signer]
  {
    hide Key, Root, ValidateTree, ValidateAt, InstallRefusal, AlreadyInstalled, RollbackRefusal, RemoveRefusal, Current, Exists;
    hide NextGeneration, InstalledTrees, RolledBackTrees, Move, ValidToken, ValidIdentity, Loadable;
  }

  lemma {:induction false} SignersKeepTheirKeys(w: World, s: State, ops: seq<Op>, signer: string)
    requires signer in s.trust
    ensures signer in Run(w, s, ops).trust && Run(w, s, ops).trust[signer] == s.trust[signer]
    decreases |ops|
  {
    hide Step;
    if ops != [] {
      SignersKeepTheirKeys(w, s, ops[..|ops| - 1], signer);
      StepKeepsSigners(w, Run(w, s, ops[..|ops| - 1]), ops[|ops| - 1], signer);
    }
  }

  /**
   Whatever the state file holds, a new process either starts with exactly those records, each under the key of its own
   valid identity and with its gates in order, or refuses and changes nothing.
   */
  lemma RestartAdmitsOnlySound(s: State)
    ensures var (t, error) := Restart(s);
      && (error.Some? ==> t == s)
      && (error.None? ==>
            && t == s.(records := s.saved) && AllGated(t)
            && (forall k | k in t.records ::
                  && Keyed(t, k) && t.records[k].generation != 0 && t.records[k].updatedAt != 0
                  && ValidSHA256(t.records[k].manifestDigest) && ValidToken(t.records[k].signer, 256)))
      && (error.None? <==>
            forall k | k in s.saved :: k == Key(s.saved[k].environmentID, s.saved[k].version) && s.saved[k].Valid())
  {
    hide Key, ValidEnvironmentID, ValidEnvironmentVersion, ValidToken, ValidSHA256, UniqueTokens;
  }
}
