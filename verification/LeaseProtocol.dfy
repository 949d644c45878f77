/**
 Many session runs over one account's lease cell (internal/browser/runner.go, internal/account/lease.go).

 A run samples the clock and claims the cell, keeps a local copy of its lease fresh by heartbeats, samples the clock
 again when its worker is done, and reports success only if its local copy is unexpired at that sample. Every clock
 sample is a step of its own: the store transaction or the comparison that uses it may come arbitrarily later, after
 any steps of other runs. Heartbeats may still begin and be in flight when the run has reported or returned its lease.
 */
module LeaseProtocol {
  import opened Common
  import opened Lease

  type RunID = nat

  /** One round of the heartbeat loop. */
  datatype Beat = Resting | Sampled(at: Instant) | Stored(updated: Lease) | Failing | Stopped

  /**
   `held` is a history variable: no step reads it. It records whether the cell held the run's lease at the moment the
   finish time was sampled.
   */
  datatype Phase =
    | Claiming(sampled: Instant)
    | Refused
    | Granted
    | Running
    | Finishing(finishedAt: Instant, held: bool)
    | Succeeded(at: Instant, held: bool)
    | Failed
    | Released

  datatype Run = Run(phase: Phase, local: Lease, beat: Beat, heartbeatError: bool) {
    /** The run was granted a lease and has not given it back. */
    predicate Tenant() { phase.Granted? || phase.Running? || phase.Finishing? || phase.Succeeded? || phase.Failed? }

    predicate Leased() { Tenant() || phase.Released? }

    /** The heartbeat loop is under way. It may pick up one more tick after the run has reported or returned its lease. */
    predicate Started() { Leased() && !phase.Granted? }

    /** The latest expiry this run may come to believe in without another heartbeat. */
    function Horizon(): Instant {
      if beat.Stored? && beat.updated.expiresAt > local.expiresAt then beat.updated.expiresAt else local.expiresAt
    }
  }

  /** A finished occupation of the cell: from the clock of its claim to its last expiry, or to the clock of its release. */
  datatype Tenure = Tenure(lease: Lease, from: Instant, until: Instant, released: bool)

  datatype System = System(
    clock: Instant, ttl: int, cell: Option<Lease>, since: Instant, runs: map<RunID, Run>, used: set<string>,
    past: seq<Tenure>)

  datatype Step =
    | Tick(to: Instant)
    | SampleClaim(r: RunID)
    | Claim(r: RunID, leaseID: string, owner: string)
    | Start(r: RunID)
    | SampleBeat(r: RunID)
    | StoreBeat(r: RunID)
    | CopyBeat(r: RunID)
    | PostBeatError(r: RunID)
    | SampleFinish(r: RunID)
    | Report(r: RunID, workerSucceeded: bool, closeFails: bool)
    | Abort(r: RunID)
    | Release(r: RunID)

  const NO_LEASE := Lease("", "", 0, 0, 0)

  predicate Holds(s: System, lease: Lease) {
    s.cell.Some? && s.cell.value.OwnedBy(lease.leaseID, lease.owner)
  }

  function SetRun(s: System, r: RunID, run: Run): System {
    s.(runs := s.runs[r := run])
  }

  /** The store's side of a claim: acquire or recover the cell, closing the tenure that expired in it. */
  function ClaimCell(s: System, r: RunID, lease: Lease): System {
    var past := if s.cell.Some? then s.past + [Tenure(s.cell.value, s.since, s.cell.value.expiresAt, false)] else s.past;
    s.(cell := Some(lease), since := s.clock, past := past, used := s.used + {lease.leaseID},
       runs := s.runs[r := Run(Granted, lease, Resting, false)])
  }

  /** The outcome of a finished run: heartbeat errors first, then the lease, then the worker, then closing it. */
  predicate ReportsSuccess(run: Run, workerSucceeded: bool, closeFails: bool)
    requires run.phase.Finishing?
  {
    !run.heartbeatError && !run.local.Expired(run.phase.finishedAt) && workerSucceeded && !closeFails
  }

  /** One step, or None when it is not enabled. Lease identifiers are generated fresh for each claim. */
  function Next(s: System, step: Step): Option<System> {
    match step
    case Tick(to) =>
      if to >= s.clock then Some(s.(clock := to)) else None
    case SampleClaim(r) =>
      if r !in s.runs then Some(SetRun(s, r, Run(Claiming(s.clock), NO_LEASE, Resting, false))) else None
    case Claim(r, leaseID, owner) =>
      if r in s.runs && s.runs[r].phase.Claiming? && leaseID !in s.used then
        match AcquireLease(s.cell, s.runs[r].phase.sampled, leaseID, owner, s.ttl)
        case Ok(lease) => Some(ClaimCell(s, r, lease))
        case Err(_) => Some(SetRun(s, r, s.runs[r].(phase := Refused)))
      else None
    case Start(r) =>
      if r in s.runs && s.runs[r].phase.Granted? then
        Some(SetRun(s, r, s.runs[r].(phase := if s.runs[r].local.Expired(s.clock) then Failed else Running)))
      else None
    case SampleBeat(r) =>
      if r in s.runs && s.runs[r].Started() && s.runs[r].beat.Resting? then
        Some(SetRun(s, r, s.runs[r].(beat := Sampled(s.clock))))
      else None
    case StoreBeat(r) =>
      if r in s.runs && s.runs[r].beat.Sampled? then
        var run := s.runs[r];
        var beaten := if s.cell.None? then Err(LeaseNotFound)
                      else HeartbeatLease(s.cell.value, run.beat.at, run.local.leaseID, run.local.owner, s.ttl);
        match beaten
        case Ok(updated) => Some(SetRun(s.(cell := Some(updated)), r, run.(beat := Stored(updated))))
        case Err(_) => Some(SetRun(s, r, run.(beat := Failing)))
      else None
    case CopyBeat(r) =>
      if r in s.runs && s.runs[r].beat.Stored? then
        Some(SetRun(s, r, s.runs[r].(local := s.runs[r].beat.updated, beat := Resting)))
      else None
    case PostBeatError(r) =>
      if r in s.runs && s.runs[r].beat.Failing? then
        Some(SetRun(s, r, s.runs[r].(beat := Stopped, heartbeatError := true)))
      else None
    case SampleFinish(r) =>
      if r in s.runs && s.runs[r].phase.Running? then
        Some(SetRun(s, r, s.runs[r].(phase := Finishing(s.clock, Holds(s, s.runs[r].local)))))
      else None
    case Report(r, workerSucceeded, closeFails) =>
      if r in s.runs && s.runs[r].phase.Finishing? then
        var run := s.runs[r];
        Some(SetRun(s, r, run.(phase := if ReportsSuccess(run, workerSucceeded, closeFails)
                                        then Succeeded(run.phase.finishedAt, run.phase.held) else Failed)))
      else None
    case Abort(r) =>
      if r in s.runs && s.runs[r].phase.Running? then Some(SetRun(s, r, s.runs[r].(phase := Failed))) else None
    case Release(r) =>
      if r in s.runs && (s.runs[r].phase.Succeeded? || s.runs[r].phase.Failed?) then
        var run := s.runs[r];
        var after := SetRun(s, r, run.(phase := Released));
        if s.cell.Some? && ReleaseLease(s.cell.value, run.local.leaseID, run.local.owner).Ok? then
          Some(after.(cell := None, past := s.past + [Tenure(s.cell.value, s.since, s.clock, true)]))
        else Some(after)
      else None
  }

  // ----- The invariant -----

  /** The cell's lease is valid, exactly ttl long after its last heartbeat, and its tenure began in the past. */
  ghost predicate CellOk(s: System) {
    && s.ttl > 0 && s.clock > 0
    && (s.cell.Some? ==>
          && s.cell.value.Valid() && s.cell.value.leaseID in s.used
          && s.cell.value.expiresAt == s.cell.value.lastHeartbeat + s.ttl
          && s.since <= s.clock)
  }

  /** No expiry this run believes in outlives the cell; a run that lost the cell believes in nothing beyond now. */
  ghost predicate Covered(s: System, run: Run) {
    if Holds(s, run.local) then run.Horizon() <= s.cell.value.expiresAt else run.Horizon() <= s.clock
  }

  ghost predicate RunOk(s: System, run: Run) {
    && (run.phase.Claiming? ==> 0 < run.phase.sampled <= s.clock)
    && (run.beat.Sampled? ==> 0 < run.beat.at <= s.clock)
    && (run.beat.Stored? ==> run.beat.updated.OwnedBy(run.local.leaseID, run.local.owner))
    && (!run.Leased() ==> run.beat.Resting?)
    && (run.Leased() ==> run.local.leaseID in s.used)
    && (run.Tenant() ==> Covered(s, run))
    && (run.phase.Released? ==> !Holds(s, run.local))
    && (run.phase.Finishing? ==>
          && 0 < run.phase.finishedAt <= s.clock
          && (!run.phase.held ==> !Holds(s, run.local) && run.Horizon() <= run.phase.finishedAt))
    && (run.phase.Succeeded? ==> run.phase.held)
  }

  /** Different runs were granted different leases. */
  ghost predicate Distinct(s: System, a: RunID, b: RunID)
    requires a in s.runs && b in s.runs
  {
    a != b && s.runs[a].Leased() && s.runs[b].Leased() ==> s.runs[a].local.leaseID != s.runs[b].local.leaseID
  }

  ghost predicate Inv(s: System) {
    && CellOk(s)
    && (forall r | r in s.runs :: RunOk(s, s.runs[r]))
    && (forall a, b | a in s.runs && b in s.runs :: Distinct(s, a, b))
  }

  ghost predicate Init(s: System) {
    s.clock > 0 && s.ttl > 0 && s.cell == None && s.runs == map[] && s.used == {} && s.past == []
  }

  /** What a step does to the cell as seen by a run that did not take it. */
  ghost predicate CellMoves(s: System, t: System, actor: string) {
    && s.clock <= t.clock && s.used <= t.used
    && (|| t.cell == s.cell
        || (s.cell.Some? && s.cell.value.leaseID == actor && (t.cell.None? || t.cell.value.leaseID == actor))
        || (&& t.cell.Some? && t.cell.value.leaseID == actor && actor !in s.used
            && (s.cell.Some? ==> s.cell.value.expiresAt <= t.clock)))
  }

  lemma BystanderStaysOk(s: System, t: System, actor: string, run: Run)
    requires CellOk(s) && RunOk(s, run) && CellMoves(s, t, actor)
    requires run.Leased() && t.cell != s.cell ==> run.local.leaseID != actor
    ensures RunOk(t, run)
  {
    hide Blank;
  }

  lemma StepMovesCell(s: System, step: Step)
    requires Inv(s) && Next(s, step).Some?
    ensures var t := Next(s, step).value;
      && CellOk(t)
      && (step.Tick? ==> t.cell == s.cell && t.clock >= s.clock && t.used == s.used && t.runs == s.runs)
      && (!step.Tick? ==>
            && step.r in t.runs && t.runs == s.runs[step.r := t.runs[step.r]]
            && t.clock == s.clock && t.ttl == s.ttl
            && CellMoves(s, t, t.runs[step.r].local.leaseID)
            && (step.r in s.runs && s.runs[step.r].Leased() ==> t.runs[step.r].local.leaseID == s.runs[step.r].local.leaseID)
            && (t.cell != s.cell ==> t.runs[step.r].Leased())
            && (t.runs[step.r].Leased() && !(step.r in s.runs && s.runs[step.r].Leased()) ==>
                  t.runs[step.r].local.leaseID !in s.used))
  {
    hide Blank;
    if !step.Tick? && step.r in s.runs { assert RunOk(s, s.runs[step.r]); }
  }

  lemma ActorStaysOk(s: System, step: Step)
    requires Inv(s) && Next(s, step).Some? && !step.Tick?
    ensures var t := Next(s, step).value; step.r in t.runs && RunOk(t, t.runs[step.r])
  {
    hide Next, RunOk, Inv;
    match step {
      case Claim(_, _, _) => ClaimerStaysOk(s, step);
      case StoreBeat(_) => BeaterStaysOk(s, step);
      case _ => LocalActorStaysOk(s, step);
    }
  }

  lemma ClaimerStaysOk(s: System, step: Step)
    requires Inv(s) && Next(s, step).Some? && step.Claim?
    ensures var t := Next(s, step).value; step.r in t.runs && RunOk(t, t.runs[step.r])
  {
    hide Blank, HeartbeatLease, ReleaseLease;
    assert RunOk(s, s.runs[step.r]);
  }

  lemma BeaterStaysOk(s: System, step: Step)
    requires Inv(s) && Next(s, step).Some? && step.StoreBeat?
    ensures var t := Next(s, step).value; step.r in t.runs && RunOk(t, t.runs[step.r])
  {
    hide Blank, AcquireLease, ReleaseLease;
    assert RunOk(s, s.runs[step.r]);
  }

  /** Steps that leave the cell alone, and the release. */
  lemma LocalActorStaysOk(s: System, step: Step)
    requires Inv(s) && Next(s, step).Some? && !step.Tick? && !step.Claim? && !step.StoreBeat?
    ensures var t := Next(s, step).value; step.r in t.runs && RunOk(t, t.runs[step.r])
  {
    hide Blank, AcquireLease, HeartbeatLease;
    if step.r in s.runs { assert RunOk(s, s.runs[step.r]); }
  }

  lemma StepKeepsInv(s: System, step: Step)
    requires Inv(s) && Next(s, step).Some?
    ensures Inv(Next(s, step).value)
  {
    var t := Next(s, step).value;
    StepMovesCell(s, step);
    if step.Tick? {
      hide Next;
      forall r | r in t.runs ensures RunOk(t, t.runs[r]) {
        assert RunOk(s, s.runs[r]);
        BystanderStaysOk(s, t, "", s.runs[r]);
      }
      forall a, b | a in t.runs && b in t.runs ensures Distinct(t, a, b) { assert Distinct(s, a, b); }
    } else {
      ActorStaysOk(s, step);
      hide Next;
      var me := t.runs[step.r];
      forall r | r in t.runs ensures RunOk(t, t.runs[r]) {
        if r != step.r {
          assert RunOk(s, s.runs[r]);
          if step.r in s.runs { assert Distinct(s, r, step.r) && RunOk(s, s.runs[step.r]); }
          BystanderStaysOk(s, t, me.local.leaseID, s.runs[r]);
        }
      }
      forall a, b | a in t.runs && b in t.runs ensures Distinct(t, a, b) {
        if a in s.runs && b in s.runs { assert Distinct(s, a, b); }
        if a in s.runs { assert RunOk(s, s.runs[a]); }
        if b in s.runs { assert RunOk(s, s.runs[b]); }
      }
    }
  }

  // ----- Runs of the system -----

  /** A behaviour: states linked by enabled steps, from an initial state. */
  datatype Behaviour = Behaviour(states: seq<System>, steps: seq<Step>)

  ghost predicate StepAt(b: Behaviour, i: int)
    requires 0 <= i < |b.steps| && |b.states| == |b.steps| + 1
  {
    Next(b.states[i], b.steps[i]) == Some(b.states[i + 1])
  }

  ghost predicate IsBehaviour(b: Behaviour) {
    && |b.states| == |b.steps| + 1
    && Init(b.states[0])
    && (forall i | 0 <= i < |b.steps| :: StepAt(b, i))
  }

  lemma {:induction false} BehaviourKeepsInv(b: Behaviour, i: nat)
    requires IsBehaviour(b) && i <= |b.steps|
    ensures Inv(b.states[i])
  {
    if i > 0 {
      BehaviourKeepsInv(b, i - 1);
      assert StepAt(b, i - 1);
      StepKeepsInv(b.states[i - 1], b.steps[i - 1]);
    }
  }

  /** A run whose unreturned lease looks unexpired to it really holds the cell; so at most one run can think so. */
  lemma BelieverHoldsTheCell(b: Behaviour, i: nat, r: RunID)
    requires IsBehaviour(b) && i <= |b.steps| && r in b.states[i].runs
    requires var run := b.states[i].runs[r]; run.Tenant() && !run.local.Expired(b.states[i].clock)
    ensures Holds(b.states[i], b.states[i].runs[r].local)
    ensures forall q | q in b.states[i].runs && q != r ::
              b.states[i].runs[q].Tenant() ==> b.states[i].runs[q].local.Expired(b.states[i].clock)
  {
    BehaviourKeepsInv(b, i);
    var s := b.states[i];
    assert RunOk(s, s.runs[r]);
    forall q | q in s.runs && q != r && s.runs[q].Tenant() ensures s.runs[q].local.Expired(s.clock) {
      assert RunOk(s, s.runs[q]) && Distinct(s, r, q);
    }
  }

  /** Once a run is finishing or has reported, its finish sample is in the behaviour, with the cell as it was then. */
  lemma {:induction false} FinishWasSampled(b: Behaviour, j: nat, r: RunID) returns (i: nat)
    requires IsBehaviour(b) && j <= |b.steps| && r in b.states[j].runs
    requires b.states[j].runs[r].phase.Finishing? || b.states[j].runs[r].phase.Succeeded?
    ensures i < j && b.steps[i] == SampleFinish(r) && r in b.states[i].runs
    ensures var phase := b.states[j].runs[r].phase;
      && b.states[i].clock == (if phase.Finishing? then phase.finishedAt else phase.at)
      && Holds(b.states[i], b.states[i].runs[r].local) == phase.held
    ensures b.states[i].runs[r].local.OwnedBy(b.states[j].runs[r].local.leaseID, b.states[j].runs[r].local.owner)
  {
    hide Next, RunOk, CellOk;
    assert j > 0;
    var s, step := b.states[j - 1], b.steps[j - 1];
    assert StepAt(b, j - 1);
    BehaviourKeepsInv(b, j - 1);
    FinishingStep(s, step, r);
    if step == SampleFinish(r) { i := j - 1; } else { i := FinishWasSampled(b, j - 1, r); }
  }

  /** A run enters its finishing phase by sampling the clock, and keeps that sample when it reports. */
  lemma FinishingStep(s: System, step: Step, r: RunID)
    requires Inv(s) && Next(s, step).Some? && r in Next(s, step).value.runs
    requires Next(s, step).value.runs[r].phase.Finishing? || Next(s, step).value.runs[r].phase.Succeeded?
    ensures r in s.runs
    ensures var run, run' := s.runs[r], Next(s, step).value.runs[r];
      && run'.local.OwnedBy(run.local.leaseID, run.local.owner)
      && if step == SampleFinish(r) then run'.phase == Finishing(s.clock, Holds(s, run.local))
         else
           && (run.phase.Finishing? || run.phase.Succeeded?)
           && (if run'.phase.Finishing? then run'.phase.finishedAt else run'.phase.at)
              == (if run.phase.Finishing? then run.phase.finishedAt else run.phase.at)
           && run'.phase.held == run.phase.held
  {
    hide HeartbeatLease, AcquireLease, ReleaseLease;
    assert r in s.runs ==> RunOk(s, s.runs[r]);
  }

  /** A run reports success only for a finish time at which the shared cell held its own lease. */
  lemma SuccessMeansHeld(b: Behaviour, j: nat, r: RunID) returns (i: nat)
    requires IsBehaviour(b) && j <= |b.steps| && r in b.states[j].runs && b.states[j].runs[r].phase.Succeeded?
    ensures i < j && b.steps[i] == SampleFinish(r) && r in b.states[i].runs
    ensures b.states[i].clock == b.states[j].runs[r].phase.at
    ensures Holds(b.states[i], b.states[j].runs[r].local)
  {
    BehaviourKeepsInv(b, j);
    assert RunOk(b.states[j], b.states[j].runs[r]);
    i := FinishWasSampled(b, j, r);
  }

  // ----- Tenures -----

  /** Past tenures follow one another, and the present one begins after them all. */
  ghost predicate Ordered(s: System) {
    && (forall i, j | 0 <= i < j < |s.past| :: s.past[i].until <= s.past[j].from)
    && (forall i | 0 <= i < |s.past| :: s.past[i].until <= (if s.cell.Some? then s.since else s.clock))
    && (forall i | 0 <= i < |s.past| && !s.past[i].released :: s.past[i].until == s.past[i].lease.expiresAt)
  }

  lemma StepKeepsOrder(s: System, step: Step)
    requires Inv(s) && Ordered(s) && Next(s, step).Some?
    ensures Ordered(Next(s, step).value)
  {
    hide Blank;
    if !step.Tick? && step.r in s.runs { assert RunOk(s, s.runs[step.r]); }
  }

  /**
   Tenures of distinct leases are disjoint in every behaviour: each ends, at its final expiry or its release, before the
   next one is written to the cell.
   */
  lemma {:induction false} TenuresAreDisjoint(b: Behaviour, i: nat)
    requires IsBehaviour(b) && i <= |b.steps|
    ensures Ordered(b.states[i])
  {
    if i > 0 {
      TenuresAreDisjoint(b, i - 1);
      BehaviourKeepsInv(b, i - 1);
      assert StepAt(b, i - 1);
      StepKeepsOrder(b.states[i - 1], b.steps[i - 1]);
    }
  }

  /** A lease taken over from an expired one is dated no earlier than that expiry, however old the clock sample. */
  lemma TakeoverStartsAfterExpiry(s: System, r: RunID, leaseID: string, owner: string)
    requires s.cell.Some? && Next(s, Claim(r, leaseID, owner)).Some?
    ensures var t := Next(s, Claim(r, leaseID, owner)).value;
      t.cell != s.cell ==> t.cell.Some? && t.cell.value.acquiredAt >= s.cell.value.expiresAt
  {
    hide Blank;
  }

  // ----- Recorded dates -----

  /** The claim is granted: it writes a fresh lease into the cell. */
  ghost predicate Grants(s: System, step: Step) {
    && step.Claim? && step.r in s.runs && s.runs[step.r].phase.Claiming? && step.leaseID !in s.used
    && AcquireLease(s.cell, s.runs[step.r].phase.sampled, step.leaseID, step.owner, s.ttl).Ok?
  }

  /** The claim's clock sample, known before the claim is made, is not older than any release. */
  ghost predicate SampledAfterReleases(s: System, step: Step)
    requires Grants(s, step)
  {
    forall i | 0 <= i < |s.past| && s.past[i].released :: s.past[i].until <= s.runs[step.r].phase.sampled
  }

  /** `at` is not before the end of any of these tenures. */
  ghost predicate NotBefore(past: seq<Tenure>, at: Instant) {
    forall i | 0 <= i < |past| :: past[i].until <= at
  }

  /** By their recorded dates, from acquisition to end, tenures follow one another, the present one included. */
  ghost predicate RecordedInOrder(s: System) {
    && (forall i, j | 0 <= i < j < |s.past| :: s.past[i].until <= s.past[j].lease.acquiredAt)
    && (s.cell.Some? ==> NotBefore(s.past, s.cell.value.acquiredAt))
  }

  /** A tenure that expired was taken over, at a date not before its expiry; no tenure ends before it was acquired. */
  ghost predicate TakenOver(s: System) {
    && (forall i | 0 <= i < |s.past| :: s.past[i].lease.acquiredAt <= s.past[i].until)
    && (forall i | 0 <= i < |s.past| - 1 && !s.past[i].released :: s.past[i].until <= s.past[i + 1].lease.acquiredAt)
    && (s.past != [] && !s.past[|s.past| - 1].released ==>
          s.cell.Some? && s.past[|s.past| - 1].until <= s.cell.value.acquiredAt)
    && (s.cell.Some? ==> s.cell.value.acquiredAt <= s.clock)
  }

  lemma StepKeepsTakenOver(s: System, step: Step)
    requires Inv(s) && TakenOver(s) && Next(s, step).Some?
    ensures TakenOver(Next(s, step).value)
  {
    if Grants(s, step) {
      hide Next;
      assert RunOk(s, s.runs[step.r]);
      GrantedClaim(s, step);
      GrantClock(s, step);
      var t := Next(s, step).value;
      assert forall i | 0 <= i < |s.past| :: t.past[i] == s.past[i];
    } else {
      OtherKeepsTakenOver(s, step);
    }
  }

  lemma GrantClock(s: System, step: Step)
    requires Grants(s, step)
    ensures Next(s, step).value.clock == s.clock
  {
    hide AcquireLease;
  }

  lemma OtherKeepsTakenOver(s: System, step: Step)
    requires Inv(s) && TakenOver(s) && Next(s, step).Some? && !Grants(s, step)
    ensures TakenOver(Next(s, step).value)
  {
    hide AcquireLease, Blank, RunOk;
  }

  lemma {:induction false} BehaviourKeepsTakenOver(b: Behaviour, i: nat)
    requires IsBehaviour(b) && i <= |b.steps|
    ensures TakenOver(b.states[i])
  {
    hide Next, Inv;
    if i > 0 {
      BehaviourKeepsTakenOver(b, i - 1);
      BehaviourKeepsInv(b, i - 1);
      assert StepAt(b, i - 1);
      StepKeepsTakenOver(b.states[i - 1], b.steps[i - 1]);
    }
  }

  /** Tenures that expired end no later than the releases after them, or than the takeover of the last. */
  lemma {:induction false} ExpiriesAreCovered(past: seq<Tenure>, at: Instant, k: nat)
    requires k < |past|
    requires forall i | 0 <= i < |past| :: past[i].lease.acquiredAt <= past[i].until
    requires forall i | 0 <= i < |past| - 1 && !past[i].released :: past[i].until <= past[i + 1].lease.acquiredAt
    requires !past[|past| - 1].released ==> past[|past| - 1].until <= at
    requires forall i | 0 <= i < |past| && past[i].released :: past[i].until <= at
    ensures past[k].until <= at
    decreases |past| - k
  {
    if !past[k].released && k < |past| - 1 { ExpiriesAreCovered(past, at, k + 1); }
  }

  /** What a granted claim writes. */
  lemma GrantedClaim(s: System, step: Step)
    requires Grants(s, step)
    ensures var t := Next(s, step);
      && t.Some? && t.value.cell.Some?
      && t.value.cell.value.acquiredAt == s.runs[step.r].phase.sampled
      && t.value.past == (if s.cell.Some? then s.past + [Tenure(s.cell.value, s.since, s.cell.value.expiresAt, false)] else s.past)
    ensures s.cell.Some? ==> s.cell.value.expiresAt <= s.runs[step.r].phase.sampled
  {
    hide Blank;
  }

  lemma GrantIsDatedAfterIff(s: System, step: Step)
    requires Inv(s) && TakenOver(s) && Grants(s, step)
    ensures NotBefore(Next(s, step).value.past, s.runs[step.r].phase.sampled) <==> SampledAfterReleases(s, step)
  {
    hide Next;
    GrantedClaim(s, step);
    StepKeepsTakenOver(s, step);
    var past, at := Next(s, step).value.past, s.runs[step.r].phase.sampled;
    assert forall i | 0 <= i < |s.past| :: past[i] == s.past[i];
    if SampledAfterReleases(s, step) {
      forall k | 0 <= k < |past| ensures past[k].until <= at { ExpiriesAreCovered(past, at, k); }
    }
  }

  /** Recorded dates stay in order unless a claim is granted on a sample older than a release. */
  lemma StepKeepsRecordedOrderIff(s: System, step: Step)
    requires Inv(s) && TakenOver(s) && Next(s, step).Some?
    ensures RecordedInOrder(Next(s, step).value)
      <==> RecordedInOrder(s) && (Grants(s, step) ==> SampledAfterReleases(s, step))
  {
    hide Blank, SampledAfterReleases;
    if Grants(s, step) {
      GrantOrderIff(s, step);
    } else {
      OtherOrderIff(s, step);
    }
  }

  lemma GrantOrderIff(s: System, step: Step)
    requires Inv(s) && TakenOver(s) && Grants(s, step)
    ensures RecordedInOrder(Next(s, step).value) <==> RecordedInOrder(s) && SampledAfterReleases(s, step)
  {
    hide Next, SampledAfterReleases, Inv, TakenOver, Grants;
    GrantedClaim(s, step);
    GrantIsDatedAfterIff(s, step);
    var t := Next(s, step).value;
    assert forall i | 0 <= i < |s.past| :: t.past[i] == s.past[i];
    if RecordedInOrder(t) && s.cell.Some? {
      forall i | 0 <= i < |s.past| ensures s.past[i].until <= s.cell.value.acquiredAt { assert t.past[i].until <= t.past[|s.past|].lease.acquiredAt; }
    }
  }

  lemma OtherOrderIff(s: System, step: Step)
    requires Inv(s) && Next(s, step).Some? && !Grants(s, step)
    ensures RecordedInOrder(Next(s, step).value) <==> RecordedInOrder(s)
  {
    hide Blank, Inv;
    var t := Next(s, step).value;
    assert forall i | 0 <= i < |s.past| :: t.past[i] == s.past[i];
    if step.Release? && t.past != s.past {
      assert t.past[|s.past|].lease == s.cell.value;
      if RecordedInOrder(t) {
        forall i | 0 <= i < |s.past| ensures s.past[i].until <= s.cell.value.acquiredAt {
          assert t.past[i].until <= t.past[|s.past|].lease.acquiredAt;
        }
      }
    }
  }

  /**
   For every granted claim of every behaviour: the lease it writes is dated at or after the end of every earlier tenure if
   and only if its clock sample is at or after every release. Expiries take care of themselves.
   */
  lemma ClaimIsDatedAfterIff(b: Behaviour, i: nat)
    requires IsBehaviour(b) && i < |b.steps| && Grants(b.states[i], b.steps[i])
    ensures b.states[i + 1].cell.Some?
    ensures NotBefore(b.states[i + 1].past, b.states[i + 1].cell.value.acquiredAt)
      <==> SampledAfterReleases(b.states[i], b.steps[i])
  {
    hide Next, Inv, TakenOver, SampledAfterReleases, NotBefore, Grants;
    assert StepAt(b, i);
    BehaviourKeepsInv(b, i);
    BehaviourKeepsTakenOver(b, i);
    GrantedClaim(b.states[i], b.steps[i]);
    GrantIsDatedAfterIff(b.states[i], b.steps[i]);
  }

  ghost predicate PromptAt(b: Behaviour, i: int)
    requires 0 <= i < |b.steps| && |b.states| == |b.steps| + 1
  {
    Grants(b.states[i], b.steps[i]) ==> SampledAfterReleases(b.states[i], b.steps[i])
  }

  /**
   The recorded intervals of all tenures follow one another without overlap exactly when every claim so far was granted on
   a sample taken at or after every release before it.
   */
  lemma {:induction false} RecordedOrderIffPrompt(b: Behaviour, n: nat)
    requires IsBehaviour(b) && n <= |b.steps|
    ensures RecordedInOrder(b.states[n]) <==> forall i | 0 <= i < n :: PromptAt(b, i)
  {
    hide Next, Inv, TakenOver, SampledAfterReleases, Grants;
    if n > 0 {
      RecordedOrderIffPrompt(b, n - 1);
      assert StepAt(b, n - 1);
      BehaviourKeepsInv(b, n - 1);
      BehaviourKeepsTakenOver(b, n - 1);
      StepKeepsRecordedOrderIff(b.states[n - 1], b.steps[n - 1]);
      assert PromptAt(b, n - 1) <==> (Grants(b.states[n - 1], b.steps[n - 1]) ==> SampledAfterReleases(b.states[n - 1], b.steps[n - 1]));
    }
  }

  /**
   A lease taken after a release may be dated before that release, when its clock sample was taken earlier. Recorded
   acquisition times alone therefore do not separate tenures; the clock of the claim does.
   */
  lemma ClaimMayPredateRelease() returns (b: Behaviour)
    ensures IsBehaviour(b)
    ensures var s := b.states[|b.steps|];
      && s.cell.Some? && |s.past| == 1 && s.past[0].released
      && s.cell.value.acquiredAt < s.past[0].until <= s.since
  {
    NotBlank();
    hide Blank;
    var s0 := System(10, 100, None, 0, map[], {}, []);
    b := Behaviour([s0], []);
    b := Extend(b, SampleClaim(1));
    b := Extend(b, Claim(1, "l1", "w1"));
    b := Extend(b, Start(1));
    b := Extend(b, SampleClaim(2));
    b := Extend(b, Tick(20));
    b := Extend(b, Abort(1));
    b := Extend(b, Release(1));
    b := Extend(b, Claim(2, "l2", "w2"));
  }

  /** Taking one more enabled step. */
  lemma Extend(b: Behaviour, step: Step) returns (longer: Behaviour)
    requires IsBehaviour(b) && |b.states| == |b.steps| + 1 && Next(b.states[|b.steps|], step).Some?
    ensures IsBehaviour(longer) && |longer.states| == |longer.steps| + 1 && longer.steps == b.steps + [step]
    ensures longer.states[|longer.steps|] == Next(b.states[|b.steps|], step).value
  {
    hide Next;
    var n := |b.steps|;
    longer := Behaviour(b.states + [Next(b.states[n], step).value], b.steps + [step]);
    forall i | 0 <= i <= n ensures StepAt(longer, i) {
      if i < n { assert StepAt(b, i); }
    }
  }

  lemma NotBlank()
    ensures !Blank("l1") && !Blank("w1") && !Blank("l2") && !Blank("w2")
  {
    assert !IsSpace("l1"[0]) && !IsSpace("w1"[0]) && !IsSpace("l2"[0]) && !IsSpace("w2"[0]);
  }
}
