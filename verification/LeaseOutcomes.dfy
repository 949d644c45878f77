/**
 What becomes of a session run, told from the steps of a behaviour alone: when its claim is granted, when it starts, when
 a heartbeat is stored, and exactly when it has succeeded.
 */
module LeaseOutcomes {
  import opened Common
  import opened Lease
  import opened LeaseProtocol

  // ----- What a run has seen -----

  ghost predicate Happened(b: Behaviour, low: nat, high: nat, step: Step) {
    exists i | low <= i < high && i < |b.steps| :: b.steps[i] == step
  }

  /** The lease in the cell after the latest heartbeat that `r` stored before state `n`. */
  ghost function Renewed(b: Behaviour, n: nat, r: RunID): Lease
    requires |b.states| == |b.steps| + 1 && n <= |b.steps|
  {
    if n == 0 then NO_LEASE
    else if b.steps[n - 1] == StoreBeat(r) && b.states[n].cell.Some? then b.states[n].cell.value
    else Renewed(b, n - 1, r)
  }

  /** The lease `r` last copied before state `n`: the one in the cell after its claim, or its latest heartbeat at the time of copying. */
  ghost function Copied(b: Behaviour, n: nat, r: RunID): Lease
    requires |b.states| == |b.steps| + 1 && n <= |b.steps|
  {
    if n == 0 then NO_LEASE
    else if b.steps[n - 1].Claim? && b.steps[n - 1].r == r && b.states[n].cell.Some? then b.states[n].cell.value
    else if b.steps[n - 1] == CopyBeat(r) then Renewed(b, n - 1, r)
    else Copied(b, n - 1, r)
  }

  ghost predicate Leased(s: System, r: RunID) { r in s.runs && s.runs[r].Leased() }

  /** What a step does to the copies a run keeps. */
  lemma CopiesStep(s: System, step: Step, r: RunID)
    requires Inv(s) && Next(s, step).Some?
    ensures var t := Next(s, step).value;
      && (Leased(s, r) ==> Leased(t, r))
      && (Leased(t, r) && !Leased(s, r) ==>
            step.Claim? && step.r == r && t.cell == Some(t.runs[r].local) && t.runs[r].beat.Resting?)
      && (Leased(s, r) ==>
            && !(step.Claim? && step.r == r)
            && t.runs[r].local == (if step == CopyBeat(r) && s.runs[r].beat.Stored? then s.runs[r].beat.updated else s.runs[r].local)
            && (step == CopyBeat(r) ==> s.runs[r].beat.Stored?)
            && (t.runs[r].beat.Stored? ==>
                  if step == StoreBeat(r) then t.cell == Some(t.runs[r].beat.updated) else t.runs[r].beat == s.runs[r].beat))
  {
    hide HeartbeatLease, AcquireLease, ReleaseLease;
    assert r in s.runs ==> RunOk(s, s.runs[r]);
    hide RunOk, CellOk, Distinct;
  }

  /** A run's own copy is the last one it copied, and a heartbeat in hand is the last one it stored. */
  lemma {:induction false} CopyIsCopied(b: Behaviour, n: nat, r: RunID)
    requires IsBehaviour(b) && n <= |b.steps| && Leased(b.states[n], r)
    ensures b.states[n].runs[r].local == Copied(b, n, r)
    ensures b.states[n].runs[r].beat.Stored? ==> b.states[n].runs[r].beat.updated == Renewed(b, n, r)
  {
    hide Next, Inv;
    assert n > 0;
    assert StepAt(b, n - 1);
    BehaviourKeepsInv(b, n - 1);
    CopiesStep(b.states[n - 1], b.steps[n - 1], r);
    if Leased(b.states[n - 1], r) { CopyIsCopied(b, n - 1, r); }
  }

  /** What a step does to the error flag. */
  lemma ErrorStep(s: System, step: Step, r: RunID)
    requires Inv(s) && Next(s, step).Some?
    ensures var t := Next(s, step).value;
      && (r in s.runs ==> r in t.runs)
      && (step == PostBeatError(r) ==> Leased(s, r))
      && (Leased(s, r) ==> Leased(t, r) && t.runs[r].heartbeatError == (s.runs[r].heartbeatError || step == PostBeatError(r)))
      && (Leased(t, r) && !Leased(s, r) ==> !t.runs[r].heartbeatError)
  {
    hide HeartbeatLease, AcquireLease, ReleaseLease;
    assert r in s.runs ==> RunOk(s, s.runs[r]);
    hide RunOk, CellOk, Distinct;
  }

  /** The flag says whether a heartbeat error was posted. */
  lemma {:induction false} ErrorWasPosted(b: Behaviour, n: nat, r: RunID)
    requires IsBehaviour(b) && n <= |b.steps|
    ensures Happened(b, 0, n, PostBeatError(r)) <==> Leased(b.states[n], r) && b.states[n].runs[r].heartbeatError
  {
    hide Next, Inv;
    if n > 0 {
      ErrorWasPosted(b, n - 1, r);
      assert StepAt(b, n - 1);
      BehaviourKeepsInv(b, n - 1);
      ErrorStep(b.states[n - 1], b.steps[n - 1], r);
      if b.steps[n - 1] != PostBeatError(r) { HappenedEarlier(b, 0, n, PostBeatError(r)); }
    }
  }

  // ----- The end of a run -----

  predicate Over(phase: Phase) { phase.Finishing? || phase.Succeeded? || phase.Failed? || phase.Released? }

  /** Steps after the finish sample: what a report and a release make of the run. */
  lemma EndStep(s: System, step: Step, r: RunID)
    requires Inv(s) && Next(s, step).Some?
    ensures var t := Next(s, step).value;
      && (r in s.runs && Over(s.runs[r].phase) ==> r in t.runs && Over(t.runs[r].phase) && step != SampleFinish(r))
      && (step == SampleFinish(r) ==> r in t.runs && t.runs[r].phase.Finishing?)
      && (r in t.runs && t.runs[r].phase.Succeeded? ==>
            || (r in s.runs && s.runs[r].phase.Succeeded? && step != Release(r))
            || (step.Report? && step.r == r))
      && (r in s.runs && s.runs[r].phase.Succeeded? && step != Release(r) ==> r in t.runs && t.runs[r].phase.Succeeded?)
  {
    hide HeartbeatLease, AcquireLease, ReleaseLease;
    assert r in s.runs ==> RunOk(s, s.runs[r]);
    hide RunOk, CellOk, Distinct;
  }

  lemma {:induction false} FinishIsSampledOnce(b: Behaviour, f: nat, n: nat, r: RunID)
    requires IsBehaviour(b) && f < n <= |b.steps| && b.steps[f] == SampleFinish(r)
    ensures r in b.states[n].runs && Over(b.states[n].runs[r].phase)
    ensures n < |b.steps| ==> b.steps[n] != SampleFinish(r)
  {
    hide Next, Inv;
    if f < n - 1 { FinishIsSampledOnce(b, f, n - 1, r); }
    assert StepAt(b, n - 1);
    BehaviourKeepsInv(b, n - 1);
    EndStep(b.states[n - 1], b.steps[n - 1], r);
    if n < |b.steps| {
      assert StepAt(b, n);
      BehaviourKeepsInv(b, n);
      EndStep(b.states[n], b.steps[n], r);
    }
  }

  /** A report, as the run that makes it sees it. */
  lemma ReportStep(s: System, step: Step, r: RunID)
    requires Inv(s) && Next(s, step).Some? && step.Report? && step.r == r
    ensures var t := Next(s, step).value;
      && Leased(s, r) && s.runs[r].phase.Finishing? && r in t.runs
      && (t.runs[r].phase.Succeeded? <==>
            && step == Report(r, true, false) && !s.runs[r].heartbeatError
            && s.runs[r].phase.finishedAt < s.runs[r].local.expiresAt)
  {
    hide Inv;
  }

  /** Step `i` is the report that makes `r` succeed, on the clock sampled at step `f`. */
  ghost predicate SuccessfulReport(b: Behaviour, f: nat, i: nat, r: RunID) {
    && |b.states| == |b.steps| + 1 && f < i < |b.steps|
    && b.steps[f] == SampleFinish(r) && b.steps[i] == Report(r, true, false)
    && !Happened(b, 0, i, PostBeatError(r))
    && b.states[f].clock < Copied(b, i, r).expiresAt
  }

  /** A report succeeds by what went before it. */
  lemma ReportSucceedsIff(b: Behaviour, i: nat, r: RunID) returns (f: nat)
    requires IsBehaviour(b) && i < |b.steps| && b.steps[i].Report? && b.steps[i].r == r
    ensures f < i && b.steps[f] == SampleFinish(r)
    ensures r in b.states[i + 1].runs
    ensures b.states[i + 1].runs[r].phase.Succeeded? <==> SuccessfulReport(b, f, i, r)
  {
    hide Next, Inv, Happened, Copied;
    assert StepAt(b, i);
    BehaviourKeepsInv(b, i);
    ReportStep(b.states[i], b.steps[i], r);
    f := FinishWasSampled(b, i, r);
    ErrorWasPosted(b, i, r);
    CopyIsCopied(b, i, r);
  }

  lemma {:induction false} SucceededByReport(b: Behaviour, j: nat, r: RunID) returns (f: nat, i: nat)
    requires IsBehaviour(b) && j <= |b.steps| && r in b.states[j].runs && b.states[j].runs[r].phase.Succeeded?
    ensures i < j && SuccessfulReport(b, f, i, r) && !Happened(b, i, j, Release(r))
  {
    hide Next, Inv, SuccessfulReport;
    assert j > 0;
    assert StepAt(b, j - 1);
    BehaviourKeepsInv(b, j - 1);
    EndStep(b.states[j - 1], b.steps[j - 1], r);
    if b.steps[j - 1].Report? && b.steps[j - 1].r == r {
      i := j - 1;
      f := ReportSucceedsIff(b, i, r);
    } else {
      f, i := SucceededByReport(b, j - 1, r);
      HappenedEarlier(b, i, j, Release(r));
    }
  }

  lemma HappenedEarlier(b: Behaviour, low: nat, high: nat, step: Step)
    requires 0 < high <= |b.steps| && b.steps[high - 1] != step
    ensures Happened(b, low, high, step) ==> Happened(b, low, high - 1, step)
  {
  }

  lemma {:induction false} SuccessStays(b: Behaviour, i: nat, j: nat, r: RunID)
    requires IsBehaviour(b) && i <= j <= |b.steps| && r in b.states[i].runs && b.states[i].runs[r].phase.Succeeded?
    requires !Happened(b, i, j, Release(r))
    ensures r in b.states[j].runs && b.states[j].runs[r].phase.Succeeded?
  {
    hide Next, Inv;
    if i < j {
      SuccessStays(b, i, j - 1, r);
      assert StepAt(b, j - 1);
      BehaviourKeepsInv(b, j - 1);
      EndStep(b.states[j - 1], b.steps[j - 1], r);
    }
  }

  /**
   A run has succeeded at state `j` exactly when an earlier step reported its worker's success without trouble in closing,
   no heartbeat error had been posted by then, the lease it had last copied was unexpired at the clock of its finish
   sample, and it has not returned its lease since.
   */
  lemma SucceededIff(b: Behaviour, j: nat, r: RunID)
    requires IsBehaviour(b) && j <= |b.steps|
    ensures r in b.states[j].runs && b.states[j].runs[r].phase.Succeeded?
      <==> exists f: nat, i: nat | i < j :: SuccessfulReport(b, f, i, r) && !Happened(b, i, j, Release(r))
  {
    hide Next, Inv, Happened, Copied;
    if r in b.states[j].runs && b.states[j].runs[r].phase.Succeeded? {
      var f, i := SucceededByReport(b, j, r);
    }
    if f: nat, i: nat :| i < j && SuccessfulReport(b, f, i, r) && !Happened(b, i, j, Release(r)) {
      var g := ReportSucceedsIff(b, i, r);
      if f < g { FinishIsSampledOnce(b, f, g, r); } else if g < f { FinishIsSampledOnce(b, g, f, r); }
      NotReleasedAfter(b, i, j, r);
      SuccessStays(b, i + 1, j, r);
    }
  }

  lemma NotReleasedAfter(b: Behaviour, i: nat, j: nat, r: RunID)
    requires !Happened(b, i, j, Release(r))
    ensures !Happened(b, i + 1, j, Release(r))
  {
  }

  // ----- The way there -----

  /** A claim is granted exactly when its identifiers are not blank and the cell is empty or expired at the claim's sample. */
  lemma ClaimIsGrantedIff(b: Behaviour, i: nat)
    requires IsBehaviour(b) && i < |b.steps| && b.steps[i].Claim?
    ensures var s, t, step := b.states[i], b.states[i + 1], b.steps[i];
      && step.r in s.runs && s.runs[step.r].phase.Claiming? && step.r in t.runs
      && var now := s.runs[step.r].phase.sampled;
      if !Blank(step.leaseID) && !Blank(step.owner) && (s.cell.None? || s.cell.value.expiresAt <= now) then
        && t.runs[step.r].phase.Granted?
        && t.cell == Some(Lease(step.leaseID, step.owner, now, now, now + s.ttl)) && t.runs[step.r].local == t.cell.value
      else t.runs[step.r].phase.Refused? && t.cell == s.cell
  {
    hide Blank;
    assert StepAt(b, i);
    BehaviourKeepsInv(b, i);
    assert RunOk(b.states[i], b.states[i].runs[b.steps[i].r]);
  }

  /** A granted run starts exactly if the lease it was granted is unexpired by the clock of its start; otherwise it fails. */
  lemma StartsIff(b: Behaviour, i: nat, r: RunID)
    requires IsBehaviour(b) && i < |b.steps| && b.steps[i] == Start(r)
    ensures r in b.states[i + 1].runs
    ensures b.states[i + 1].runs[r].phase ==
      (if b.states[i].clock < Copied(b, i, r).expiresAt then Running else Failed)
  {
    hide Inv, Copied;
    assert StepAt(b, i);
    CopyIsCopied(b, i, r);
  }

  /**
   A heartbeat is stored exactly when the cell still holds the run's lease, unexpired at the heartbeat's sample and not
   heartbeat later than it; then it expires one span after the sample. Otherwise the cell is unchanged.
   */
  lemma BeatIsStoredIff(b: Behaviour, i: nat, r: RunID)
    requires IsBehaviour(b) && i < |b.steps| && b.steps[i] == StoreBeat(r)
    ensures var s, t, mine := b.states[i], b.states[i + 1], Copied(b, i, r);
      && Leased(s, r) && s.runs[r].beat.Sampled? && r in t.runs
      && var at := s.runs[r].beat.at;
      if s.cell.Some? && s.cell.value.OwnedBy(mine.leaseID, mine.owner)
         && s.cell.value.lastHeartbeat <= at < s.cell.value.expiresAt then
        && t.cell == Some(s.cell.value.(lastHeartbeat := at, expiresAt := at + s.ttl)) && t.runs[r].beat == Stored(t.cell.value)
      else t.cell == s.cell && t.runs[r].beat.Failing?
  {
    hide Copied, Blank;
    assert StepAt(b, i);
    BehaviourKeepsInv(b, i);
    assert RunOk(b.states[i], b.states[i].runs[r]);
    CopyIsCopied(b, i, r);
  }

  /** Returning a lease empties the cell exactly if it still holds that lease. */
  lemma ReleaseEmptiesIff(b: Behaviour, i: nat, r: RunID)
    requires IsBehaviour(b) && i < |b.steps| && b.steps[i] == Release(r)
    ensures var s, mine := b.states[i], Copied(b, i, r);
      && r in b.states[i + 1].runs && b.states[i + 1].runs[r].phase.Released?
      && b.states[i + 1].cell == (if s.cell.Some? && s.cell.value.OwnedBy(mine.leaseID, mine.owner) then None else s.cell)
  {
    hide Copied, Blank;
    assert StepAt(b, i);
    BehaviourKeepsInv(b, i);
    CopyIsCopied(b, i, r);
  }

  /** The cell holds the run's own copy of its lease, unexpired, and no heartbeat failed. */
  ghost predicate Fresh(s: System, r: RunID) {
    r in s.runs && s.cell == Some(s.runs[r].local) && s.clock < s.runs[r].local.expiresAt && !s.runs[r].heartbeatError
  }

  lemma CanClaim(b: Behaviour, r: RunID, leaseID: string, owner: string) returns (longer: Behaviour)
    requires IsBehaviour(b)
    requires var s := b.states[|b.steps|];
      && r !in s.runs && leaseID !in s.used && !Blank(leaseID) && !Blank(owner)
      && (s.cell.Some? ==> s.cell.value.expiresAt <= s.clock)
    ensures IsBehaviour(longer) && longer.steps == b.steps + [SampleClaim(r), Claim(r, leaseID, owner)]
    ensures var t := longer.states[|longer.steps|]; Fresh(t, r) && t.runs[r].phase.Granted? && t.runs[r].beat.Resting?
  {
    hide Blank;
    var s := b.states[|b.steps|];
    BehaviourKeepsInv(b, |b.steps|);
    assert CellOk(s);
    hide RunOk, Distinct, IsBehaviour;
    longer := Extend(b, SampleClaim(r));
    longer := Extend(longer, Claim(r, leaseID, owner));
  }

  /** A granted run can start, finish and report success, its lease still in the cell. */
  lemma CanReport(b: Behaviour, r: RunID) returns (longer: Behaviour)
    requires IsBehaviour(b) && |b.states| == |b.steps| + 1
    requires var s := b.states[|b.steps|]; Fresh(s, r) && s.runs[r].phase.Granted? && s.runs[r].beat.Resting?
    ensures IsBehaviour(longer) && |longer.states| == |longer.steps| + 1
    ensures longer.steps == b.steps + [Start(r), SampleFinish(r), Report(r, true, false)]
    ensures var t := longer.states[|longer.steps|]; Fresh(t, r) && t.runs[r].phase.Succeeded?
  {
    hide Blank, IsBehaviour;
    longer := Extend(b, Start(r));
    longer := Extend(longer, SampleFinish(r));
    longer := Extend(longer, Report(r, true, false));
  }

  /** A run that has reported can empty the cell again. */
  lemma CanRelease(b: Behaviour, r: RunID) returns (longer: Behaviour)
    requires IsBehaviour(b) && |b.states| == |b.steps| + 1
    requires var s := b.states[|b.steps|]; Fresh(s, r) && s.runs[r].phase.Succeeded?
    ensures IsBehaviour(longer) && longer.steps == b.steps + [Release(r)] && longer.states[|longer.steps|].cell == None
  {
    hide Blank;
    BehaviourKeepsInv(b, |b.steps|);
    longer := Extend(b, Release(r));
  }

  /**
   From every reachable state in which the cell is empty or expired by the clock, a new run can claim it, succeed and
   return it.
   */
  lemma NewRunCanSucceed(b: Behaviour, r: RunID, leaseID: string, owner: string) returns (reported: Behaviour, longer: Behaviour)
    requires IsBehaviour(b)
    requires var s := b.states[|b.steps|];
      && r !in s.runs && leaseID !in s.used && !Blank(leaseID) && !Blank(owner)
      && (s.cell.Some? ==> s.cell.value.expiresAt <= s.clock)
    ensures IsBehaviour(reported) && b.steps <= reported.steps && IsBehaviour(longer) && reported.steps <= longer.steps
    ensures var t := reported.states[|reported.steps|]; r in t.runs && t.runs[r].phase.Succeeded?
    ensures longer.states[|longer.steps|].cell == None
  {
    hide Next, Blank;
    var granted := CanClaim(b, r, leaseID, owner);
    reported := CanReport(granted, r);
    longer := CanRelease(reported, r);
  }

  /** A running run whose lease is fresh can renew it at any later time before it expires. */
  lemma RunningCanRenew(b: Behaviour, r: RunID, to: Instant) returns (longer: Behaviour)
    requires IsBehaviour(b)
    requires var s := b.states[|b.steps|];
      && Fresh(s, r) && s.runs[r].phase.Running? && s.runs[r].beat.Resting?
      && s.clock <= to < s.cell.value.expiresAt && s.cell.value.lastHeartbeat <= s.clock
    ensures IsBehaviour(longer) && longer.steps == b.steps + [Tick(to), SampleBeat(r), StoreBeat(r), CopyBeat(r)]
    ensures var t := longer.states[|longer.steps|];
      Fresh(t, r) && t.runs[r].phase.Running? && t.runs[r].beat.Resting? && t.runs[r].local.expiresAt == to + t.ttl
  {
    hide Blank;
    BehaviourKeepsInv(b, |b.steps|);
    assert CellOk(b.states[|b.steps|]);
    hide RunOk, Distinct, IsBehaviour;
    longer := Extend(b, Tick(to));
    longer := Extend(longer, SampleBeat(r));
    longer := Extend(longer, StoreBeat(r));
    longer := Extend(longer, CopyBeat(r));
  }
}
