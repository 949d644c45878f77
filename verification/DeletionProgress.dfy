/** Which events a deletion accepts, told from the stage they lead to, and what the deletion shows after each of them. */
module DeletionProgress {
  import opened Common
  import opened AccountState
  import opened Deletion

  /** The stages from which a deletion may enter `to`. */
  function Sources(to: Stage): set<Stage> {
    match to
    case StoppingSessions => {Requested, RetryWait, BlockedStage}
    case RevokingCredentials => {StoppingSessions, RetryWait, BlockedStage}
    case CleaningProfile => {RevokingCredentials, RetryWait, BlockedStage}
    case RetryWait => {StoppingSessions, RevokingCredentials, CleaningProfile}
    case BlockedStage => {Requested, StoppingSessions, RevokingCredentials, CleaningProfile, RetryWait}
    case Tombstoned => {CleaningProfile}
    case _ => {}
  }

  /** What the checkpoints recorded so far, together with the event's, demand of the stage it leads to. */
  predicate Checkpointed(s: DeletionSnapshot, e: DeletionEvent) {
    var stopped, revoked, acted :=
      s.flags.sessionsStopped || e.flags.sessionsStopped, s.flags.credentialsRevoked || e.flags.credentialsRevoked,
      s.flags.profileActionApplied || e.flags.profileActionApplied;
    && (revoked ==> stopped) && (acted ==> revoked)
    && (e.to == CleaningProfile ==> revoked) && (e.to == Tombstoned ==> acted)
    && (s.stage in {RetryWait, BlockedStage} ==>
          && (e.to == StoppingSessions ==> !s.flags.sessionsStopped)
          && (e.to == RevokingCredentials ==> s.flags.sessionsStopped && !s.flags.credentialsRevoked)
          && (e.to == CleaningProfile ==> s.flags.credentialsRevoked))
  }

  /** A new event is accepted exactly when it fits the deletion, leads on from its stage, and its checkpoints are in order. */
  lemma AcceptedIffSource(s: DeletionSnapshot, e: DeletionEvent)
    requires Valid(s) && ValidEvent(e) && e.eventID !in s.applied
    ensures ApplyDeletion(s, e).Ok? <==>
      && e.deletionID == s.deletionID && e.accountID == s.accountID
      && e.from == s.stage && s.stage in Sources(e.to)
      && e.expectedRevision == s.revision < MAX_UINT64 && e.occurredAt >= s.updatedAt
      && Checkpointed(s, e)
  {
    hide IndexValid, ValidIdentifier;
  }

  /** After an accepted event a deletion shows that event's stage, time, attempt, retry time and failure; a tombstone clears the last two. */
  lemma ShowsLastEvent(r: Run, i: nat)
    requires IsRun(r) && 0 < i <= |r.events|
    ensures var s, e := r.states[i], r.events[i - 1];
      && s.stage == e.to && r.states[i - 1].stage == e.from && s.updatedAt == e.occurredAt && s.attempt == e.attempt
      && s.nextAttemptAt == (if e.to == Tombstoned then 0 else e.nextAttemptAt)
      && s.failure == (if e.to == Tombstoned then NoFailure else e.failure)
      && s.completedAt == (if e.to == Tombstoned then e.occurredAt else 0)
  {
    hide Valid, ValidEvent, CheckpointsAllow;
    assert StepAt(r, i - 1);
    RunKeeps(r, i - 1);
    assert r.states[i - 1].completedAt == 0 by { NotYetCompleted(r, i - 1); }
  }

  lemma NotYetCompleted(r: Run, i: nat)
    requires IsRun(r) && i < |r.events|
    ensures r.states[i].completedAt == 0
  {
    hide IndexValid, IdentityValid, ValidEvent, CheckpointsAllow;
    assert StepAt(r, i);
    RunKeeps(r, i);
  }

  /** Who is deleted, why and how does not change over a run. */
  lemma {:induction false} IdentityIsKept(r: Run, i: nat)
    requires IsRun(r) && i <= |r.events|
    ensures var s, first := r.states[i], r.states[0];
      && s.deletionID == first.deletionID && s.accountID == first.accountID && s.accountLabel == first.accountLabel
      && s.lastBusinessStatus == first.lastBusinessStatus && s.actor == first.actor && s.reasonClass == first.reasonClass
      && s.policy == first.policy && s.requestedAt == first.requestedAt
  {
    hide Valid, ValidEvent, CheckpointsAllow;
    if i > 0 {
      IdentityIsKept(r, i - 1);
      assert StepAt(r, i - 1);
    }
  }

  /** The event that puts a deletion into a waiting stage, with what is to be remembered of the failure. */
  function Pause(s: DeletionSnapshot, id: string, to: Stage, at: Instant, attempt: nat, next: Instant, failure: FailureClass): DeletionEvent {
    DeletionEvent(id, s.deletionID, s.accountID, s.actor, s.reasonClass, s.revision, s.stage, to, at, attempt, next, failure, NONE_SET)
  }

  /**
   A reachable deletion at work can wait for a retry at any later time, and one that is neither blocked nor over can be
   blocked; attempt, retry time and failure are remembered as given.
   */
  lemma CanPause(s: DeletionSnapshot, id: string, to: Stage, at: Instant, attempt: nat, next: Instant, failure: FailureClass)
    requires ReachableDeletion(s) && s.revision < MAX_UINT64 && ValidIdentifier(id) && id !in s.applied
    requires at >= s.updatedAt && at != 0 && (next == 0 || next >= at) && !failure.UndeclaredFailure?
    requires || (to == RetryWait && s.stage.Checkpoint())
             || (to == BlockedStage && s.stage != BlockedStage && s.stage != Tombstoned)
    ensures var o := ApplyDeletion(s, Pause(s, id, to, at, attempt, next, failure));
      && o.Ok? && !o.value.idempotent
      && var t := o.value.state;
      && t.stage == to && t.attempt == attempt && t.nextAttemptAt == next && t.failure == failure && t.flags == s.flags
      && t.revision == s.revision + 1
  {
    hide IndexValid, ValidIdentifier, ReachableDeletion;
    ReachableIsValid(s);
    AcceptedIffSource(s, Pause(s, id, to, at, attempt, next, failure));
  }
}
