/**
 The account deletion state machine (internal/account/deletion.go): stop sessions, revoke credentials, act on the
 profile, tombstone; with a retry wait and a block in between. Proved here: every reachable deletion validates, a
 tombstone was reached through its checkpoints in order, waiting deletions resume at the first incomplete checkpoint,
 and no reachable deletion is a dead end.
 */
module Deletion {
  import opened Common
  import opened AccountState

  datatype Stage =
    | Requested | StoppingSessions | RevokingCredentials | CleaningProfile | RetryWait | BlockedStage | Tombstoned
    | UndeclaredStage(name: string)
  {
    predicate Valid() { !UndeclaredStage? }
    predicate Checkpoint() { StoppingSessions? || RevokingCredentials? || CleaningProfile? }
    predicate Waiting() { RetryWait? || BlockedStage? }
  }

  datatype Policy = Purge | Retain | UndeclaredPolicy(name: string)

  datatype FailureClass = NoFailure | Transient | Credential | Permission | Configuration | Unknown
                        | UndeclaredFailure(name: string)

  datatype Flags = Flags(sessionsStopped: bool, credentialsRevoked: bool, profileActionApplied: bool) {
    function Or(other: Flags): Flags {
      Flags(sessionsStopped || other.sessionsStopped, credentialsRevoked || other.credentialsRevoked,
            profileActionApplied || other.profileActionApplied)
    }

    /** A later checkpoint is only set once the earlier ones are. */
    predicate Ordered() {
      (credentialsRevoked ==> sessionsStopped) && (profileActionApplied ==> credentialsRevoked)
    }

    predicate All() { sessionsStopped && credentialsRevoked && profileActionApplied }
  }

  const NONE_SET := Flags(false, false, false)

  datatype DeletionEvent = DeletionEvent(
    eventID: string, deletionID: string, accountID: string, actor: string, reasonClass: string,
    expectedRevision: Uint64, from: Stage, to: Stage, occurredAt: Instant, attempt: int, nextAttemptAt: Instant,
    failure: FailureClass, flags: Flags)

  datatype DeletionAudit = DeletionAudit(event: DeletionEvent, revision: Uint64)

  datatype DeletionSnapshot = DeletionSnapshot(
    deletionID: string, accountID: string, accountLabel: string, stage: Stage, lastBusinessStatus: Status,
    actor: string, reasonClass: string, policy: Policy, revision: Uint64, requestedAt: Instant, updatedAt: Instant,
    completedAt: Instant, attempt: int, nextAttemptAt: Instant, failure: FailureClass, flags: Flags,
    applied: map<string, DeletionAudit>)

  datatype DeletionError = InvalidDeletion | Conflict | Stale | InvalidMove | Terminal | Overflow

  datatype Outcome = Outcome(state: DeletionSnapshot, audit: DeletionAudit, idempotent: bool)

  predicate ValidEvent(e: DeletionEvent) {
    && ValidIdentifier(e.eventID) && ValidIdentifier(e.deletionID) && ValidIdentifier(e.accountID)
    && ValidIdentifier(e.actor) && ValidIdentifier(e.reasonClass)
    && e.from.Valid() && e.to.Valid() && e.occurredAt != 0 && !e.failure.UndeclaredFailure? && e.attempt >= 0
    && (e.nextAttemptAt != 0 ==> e.nextAttemptAt >= e.occurredAt)
  }

  predicate Indexed(s: DeletionSnapshot, id: string, audit: DeletionAudit) {
    && id != "" && 1 <= audit.revision <= s.revision && audit.event.eventID == id
    && audit.event.deletionID == s.deletionID && audit.event.accountID == s.accountID
    && ValidEvent(audit.event)
  }

  /** The fields no event changes. */
  predicate IdentityValid(s: DeletionSnapshot) {
    && ValidIdentifier(s.deletionID) && ValidIdentifier(s.accountID) && ValidIdentifier(s.accountLabel)
    && ValidIdentifier(s.actor) && ValidIdentifier(s.reasonClass)
    && s.lastBusinessStatus.Valid() && !s.policy.UndeclaredPolicy?
    && s.requestedAt != 0
  }

  predicate ProgressValid(s: DeletionSnapshot) {
    && s.stage.Valid()
    && s.updatedAt != 0 && s.updatedAt >= s.requestedAt
    && s.attempt >= 0 && !s.failure.UndeclaredFailure?
    && (s.stage == Tombstoned ==> s.completedAt != 0 && s.completedAt == s.updatedAt)
    && (s.stage != Tombstoned ==> s.completedAt == 0)
    && (s.nextAttemptAt != 0 ==> s.nextAttemptAt >= s.updatedAt)
    && s.flags.Ordered()
    && (s.stage == Tombstoned ==> s.flags.All())
  }

  predicate IndexValid(s: DeletionSnapshot) {
    && (forall id | id in s.applied :: Indexed(s, id, s.applied[id]))
    && |s.applied| == s.revision
  }

  predicate Valid(s: DeletionSnapshot) {
    IdentityValid(s) && ProgressValid(s) && IndexValid(s)
  }

  function NewDeletion(deletionID: string, accountID: string, accountLabel: string, actor: string, reasonClass: string,
                       policy: Policy, lastStatus: Status, at: Instant): Result<DeletionSnapshot, DeletionError> {
    var s := DeletionSnapshot(deletionID, accountID, accountLabel, Requested, lastStatus, actor, reasonClass, policy, 0, at, at,
                              0, 0, 0, NoFailure, NONE_SET, map[]);
    if Valid(s) then Ok(s) else Err(InvalidDeletion)
  }

  predicate CanMove(from: Stage, to: Stage) {
    match from
    case Requested => to == StoppingSessions || to == BlockedStage
    case StoppingSessions => to == RevokingCredentials || to == RetryWait || to == BlockedStage
    case RevokingCredentials => to == CleaningProfile || to == RetryWait || to == BlockedStage
    case CleaningProfile => to == Tombstoned || to == RetryWait || to == BlockedStage
    case RetryWait => to.Checkpoint() || to == BlockedStage
    case BlockedStage => to.Checkpoint()
    case _ => false
  }

  /** Where a waiting deletion has to resume. */
  function CheckpointStage(flags: Flags): Stage {
    if !flags.sessionsStopped then StoppingSessions
    else if !flags.credentialsRevoked then RevokingCredentials
    else CleaningProfile
  }

  predicate CheckpointsAllow(s: DeletionSnapshot, e: DeletionEvent) {
    var flags := s.flags.Or(e.flags);
    && flags.Ordered()
    && (e.to == CleaningProfile ==> flags.credentialsRevoked)
    && (e.to == Tombstoned ==> flags.All())
    && (s.stage.Waiting() && e.to.Checkpoint() ==> e.to == CheckpointStage(s.flags))
  }

  /** Why a valid event that is not yet indexed is refused, if it is. */
  function Refusal(s: DeletionSnapshot, e: DeletionEvent): Option<DeletionError> {
    if s.stage == Tombstoned then Some(Terminal)
    else if e.expectedRevision != s.revision || e.from != s.stage then Some(Stale)
    else if !CanMove(e.from, e.to) then Some(InvalidMove)
    else if e.occurredAt < s.updatedAt then Some(Stale)
    else if !CheckpointsAllow(s, e) then Some(InvalidMove)
    else if s.revision == MAX_UINT64 then Some(Overflow)
    else None
  }

  function Moved(s: DeletionSnapshot, e: DeletionEvent): DeletionSnapshot
    requires s.revision < MAX_UINT64
  {
    var moved := s.(stage := e.to, revision := s.revision + 1, updatedAt := e.occurredAt, attempt := e.attempt,
                    nextAttemptAt := e.nextAttemptAt, failure := e.failure, flags := s.flags.Or(e.flags),
                    applied := s.applied[e.eventID := DeletionAudit(e, s.revision + 1)]);
    if e.to == Tombstoned then moved.(completedAt := e.occurredAt, nextAttemptAt := 0, failure := NoFailure) else moved
  }

  function ApplyDeletion(s: DeletionSnapshot, e: DeletionEvent): Result<Outcome, DeletionError> {
    if !Valid(s) || !ValidEvent(e) then Err(InvalidDeletion)
    else if e.deletionID != s.deletionID || e.accountID != s.accountID then Err(InvalidDeletion)
    else if e.eventID in s.applied then
      if s.applied[e.eventID].event == e then Ok(Outcome(s, s.applied[e.eventID], true)) else Err(Conflict)
    else if Refusal(s, e).Some? then Err(Refusal(s, e).value)
    else Ok(Outcome(Moved(s, e), DeletionAudit(e, s.revision + 1), false))
  }

  // ----- Runs -----

  /** A run from the start of a deletion: the snapshots it passes through and the events that advanced it. */
  datatype Run = Run(states: seq<DeletionSnapshot>, events: seq<DeletionEvent>)

  /** `s` is what a successful `NewDeletion` returns. */
  ghost predicate Fresh(s: DeletionSnapshot) {
    NewDeletion(s.deletionID, s.accountID, s.accountLabel, s.actor, s.reasonClass, s.policy, s.lastBusinessStatus,
                s.requestedAt) == Ok(s)
  }

  ghost predicate Advances(s: DeletionSnapshot, e: DeletionEvent, t: DeletionSnapshot) {
    ApplyDeletion(s, e).Ok? && !ApplyDeletion(s, e).value.idempotent && ApplyDeletion(s, e).value.state == t
  }

  ghost predicate StepAt(r: Run, i: int)
    requires 0 <= i < |r.events| && |r.states| == |r.events| + 1
  {
    Advances(r.states[i], r.events[i], r.states[i + 1])
  }

  ghost predicate IsRun(r: Run) {
    && |r.states| == |r.events| + 1
    && Fresh(r.states[0])
    && (forall i | 0 <= i < |r.events| :: StepAt(r, i))
  }

  ghost predicate EndsAt(r: Run, s: DeletionSnapshot) {
    IsRun(r) && r.states[|r.events|] == s
  }

  /** Reached by accepted events; exact replays and refusals change nothing, so runs need not record them. */
  ghost predicate ReachableDeletion(s: DeletionSnapshot) {
    exists r :: EndsAt(r, s)
  }

  lemma ValidEventIsNamed(e: DeletionEvent)
    ensures ValidEvent(e) ==> e.eventID != ""
  {
  }

  lemma MovedKeepsIndex(s: DeletionSnapshot, e: DeletionEvent)
    requires IndexValid(s) && s.revision < MAX_UINT64
    requires ValidEvent(e) && e.deletionID == s.deletionID && e.accountID == s.accountID && e.eventID !in s.applied
    ensures IndexValid(Moved(s, e))
  {
    ValidEventIsNamed(e);
    hide ValidEvent;
    var t := Moved(s, e);
    assert t.applied.Keys == s.applied.Keys + {e.eventID};
    forall id | id in t.applied ensures Indexed(t, id, t.applied[id]) {
      if id != e.eventID { assert Indexed(s, id, s.applied[id]); }
    }
  }

  /** Applying an event to a valid deletion yields a valid deletion. */
  lemma ApplyKeepsValid(s: DeletionSnapshot, e: DeletionEvent)
    requires ApplyDeletion(s, e).Ok?
    ensures Valid(ApplyDeletion(s, e).value.state)
  {
    hide IndexValid, ValidIdentifier;
    if !ApplyDeletion(s, e).value.idempotent { MovedKeepsIndex(s, e); }
  }

  /** What every state of a run keeps, beyond validating. */
  ghost predicate Kept(s: DeletionSnapshot) {
    && Valid(s)
    && (s.stage == CleaningProfile ==> s.flags.credentialsRevoked)
    && (s.stage == Requested ==> s.revision == 0 && s.flags == NONE_SET)
  }

  lemma {:induction false} RunKeeps(r: Run, i: nat)
    requires IsRun(r) && i <= |r.events|
    ensures Kept(r.states[i])
    ensures r.states[i].revision == i
  {
    hide IndexValid, ValidIdentifier;
    if i > 0 {
      RunKeeps(r, i - 1);
      assert StepAt(r, i - 1);
      ApplyKeepsValid(r.states[i - 1], r.events[i - 1]);
    }
  }

  /** Every reachable deletion validates, and cleaning the profile implies that the credentials are gone. */
  lemma ReachableIsValid(s: DeletionSnapshot)
    requires ReachableDeletion(s)
    ensures Valid(s)
    ensures s.stage == CleaningProfile ==> s.flags.credentialsRevoked
  {
    var r :| EndsAt(r, s);
    RunKeeps(r, |r.events|);
  }

  // ----- Checkpoints over a run -----

  ghost function FlagsUpTo(events: seq<DeletionEvent>): Flags
    decreases |events|
  {
    if events == [] then NONE_SET else FlagsUpTo(events[..|events| - 1]).Or(events[|events| - 1].flags)
  }

  /** The flags of a snapshot are the disjunction over all events applied so far. */
  lemma {:induction false} FlagsAreTheDisjunction(r: Run, i: nat)
    requires IsRun(r) && i <= |r.events|
    ensures r.states[i].flags == FlagsUpTo(r.events[..i])
  {
    hide IndexValid, ValidIdentifier;
    if i > 0 {
      FlagsAreTheDisjunction(r, i - 1);
      assert StepAt(r, i - 1);
      assert r.events[..i][..i - 1] == r.events[..i - 1];
    }
  }

  /** Events applied in a run are the ones the snapshot indexes, with their position as revision. */
  lemma {:induction false} RunIsIndexed(r: Run, i: nat, k: nat)
    requires IsRun(r) && k < i <= |r.events| <= MAX_UINT64
    ensures r.events[k].eventID in r.states[i].applied
    ensures r.states[i].applied[r.events[k].eventID] == DeletionAudit(r.events[k], k + 1)
  {
    hide IndexValid, ValidIdentifier;
    RunKeeps(r, i - 1);
    assert StepAt(r, i - 1);
    if k < i - 1 { RunIsIndexed(r, i - 1, k); }
  }

  lemma {:induction false} FlagsOnlyGrow(r: Run, i: nat, j: nat)
    requires IsRun(r) && i <= j <= |r.events|
    ensures r.states[j].flags == r.states[i].flags.Or(r.states[j].flags)
    decreases j - i
  {
    hide IndexValid, ValidIdentifier;
    if i < j {
      FlagsOnlyGrow(r, i, j - 1);
      assert StepAt(r, j - 1);
    }
  }

  /** `step` is where the chosen checkpoint was set for the first time. */
  ghost predicate FirstSet(r: Run, get: Flags -> bool, step: int)
    requires IsRun(r)
  {
    && 0 <= step < |r.events|
    && !get(r.states[step].flags) && get(r.states[step + 1].flags) && get(r.events[step].flags)
  }

  lemma {:induction false} FindFirst(r: Run, get: Flags -> bool, i: nat) returns (step: nat)
    requires IsRun(r) && i <= |r.events| && get(r.states[i].flags) && !get(NONE_SET)
    requires forall a: Flags, b: Flags :: get(a.Or(b)) <==> get(a) || get(b)
    ensures FirstSet(r, get, step) && step < i
  {
    hide IndexValid, ValidIdentifier;
    assert i > 0;
    assert StepAt(r, i - 1);
    if get(r.states[i - 1].flags) { step := FindFirst(r, get, i - 1); } else { step := i - 1; }
  }

  /**
   A tombstone was earned: sessions, credentials and profile were first checkpointed in that order, and the credentials
   strictly before the event that wrote the tombstone.
   */
  lemma TombstoneWasEarned(r: Run, s: DeletionSnapshot) returns (a: nat, b: nat, c: nat)
    requires EndsAt(r, s) && s.stage == Tombstoned
    ensures FirstSet(r, (f: Flags) => f.sessionsStopped, a)
    ensures FirstSet(r, (f: Flags) => f.credentialsRevoked, b)
    ensures FirstSet(r, (f: Flags) => f.profileActionApplied, c)
    ensures a <= b <= c && b < |r.events| - 1
  {
    hide IndexValid, ValidIdentifier;
    hide ApplyDeletion, Valid;
    var n := |r.events|;
    TombstoneFromCleaning(r);
    a := FindFirst(r, (f: Flags) => f.sessionsStopped, n);
    b := FindFirst(r, (f: Flags) => f.credentialsRevoked, n - 1);
    c := FindFirst(r, (f: Flags) => f.profileActionApplied, n);
    RunKeepsOrder(r, b + 1);
    RunKeepsOrder(r, c + 1);
    if b < a { FlagsOnlyGrow(r, b + 1, a); }
    if c < b { FlagsOnlyGrow(r, c + 1, b); }
  }

  lemma RunKeepsOrder(r: Run, i: nat)
    requires IsRun(r) && i <= |r.events|
    ensures r.states[i].flags.Ordered()
  {
    RunKeeps(r, i);
  }

  lemma TombstoneFromCleaning(r: Run)
    requires IsRun(r) && r.states[|r.events|].stage == Tombstoned
    ensures |r.events| > 0 && r.states[|r.events|].flags.All()
    ensures r.states[|r.events| - 1].stage == CleaningProfile
    ensures r.states[|r.events| - 1].flags.credentialsRevoked
  {
    hide IndexValid, ValidIdentifier;
    var n := |r.events|;
    RunKeeps(r, n);
    assert StepAt(r, n - 1);
    RunKeeps(r, n - 1);
  }

  /** A waiting deletion accepts a checkpoint stage exactly when it is the first incomplete one. */
  lemma ResumesAtFirstIncomplete(s: DeletionSnapshot, e: DeletionEvent)
    requires Valid(s) && s.stage.Waiting() && ValidEvent(e) && e.to.Checkpoint()
    requires e.deletionID == s.deletionID && e.accountID == s.accountID && e.eventID !in s.applied
    requires e.expectedRevision == s.revision < MAX_UINT64 && e.from == s.stage && e.occurredAt >= s.updatedAt
    requires s.flags.Or(e.flags).Ordered()
    ensures ApplyDeletion(s, e).Ok? <==>
            e.to == (if !s.flags.sessionsStopped then StoppingSessions
                     else if !s.flags.credentialsRevoked then RevokingCredentials else CleaningProfile)
  {
    hide IndexValid, ValidIdentifier;
  }

  /** Revoking credentials does not imply that sessions were recorded as stopped: a run that gets there without. */
  lemma RevokingBeforeStopping(s: DeletionSnapshot, first: DeletionEvent, second: DeletionEvent)
    requires Fresh(s) && ValidEvent(first) && ValidEvent(second)
    requires first.deletionID == second.deletionID == s.deletionID && first.accountID == second.accountID == s.accountID
    requires first.eventID != second.eventID && first.expectedRevision == 0 && second.expectedRevision == 1
    requires first.from == Requested && first.to == StoppingSessions == second.from && second.to == RevokingCredentials
    requires s.updatedAt <= first.occurredAt <= second.occurredAt && first.flags == second.flags == NONE_SET
    ensures ApplyDeletion(s, first).Ok?
    ensures var t := ApplyDeletion(s, first).value.state;
      && ApplyDeletion(t, second).Ok?
      && ApplyDeletion(t, second).value.state.stage == RevokingCredentials
      && !ApplyDeletion(t, second).value.state.flags.sessionsStopped
  {
    hide IndexValid, ValidIdentifier;
    ApplyKeepsValid(s, first);
  }

  /**
   When a deletion that moves on to revoking credentials has its sessions recorded as stopped: exactly when it resumes from
   a waiting stage, or the flag was set before, or the event itself sets it.
   */
  lemma RevokingHasStoppedIff(s: DeletionSnapshot, e: DeletionEvent)
    requires ApplyDeletion(s, e).Ok? && !ApplyDeletion(s, e).value.idempotent && e.to == RevokingCredentials
    ensures ApplyDeletion(s, e).value.state.stage == RevokingCredentials
    ensures ApplyDeletion(s, e).value.state.flags.sessionsStopped
      <==> s.stage.Waiting() || s.flags.sessionsStopped || e.flags.sessionsStopped
  {
    hide Valid, ValidEvent;
  }

  lemma {:induction false} FlagWasCarried(events: seq<DeletionEvent>)
    ensures FlagsUpTo(events).sessionsStopped <==> exists k :: 0 <= k < |events| && events[k].flags.sessionsStopped
  {
    if events != [] {
      var shorter := events[..|events| - 1];
      FlagWasCarried(shorter);
      if k :| 0 <= k < |events| && events[k].flags.sessionsStopped {
        assert k < |shorter| ==> shorter[k] == events[k];
      }
      if k :| 0 <= k < |shorter| && shorter[k].flags.sessionsStopped { assert events[k] == shorter[k]; }
    }
  }

  /**
   Over runs: a deletion that is revoking credentials has its sessions recorded as stopped exactly when it has just resumed
   from a waiting stage or some event applied so far carried the flag.
   */
  lemma RunRevokingHasStoppedIff(r: Run, i: nat)
    requires IsRun(r) && i <= |r.events| && r.states[i].stage == RevokingCredentials
    ensures i > 0
    ensures r.states[i].flags.sessionsStopped
      <==> r.states[i - 1].stage.Waiting() || exists k :: 0 <= k < i && r.events[k].flags.sessionsStopped
  {
    hide Valid, ValidEvent, FlagsUpTo;
    assert i > 0;
    assert StepAt(r, i - 1);
    RevokingHasStoppedIff(r.states[i - 1], r.events[i - 1]);
    FlagsAreTheDisjunction(r, i);
    FlagWasCarried(r.events[..i]);
    assert forall k | 0 <= k < i :: r.events[..i][k] == r.events[k];
  }

  // ----- No dead ends -----

  ghost predicate FreshIDs(s: DeletionSnapshot, ids: seq<string>) {
    && (forall i | 0 <= i < |ids| :: ValidIdentifier(ids[i]) && ids[i] !in s.applied)
    && (forall i, j | 0 <= i < j < |ids| :: ids[i] != ids[j])
  }

  /** Applying `events` in order, each of them accepted as new. */
  ghost function Advance(s: DeletionSnapshot, events: seq<DeletionEvent>): Option<DeletionSnapshot>
    decreases |events|
  {
    if events == [] then Some(s)
    else
      match ApplyDeletion(s, events[0])
      case Err(_) => None
      case Ok(o) => if o.idempotent then None else Advance(o.state, events[1..])
  }

  /** The stage that completes a deletion from `stage`, and the flags to record with it. */
  function NextStage(stage: Stage, flags: Flags): Stage {
    match stage
    case Requested => StoppingSessions
    case StoppingSessions => RevokingCredentials
    case RevokingCredentials => CleaningProfile
    case CleaningProfile => Tombstoned
    case _ => CheckpointStage(flags)
  }

  function NextEvent(s: DeletionSnapshot, id: string): DeletionEvent {
    var to := NextStage(s.stage, s.flags);
    DeletionEvent(id, s.deletionID, s.accountID, s.actor, s.reasonClass, s.revision, s.stage, to, s.updatedAt, 0, 0,
                  NoFailure,
                  if to == CleaningProfile then Flags(true, true, false)
                  else if to == Tombstoned then Flags(true, true, true)
                  else NONE_SET)
  }

  /** How many events a deletion is from its tombstone at most. */
  function Distance(s: DeletionSnapshot): nat {
    match s.stage
    case Requested => 4
    case StoppingSessions => 3
    case RevokingCredentials => 2
    case CleaningProfile => 1
    case RetryWait => if !s.flags.sessionsStopped then 4 else if !s.flags.credentialsRevoked then 3 else 2
    case BlockedStage => if !s.flags.sessionsStopped then 4 else if !s.flags.credentialsRevoked then 3 else 2
    case _ => 0
  }

  lemma NextEventAdvances(s: DeletionSnapshot, id: string)
    requires Kept(s) && s.stage != Tombstoned && s.revision < MAX_UINT64
    requires ValidIdentifier(id) && id !in s.applied
    ensures var o := ApplyDeletion(s, NextEvent(s, id));
      && o.Ok? && !o.value.idempotent
      && Kept(o.value.state) && Distance(o.value.state) == Distance(s) - 1
      && o.value.state.revision == s.revision + 1
      && o.value.state.applied == s.applied[id := DeletionAudit(NextEvent(s, id), s.revision + 1)]
  {
    hide IndexValid, ValidIdentifier;
    assert ApplyDeletion(s, NextEvent(s, id)).Ok?;
    ApplyKeepsValid(s, NextEvent(s, id));
  }

  lemma {:induction false} CompletesWithin(s: DeletionSnapshot, ids: seq<string>) returns (events: seq<DeletionEvent>)
    requires Kept(s) && |ids| >= Distance(s) && FreshIDs(s, ids) && s.revision + Distance(s) <= MAX_UINT64
    ensures |events| == Distance(s)
    ensures Advance(s, events).Some? && Advance(s, events).value.stage == Tombstoned
    decreases Distance(s)
  {
    hide IndexValid, ValidIdentifier;
    if Distance(s) == 0 {
      events := [];
    } else {
      NextEventAdvances(s, ids[0]);
      var e := NextEvent(s, ids[0]);
      var t := ApplyDeletion(s, e).value.state;
      assert FreshIDs(t, ids[1..]) by {
        forall i | 0 <= i < |ids[1..]| ensures ids[1..][i] !in t.applied { assert ids[1..][i] == ids[i + 1] != ids[0]; }
      }
      var rest := CompletesWithin(t, ids[1..]);
      events := [e] + rest;
      assert events[1..] == rest;
    }
  }

  /** From every reachable deletion at most four accepted events reach the tombstone. */
  lemma NoDeadEnds(s: DeletionSnapshot, ids: seq<string>) returns (events: seq<DeletionEvent>)
    requires ReachableDeletion(s) && s.stage != Tombstoned
    requires |ids| == 4 && FreshIDs(s, ids) && s.revision <= MAX_UINT64 - 4
    ensures 1 <= |events| <= 4
    ensures Advance(s, events).Some? && Advance(s, events).value.stage == Tombstoned
  {
    var r :| EndsAt(r, s);
    RunKeeps(r, |r.events|);
    events := CompletesWithin(s, ids);
  }

  /** After the tombstone only exact replays succeed, and they change nothing. */
  lemma TombstoneIsFinal(s: DeletionSnapshot, e: DeletionEvent)
    requires s.stage == Tombstoned
    ensures ApplyDeletion(s, e).Ok? <==>
            Valid(s) && ValidEvent(e) && e.eventID in s.applied && s.applied[e.eventID].event == e
    ensures ApplyDeletion(s, e).Ok? ==> ApplyDeletion(s, e).value == Outcome(s, s.applied[e.eventID], true)
  {
    if Valid(s) && e.eventID in s.applied { assert Indexed(s, e.eventID, s.applied[e.eventID]); }
  }
}
