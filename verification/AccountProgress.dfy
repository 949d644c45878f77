/**
 Where an account can go: which events are accepted, stated by what each status is entered from, and which statuses can be
 reached from which. Nothing here mentions the transition table.
 */
module AccountProgress {
  import opened Common
  import opened AccountState

  /** The statuses from which a status is entered. */
  function Predecessors(to: Status): set<Status> {
    match to
    case NoRequest => {}
    case Queued => {NoRequest, LoginFailed, Expired}
    case Starting => {Queued}
    case LoggingIn => {Starting}
    case LoginSucceeded => {LoggingIn}
    case LoginFailed => {LoggingIn}
    case Expired => {LoginSucceeded}
    case Cancelled => {Queued, Starting, LoggingIn}
    case Blocked => {NoRequest, Queued, Starting, LoggingIn, LoginSucceeded, LoginFailed, Expired}
    case Undeclared(_) => {}
  }

  /** A new event that names the account's present status, revision and request. */
  predicate Suits(s: Snapshot, e: Event) {
    && ValidFields(e) && e.accountID == s.accountID && e.eventID !in s.applied
    && e.expectedRevision == s.revision < MAX_UINT64 && e.from == s.status
    && (s.status != NoRequest ==> e.requestID == s.requestID)
  }

  /** Such an event is accepted exactly from the predecessors of its target, and moves the account there. */
  lemma AcceptedIffPredecessor(s: Snapshot, e: Event)
    requires Justified(s) && Suits(s, e)
    ensures Transition(s, e).Ok? <==> s.status in Predecessors(e.to)
    ensures Transition(s, e).Ok? ==>
              Transition(s, e).value == TransitionResult(
                Snapshot(s.accountID, e.to, e.requestID, s.revision + 1, s.applied[e.eventID := AuditRecord(e, s.revision + 1)]),
                AuditRecord(e, s.revision + 1), false)
    ensures !Transition(s, e).Ok? ==> Transition(s, e) == Err(InvalidTransition)
  {
    hide Justified, ValidFields;
  }

  /** No other new event is accepted. */
  lemma NewIsAcceptedIff(s: Snapshot, e: Event)
    requires e.eventID !in s.applied
    ensures Transition(s, e).Ok? <==> Justified(s) && Suits(s, e) && s.status in Predecessors(e.to)
  {
    hide Justified, ValidFields;
  }

  /** Every event that a reachable account has accepted entered its status from one of that status's predecessors. */
  lemma EnteredFromPredecessor(s: Snapshot, id: string)
    requires Reachable(s) && id in s.applied
    ensures s.applied[id].event.from in Predecessors(s.applied[id].event.to)
  {
    hide Blank, ValidFields, Justified, Reachable;
    JustifiedIffReachable(s);
    JustifiedHeader(s);
    assert RecordOk(s, id, s.applied[id]);
  }

  /** Cancelling is accepted exactly while a request is under way, blocking exactly until the account is terminal. */
  lemma CancelAndBlock(s: Snapshot, e: Event)
    requires Justified(s) && Suits(s, e)
    ensures e.to == Cancelled ==> (Transition(s, e).Ok? <==> s.status == Queued || s.status == Starting || s.status == LoggingIn)
    ensures e.to == Blocked ==> (Transition(s, e).Ok? <==> s.status != Cancelled && s.status != Blocked)
  {
    hide Justified, Transition;
    SuitsMeansDeclared(s, e);
    AcceptedIffPredecessor(s, e);
  }

  lemma SuitsMeansDeclared(s: Snapshot, e: Event)
    requires Suits(s, e)
    ensures s.status.Valid()
  {
    hide Blank;
  }

  // ----- Reaching a status -----

  /** What an event needs besides its place: a request, a reason, an actor and a date. */
  predicate Stamp(e: Event) { !Blank(e.requestID) && !Blank(e.reason) && !Blank(e.actor) && e.occurredAt != 0 }

  /** The event that takes `s` to a status. */
  function Move(s: Snapshot, to: Status, id: string, stamp: Event): Event {
    stamp.(eventID := id, accountID := s.accountID, requestID := if s.status == NoRequest then stamp.requestID else s.requestID,
           from := s.status, expectedRevision := s.revision, to := to)
  }

  lemma CanMove(s: Snapshot, to: Status, id: string, stamp: Event)
    requires Justified(s) && s.status in Predecessors(to) && Stamp(stamp) && !Blank(id) && id !in s.applied
    requires s.revision < MAX_UINT64
    ensures Transition(s, Move(s, to, id, stamp)).Ok?
    ensures var t := Transition(s, Move(s, to, id, stamp)).value.state;
      && Justified(t) && t.status == to && t.revision == s.revision + 1 && t.applied.Keys == s.applied.Keys + {id}
  {
    hide Blank, Transition, Justified, RecordOk;
    JustifiedHeader(s);
    var e := Move(s, to, id, stamp);
    AcceptedIffPredecessor(s, e);
    KeepsJustified(s, e);
  }

  lemma KeepsJustified(s: Snapshot, e: Event)
    requires Justified(s) && Transition(s, e).Ok?
    ensures Justified(Transition(s, e).value.state)
  {
    hide Transition, Projects;
    var h: seq<Event> :| Projects(s, h);
    TransitionExtendsHistory(s, h, e);
  }

  /** Each status of the path is entered from the one before it, the first from `from`. */
  predicate IsPath(from: Status, path: seq<Status>) {
    forall i | 0 <= i < |path| :: Enters(from, path, i)
  }

  predicate Enters(from: Status, path: seq<Status>, i: nat)
    requires i < |path|
  {
    (if i == 0 then from else path[i - 1]) in Predecessors(path[i])
  }

  ghost predicate NewIDs(s: Snapshot, ids: seq<string>) {
    && (forall i | 0 <= i < |ids| :: !Blank(ids[i]) && ids[i] !in s.applied)
    && (forall i, j | 0 <= i < j < |ids| :: ids[i] != ids[j])
  }

  /** Every path can be followed, one accepted event for each status on it. */
  lemma {:induction false} CanFollow(s: Snapshot, path: seq<Status>, ids: seq<string>, stamp: Event) returns (events: seq<Event>)
    requires Justified(s) && IsPath(s.status, path) && Stamp(stamp) && |ids| == |path| && NewIDs(s, ids)
    requires s.revision + |path| <= MAX_UINT64
    ensures |events| == |path| && Submit(s, events).Ok?
    ensures var t := Submit(s, events).value;
      && Justified(t) && t.status == (if path == [] then s.status else path[|path| - 1]) && t.revision == s.revision + |path|
      && t.applied.Keys == s.applied.Keys + (set id | id in ids)
    decreases |path|
  {
    hide Blank, Transition, Justified, Move;
    if path == [] {
      events := [];
    } else {
      var n := |path| - 1;
      assert IsPath(s.status, path[..n]) by {
        forall i | 0 <= i < n ensures Enters(s.status, path[..n], i) { assert Enters(s.status, path, i); }
      }
      assert Enters(s.status, path, n);
      var before := CanFollow(s, path[..n], ids[..n], stamp);
      var t := Submit(s, before).value;
      assert ids[n] !in t.applied by { assert ids[n] !in ids[..n]; }
      CanMove(t, path[n], ids[n], stamp);
      events := before + [Move(t, path[n], ids[n], stamp)];
      assert events[..|events| - 1] == before;
      assert ids == ids[..n] + [ids[n]];
    }
  }

  function PathTo(status: Status): seq<Status> {
    match status
    case Queued => [Queued]
    case Starting => [Queued, Starting]
    case LoggingIn => [Queued, Starting, LoggingIn]
    case LoginSucceeded => [Queued, Starting, LoggingIn, LoginSucceeded]
    case LoginFailed => [Queued, Starting, LoggingIn, LoginFailed]
    case Expired => [Queued, Starting, LoggingIn, LoginSucceeded, Expired]
    case Cancelled => [Queued, Cancelled]
    case Blocked => [Blocked]
    case _ => []
  }

  lemma PathIsPath(status: Status, from: Status)
    requires from == NoRequest || (status == LoginSucceeded && (from == LoginFailed || from == Expired))
    ensures IsPath(from, PathTo(status))
  {
    forall i | 0 <= i < |PathTo(status)| ensures Enters(from, PathTo(status), i) {
    }
  }

  /** Every declared status is reached from a new account, in at most five accepted events. */
  lemma EveryStatusIsReached(accountID: string, status: Status, ids: seq<string>, stamp: Event) returns (events: seq<Event>)
    requires !Blank(accountID) && status.Valid() && Stamp(stamp)
    requires |ids| == 5 && NewIDs(NewSnapshot(accountID).value, ids)
    ensures |events| <= 5 && Submit(NewSnapshot(accountID).value, events).Ok?
    ensures Submit(NewSnapshot(accountID).value, events).value.status == status
    ensures Reachable(Submit(NewSnapshot(accountID).value, events).value)
  {
    hide Blank, Submit, Justified;
    var s, path := NewSnapshot(accountID).value, PathTo(status);
    NewIsJustified(accountID);
    PathIsPath(status, NoRequest);
    events := CanFollow(s, path, ids[..|path|], stamp);
    var t := Submit(s, events).value;
    assert ReachedBy(t, accountID, events);
  }

  lemma NewIsJustified(accountID: string)
    requires !Blank(accountID)
    ensures Justified(NewSnapshot(accountID).value)
  {
    hide Blank;
    assert Projects(NewSnapshot(accountID).value, []);
  }

  /** A login attempt can end either way. */
  lemma AttemptEndsEitherWay(s: Snapshot, id: string, stamp: Event)
    requires Justified(s) && s.status == LoggingIn && Stamp(stamp) && !Blank(id) && id !in s.applied && s.revision < MAX_UINT64
    ensures Transition(s, Move(s, LoginSucceeded, id, stamp)).Ok? && Transition(s, Move(s, LoginFailed, id, stamp)).Ok?
  {
    hide Blank, Transition, Justified, Move;
    CanMove(s, LoginSucceeded, id, stamp);
    CanMove(s, LoginFailed, id, stamp);
  }

  /** A failed or expired account can be queued again and succeed within four accepted events. */
  lemma RetryCanSucceed(s: Snapshot, ids: seq<string>, stamp: Event) returns (events: seq<Event>)
    requires Justified(s) && (s.status == LoginFailed || s.status == Expired) && Stamp(stamp)
    requires |ids| == 4 && NewIDs(s, ids) && s.revision + 4 <= MAX_UINT64
    ensures |events| == 4 && Submit(s, events).Ok? && Submit(s, events).value.status == LoginSucceeded
  {
    hide Blank, Submit, Justified;
    PathIsPath(LoginSucceeded, s.status);
    events := CanFollow(s, PathTo(LoginSucceeded), ids, stamp);
  }
}
