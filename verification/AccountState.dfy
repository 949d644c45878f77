/**
 The account state machine (internal/account/state.go): events carrying an expected revision are applied to a snapshot
 that indexes every event it ever accepted. `Validate` re-sorts that index and replays it. The module proves that the
 replay accepts exactly the snapshots some sequence of accepted events can produce, and that redelivery is harmless.
 */
module AccountState {
  import opened Common
  import opened Sorting

  datatype Status =
    | NoRequest | Queued | Starting | LoggingIn | LoginSucceeded | LoginFailed | Expired | Cancelled | Blocked
    | Undeclared(name: string)
  {
    predicate Valid() { !Undeclared? }
  }

  datatype Event = Event(
    eventID: string, accountID: string, requestID: string, from: Status, expectedRevision: Uint64, to: Status,
    reason: string, actor: string, occurredAt: Instant)

  datatype AuditRecord = AuditRecord(event: Event, revision: Uint64)

  datatype Snapshot = Snapshot(
    accountID: string, status: Status, requestID: string, revision: Uint64, applied: map<string, AuditRecord>)

  datatype Error =
    | InvalidSnapshot | InvalidEvent | InvalidTransition | EventConflict | AccountMismatch | RequestMismatch
    | StaleEvent | RevisionOverflow

  datatype TransitionResult = TransitionResult(state: Snapshot, audit: AuditRecord, idempotent: bool)

  predicate ValidFields(e: Event) {
    && !Blank(e.eventID) && !Blank(e.accountID) && !Blank(e.requestID) && !Blank(e.reason) && !Blank(e.actor)
    && e.from.Valid() && e.to.Valid()
    && e.occurredAt != 0
  }

  predicate CanTransition(from: Status, to: Status) {
    match from
    case NoRequest => to == Queued || to == Blocked
    case Queued => to == Starting || to == Cancelled || to == Blocked
    case Starting => to == LoggingIn || to == Cancelled || to == Blocked
    case LoggingIn => to == LoginSucceeded || to == LoginFailed || to == Cancelled || to == Blocked
    case LoginSucceeded => to == Expired || to == Blocked
    case LoginFailed => to == Queued || to == Blocked
    case Expired => to == Queued || to == Blocked
    case _ => false
  }

  // ----- Histories: what a snapshot claims to have accepted -----

  ghost function StatusAfter(h: seq<Event>): Status {
    if h == [] then NoRequest else h[|h| - 1].to
  }

  ghost function RequestAfter(h: seq<Event>): string {
    if h == [] then "" else h[0].requestID
  }

  /** The audit index a history fills in: event i is filed under its identifier with revision i + 1. */
  ghost function Index(h: seq<Event>): map<string, AuditRecord>
    requires |h| <= MAX_UINT64
    decreases |h|
  {
    if h == [] then map[]
    else Index(h[..|h| - 1])[h[|h| - 1].eventID := AuditRecord(h[|h| - 1], |h|)]
  }

  /** `e` may follow the history `h` of `accountID`. */
  ghost predicate Continues(accountID: string, h: seq<Event>, e: Event)
    requires |h| <= MAX_UINT64
  {
    && ValidFields(e) && e.accountID == accountID
    && e.eventID !in Index(h)
    && e.expectedRevision == |h|
    && e.from == StatusAfter(h) && CanTransition(e.from, e.to)
    && (h != [] ==> e.requestID == RequestAfter(h))
  }

  ghost predicate Chained(accountID: string, h: seq<Event>)
    decreases |h|
  {
    && |h| <= MAX_UINT64
    && (h != [] ==> Chained(accountID, h[..|h| - 1]) && Continues(accountID, h[..|h| - 1], h[|h| - 1]))
  }

  /** `s` is the projection of the history `h`. */
  ghost predicate Projects(s: Snapshot, h: seq<Event>) {
    && !Blank(s.accountID)
    && Chained(s.accountID, h)
    && s == Snapshot(s.accountID, StatusAfter(h), RequestAfter(h), |h|, Index(h))
  }

  /** Some history explains `s`. */
  ghost predicate Justified(s: Snapshot) {
    exists h :: Projects(s, h)
  }

  function NewSnapshot(accountID: string): Result<Snapshot, Error> {
    if Blank(accountID) then Err(InvalidSnapshot) else Ok(Snapshot(accountID, NoRequest, "", 0, map[]))
  }

  /** What `Apply` computes, written over the snapshot's justification instead of its replay. */
  ghost function Transition(s: Snapshot, e: Event): Result<TransitionResult, Error> {
    if !Justified(s) then Err(InvalidSnapshot)
    else if !ValidFields(e) then Err(InvalidEvent)
    else if e.accountID != s.accountID then Err(AccountMismatch)
    else if e.eventID in s.applied then
      if s.applied[e.eventID].event == e then Ok(TransitionResult(s, s.applied[e.eventID], true)) else Err(EventConflict)
    else if e.expectedRevision != s.revision || e.from != s.status then Err(StaleEvent)
    else if !CanTransition(e.from, e.to) then Err(InvalidTransition)
    else if s.status != NoRequest && e.requestID != s.requestID then Err(RequestMismatch)
    else if s.revision == MAX_UINT64 then Err(RevisionOverflow)
    else
      var audit := AuditRecord(e, s.revision + 1);
      Ok(TransitionResult(
        Snapshot(s.accountID, e.to, if s.status == NoRequest then e.requestID else s.requestID, s.revision + 1,
                 s.applied[e.eventID := audit]),
        audit, false))
  }

  // ----- The code -----

  function RevisionLeq(): (AuditRecord, AuditRecord) -> bool {
    (a: AuditRecord, b: AuditRecord) => a.revision <= b.revision
  }

  lemma RevisionLeqIsTotal()
    ensures TotalPreorder(RevisionLeq())
  {
  }

  /** The sequence of audit records a history induces, in revision order. */
  ghost function Records(h: seq<Event>): seq<AuditRecord>
    requires |h| <= MAX_UINT64
  {
    seq(|h|, i requires 0 <= i < |h| => AuditRecord(h[i], i + 1))
  }

  /** What the index of a history says under one identifier. */
  lemma {:induction false} IndexedEvent(accountID: string, h: seq<Event>, id: string)
    requires Chained(accountID, h) && id in Index(h)
    ensures var r := Index(h)[id];
      && 1 <= r.revision <= |h| && h[r.revision - 1] == r.event && r.event.eventID == id
      && ValidFields(r.event) && r.event.accountID == accountID && CanTransition(r.event.from, r.event.to)
    decreases |h|
  {
    hide Blank;
    if h[|h| - 1].eventID != id { IndexedEvent(accountID, h[..|h| - 1], id); }
  }

  /** Every event of a history is indexed, and continues the events before it. */
  lemma {:induction false} EventAt(accountID: string, h: seq<Event>, i: nat)
    requires Chained(accountID, h) && i < |h|
    ensures h[i].eventID in Index(h) && Index(h)[h[i].eventID] == AuditRecord(h[i], i + 1)
    ensures Chained(accountID, h[..i]) && Continues(accountID, h[..i], h[i])
    decreases |h|
  {
    hide Blank;
    var n := |h| - 1;
    if i < n {
      EventAt(accountID, h[..n], i);
      assert h[..n][..i] == h[..i];
    }
  }

  lemma {:induction false} IndexSize(accountID: string, h: seq<Event>)
    requires Chained(accountID, h)
    ensures |Index(h)| == |h|
    decreases |h|
  {
    if h != [] {
      var shorter := h[..|h| - 1];
      IndexSize(accountID, shorter);
      assert Index(h).Keys == Index(shorter).Keys + {h[|h| - 1].eventID};
    }
  }

  /** Collecting the index and sorting it yields the records of any history that explains it. */
  lemma SortedIndexIsHistory(s: Snapshot, h: seq<Event>, sorted: seq<AuditRecord>)
    requires Projects(s, h)
    requires NoDuplicates(sorted) && Ascending(sorted, RevisionLeq())
    requires forall r | r in sorted :: r.event.eventID in s.applied && s.applied[r.event.eventID] == r
    requires forall id | id in s.applied :: s.applied[id] in sorted
    ensures sorted == Records(h)
  {
    hide Blank;
    var expected := Records(h);
    forall r | r in sorted ensures r in expected {
      IndexedEvent(s.accountID, h, r.event.eventID);
      assert expected[r.revision - 1] == r;
    }
    forall r | r in expected ensures r in sorted {
      var i :| 0 <= i < |expected| && expected[i] == r;
      EventAt(s.accountID, h, i);
    }
    SameElementsSameMultiset(sorted, expected);
    RevisionLeqIsTotal();
    AscendingPermutationIsUnique(expected, sorted, RevisionLeq());
  }

  /** The per-record checks of `Validate`, before sorting. */
  predicate RecordOk(s: Snapshot, id: string, record: AuditRecord) {
    && id != "" && id == record.event.eventID
    && record.revision != 0 && record.revision <= s.revision
    && ValidFields(record.event)
    && record.event.accountID == s.accountID && CanTransition(record.event.from, record.event.to)
  }

  /** The checks `Validate` makes on the snapshot itself hold of every projection. */
  lemma ProjectionHeader(s: Snapshot, h: seq<Event>)
    requires Projects(s, h)
    ensures s.status.Valid() && |s.applied| == s.revision
    ensures if s.status == NoRequest then s.requestID == "" else !Blank(s.requestID)
    ensures forall id | id in s.applied :: RecordOk(s, id, s.applied[id])
  {
    IndexSize(s.accountID, h);
    if h != [] { EventAt(s.accountID, h, 0); }
    forall id | id in s.applied ensures RecordOk(s, id, s.applied[id]) { IndexedEvent(s.accountID, h, id); }
  }

  lemma FiledUnderItself(s: Snapshot, id: string, record: AuditRecord)
    requires RecordOk(s, id, record)
    ensures id == record.event.eventID
  {
    hide ValidFields, CanTransition;
  }

  /** What a snapshot must show before its index is replayed. */
  lemma JustifiedHeader(s: Snapshot)
    requires Justified(s)
    ensures !Blank(s.accountID) && s.status.Valid() && |s.applied| == s.revision
    ensures if s.status == NoRequest then s.requestID == "" else !Blank(s.requestID)
    ensures forall id | id in s.applied :: RecordOk(s, id, s.applied[id])
  {
    hide RecordOk;
    var h :| Projects(s, h);
    ProjectionHeader(s, h);
  }

  /** Replaying the whole index: accepts exactly the snapshots that accepted events can produce. */
  method Validate(s: Snapshot) returns (ok: bool)
    ensures ok <==> Justified(s)
    ensures ok <==> Reachable(s)
  {
    hide Blank, Justified, Reachable, RecordOk;
    JustifiedIffReachable(s);
    if Justified(s) { JustifiedHeader(s); }
    if Blank(s.accountID) || !s.status.Valid() { return false; }
    if s.status == NoRequest {
      if s.requestID != "" { return false; }
    } else if Blank(s.requestID) {
      return false;
    }
    if |s.applied| != s.revision { return false; }
    var records: seq<AuditRecord> := [];
    var remaining := s.applied.Keys;
    while remaining != {}
      invariant remaining <= s.applied.Keys
      invariant forall id | id in s.applied.Keys - remaining :: RecordOk(s, id, s.applied[id]) && s.applied[id] in records
      invariant forall r | r in records ::
          r.event.eventID in s.applied.Keys - remaining && s.applied[r.event.eventID] == r
      invariant NoDuplicates(records)
      invariant |records| + |remaining| == |s.applied|
    {
      var id :| id in remaining;
      var record := s.applied[id];
      if !RecordOk(s, id, record) { return false; }
      FiledUnderItself(s, id, record);
      records := records + [record];
      remaining := remaining - {id};
    }
    RevisionLeqIsTotal();
    var sorted := Sort(records, RevisionLeq());
    PermutationKeepsElements(records, sorted);
    ok := Replay(s, sorted);
  }

  /** `sorted` lists the index of `s`, each record once, in revision order. */
  ghost predicate SortedIndex(s: Snapshot, sorted: seq<AuditRecord>) {
    && |sorted| == |s.applied| == s.revision
    && (forall r | r in sorted :: r.event.eventID in s.applied && s.applied[r.event.eventID] == r)
    && (forall id | id in s.applied :: RecordOk(s, id, s.applied[id]) && s.applied[id] in sorted)
    && NoDuplicates(sorted) && Ascending(sorted, RevisionLeq())
  }

  /** The replay loop over the sorted index. */
  method Replay(s: Snapshot, sorted: seq<AuditRecord>) returns (ok: bool)
    requires !Blank(s.accountID) && SortedIndex(s, sorted)
    ensures ok <==> Justified(s)
  {
    var status, request := NoRequest, "";
    ghost var h: seq<Event> := [];
    for index := 0 to |sorted|
      invariant Replayed(s, sorted, h, index)
      invariant status == StatusAfter(h) && request == RequestAfter(h)
    {
      var record := sorted[index];
      if record.revision != index + 1 || record.event.expectedRevision != record.revision - 1
         || record.event.from != status
         || (status != NoRequest && record.event.requestID != request) {
        RejectedReplay(s, sorted, h, index);
        return false;
      }
      StatusMarksStart(s.accountID, h);
      h := ExtendReplay(s, sorted, h, index);
      if status == NoRequest { request := record.event.requestID; }
      status := record.event.to;
    }
    FinishedReplay(s, sorted, h);
    return status == s.status && request == s.requestID;
  }

  /** The first `index` records have been replayed as the history `h`. */
  ghost predicate Replayed(s: Snapshot, sorted: seq<AuditRecord>, h: seq<Event>, index: int) {
    0 <= index <= |sorted| && |h| == index && Chained(s.accountID, h) && Records(h) == sorted[..index]
  }

  lemma StatusMarksStart(accountID: string, h: seq<Event>)
    requires Chained(accountID, h)
    ensures StatusAfter(h) == NoRequest <==> h == []
  {
  }

  /** After the last record only the end state is left to compare. */
  lemma FinishedReplay(s: Snapshot, sorted: seq<AuditRecord>, h: seq<Event>)
    requires !Blank(s.accountID) && SortedIndex(s, sorted) && Replayed(s, sorted, h, |sorted|)
    ensures Justified(s) <==> StatusAfter(h) == s.status && RequestAfter(h) == s.requestID
  {
    assert sorted[..|sorted|] == sorted;
    forall g | Projects(s, g) ensures g == h {
      SortedIndexIsHistory(s, g, sorted);
      SameRecordsSameHistory(g, h);
    }
    ReplayedIndex(s, sorted, h);
    if StatusAfter(h) == s.status && RequestAfter(h) == s.requestID { assert Projects(s, h); }
  }

  lemma SameRecordsSameHistory(g: seq<Event>, h: seq<Event>)
    requires |g| <= MAX_UINT64 && |h| <= MAX_UINT64
    requires |Records(h)| <= |Records(g)| && Records(g)[..|h|] == Records(h)
    ensures g[..|h|] == h
  {
    forall i | 0 <= i < |h| ensures g[i] == h[i] { assert Records(g)[i] == Records(h)[i]; }
  }

  /** A failing check in the replay rules out every explanation of the snapshot. */
  lemma RejectedReplay(s: Snapshot, sorted: seq<AuditRecord>, h: seq<Event>, index: nat)
    requires SortedIndex(s, sorted) && index < |sorted| && Replayed(s, sorted, h, index)
    requires var record := sorted[index];
      || record.revision != index + 1 || record.event.expectedRevision != record.revision - 1
      || record.event.from != StatusAfter(h)
      || (StatusAfter(h) != NoRequest && record.event.requestID != RequestAfter(h))
    ensures !Justified(s)
  {
    forall g ensures !Projects(s, g) {
      if Projects(s, g) {
        SortedIndexIsHistory(s, g, sorted);
        SameRecordsSameHistory(g, h);
        EventAt(s.accountID, g, index);
      }
    }
  }

  /** A passing check extends the replayed history by the next record's event. */
  lemma ExtendReplay(s: Snapshot, sorted: seq<AuditRecord>, h: seq<Event>, index: nat) returns (longer: seq<Event>)
    requires SortedIndex(s, sorted) && index < |sorted| && Replayed(s, sorted, h, index)
    requires sorted[index].revision == index + 1 && sorted[index].event.expectedRevision == index
    requires sorted[index].event.from == StatusAfter(h)
    requires h != [] ==> sorted[index].event.requestID == RequestAfter(h)
    ensures longer == h + [sorted[index].event]
    ensures Replayed(s, sorted, longer, index + 1)
  {
    hide Blank, ValidFields, CanTransition, Chained, Index, Records;
    FreshInReplay(s, sorted, h, index);
    var e := sorted[index].event;
    assert sorted[index] in sorted;
    assert RecordOk(s, e.eventID, s.applied[e.eventID]);
    longer := h + [e];
    ChainOneMore(s.accountID, h, e);
    assert sorted[..index + 1] == sorted[..index] + [sorted[index]];
  }

  lemma ChainOneMore(accountID: string, h: seq<Event>, e: Event)
    requires Chained(accountID, h) && |h| < MAX_UINT64 && Continues(accountID, h, e)
    ensures Chained(accountID, h + [e])
    ensures Records(h + [e]) == Records(h) + [AuditRecord(e, |h| + 1)]
    ensures Index(h + [e]) == Index(h)[e.eventID := AuditRecord(e, |h| + 1)]
  {
    hide Blank, ValidFields, CanTransition;
    assert (h + [e])[..|h|] == h;
  }

  lemma FreshInReplay(s: Snapshot, sorted: seq<AuditRecord>, h: seq<Event>, index: nat)
    requires SortedIndex(s, sorted) && index < |sorted| && Replayed(s, sorted, h, index)
    ensures sorted[index].event.eventID !in Index(h)
  {
    var id := sorted[index].event.eventID;
    forall k | 0 <= k < index ensures h[k].eventID != id {
      assert Records(h)[k] == sorted[..index][k];
      assert sorted[k] in sorted && sorted[index] in sorted;
    }
    if id in Index(h) {
      IndexedEvent(s.accountID, h, id);
      assert false;
    }
  }

  /** Once every record has been replayed, the replayed history's index is the snapshot's. */
  lemma ReplayedIndex(s: Snapshot, sorted: seq<AuditRecord>, h: seq<Event>)
    requires Chained(s.accountID, h) && Records(h) == sorted
    requires forall r | r in sorted :: r.event.eventID in s.applied && s.applied[r.event.eventID] == r
    requires forall id | id in s.applied :: s.applied[id].event.eventID == id && s.applied[id] in sorted
    ensures s.applied == Index(h)
  {
    hide Blank;
    forall id | id in s.applied ensures id in Index(h) && Index(h)[id] == s.applied[id] {
      var i :| 0 <= i < |sorted| && sorted[i] == s.applied[id];
      EventAt(s.accountID, h, i);
    }
    forall id | id in Index(h) ensures id in s.applied {
      IndexedEvent(s.accountID, h, id);
      assert sorted[Index(h)[id].revision - 1] in sorted;
    }
  }

  /** Validates, then applies one event to a copy of the snapshot. */
  method Apply(s: Snapshot, e: Event) returns (r: Result<TransitionResult, Error>)
    ensures r == Transition(s, e)
  {
    hide Blank, Justified, Reachable;
    var ok := Validate(s);
    if !ok { return Err(InvalidSnapshot); }
    if !ValidFields(e) { return Err(InvalidEvent); }
    if e.accountID != s.accountID { return Err(AccountMismatch); }
    if e.eventID in s.applied {
      var previous := s.applied[e.eventID];
      if previous.event == e { return Ok(TransitionResult(s, previous, true)); }
      return Err(EventConflict);
    }
    if e.expectedRevision != s.revision { return Err(StaleEvent); }
    if e.from != s.status { return Err(StaleEvent); }
    if !CanTransition(e.from, e.to) { return Err(InvalidTransition); }
    if s.status != NoRequest && e.requestID != s.requestID { return Err(RequestMismatch); }
    if s.revision == MAX_UINT64 { return Err(RevisionOverflow); }
    var next := s.(status := e.to);
    if s.status == NoRequest { next := next.(requestID := e.requestID); }
    next := next.(revision := next.revision + 1);
    var audit := AuditRecord(e, next.revision);
    next := next.(applied := next.applied[e.eventID := audit]);
    return Ok(TransitionResult(next, audit, false));
  }

  // ----- Reachability -----

  /** Applying `events` in order, every one of them accepted. */
  ghost function Submit(s: Snapshot, events: seq<Event>): Result<Snapshot, Error>
    decreases |events|
  {
    if events == [] then Ok(s)
    else
      match Submit(s, events[..|events| - 1])
      case Err(error) => Err(error)
      case Ok(t) =>
        match Transition(t, events[|events| - 1])
        case Err(error) => Err(error)
        case Ok(r) => Ok(r.state)
  }

  ghost predicate ReachedBy(s: Snapshot, accountID: string, events: seq<Event>) {
    && NewSnapshot(accountID).Ok?
    && Submit(NewSnapshot(accountID).value, events) == Ok(s)
  }

  ghost predicate Reachable(s: Snapshot) {
    exists accountID, events :: ReachedBy(s, accountID, events)
  }

  /** An accepted event either changes nothing or extends the history by itself. */
  lemma TransitionExtendsHistory(s: Snapshot, h: seq<Event>, e: Event)
    requires Projects(s, h) && Transition(s, e).Ok?
    ensures Transition(s, e).value.idempotent ==> e in h && Transition(s, e).value.state == s
    ensures !Transition(s, e).value.idempotent ==> Projects(Transition(s, e).value.state, h + [e])
  {
    hide Blank, Justified, ValidFields, Chained, Index, CanTransition;
    if Transition(s, e).value.idempotent {
      IndexedEvent(s.accountID, h, e.eventID);
    } else {
      StatusMarksStart(s.accountID, h);
      ChainOneMore(s.accountID, h, e);
    }
  }

  lemma {:induction false} ReachableIsJustified(s: Snapshot, accountID: string, events: seq<Event>)
    requires ReachedBy(s, accountID, events)
    ensures Justified(s)
    decreases |events|
  {
    if events == [] {
      assert Projects(s, []);
    } else {
      var n := |events| - 1;
      var t := Submit(NewSnapshot(accountID).value, events[..n]).value;
      ReachableIsJustified(t, accountID, events[..n]);
      var h :| Projects(t, h);
      TransitionExtendsHistory(t, h, events[n]);
    }
  }

  /** Peeling the highest revision off a history leaves a snapshot that is one accepted event earlier. */
  lemma {:induction false} JustifiedIsReachable(s: Snapshot, h: seq<Event>)
    requires Projects(s, h)
    ensures ReachedBy(s, s.accountID, h)
    decreases |h|
  {
    hide Blank;
    if h != [] {
      var shorter := h[..|h| - 1];
      var t := Snapshot(s.accountID, StatusAfter(shorter), RequestAfter(shorter), |shorter|, Index(shorter));
      assert Projects(t, shorter);
      JustifiedIsReachable(t, shorter);
    }
  }

  /** Replay accepts exactly what accepted events can build, from a new account on. */
  lemma JustifiedIffReachable(s: Snapshot)
    ensures Justified(s) <==> Reachable(s)
  {
    if Justified(s) {
      var h :| Projects(s, h);
      JustifiedIsReachable(s, h);
    }
    if Reachable(s) {
      var accountID, events :| ReachedBy(s, accountID, events);
      ReachableIsJustified(s, accountID, events);
    }
  }

  /** In a reachable snapshot each revision 1..n belongs to exactly one event. */
  lemma RevisionsAreOwnedOnce(s: Snapshot, r: int)
    requires Reachable(s) && 1 <= r <= s.revision
    ensures exists id :: id in s.applied && s.applied[id].revision == r
    ensures forall a, b | a in s.applied && b in s.applied && s.applied[a].revision == r == s.applied[b].revision :: a == b
  {
    JustifiedIffReachable(s);
    var h: seq<Event> :| Projects(s, h);
    EventAt(s.accountID, h, r - 1);
    forall id | id in s.applied && s.applied[id].revision == r ensures id == h[r - 1].eventID {
      IndexedEvent(s.accountID, h, id);
    }
  }

  /** The owner of revision r + 1 starts where the owner of revision r ended, under the same request. */
  lemma SuccessorStartsWherePredecessorEnded(s: Snapshot, a: string, b: string)
    requires Reachable(s) && a in s.applied && b in s.applied
    requires s.applied[b].revision == s.applied[a].revision + 1
    ensures s.applied[b].event.from == s.applied[a].event.to
    ensures s.applied[b].event.requestID == s.applied[a].event.requestID
  {
    hide Blank;
    JustifiedIffReachable(s);
    var h: seq<Event> :| Projects(s, h);
    IndexedEvent(s.accountID, h, a);
    IndexedEvent(s.accountID, h, b);
    EventAt(s.accountID, h, s.applied[a].revision - 1);
    EventAt(s.accountID, h, s.applied[b].revision - 1);
  }

  /** A cancelled or blocked account accepts exact repeats and nothing else. */
  lemma TerminalAcceptsOnlyRepeats(s: Snapshot, e: Event)
    requires s.status == Cancelled || s.status == Blocked
    ensures Transition(s, e).Ok? ==> Transition(s, e).value.idempotent && Transition(s, e).value.state == s
  {
  }

  /** A login can only have succeeded through queueing, starting and logging in, one after the other. */
  lemma SuccessWasEarned(s: Snapshot, h: seq<Event>)
    requires Projects(s, h) && s.status == LoginSucceeded
    ensures |h| >= 4
    ensures h[|h| - 4].to == Queued && h[|h| - 3].to == Starting && h[|h| - 2].to == LoggingIn
  {
    hide Blank, Index, ValidFields;
    var n := |h|;
    assert h[n - 1].from == StatusAfter(h[..n - 1]) == LoggingIn;
    EventAt(s.accountID, h, n - 2);
    assert h[n - 2].from == StatusAfter(h[..n - 2]) == Starting;
    EventAt(s.accountID, h, n - 3);
  }

  // ----- At-least-once delivery -----

  /** A consumer that keeps the snapshot it has when an event is refused. */
  ghost function Consume(s: Snapshot, e: Event): Snapshot {
    match Transition(s, e)
    case Ok(r) => r.state
    case Err(_) => s
  }

  ghost function Deliver(s: Snapshot, stream: seq<Event>): Snapshot
    decreases |stream|
  {
    if stream == [] then s else Deliver(Consume(s, stream[0]), stream[1..])
  }

  /**
   `noisy` is `stream` with repeats inserted: each extra element is an event accepted earlier on. `accepted` collects
   the events accepted so far.
   */
  ghost predicate Redelivers(s: Snapshot, accepted: set<Event>, stream: seq<Event>, noisy: seq<Event>)
    decreases |noisy|
  {
    if noisy == [] then stream == []
    else
      || (noisy[0] in accepted && Redelivers(s, accepted, stream, noisy[1..]))
      || (&& stream != [] && stream[0] == noisy[0]
          && Redelivers(Consume(s, noisy[0]), if Transition(s, noisy[0]).Ok? then accepted + {noisy[0]} else accepted,
                        stream[1..], noisy[1..]))
  }

  ghost predicate AllApplied(s: Snapshot, accepted: set<Event>) {
    forall e | e in accepted ::
      ValidFields(e) && e.accountID == s.accountID && e.eventID in s.applied && s.applied[e.eventID].event == e
  }

  lemma AcceptedStaysApplied(s: Snapshot, accepted: set<Event>, e: Event)
    requires AllApplied(s, accepted)
    ensures AllApplied(Consume(s, e), if Transition(s, e).Ok? then accepted + {e} else accepted)
  {
  }

  lemma {:induction false} RepeatsAreHarmless(s: Snapshot, accepted: set<Event>, stream: seq<Event>, noisy: seq<Event>)
    requires AllApplied(s, accepted)
    requires Redelivers(s, accepted, stream, noisy)
    ensures Deliver(s, noisy) == Deliver(s, stream)
    decreases |noisy|
  {
    if noisy == [] {
    } else if noisy[0] in accepted && Redelivers(s, accepted, stream, noisy[1..]) {
      assert Consume(s, noisy[0]) == s;
      RepeatsAreHarmless(s, accepted, stream, noisy[1..]);
    } else {
      AcceptedStaysApplied(s, accepted, noisy[0]);
      RepeatsAreHarmless(Consume(s, noisy[0]), if Transition(s, noisy[0]).Ok? then accepted + {noisy[0]} else accepted,
                         stream[1..], noisy[1..]);
    }
  }

  /** Any number of repeats of accepted events, at any later points of any stream, leave the final snapshot unchanged. */
  lemma AtLeastOnceDelivery(s: Snapshot, stream: seq<Event>, noisy: seq<Event>)
    requires Redelivers(s, {}, stream, noisy)
    ensures Deliver(s, noisy) == Deliver(s, stream)
  {
    RepeatsAreHarmless(s, {}, stream, noisy);
  }
}
