/**
 Bearer capabilities for interactive RDP (internal/credential/rdp_capability.go): the index of entries the service keeps,
 and the proof that it is a faithful digest of the log of calls.
 */
module RdpCapability {
  import opened Common

  const DEFAULT_LEASE: int := 120_000_000_000
  const MAX_LEASE: int := 300_000_000_000

  type Byte = x: int | 0 <= x < 256

  datatype Authorization = Authorization(
    accountID: string, requestID: string, actor: string,
    accountLeaseID: string, slotLeaseID: string, slotID: string, generation: Uint64)

  datatype Capability = Capability(id: string, token: string, requestID: string, expiresAt: Instant)

  datatype Endpoint = Endpoint(host: string, port: nat, username: string, domain: string, allowUntrusted: bool)

  const NOWHERE := Endpoint("", 0, "", "", false)

  datatype Material = Material(endpoint: Endpoint, password: seq<Byte>)

  /** What wiping leaves. */
  const WIPED := Material(NOWHERE, [])

  /** One entry of the index: the capability it backs, who it was granted to, and the connection material. */
  datatype Entry = Entry(capability: Capability, granted: Authorization, material: Material, revoked: bool)

  type Index = map<string, Entry>

  datatype Error = InvalidRequest | Unauthorized | BadCapability | Revoked | Expired

  /** The token digest, in hexadecimal. */
  type Digest = string -> string

  function ShortID(digest: Digest, token: string): string {
    var d := digest(token);
    "rdp_" + if |d| < 12 then d else d[..12]
  }

  // ----- Requests -----

  predicate Unbound(a: Authorization) {
    a.accountLeaseID == "" && a.slotLeaseID == "" && a.slotID == "" && a.generation == 0
  }

  predicate FullyBound(a: Authorization) {
    && !Blank(a.accountLeaseID) && !Blank(a.slotLeaseID) && !Blank(a.slotID) && a.generation != 0
    && !ContainsAny(a.accountLeaseID + a.slotLeaseID + a.slotID, {'\r', '\n', '\0'})
  }

  predicate ValidAuthorization(a: Authorization) {
    && !Blank(a.accountID) && !Blank(a.requestID) && !Blank(a.actor)
    && !ContainsAny(a.accountID + a.requestID + a.actor, {'\r', '\n', '\0'})
    && (Unbound(a) || FullyBound(a))
  }

  function Lease(ttl: int): Option<int> {
    var chosen := if ttl == 0 then DEFAULT_LEASE else ttl;
    if 0 < chosen <= MAX_LEASE then Some(chosen) else None
  }

  // ----- Calls -----

  /** The ways to cut off capabilities wholesale. */
  datatype Fence =
    | ByRequest(requestID: string)
    | BySlotLease(slotLeaseID: string)
    | BySlot(slotID: string)
    | ByAccountLease(accountLeaseID: string)
    | ByGeneration(slotID: string, generation: Uint64)
    | Close
  {
    predicate Admissible() {
      match this
      case ByRequest(id) => !Blank(id)
      case BySlotLease(id) => !Blank(id)
      case BySlot(id) => !Blank(id)
      case ByAccountLease(id) => !Blank(id)
      case ByGeneration(id, g) => !Blank(id) && g != 0
      case Close => true
    }

    predicate Covers(a: Authorization) {
      match this
      case ByRequest(id) => a.requestID == id
      case BySlotLease(id) => a.slotLeaseID == id
      case BySlot(id) => a.slotID == id
      case ByAccountLease(id) => a.accountLeaseID == id
      case ByGeneration(id, g) => a.slotID == id && a.generation == g
      case Close => true
    }
  }

  /** The authorizer's answer and the random token are arguments of an issue. */
  datatype Call =
    | Issue(request: Authorization, now: Instant, ttl: int, authorized: bool, material: Material, entropy: bool, token: string)
    | Resolve(capability: Capability, authorization: Authorization, now: Instant, bound: bool)
    | Revoke(capability: Capability, actor: string)
    | FenceOff(fence: Fence)

  predicate Accepted(call: Call): (accepted: bool)
    ensures accepted ==> call.Issue?
  {
    && call.Issue? && ValidAuthorization(call.request) && call.now != 0 && Lease(call.ttl).Some?
    && call.authorized && call.material.endpoint.host != "" && call.material.password != [] && call.entropy
  }

  function IssueError(call: Call): Error
    requires call.Issue?
  {
    if !ValidAuthorization(call.request) || call.now == 0 || Lease(call.ttl).None? then InvalidRequest else Unauthorized
  }

  function EntryOf(digest: Digest, issue: Call): Entry
    requires Accepted(issue)
  {
    Entry(Capability(ShortID(digest, issue.token), issue.token, issue.request.requestID, issue.now + Lease(issue.ttl).value),
          issue.request, issue.material, false)
  }

  function ResolveOutcome(digest: Digest, index: Index, c: Capability, a: Authorization, now: Instant, bound: bool)
    : Result<Material, Error>
  {
    var d := digest(c.token);
    if bound && !ValidAuthorization(a) then Err(InvalidRequest)
    else if Blank(c.token) || Blank(a.actor) || now == 0 then Err(BadCapability)
    else if d !in index || index[d].capability.id != c.id || index[d].capability.requestID != c.requestID then Err(BadCapability)
    else if index[d].revoked then Err(Revoked)
    else if now >= index[d].capability.expiresAt then Err(Expired)
    else if index[d].granted.actor != a.actor then Err(Unauthorized)
    else if index[d].granted.slotLeaseID != "" then
      var g := index[d].granted;
      if !bound || g.accountID != a.accountID || index[d].capability.requestID != a.requestID || g.accountLeaseID != a.accountLeaseID
         || g.slotLeaseID != a.slotLeaseID || g.slotID != a.slotID || g.generation != a.generation
      then Err(Unauthorized) else Ok(index[d].material)
    else if bound && (index[d].granted.accountID != a.accountID || index[d].capability.requestID != a.requestID) then Err(Unauthorized)
    else Ok(index[d].material)
  }

  /** A resolve that meets an expired entry drops it. */
  function ResolveIndex(digest: Digest, index: Index, c: Capability, a: Authorization, now: Instant, bound: bool): Index {
    if ResolveOutcome(digest, index, c, a, now, bound) == Err(Expired) then index - {digest(c.token)} else index
  }

  function RevokeError(digest: Digest, index: Index, c: Capability, actor: string): Option<Error> {
    var d := digest(c.token);
    if d !in index || index[d].capability.id != c.id then Some(BadCapability)
    else if index[d].granted.actor != actor then Some(Unauthorized)
    else None
  }

  /** A single revocation keeps the entry, wiped. */
  function RevokeIndex(digest: Digest, index: Index, c: Capability, actor: string): Index {
    var d := digest(c.token);
    if RevokeError(digest, index, c, actor).None? then index[d := index[d].(revoked := true, material := WIPED)] else index
  }

  function FenceIndex(index: Index, fence: Fence): Index {
    if fence.Admissible() then map d | d in index && !fence.Covers(index[d].granted) :: index[d] else index
  }

  function Step(digest: Digest, index: Index, call: Call): Index {
    match call
    case Issue(_, _, _, _, _, _, token) => if Accepted(call) then index[digest(token) := EntryOf(digest, call)] else index
    case Resolve(c, a, now, bound) => ResolveIndex(digest, index, c, a, now, bound)
    case Revoke(c, actor) => RevokeIndex(digest, index, c, actor)
    case FenceOff(fence) => FenceIndex(index, fence)
  }

  function Run(digest: Digest, log: seq<Call>): Index {
    if log == [] then map[] else Step(digest, Run(digest, log[..|log| - 1]), log[|log| - 1])
  }

  // ----- What the log says -----

  /** The later call put an end to the issued capability. */
  predicate Ends(digest: Digest, issue: Call, later: Call)
    requires Accepted(issue)
  {
    match later
    case Issue(_, _, _, _, _, _, _) => false
    case Resolve(c, a, now, bound) =>
      && c.token == issue.token && c.id == ShortID(digest, issue.token) && c.requestID == issue.request.requestID
      && !Blank(c.token) && !Blank(a.actor) && now != 0 && (bound ==> ValidAuthorization(a))
      && now >= issue.now + Lease(issue.ttl).value
    case Revoke(c, actor) => c.token == issue.token && c.id == ShortID(digest, issue.token) && actor == issue.request.actor
    case FenceOff(fence) => fence.Admissible() && fence.Covers(issue.request)
  }

  ghost predicate Live(digest: Digest, log: seq<Call>, i: int) {
    && 0 <= i < |log| && Accepted(log[i])
    && forall j | i < j < |log| :: !Ends(digest, log[i], log[j])
  }

  /** Who may use an issued capability, and until when. */
  predicate Permits(digest: Digest, issue: Call, c: Capability, a: Authorization, now: Instant, bound: bool)
    requires Accepted(issue)
  {
    && c.token == issue.token && !Blank(c.token) && c.id == ShortID(digest, issue.token)
    && c.requestID == issue.request.requestID && a.actor == issue.request.actor
    && 0 != now < issue.now + Lease(issue.ttl).value
    && (bound ==> ValidAuthorization(a) && a.accountID == issue.request.accountID && a.requestID == issue.request.requestID)
    && (!Unbound(issue.request) ==> bound && a == issue.request)
  }

  // ----- Assumptions on the environment -----

  ghost predicate Injective(digest: Digest) {
    forall s, t | digest(s) == digest(t) :: s == t
  }

  /** Random tokens never repeat. */
  ghost predicate FreshTokens(log: seq<Call>) {
    forall i, j | 0 <= i < j < |log| && Accepted(log[i]) && Accepted(log[j]) :: log[i].token != log[j].token
  }

  // ----- The index mirrors the log -----

  ghost predicate IssuedAt(digest: Digest, log: seq<Call>, d: string, i: int) {
    0 <= i < |log| && Accepted(log[i]) && digest(log[i].token) == d
  }

  /** The entry was issued by call `i`; it is intact while that capability is live, and revoked and wiped otherwise. */
  ghost predicate Backs(digest: Digest, log: seq<Call>, d: string, e: Entry, i: int) {
    && IssuedAt(digest, log, d, i)
    && e.capability == EntryOf(digest, log[i]).capability && e.granted == log[i].request
    && (e.revoked ==> e.material == WIPED)
    && (!e.revoked ==> e.material == log[i].material && Live(digest, log, i))
  }

  ghost predicate Mirrors(digest: Digest, log: seq<Call>, index: Index) {
    && (forall d | d in index :: exists i :: Backs(digest, log, d, index[d], i))
    && (forall i | Live(digest, log, i) :: digest(log[i].token) in index && !index[digest(log[i].token)].revoked)
  }

  lemma UniqueIssue(digest: Digest, log: seq<Call>, d: string, i: int, j: int)
    requires Injective(digest) && FreshTokens(log) && IssuedAt(digest, log, d, i) && IssuedAt(digest, log, d, j)
    ensures i == j
  {
    hide Accepted;
  }

  lemma LiveBefore(digest: Digest, log: seq<Call>, i: int)
    requires log != [] && 0 <= i < |log| - 1
    ensures Live(digest, log, i) <==> Live(digest, log[..|log| - 1], i) && !Ends(digest, log[i], log[|log| - 1])
  {
    hide Accepted, Ends;
    if Live(digest, log[..|log| - 1], i) && !Ends(digest, log[i], log[|log| - 1]) {
      forall j | i < j < |log| ensures !Ends(digest, log[i], log[j]) {
        assert j < |log| - 1 ==> log[..|log| - 1][j] == log[j];
      }
    }
    if Live(digest, log, i) {
      var before := log[..|log| - 1];
      forall j | i < j < |before| ensures !Ends(digest, before[i], before[j]) { assert !Ends(digest, log[i], log[j]); }
    }
  }

  /** An entry that survives a call without being ended by it stays backed. */
  lemma StaysBacked(digest: Digest, log: seq<Call>, d: string, e: Entry, i: int)
    requires log != [] && Backs(digest, log[..|log| - 1], d, e, i)
    requires e.revoked || !Ends(digest, log[i], log[|log| - 1])
    ensures Backs(digest, log, d, e, i)
  {
    hide Accepted, Ends, ShortID, Live;
    LiveBefore(digest, log, i);
  }

  lemma RevokedStaysBacked(digest: Digest, log: seq<Call>, d: string, e: Entry, i: int)
    requires log != [] && Backs(digest, log[..|log| - 1], d, e, i)
    ensures Backs(digest, log, d, e.(revoked := true, material := WIPED), i)
  {
    hide Accepted, Ends, ShortID, Live;
  }

  /** What a call leaves of an entry that backs an issue: all of it unless the call ends that issue. */
  lemma EntryAfter(digest: Digest, index: Index, issue: Call, call: Call)
    requires Injective(digest) && Accepted(issue) && digest(issue.token) in index
    requires index[digest(issue.token)].capability == EntryOf(digest, issue).capability
    requires index[digest(issue.token)].granted == issue.request
    requires !(Accepted(call) && call.token == issue.token)
    ensures var d := digest(issue.token);
      var e, after := index[d], Step(digest, index, call);
      && (!Ends(digest, issue, call) ==> d in after && after[d] == e)
      && (d in after ==> after[d] == e || after[d] == e.(revoked := true, material := WIPED))
      && (Ends(digest, issue, call) && !e.revoked ==> d !in after || after[d].revoked)
  {
    hide Blank, ValidAuthorization, ShortID, Lease;
  }

  lemma Untouched(digest: Digest, index: Index, call: Call, d: string)
    requires d in Step(digest, index, call) && !(Accepted(call) && digest(call.token) == d)
    ensures d in index
  {
    hide Blank, ValidAuthorization, ShortID, Lease, ResolveOutcome, RevokeError;
    hide Fence.Covers;
    if call.Revoke? && RevokeError(digest, index, call.capability, call.actor).None? { RevokedWasThere(digest, index, call.capability, call.actor); }
  }

  lemma RevokedWasThere(digest: Digest, index: Index, c: Capability, actor: string)
    requires RevokeError(digest, index, c, actor).None?
    ensures digest(c.token) in index
  {
  }

  lemma IssueBacks(digest: Digest, log: seq<Call>)
    requires log != [] && Accepted(log[|log| - 1])
    ensures var issue := log[|log| - 1]; Backs(digest, log, digest(issue.token), EntryOf(digest, issue), |log| - 1)
  {
    hide Accepted, Ends, ShortID, Lease;
  }

  lemma StepBacks(digest: Digest, log: seq<Call>, index: Index, d: string)
    requires Injective(digest) && FreshTokens(log) && log != [] && Mirrors(digest, log[..|log| - 1], index)
    requires d in Step(digest, index, log[|log| - 1])
    ensures var e := Step(digest, index, log[|log| - 1])[d]; exists i :: Backs(digest, log, d, e, i)
  {
    hide Accepted, Ends, ShortID, Lease, Step, Live, EntryOf;
    var call, after := log[|log| - 1], Step(digest, index, log[|log| - 1]);
    if Accepted(call) && digest(call.token) == d {
      IssueBacks(digest, log);
      IssuedEntry(digest, index, call);
    } else {
      Untouched(digest, index, call, d);
      var i :| Backs(digest, log[..|log| - 1], d, index[d], i);
      assert log[..|log| - 1][i] == log[i];
      EntryAfter(digest, index, log[i], call);
      if after[d] == index[d] { StaysBacked(digest, log, d, index[d], i); } else { RevokedStaysBacked(digest, log, d, index[d], i); }
      assert Backs(digest, log, d, after[d], i);
    }
  }

  lemma IssuedEntry(digest: Digest, index: Index, issue: Call)
    requires Accepted(issue)
    ensures Step(digest, index, issue) == index[digest(issue.token) := EntryOf(digest, issue)]
  {
    hide ValidAuthorization, ShortID, Lease;
  }

  lemma StepKeepsLive(digest: Digest, log: seq<Call>, index: Index, i: int)
    requires Injective(digest) && FreshTokens(log) && log != [] && Mirrors(digest, log[..|log| - 1], index)
    requires Live(digest, log, i)
    ensures var d, after := digest(log[i].token), Step(digest, index, log[|log| - 1]); d in after && !after[d].revoked
  {
    hide Accepted, Ends, ShortID, Lease, Step, EntryOf;
    var call, d, before := log[|log| - 1], digest(log[i].token), log[..|log| - 1];
    if i == |log| - 1 {
      IssuedEntry(digest, index, call);
      NewIsNotRevoked(digest, call);
    } else {
      LiveBefore(digest, log, i);
      assert before[i] == log[i];
      var j :| Backs(digest, before, d, index[d], j);
      assert before[j] == log[j];
      UniqueIssue(digest, log, d, i, j);
      EntryAfter(digest, index, log[i], call);
    }
  }

  lemma NewIsNotRevoked(digest: Digest, issue: Call)
    requires Accepted(issue)
    ensures !EntryOf(digest, issue).revoked
  {
    hide ValidAuthorization, ShortID, Lease;
  }

  lemma {:induction false} IndexMirrorsLog(digest: Digest, log: seq<Call>)
    requires Injective(digest) && FreshTokens(log)
    ensures Mirrors(digest, log, Run(digest, log))
  {
    hide Accepted, Ends, ShortID, Lease, Step, Backs, Injective;
    if log != [] {
      var before := log[..|log| - 1];
      IndexMirrorsLog(digest, before);
      forall d | d in Run(digest, log) ensures exists i :: Backs(digest, log, d, Run(digest, log)[d], i) {
        StepBacks(digest, log, Run(digest, before), d);
      }
      forall i | Live(digest, log, i)
        ensures digest(log[i].token) in Run(digest, log) && !Run(digest, log)[digest(log[i].token)].revoked
      {
        StepKeepsLive(digest, log, Run(digest, before), i);
      }
    }
  }

  // ----- Main results -----

  /** A slot binding is complete or absent, and the slot lease tells which. */
  lemma BindingIsAllOrNothing(a: Authorization)
    requires ValidAuthorization(a)
    ensures Unbound(a) != FullyBound(a)
    ensures a.slotLeaseID != "" <==> FullyBound(a)
  {
    assert Blank("");
  }

  lemma OutcomeFromEntry(digest: Digest, index: Index, issue: Call, c: Capability, a: Authorization, now: Instant, bound: bool)
    requires Accepted(issue) && c.token == issue.token && digest(issue.token) in index
    requires var e := index[digest(issue.token)];
      e.capability == EntryOf(digest, issue).capability && e.granted == issue.request
    ensures var e := index[digest(issue.token)];
      ResolveOutcome(digest, index, c, a, now, bound).Ok? <==> !e.revoked && Permits(digest, issue, c, a, now, bound)
    ensures ResolveOutcome(digest, index, c, a, now, bound).Ok? ==>
              ResolveOutcome(digest, index, c, a, now, bound) == Ok(index[digest(issue.token)].material)
  {
    hide FullyBound, ContainsAny, ShortID, Lease;
    BindingIsAllOrNothing(issue.request);
  }

  ghost predicate Justifies(digest: Digest, log: seq<Call>, i: int, c: Capability, a: Authorization, now: Instant, bound: bool) {
    Live(digest, log, i) && Permits(digest, log[i], c, a, now, bound)
  }

  /**
   After any log of calls, resolving yields the connection material exactly when the log holds an issue of that token that
   no later call has ended and whose terms permit the caller now; and then it is the material of that issue.
   */
  lemma ResolveFollowsTheLog(digest: Digest, log: seq<Call>, c: Capability, a: Authorization, now: Instant, bound: bool, m: Material)
    requires Injective(digest) && FreshTokens(log)
    ensures ResolveOutcome(digest, Run(digest, log), c, a, now, bound) == Ok(m)
      <==> exists i :: Justifies(digest, log, i, c, a, now, bound) && log[i].material == m
  {
    hide Accepted, Ends, ShortID, Lease, Step, Permits, EntryOf, Run, Injective;
    hide ResolveOutcome;
    var index, d := Run(digest, log), digest(c.token);
    IndexMirrorsLog(digest, log);
    if ResolveOutcome(digest, index, c, a, now, bound) == Ok(m) {
      ResolvedIsIndexed(digest, index, c, a, now, bound);
      var i :| Backs(digest, log, d, index[d], i);
      SameToken(digest, log[i].token, c.token);
      OutcomeFromEntry(digest, index, log[i], c, a, now, bound);
      assert Justifies(digest, log, i, c, a, now, bound);
    }
    if i :| Justifies(digest, log, i, c, a, now, bound) && log[i].material == m {
      PermittedToken(digest, log[i], c, a, now, bound);
      var j :| Backs(digest, log, d, index[d], j);
      UniqueIssue(digest, log, d, i, j);
      OutcomeFromEntry(digest, index, log[i], c, a, now, bound);
    }
  }

  lemma SameToken(digest: Digest, s: string, t: string)
    requires Injective(digest) && digest(s) == digest(t)
    ensures s == t
  {
  }

  lemma PermittedToken(digest: Digest, issue: Call, c: Capability, a: Authorization, now: Instant, bound: bool)
    requires Accepted(issue) && Permits(digest, issue, c, a, now, bound)
    ensures c.token == issue.token
  {
    hide Accepted, ShortID, Lease, Blank, ValidAuthorization, Unbound;
  }

  lemma ResolvedIsIndexed(digest: Digest, index: Index, c: Capability, a: Authorization, now: Instant, bound: bool)
    requires ResolveOutcome(digest, index, c, a, now, bound).Ok?
    ensures digest(c.token) in index
  {
    hide Blank, ValidAuthorization;
  }

  /** Every entry is bound to a slot completely or not at all, and every revoked entry is wiped. */
  lemma EntriesAreSound(digest: Digest, log: seq<Call>, d: string)
    requires Injective(digest) && FreshTokens(log) && d in Run(digest, log)
    ensures var e := Run(digest, log)[d];
      (Unbound(e.granted) || FullyBound(e.granted)) && (e.revoked ==> e.material == WIPED)
  {
    hide ShortID, Lease, Step, Run, Ends, Live, Blank, ContainsAny;
    IndexMirrorsLog(digest, log);
    var i :| Backs(digest, log, d, Run(digest, log)[d], i);
  }

  /** Ending is final: a capability that a call has ended is never resolved again, whatever the clock says later. */
  lemma EndedStaysEnded(digest: Digest, log: seq<Call>, i: int, j: int, c: Capability, a: Authorization, now: Instant, bound: bool)
    requires Injective(digest) && FreshTokens(log) && 0 <= i < j < |log| && Accepted(log[i]) && Ends(digest, log[i], log[j])
    requires c.token == log[i].token
    ensures ResolveOutcome(digest, Run(digest, log), c, a, now, bound).Err?
  {
    hide ShortID, Lease, Step, Run, Ends, ResolveOutcome, Accepted, Permits;
    var outcome := ResolveOutcome(digest, Run(digest, log), c, a, now, bound);
    if outcome.Ok? {
      ResolveFollowsTheLog(digest, log, c, a, now, bound, outcome.value);
      var n :| Justifies(digest, log, n, c, a, now, bound) && log[n].material == outcome.value;
      PermittedToken(digest, log[n], c, a, now, bound);
      UniqueIssue(digest, log, digest(c.token), i, n);
      assert false;
    }
  }

  /**
   A fence does not reach a capability whose authorization was granted before it but which is entered after it: whatever the
   fence covers, the capability is live, and its terms alone decide who may use it.
   */
  lemma FenceMissesLaterEntry(digest: Digest, log: seq<Call>, fence: Fence, issue: Call, c: Capability, a: Authorization, now: Instant, bound: bool)
    requires Injective(digest) && FreshTokens(log + [FenceOff(fence), issue]) && Accepted(issue)
    requires Permits(digest, issue, c, a, now, bound)
    ensures ResolveOutcome(digest, Run(digest, log + [FenceOff(fence), issue]), c, a, now, bound) == Ok(issue.material)
  {
    hide ShortID, Lease, Step, Run, Ends, ResolveOutcome, Accepted, Permits;
    var whole, n := log + [FenceOff(fence), issue], |log| + 1;
    assert whole[n] == issue && Live(digest, whole, n);
    assert Justifies(digest, whole, n, c, a, now, bound);
    ResolveFollowsTheLog(digest, whole, c, a, now, bound, issue.material);
  }
}
