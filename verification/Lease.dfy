/** Account leases (internal/account/lease.go): functions from a lease and a time to a new lease or a refusal. */
module Lease {
  import opened Common

  datatype Lease = Lease(
    leaseID: string, owner: string, acquiredAt: Instant, lastHeartbeat: Instant, expiresAt: Instant)
  {
    predicate Valid() {
      && !Blank(leaseID) && !Blank(owner)
      && acquiredAt != 0 && lastHeartbeat != 0 && expiresAt != 0
      && lastHeartbeat >= acquiredAt && expiresAt > lastHeartbeat
    }

    predicate Expired(now: Instant) { now >= expiresAt }

    predicate OwnedBy(id: string, who: string) { leaseID == id && owner == who }
  }

  datatype LeaseError = InvalidLease | LeaseHeld | LeaseNotOwned | LeaseExpired | TimeRegression | LeaseNotFound

  function AcquireLease(current: Option<Lease>, now: Instant, leaseID: string, owner: string, ttl: int)
    : Result<Lease, LeaseError>
  {
    if now == 0 || Blank(leaseID) || Blank(owner) || ttl <= 0 then Err(InvalidLease)
    else if current.Some? && !current.value.Valid() then Err(InvalidLease)
    else if current.Some? && !current.value.Expired(now) then Err(LeaseHeld)
    else Ok(Lease(leaseID, owner, now, now, now + ttl))
  }

  function HeartbeatLease(lease: Lease, now: Instant, leaseID: string, owner: string, ttl: int)
    : Result<Lease, LeaseError>
  {
    if !lease.Valid() then Err(InvalidLease)
    else if now == 0 || ttl <= 0 then Err(InvalidLease)
    else if lease.leaseID != leaseID || lease.owner != owner then Err(LeaseNotOwned)
    else if lease.Expired(now) then Err(LeaseExpired)
    else if now < lease.lastHeartbeat then Err(TimeRegression)
    else Ok(lease.(lastHeartbeat := now, expiresAt := now + ttl))
  }

  /** Ok when the lease may be cleared. */
  function ReleaseLease(lease: Lease, leaseID: string, owner: string): Result<(), LeaseError> {
    if !lease.Valid() then Err(InvalidLease)
    else if lease.leaseID != leaseID || lease.owner != owner then Err(LeaseNotOwned)
    else Ok(())
  }

  /** When a heartbeat succeeds. */
  predicate Beats(lease: Lease, now: Instant, ttl: int) {
    HeartbeatLease(lease, now, lease.leaseID, lease.owner, ttl).Ok?
  }

  /**
   Heartbeats of a valid lease never bring its expiry forward if and only if they ask for at least the span its last
   heartbeat asked for. The scheduler and the runner configure that span separately.
   */
  lemma HeartbeatNeverShrinksIffSpanKept(lease: Lease, ttl: int)
    requires lease.Valid() && ttl > 0
    ensures (forall now | Beats(lease, now, ttl) ::
               HeartbeatLease(lease, now, lease.leaseID, lease.owner, ttl).value.expiresAt >= lease.expiresAt)
            <==> ttl >= lease.expiresAt - lease.lastHeartbeat
  {
    hide Blank;
    assert Beats(lease, lease.lastHeartbeat, ttl);
  }

  /** A lease is granted exactly on a free cell or on a valid lease that has expired by then; it is then valid, the claimer's, and runs for the span. */
  lemma AcquireSucceedsIff(current: Option<Lease>, now: Instant, leaseID: string, owner: string, ttl: int)
    ensures var outcome := AcquireLease(current, now, leaseID, owner, ttl);
      && (outcome.Ok? <==>
            && now != 0 && !Blank(leaseID) && !Blank(owner) && ttl > 0
            && (current == None || (current.value.Valid() && current.value.expiresAt <= now)))
      && (outcome.Ok? ==>
            && outcome.value.OwnedBy(leaseID, owner) && outcome.value.acquiredAt == outcome.value.lastHeartbeat == now
            && outcome.value.expiresAt == now + ttl && (now + ttl != 0 <==> outcome.value.Valid()))
  {
    hide Blank;
  }

  /**
   A granted lease, heartbeat or not, keeps every other claim out until it expires and no longer. (A span that ends on the
   zero time makes a lease that does not validate.)
   */
  lemma HeldUntilExpiry(lease: Lease, now: Instant, leaseID: string, owner: string, ttl: int)
    requires lease.Valid() && now != 0 && !Blank(leaseID) && !Blank(owner) && ttl > 0
    ensures AcquireLease(Some(lease), now, leaseID, owner, ttl) == Err(LeaseHeld) <==> now < lease.expiresAt
    ensures AcquireLease(Some(lease), now, leaseID, owner, ttl).Ok? <==> lease.expiresAt <= now
    ensures now < lease.expiresAt && lease.lastHeartbeat <= now && now + ttl != 0 ==>
              var beaten := HeartbeatLease(lease, now, lease.leaseID, lease.owner, ttl);
              && beaten.Ok? && beaten.value.Valid() && beaten.value.acquiredAt == lease.acquiredAt
              && forall later | later != 0 ::
                   AcquireLease(Some(beaten.value), later, leaseID, owner, ttl).Ok? <==> now + ttl <= later
  {
    hide Blank;
  }

  /** A heartbeat goes through exactly for the holder of a valid lease that is unexpired and was not heartbeat later; a release, for the holder. */
  lemma HolderSucceedsIff(lease: Lease, now: Instant, leaseID: string, owner: string, ttl: int)
    ensures HeartbeatLease(lease, now, leaseID, owner, ttl).Ok? <==>
      lease.Valid() && now != 0 && ttl > 0 && lease.OwnedBy(leaseID, owner) && lease.lastHeartbeat <= now < lease.expiresAt
    ensures ReleaseLease(lease, leaseID, owner).Ok? <==> lease.Valid() && lease.OwnedBy(leaseID, owner)
  {
    hide Blank;
  }
}
