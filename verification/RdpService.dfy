/**
 The RDP capability service as it runs: a mutable map of entries whose passwords live in buffers that are wiped in place.
 Every method implements the corresponding step of the index in RdpCapability.dfy.
 */
module RdpService {
  import opened Common
  import opened RdpCapability

  /** An entry as stored: the password is a buffer, or null once wiped. */
  datatype Stored = Stored(capability: Capability, granted: Authorization, endpoint: Endpoint, password: array?<Byte>, revoked: bool)

  ghost predicate Zeroed(bytes: seq<Byte>) {
    forall i | 0 <= i < |bytes| :: bytes[i] == 0
  }

  /** Overwrites a buffer with zeros. */
  method Clear(buffer: array<Byte>)
    modifies buffer
    ensures Zeroed(buffer[..])
  {
    for i := 0 to buffer.Length
      invariant forall j | 0 <= j < i :: buffer[j] == 0
    {
      buffer[i] := 0;
    }
  }

  method Copy(buffer: array<Byte>) returns (copy: array<Byte>)
    ensures fresh(copy) && copy[..] == buffer[..]
  {
    copy := new Byte[buffer.Length];
    for i := 0 to buffer.Length
      invariant forall j | 0 <= j < i :: copy[j] == buffer[j]
    {
      copy[i] := buffer[i];
    }
  }

  class Service {
    const digest: Digest
    var entries: map<string, Stored>

    constructor (digest: Digest)
      ensures this.digest == digest && entries == map[] && Valid() && Buffers() == {}
    {
      this.digest := digest;
      entries := map[];
    }

    /** The buffers the service owns. */
    ghost function Buffers(): set<object>
      reads this
    {
      set d | d in entries && entries[d].password != null :: entries[d].password
    }

    /** Entries that are not revoked have a buffer, and no two entries share one. */
    ghost predicate Valid()
      reads this
    {
      && (forall d | d in entries :: !entries[d].revoked ==> entries[d].password != null)
      && (forall d, e | d in entries && e in entries && d != e && entries[d].password != null ::
            entries[d].password != entries[e].password)
    }

    ghost function Contents(d: string): Entry
      requires d in entries
      reads this, entries[d].password
    {
      var s := entries[d];
      Entry(s.capability, s.granted, Material(s.endpoint, if s.password == null then [] else s.password[..]), s.revoked)
    }

    ghost function Value(): Index
      reads this, Buffers()
    {
      map d | d in entries :: Contents(d)
    }

    /**
     Issues a capability; the authorizer's buffer becomes the service's own, or is wiped if nothing is issued. The authorizer
     answered before the index was locked: its answer is an argument, and other calls may have come in between.
     */
    method Issue(request: Authorization, now: Instant, ttl: int, authorized: bool, endpoint: Endpoint, password: array<Byte>,
                 entropy: bool, token: string)
      returns (outcome: Result<Capability, Error>)
      requires Valid() && password !in Buffers()
      modifies this, password
      ensures Valid() && Buffers() <= old(Buffers()) + {password}
      ensures var call := RdpCapability.Issue(request, now, ttl, authorized, Material(endpoint, old(password[..])), entropy, token);
        && Value() == Step(digest, old(Value()), call)
        && outcome == (if Accepted(call) then Ok(EntryOf(digest, call).capability) else Err(IssueError(call)))
        && (outcome.Err? ==> password !in Buffers())
        && (outcome == Err(Unauthorized) ==> Zeroed(password[..]))
        && (outcome != Err(Unauthorized) ==> password[..] == old(password[..]))
    {
      hide ValidAuthorization, ShortID;
      if !ValidAuthorization(request) || now == 0 { return Err(InvalidRequest); }
      var lease := Lease(ttl);
      if lease.None? { return Err(InvalidRequest); }
      if !authorized || endpoint.host == "" || password.Length == 0 || !entropy {
        Clear(password);
        return Err(Unauthorized);
      }
      var capability := Capability(ShortID(digest, token), token, request.requestID, now + lease.value);
      entries := entries[digest(token) := Stored(capability, request, endpoint, password, false)];
      return Ok(capability);
    }

    /** Wipes one entry and forgets it. */
    method Drop(d: string)
      requires Valid() && d in entries
      modifies this, Buffers()
      ensures Valid() && entries == old(entries) - {d} && Value() == old(Value()) - {d}
      ensures Erased(old(entries)[d].password)
    {
      if entries[d].password != null { Clear(entries[d].password); }
      entries := entries - {d};
    }

    /** Hands out a copy of the connection material. An expired entry is wiped and dropped. */
    method Resolve(c: Capability, a: Authorization, now: Instant, bound: bool)
      returns (outcome: Result<Endpoint, Error>, copy: array?<Byte>)
      requires Valid()
      modifies this, Buffers()
      ensures Valid() && Buffers() <= old(Buffers())
      ensures Value() == ResolveIndex(digest, old(Value()), c, a, now, bound)
      ensures var spec := ResolveOutcome(digest, old(Value()), c, a, now, bound);
        && outcome == (if spec.Ok? then Ok(spec.value.endpoint) else Err(spec.error))
        && (spec.Ok? ==> copy != null && fresh(copy) && copy[..] == spec.value.password)
        && (spec == Err(Expired) ==> digest(c.token) in old(entries)
                                     && Erased(old(entries)[digest(c.token)].password))
    {
      hide Blank, ValidAuthorization;
      copy := null;
      if bound && !ValidAuthorization(a) { return Err(InvalidRequest), null; }
      if Blank(c.token) || Blank(a.actor) || now == 0 { return Err(BadCapability), null; }
      var d := digest(c.token);
      if d !in entries || entries[d].capability.id != c.id || entries[d].capability.requestID != c.requestID {
        return Err(BadCapability), null;
      }
      var entry := entries[d];
      if entry.revoked { return Err(Revoked), null; }
      if now >= entry.capability.expiresAt {
        Drop(d);
        return Err(Expired), null;
      }
      var g := entry.granted;
      if g.actor != a.actor { return Err(Unauthorized), null; }
      if g.slotLeaseID != "" {
        if !bound || g.accountID != a.accountID || entry.capability.requestID != a.requestID || g.accountLeaseID != a.accountLeaseID
           || g.slotLeaseID != a.slotLeaseID || g.slotID != a.slotID || g.generation != a.generation {
          return Err(Unauthorized), null;
        }
      } else if bound && (g.accountID != a.accountID || entry.capability.requestID != a.requestID) {
        return Err(Unauthorized), null;
      }
      copy := Copy(entry.password);
      return Ok(entry.endpoint), copy;
    }

    /** Revokes one capability for its own actor; the wiped entry stays behind. */
    method Revoke(c: Capability, actor: string) returns (error: Option<Error>)
      requires Valid()
      modifies this, Buffers()
      ensures Valid() && Buffers() <= old(Buffers())
      ensures error == RevokeError(digest, old(Value()), c, actor)
      ensures Value() == RevokeIndex(digest, old(Value()), c, actor)
      ensures error.None? ==> digest(c.token) in old(entries) && Erased(old(entries)[digest(c.token)].password)
    {
      var d := digest(c.token);
      if d !in entries || entries[d].capability.id != c.id { return Some(BadCapability); }
      var entry := entries[d];
      if entry.granted.actor != actor { return Some(Unauthorized); }
      if entry.password != null { Clear(entry.password); }
      entries := entries[d := entry.(revoked := true, endpoint := NOWHERE, password := null)];
      return None;
    }

    /** Wipes and forgets every entry the fence covers, and touches no other. */
    method Sweep(fence: Fence)
      requires Valid()
      modifies this, Buffers()
      ensures entries == map d | d in old(entries) && !fence.Covers(old(entries)[d].granted) :: old(entries)[d]
      ensures forall d | d in entries && entries[d].password != null :: entries[d].password[..] == old(entries[d].password[..])
      ensures forall d | d in old(entries) && fence.Covers(old(entries)[d].granted) :: Erased(old(entries)[d].password)
    {
      hide Fence.Covers, Value, Contents;
      var all, rest := entries, entries.Keys;
      while rest != {}
        invariant rest <= all.Keys
        invariant forall d :: d in entries <==> d in all && (d in rest || !fence.Covers(all[d].granted))
        invariant forall d | d in entries :: entries[d] == all[d]
        invariant forall d | d in entries && all[d].password != null :: all[d].password[..] == old(all[d].password[..])
        invariant forall d | d in all && d !in entries :: Erased(all[d].password)
        decreases rest
      {
        var d :| d in rest;
        if fence.Covers(entries[d].granted) {
          if entries[d].password != null { Clear(entries[d].password); }
          entries := entries - {d};
        }
        rest := rest - {d};
      }
    }

    /** Cuts off every capability that the fence covers: wipes and drops its entry. */
    method FenceOff(fence: Fence) returns (error: Option<Error>)
      requires Valid()
      modifies this, Buffers()
      ensures Valid() && Buffers() <= old(Buffers())
      ensures error == if fence.Admissible() then None else Some(InvalidRequest)
      ensures Value() == FenceIndex(old(Value()), fence)
      ensures error.None? ==>
                forall d | d in old(entries) && fence.Covers(old(entries)[d].granted) :: Erased(old(entries)[d].password)
    {
      hide Fence.Admissible, Fence.Covers;
      if !fence.Admissible() { return Some(InvalidRequest); }
      Sweep(fence);
      return None;
    }
  }

  /** The buffer, if there is one, holds nothing but zeros. */
  ghost predicate Erased(buffer: array?<Byte>)
    reads buffer
  {
    buffer != null ==> Zeroed(buffer[..])
  }

  /** A copy handed out before a revocation keeps its contents: the fence wipes the service's buffers only. */
  method ResolveThenFence(s: Service, c: Capability, a: Authorization, now: Instant, bound: bool, fence: Fence)
    returns (outcome: Result<Endpoint, Error>, copy: array?<Byte>)
    requires s.Valid()
    modifies s, s.Buffers()
    ensures var index := old(s.Value());
      var spec := ResolveOutcome(s.digest, index, c, a, now, bound);
      && s.Value() == FenceIndex(ResolveIndex(s.digest, index, c, a, now, bound), fence)
      && (spec.Ok? ==> copy != null && copy[..] == spec.value.password)
  {
    hide ResolveOutcome, FenceIndex;
    outcome, copy := s.Resolve(c, a, now, bound);
    var _ := s.FenceOff(fence);
  }
}
