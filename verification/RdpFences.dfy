/** What each fence of the RDP capability service reaches, in the fields of the granted authorization, and what an issue grants. */
module RdpFences {
  import opened Common
  import opened RdpCapability

  /** `after` is `index` without the entries granted to an authorization that `gone` picks; all others are as they were. */
  ghost predicate Drops(index: Index, after: Index, gone: Authorization -> bool) {
    && (forall d :: d in after <==> d in index && !gone(index[d].granted))
    && (forall d | d in after :: after[d] == index[d])
  }

  lemma RequestFence(index: Index, x: string)
    ensures !Blank(x) ==> Drops(index, FenceIndex(index, ByRequest(x)), (a: Authorization) => a.requestID == x)
    ensures Blank(x) ==> FenceIndex(index, ByRequest(x)) == index
  {
    hide Blank;
  }

  lemma SlotLeaseFence(index: Index, x: string)
    ensures !Blank(x) ==> Drops(index, FenceIndex(index, BySlotLease(x)), (a: Authorization) => a.slotLeaseID == x)
    ensures Blank(x) ==> FenceIndex(index, BySlotLease(x)) == index
  {
    hide Blank;
  }

  lemma SlotFence(index: Index, x: string)
    ensures !Blank(x) ==> Drops(index, FenceIndex(index, BySlot(x)), (a: Authorization) => a.slotID == x)
    ensures Blank(x) ==> FenceIndex(index, BySlot(x)) == index
  {
    hide Blank;
  }

  lemma AccountLeaseFence(index: Index, x: string)
    ensures !Blank(x) ==> Drops(index, FenceIndex(index, ByAccountLease(x)), (a: Authorization) => a.accountLeaseID == x)
    ensures Blank(x) ==> FenceIndex(index, ByAccountLease(x)) == index
  {
    hide Blank;
  }

  lemma GenerationFence(index: Index, x: string, g: Uint64)
    ensures !Blank(x) && g != 0 ==> Drops(index, FenceIndex(index, ByGeneration(x, g)), (a: Authorization) => a.slotID == x && a.generation == g)
    ensures Blank(x) || g == 0 ==> FenceIndex(index, ByGeneration(x, g)) == index
  {
    hide Blank;
  }

  lemma CloseDropsAll(index: Index)
    ensures FenceIndex(index, Close) == map[]
  {
  }

  /** Which fences are refused: a blank identifier, or generation 0. */
  lemma RefusedFences(x: string, g: Uint64)
    ensures ByRequest(x).Admissible() <==> !Blank(x)
    ensures BySlotLease(x).Admissible() <==> !Blank(x)
    ensures BySlot(x).Admissible() <==> !Blank(x)
    ensures ByAccountLease(x).Admissible() <==> !Blank(x)
    ensures ByGeneration(x, g).Admissible() <==> !Blank(x) && g != 0
    ensures Close.Admissible()
  {
    hide Blank;
  }

  /** The call names this authorization: its request, or, if it is bound to a slot, one of its leases, its slot or its generation. */
  predicate NamesIt(call: Call, a: Authorization) {
    || call == FenceOff(ByRequest(a.requestID))
    || call == FenceOff(Close)
    || (a.slotID != ""
        && (|| call == FenceOff(BySlot(a.slotID)) || call == FenceOff(BySlotLease(a.slotLeaseID))
            || call == FenceOff(ByAccountLease(a.accountLeaseID)) || call == FenceOff(ByGeneration(a.slotID, a.generation))))
  }

  lemma NamedIsEnded(digest: Digest, issue: Call, call: Call)
    requires Accepted(issue) && call.FenceOff?
    ensures Ends(digest, issue, call) <==> NamesIt(call, issue.request)
  {
    hide ContainsAny, ShortID, Lease;
    assert Blank("");
  }

  /**
   A capability never resolves after a fence that names its request, its slot, one of its leases, its slot with its generation,
   or closes the service; and fences end no other capability.
   */
  lemma FencedNeverResolves(digest: Digest, log: seq<Call>, i: int, j: int, c: Capability, a: Authorization, now: Instant, bound: bool)
    requires Injective(digest) && FreshTokens(log) && 0 <= i < j < |log| && Accepted(log[i]) && NamesIt(log[j], log[i].request)
    requires c.token == log[i].token
    ensures ResolveOutcome(digest, Run(digest, log), c, a, now, bound).Err?
  {
    hide Accepted, Run, ResolveOutcome, Ends, FreshTokens, Injective;
    NamedIsEnded(digest, log[i], log[j]);
    EndedStaysEnded(digest, log, i, j, c, a, now, bound);
  }

  lemma FenceSparesOthers(digest: Digest, log: seq<Call>, i: int, call: Call)
    requires Live(digest, log, i) && call.FenceOff? && !NamesIt(call, log[i].request)
    ensures Live(digest, log + [call], i)
  {
    hide Accepted, Ends, NamesIt;
    NamedIsEnded(digest, log[i], call);
    var longer := log + [call];
    assert longer[..|longer| - 1] == log && longer[i] == log[i];
    LiveBefore(digest, longer, i);
  }

  // ----- What an issue grants -----

  predicate SingleLine(s: string) { !ContainsAny(s, {'\r', '\n', '\0'}) }

  /** When an issue is accepted, and until when: two minutes unless asked otherwise, five at most. */
  lemma IssueIsAcceptedIff(digest: Digest, call: Call)
    requires call.Issue?
    ensures Accepted(call) <==>
      && (var a := call.request;
          && !Blank(a.accountID) && !Blank(a.requestID) && !Blank(a.actor) && SingleLine(a.accountID + a.requestID + a.actor)
          && (|| (a.accountLeaseID == "" && a.slotLeaseID == "" && a.slotID == "" && a.generation == 0)
              || (&& !Blank(a.accountLeaseID) && !Blank(a.slotLeaseID) && !Blank(a.slotID) && a.generation != 0
                  && SingleLine(a.accountLeaseID + a.slotLeaseID + a.slotID))))
      && call.now != 0 && 0 <= call.ttl <= 300_000_000_000
      && call.authorized && call.material.endpoint.host != "" && |call.material.password| > 0 && call.entropy
    ensures Accepted(call) ==>
              var e := EntryOf(digest, call);
              && e.capability.expiresAt == call.now + (if call.ttl == 0 then 120_000_000_000 else call.ttl)
              && e.capability.token == call.token && e.capability.requestID == call.request.requestID
              && e.granted == call.request && e.material == call.material && !e.revoked
  {
    hide Blank, ContainsAny;
  }

  /** An accepted capability resolves for its actor with its own authorization, from its issue until it expires. */
  lemma IssuedResolvesUntilExpiry(digest: Digest, log: seq<Call>, issue: Call, now: Instant)
    requires Injective(digest) && FreshTokens(log + [issue]) && Accepted(issue) && !Blank(issue.token)
    requires now != 0
    ensures var c := EntryOf(digest, issue).capability;
      (exists m :: ResolveOutcome(digest, Run(digest, log + [issue]), c, issue.request, now, true) == Ok(m))
      <==> now < issue.now + (if issue.ttl == 0 then 120_000_000_000 else issue.ttl)
  {
    hide Run, ResolveOutcome, Blank, ContainsAny, FreshTokens, Injective, ShortID;
    var c, whole, n := EntryOf(digest, issue).capability, log + [issue], |log|;
    assert whole[n] == issue && Live(digest, whole, n);
    if now < issue.now + (if issue.ttl == 0 then 120_000_000_000 else issue.ttl) {
      assert Justifies(digest, whole, n, c, issue.request, now, true);
      ResolveFollowsTheLog(digest, whole, c, issue.request, now, true, issue.material);
    }
    if m :| ResolveOutcome(digest, Run(digest, whole), c, issue.request, now, true) == Ok(m) {
      ResolveFollowsTheLog(digest, whole, c, issue.request, now, true, m);
      var i :| Justifies(digest, whole, i, c, issue.request, now, true);
      UniqueIssue(digest, whole, digest(issue.token), i, n);
    }
  }
}
