/**
 Each credential call on its own: exactly when it goes through, told from the stored record, the keyring and the random
 source, and what a later call reads once it has been written without interruption.
 */
module CredentialCalls {
  import opened Common
  import opened Credential

  /** The call names an account, an actor and a time not before the last change of the account's record. */
  predicate Timely(s: StoreState, call: Call) {
    && ValidIdentifier(call.accountID) && ValidIdentifier(call.actor) && call.at != 0
    && (call.accountID in s.records ==> s.records[call.accountID].Valid() && s.records[call.accountID].updatedAt <= call.at)
  }

  predicate HasCurrent(ring: Keyring) { ring.current.Some? && ring.current.value.Valid() }

  predicate Identified(call: Call) { call.random.auditID.Some? && ValidIdentifier(call.random.auditID.value) }

  /** There is a record, not revoked, that a known key opens to `p`. */
  predicate Opens(aead: Aead, ring: Keyring, s: StoreState, a: string, p: Bytes) {
    && a in s.records && s.records[a].Valid() && s.records[a].revokedAt.None?
    && var r := s.records[a];
    && r.keyID in ring.keys && ring.keys[r.keyID].Valid() && |p| <= 65536
    && aead.unseal(ring.keys[r.keyID].material, r.nonce, Binding(r.accountID, r.version, ring.keys[r.keyID].id), r.ciphertext) == Some(p)
  }

  /** Nothing in the way of writing the mutation of this call: the account exists and its audit identifier is new. */
  predicate Writable(s: StoreState, call: Call) {
    call.accountID in s.accounts && call.random.auditID.Some? && (call.accountID, call.random.auditID.value) !in s.audits
  }

  // ----- When a call goes through -----

  /** A store goes through whatever became of the credential before, revocation included. */
  lemma PutSucceedsIff(aead: Aead, ring: Keyring, s: StoreState, call: Call, p: Bytes)
    ensures PreparePut(aead, ring, s, call, p).Ok? <==>
      && Timely(s, call) && 0 < |p| <= 65536 && HasCurrent(ring)
      && (call.accountID in s.records ==> s.records[call.accountID].version != MAX_UINT64)
      && call.random.nonce.Some? && Identified(call)
  {
    hide ValidIdentifier, Record.Valid;
  }

  /** A read yields `p` exactly when the call is timely and the stored record opens to `p`. */
  lemma ReadYieldsIff(aead: Aead, ring: Keyring, s: StoreState, call: Call, p: Bytes)
    ensures Read(aead, ring, s, call) == Ok(p) <==> Timely(s, call) && Opens(aead, ring, s, call.accountID, p)
  {
    hide ValidIdentifier, Key.Valid;
  }

  lemma UseSucceedsIff(aead: Aead, ring: Keyring, s: StoreState, call: Call)
    ensures PrepareUse(aead, ring, s, call).Ok? <==>
      Timely(s, call) && (exists p :: Opens(aead, ring, s, call.accountID, p)) && Identified(call)
  {
    hide ValidIdentifier, Opens, Read, Decrypted, Lookup;
    ReadIff(aead, ring, s, call);
    if Read(aead, ring, s, call).Ok? { ReadIsActive(aead, ring, s, call); }
  }

  lemma ReadIff(aead: Aead, ring: Keyring, s: StoreState, call: Call)
    ensures Read(aead, ring, s, call).Ok? <==> Timely(s, call) && exists p :: Opens(aead, ring, s, call.accountID, p)
  {
    hide Opens, Read, Timely;
    if Read(aead, ring, s, call).Ok? { ReadYieldsIff(aead, ring, s, call, Read(aead, ring, s, call).value); }
    if p :| Opens(aead, ring, s, call.accountID, p) { ReadYieldsIff(aead, ring, s, call, p); }
  }

  lemma ReadIsActive(aead: Aead, ring: Keyring, s: StoreState, call: Call)
    requires Read(aead, ring, s, call).Ok?
    ensures Active(s, call).Ok? && call.accountID in s.records && Active(s, call).value == s.records[call.accountID]
  {
    hide ValidIdentifier, Decrypted, Record.Valid;
  }

  /** A rotation goes through exactly when the credential opens, and its key is not the current one. */
  lemma RotateSucceedsIff(aead: Aead, ring: Keyring, s: StoreState, call: Call)
    ensures PrepareRotate(aead, ring, s, call).Ok? <==>
      && Timely(s, call) && (exists p :: Opens(aead, ring, s, call.accountID, p)) && HasCurrent(ring)
      && s.records[call.accountID].keyID != ring.current.value.id && s.records[call.accountID].version != MAX_UINT64
      && call.random.nonce.Some? && Identified(call)
  {
    hide ValidIdentifier, Opens, Read, Decrypted, Lookup, Timely;
    ReadIff(aead, ring, s, call);
    OpensIsStored(aead, ring, s, call.accountID);
    if Read(aead, ring, s, call).Ok? { ReadIsActive(aead, ring, s, call); }
  }

  lemma OpensIsStored(aead: Aead, ring: Keyring, s: StoreState, a: string)
    ensures (exists p :: Opens(aead, ring, s, a, p)) ==> a in s.records
  {
  }

  /** A revocation writes something exactly when there is an active credential and its sessions were invalidated; it has nothing to do exactly when the credential is revoked. */
  lemma RevokeSucceedsIff(s: StoreState, call: Call, invalidated: bool)
    ensures var a, outcome := call.accountID, PrepareRevoke(s, call, invalidated);
      && (outcome.Ok? && outcome.value.Some? <==>
            Timely(s, call) && a in s.records && s.records[a].revokedAt.None? && invalidated && Identified(call))
      && (outcome == Ok(None) <==> Timely(s, call) && a in s.records && s.records[a].revokedAt.Some?)
  {
    hide ValidIdentifier;
  }

  /** A deletion revokes likewise, once sessions are stopped; it has nothing to do also when there is no credential. */
  lemma RevokeForDeletionSucceedsIff(s: StoreState, call: Call, deletionID: string, sessionsStopped: bool)
    ensures var a, outcome := call.accountID, PrepareRevokeForDeletion(s, call, deletionID, sessionsStopped);
      && (outcome.Ok? && outcome.value.Some? <==>
            && Timely(s, call) && sessionsStopped && ValidIdentifier(deletionID)
            && a in s.records && s.records[a].revokedAt.None? && Identified(call))
      && (outcome == Ok(None) <==>
            && Timely(s, call) && sessionsStopped && ValidIdentifier(deletionID)
            && (a in s.records ==> s.records[a].revokedAt.Some?))
  {
    hide ValidIdentifier;
  }

  // ----- What is read afterwards -----

  /** Only the record of the call's account changed, and an audit of the operation on it was added. */
  ghost predicate Written(s: StoreState, t: StoreState, call: Call, operation: Operation, deletionID: string) {
    var a, id := call.accountID, call.random.auditID;
    && a in t.records && t.accounts == s.accounts && t.records == s.records[a := t.records[a]]
    && id.Some? && t.audits == s.audits[(a, id.value) := Audit(id.value, a, deletionID, operation, call.actor, t.records[a].version,
                                                              t.records[a].keyID, call.at)]
  }

  /** After a store the credential opens to what was stored, under the current key, in the next version. */
  lemma PutTakesEffect(aead: Aead, ring: Keyring, s: StoreState, call: Call, p: Bytes)
    requires Correct(aead) && ring.Sound() && call.random.Sound()
    requires PreparePut(aead, ring, s, call, p).Ok? && Writable(s, call)
    ensures var m, a := PreparePut(aead, ring, s, call, p).value, call.accountID;
      var t := Apply(s, m);
      && ApplyError(s, m).None? && Written(s, t, call, Store, "") && Opens(aead, ring, t, a, p)
      && t.records[a].version == (if a in s.records then s.records[a].version + 1 else 1)
      && t.records[a].keyID == ring.current.value.id && t.records[a].updatedAt == call.at
      && t.records[a].createdAt == (if a in s.records then s.records[a].createdAt else call.at)
  {
    hide ValidIdentifier;
    PutSucceedsIff(aead, ring, s, call, p);
  }

  /** After a rotation it opens to the same plaintext under the current key. */
  lemma RotateTakesEffect(aead: Aead, ring: Keyring, s: StoreState, call: Call, p: Bytes)
    requires Correct(aead) && ring.Sound() && call.random.Sound()
    requires PrepareRotate(aead, ring, s, call).Ok? && Opens(aead, ring, s, call.accountID, p) && Writable(s, call)
    ensures var m, a := PrepareRotate(aead, ring, s, call).value, call.accountID;
      var t := Apply(s, m);
      && ApplyError(s, m).None? && Written(s, t, call, Rotate, "") && Opens(aead, ring, t, a, p)
      && t.records[a].version == s.records[a].version + 1
      && t.records[a].keyID == ring.current.value.id && t.records[a].updatedAt == call.at
      && t.records[a].createdAt == s.records[a].createdAt
  {
    hide ValidIdentifier, Decrypted, Opens;
    RotateSucceedsIff(aead, ring, s, call);
    ReadYieldsIff(aead, ring, s, call, p);
    ReadIsActive(aead, ring, s, call);
    RotatedRecord(aead, ring, s, call, p);
  }

  lemma RotatedRecord(aead: Aead, ring: Keyring, s: StoreState, call: Call, p: Bytes)
    requires Correct(aead) && ring.Sound() && call.random.Sound()
    requires PrepareRotate(aead, ring, s, call).Ok? && Read(aead, ring, s, call) == Ok(p) && Writable(s, call)
    requires Active(s, call).Ok? && call.accountID in s.records && Active(s, call).value == s.records[call.accountID]
    ensures var m, a := PrepareRotate(aead, ring, s, call).value, call.accountID;
      var t := Apply(s, m);
      && ApplyError(s, m).None? && Written(s, t, call, Rotate, "") && Opens(aead, ring, t, a, p)
      && t.records[a].version == s.records[a].version + 1
      && t.records[a].keyID == ring.current.value.id && t.records[a].updatedAt == call.at
      && t.records[a].createdAt == s.records[a].createdAt
  {
    hide ValidIdentifier;
  }

  /** The record of `a` in `t` is the one in `s`, revoked at that time and wiped; nothing opens it. */
  ghost predicate RevokedAt(s: StoreState, t: StoreState, a: string, at: Instant) {
    && a in s.records && a in t.records
    && t.records[a].revokedAt == Some(at) && t.records[a].ciphertext == [] && t.records[a].nonce == []
    && t.records[a].version == s.records[a].version && t.records[a].keyID == s.records[a].keyID
    && t.records[a].createdAt == s.records[a].createdAt && t.records[a].updatedAt == at
    && (forall aead, ring, p :: !Opens(aead, ring, t, a, p))
  }

  /** After a revocation nothing opens the credential, and its ciphertext is gone. */
  lemma RevokeTakesEffect(s: StoreState, call: Call, invalidated: bool)
    requires Writable(s, call) && call.accountID in s.records && s.records[call.accountID].accountID == call.accountID
    ensures var outcome := PrepareRevoke(s, call, invalidated);
      outcome.Ok? && outcome.value.Some? ==>
        var t := Apply(s, outcome.value.value);
        ApplyError(s, outcome.value.value).None? && Written(s, t, call, Revoke, "") && RevokedAt(s, t, call.accountID, call.at)
  {
    hide ValidIdentifier;
  }

  lemma RevokeForDeletionTakesEffect(s: StoreState, call: Call, deletionID: string, sessionsStopped: bool)
    requires Writable(s, call) && call.accountID in s.records && s.records[call.accountID].accountID == call.accountID
    ensures var outcome := PrepareRevokeForDeletion(s, call, deletionID, sessionsStopped);
      outcome.Ok? && outcome.value.Some? ==>
        var t := Apply(s, outcome.value.value);
        && ApplyError(s, outcome.value.value).None? && Written(s, t, call, RevokeForDeletion, deletionID)
        && RevokedAt(s, t, call.accountID, call.at)
  {
    NoName();
    hide ValidIdentifier;
  }

  lemma NoName()
    ensures !ValidIdentifier("")
  {
  }

  /** A credential that was revoked can be stored anew, and is then read back. */
  lemma StoredAfterRevocation(aead: Aead, ring: Keyring, s: StoreState, call: Call, p: Bytes, later: Call)
    requires Correct(aead) && ring.Sound() && HasCurrent(ring) && call.random.Sound() && call.random.nonce.Some? && Identified(call)
    requires Timely(s, call) && call.accountID in s.records && s.records[call.accountID].revokedAt.Some?
    requires s.records[call.accountID].version != MAX_UINT64 && Writable(s, call) && 0 < |p| <= 65536
    requires later.Valid() && later.accountID == call.accountID && later.at >= call.at
    ensures PreparePut(aead, ring, s, call, p).Ok?
    ensures Read(aead, ring, Apply(s, PreparePut(aead, ring, s, call, p).value), later) == Ok(p)
  {
    hide ValidIdentifier, Read, PreparePut, Apply, ApplyError, Correct, Keyring.Sound;
    PutSucceedsIff(aead, ring, s, call, p);
    PutTakesEffect(aead, ring, s, call, p);
    ReadYieldsIff(aead, ring, Apply(s, PreparePut(aead, ring, s, call, p).value), later, p);
  }
}
