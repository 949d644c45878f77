/**
 The credential service and its store as they run: maps updated in place, plaintext held in working buffers that are
 overwritten before a call returns. The methods implement the functions of Credential.dfy.
 */
module CredentialService {
  import opened Common
  import opened Credential

  method Clear(buffer: array<Byte>)
    modifies buffer
    ensures forall i | 0 <= i < buffer.Length :: buffer[i] == 0
  {
    for i := 0 to buffer.Length
      invariant forall j | 0 <= j < i :: buffer[j] == 0
    {
      buffer[i] := 0;
    }
  }

  /** A working buffer with the given contents. */
  method Working(bytes: Bytes) returns (buffer: array<Byte>)
    ensures fresh(buffer) && buffer[..] == bytes
  {
    buffer := new Byte[|bytes|](i requires 0 <= i < |bytes| => bytes[i]);
  }

  class Backend {
    var accounts: set<string>
    var records: map<string, Record>
    var audits: map<(string, string), Audit>

    function Value(): StoreState
      reads this
    {
      StoreState(accounts, records, audits)
    }

    /** Writes an optional record and its audit in one transaction; repeating an audit is harmless. */
    method ApplyMutation(m: Mutation) returns (error: Option<Error>)
      modifies this`records, this`audits
      ensures error == ApplyError(old(Value()), m)
      ensures Value() == Apply(old(Value()), m)
    {
      hide Mutation.Fault, Record.Valid;
      var fault := m.Fault();
      if fault.Some? { return fault; }
      if m.accountID !in accounts { return Some(AccountNotFound); }
      var key := (m.accountID, m.audit.auditID);
      if key in audits {
        if audits[key] != m.audit { return Some(AuditConflict); }
        if m.record.Some? {
          if m.accountID !in records || records[m.accountID] != m.record.value { return Some(AuditConflict); }
        }
        return None;
      }
      if m.record.Some? {
        if m.accountID in records {
          var existing := records[m.accountID];
          if !existing.Valid() { return Some(Corrupt); }
          if existing.version > m.record.value.version
             || (existing.version == m.record.value.version && m.audit.operation != Revoke && m.audit.operation != RevokeForDeletion)
          { return Some(VersionConflict); }
          if existing.version == m.record.value.version && existing.revokedAt.Some? { return Some(VersionConflict); }
        }
        records := records[m.accountID := m.record.value];
      }
      audits := audits[key := m.audit];
      return None;
    }
  }

  class Service {
    const aead: Aead
    const backend: Backend
    var ring: Keyring

    constructor (aead: Aead, backend: Backend, ring: Keyring)
      ensures this.aead == aead && this.backend == backend && this.ring == ring
    {
      this.aead, this.backend, this.ring := aead, backend, ring;
    }

    /** Stores a new version under the current key. The caller's buffer is copied, and the copy is cleared. */
    method Put(call: Call, plaintext: array<Byte>) returns (outcome: Result<Record, Error>, working: array<Byte>)
      modifies backend`records, backend`audits
      ensures plaintext[..] == old(plaintext[..])
      ensures fresh(working) && forall i | 0 <= i < working.Length :: working[i] == 0
      ensures var s, prepared := old(backend.Value()), PreparePut(aead, ring, old(backend.Value()), call, old(plaintext[..]));
        if prepared.Err? then outcome == Err(prepared.error) && backend.Value() == s
        else
          && backend.Value() == Apply(s, prepared.value) && prepared.value.record.Some?
          && outcome == var e := ApplyError(s, prepared.value); if e.Some? then Err(e.value) else Ok(prepared.value.record.value)
    {
      hide ApplyError, Apply, Call.Valid, Record.Valid, Key.Valid, Audit.Valid;
      working := Working([]);
      if !call.Valid() { return Err(InvalidCredential), working; }
      if plaintext.Length == 0 || plaintext.Length > MAX_PAYLOAD { return Err(InvalidCredential), working; }
      if ring.current.None? || !ring.current.value.Valid() { return Err(KeyUnavailable), working; }
      var key := ring.current.value;
      var existing := Get(backend.Value(), call.accountID);
      if existing.Err? { return Err(existing.error), working; }
      var version: Uint64, createdAt: Instant := 1, call.at;
      if existing.value.Some? {
        if call.at < existing.value.value.updatedAt { return Err(InvalidCredential), working; }
        version, createdAt := Next(existing.value.value.version), existing.value.value.createdAt;
      }
      working := Working(plaintext[..]);
      var record := Encrypted(aead, key, call, version, createdAt, working[..]);
      Clear(working);
      if record.Err? { return Err(record.error), working; }
      var m := Audited(call, Store, version, key.id, Some(record.value));
      if m.Err? { return Err(m.error), working; }
      var error := backend.ApplyMutation(m.value);
      return if error.Some? then Err(error.value) else Ok(record.value), working;
    }

    /** Shows the plaintext to a callback, after the access was audited; the working buffer is cleared afterwards. */
    method Use(call: Call) returns (outcome: Result<Bytes, Error>, working: array<Byte>)
      modifies backend`records, backend`audits
      ensures fresh(working) && forall i | 0 <= i < working.Length :: working[i] == 0
      ensures var s, prepared := old(backend.Value()), PrepareUse(aead, ring, old(backend.Value()), call);
        if prepared.Err? then outcome == Err(prepared.error) && backend.Value() == s
        else
          && backend.Value() == Apply(s, prepared.value)
          && outcome == var e := ApplyError(s, prepared.value); if e.Some? then Err(e.value) else Read(aead, ring, s, call)
    {
      hide ApplyError, Apply, Call.Valid, Record.Valid, Key.Valid, Audit.Valid, Decrypted;
      working := Working([]);
      var active := Active(backend.Value(), call);
      if active.Err? { return Err(active.error), working; }
      var key := Lookup(ring, active.value.keyID);
      if key.Err? { return Err(key.error), working; }
      var clear := Decrypted(aead, key.value, active.value);
      if clear.Err? { return Err(clear.error), working; }
      working := Working(clear.value);
      var m := Audited(call, Access, active.value.version, active.value.keyID, None);
      var seen := working[..];
      Clear(working);
      if m.Err? { return Err(m.error), working; }
      var error := backend.ApplyMutation(m.value);
      return if error.Some? then Err(error.value) else Ok(seen), working;
    }

    /** Re-encrypts the payload under the current key, as a new version. */
    method RotateKey(call: Call) returns (outcome: Result<Record, Error>, working: array<Byte>)
      modifies backend`records, backend`audits
      ensures fresh(working) && forall i | 0 <= i < working.Length :: working[i] == 0
      ensures var s, prepared := old(backend.Value()), PrepareRotate(aead, ring, old(backend.Value()), call);
        if prepared.Err? then outcome == Err(prepared.error) && backend.Value() == s
        else
          && backend.Value() == Apply(s, prepared.value) && prepared.value.record.Some?
          && outcome == var e := ApplyError(s, prepared.value); if e.Some? then Err(e.value) else Ok(prepared.value.record.value)
    {
      hide ApplyError, Apply, Call.Valid, Record.Valid, Key.Valid, Audit.Valid, Decrypted, Encrypted;
      working := Working([]);
      var active := Active(backend.Value(), call);
      if active.Err? { return Err(active.error), working; }
      var r := active.value;
      if ring.current.None? || !ring.current.value.Valid() { return Err(KeyUnavailable), working; }
      var current := ring.current.value;
      if current.id == r.keyID { return Err(AlreadyCurrentKey), working; }
      var previous := Lookup(ring, r.keyID);
      if previous.Err? { return Err(previous.error), working; }
      var clear := Decrypted(aead, previous.value, r);
      if clear.Err? { return Err(clear.error), working; }
      working := Working(clear.value);
      var version := Next(r.version);
      var rotated := Encrypted(aead, current, call, version, r.createdAt, working[..]);
      Clear(working);
      if rotated.Err? { return Err(rotated.error), working; }
      var m := Audited(call, Rotate, version, current.id, Some(rotated.value));
      if m.Err? { return Err(m.error), working; }
      var error := backend.ApplyMutation(m.value);
      return if error.Some? then Err(error.value) else Ok(rotated.value), working;
    }

    /** Wipes the ciphertext, once the account's sessions have been invalidated. Revoking twice is harmless. */
    method Revoke(call: Call, invalidated: bool) returns (error: Option<Error>)
      modifies backend`records, backend`audits
      ensures var s, prepared := old(backend.Value()), PrepareRevoke(old(backend.Value()), call, invalidated);
        if prepared.Err? then error == Some(prepared.error) && backend.Value() == s
        else if prepared.value.None? then error == None && backend.Value() == s
        else error == ApplyError(s, prepared.value.value) && backend.Value() == Apply(s, prepared.value.value)
    {
      hide ApplyError, Apply, Call.Valid, Record.Valid, Audit.Valid;
      if !call.Valid() { return Some(InvalidCredential); }
      var got := Get(backend.Value(), call.accountID);
      if got.Err? { return Some(got.error); }
      if got.value.None? { return Some(NotFound); }
      var r := got.value.value;
      if call.at < r.updatedAt { return Some(InvalidCredential); }
      if r.revokedAt.Some? { return None; }
      if !invalidated { return Some(SessionInvalidation); }
      var m := Audited(call, Operation.Revoke, r.version, r.keyID, Some(r.RevokedFrom(call.at)));
      if m.Err? { return Some(m.error); }
      error := backend.ApplyMutation(m.value);
    }

    /** Wipes the ciphertext of an account under deletion, only after its sessions have stopped. */
    method RevokeForDeletion(call: Call, deletionID: string, sessionsStopped: bool) returns (error: Option<Error>)
      modifies backend`records, backend`audits
      ensures var s, prepared := old(backend.Value()), PrepareRevokeForDeletion(old(backend.Value()), call, deletionID, sessionsStopped);
        if prepared.Err? then error == Some(prepared.error) && backend.Value() == s
        else if prepared.value.None? then error == None && backend.Value() == s
        else error == ApplyError(s, prepared.value.value) && backend.Value() == Apply(s, prepared.value.value)
    {
      hide ApplyError, Apply, Call.Valid, Record.Valid, Audit.Valid, ValidIdentifier;
      if !call.Valid() { return Some(InvalidCredential); }
      if !sessionsStopped { return Some(SessionsNotStopped); }
      if !ValidIdentifier(deletionID) { return Some(InvalidCredential); }
      var got := Get(backend.Value(), call.accountID);
      if got.Err? { return Some(got.error); }
      if got.value.None? { return None; }
      var r := got.value.value;
      if call.at < r.updatedAt { return Some(InvalidCredential); }
      if r.revokedAt.Some? { return None; }
      var m := Audited(call, Operation.Revoke, r.version, r.keyID, Some(r.RevokedFrom(call.at)));
      if m.Err? { return Some(m.error); }
      error := backend.ApplyMutation(m.value.(audit := m.value.audit.(operation := Operation.RevokeForDeletion, deletionID := deletionID)));
    }
  }
}
