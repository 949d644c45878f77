/**
 Encrypted credentials (internal/credential/credential.go) over their durable store (internal/store/credential.go). A
 service call reads the store, prepares a mutation, and applies it in a second transaction; calls of several processes
 may interleave between the two. The abstract view is one plaintext cell per account.
 */
module Credential {
  import opened Common

  const MAX_PAYLOAD: nat := 65536
  const NONCE_SIZE: nat := 12
  const TAG_SIZE: nat := 16

  type Byte = x: int | 0 <= x < 256
  type Bytes = seq<Byte>

  datatype Error =
    | InvalidCredential | InvalidAudit | NotFound | RevokedCredential | KeyUnavailable | Authentication | SessionInvalidation
    | SessionsNotStopped | AuditConflict | VersionConflict | AlreadyCurrentKey | AccountNotFound | Randomness | Corrupt

  // ----- Keys and authenticated encryption -----

  datatype Key = Key(id: string, material: Bytes) {
    predicate Valid() {
      ValidIdentifier(id) && (|material| == 16 || |material| == 24 || |material| == 32)
    }
  }

  /** What a ciphertext is bound to. */
  datatype Binding = Binding(accountID: string, version: Uint64, keyID: string)

  /** Authenticated encryption: arguments are the key material, the nonce, the binding and the text. */
  datatype Aead = Aead(seal: (Bytes, Bytes, Binding, Bytes) -> Bytes, unseal: (Bytes, Bytes, Binding, Bytes) -> Option<Bytes>)

  /** Opening undoes sealing, and the ciphertext is the text plus a tag. */
  ghost predicate Correct(aead: Aead) {
    && (forall k, n, b, p :: aead.unseal(k, n, b, aead.seal(k, n, b, p)) == Some(p))
    && (forall k, n, b, p :: |aead.seal(k, n, b, p)| == |p| + TAG_SIZE)
  }

  datatype Keyring = Keyring(current: Option<Key>, keys: map<string, Key>) {
    /** Keys are known under their own identifiers, the current one among them. */
    ghost predicate Sound() {
      && (forall id | id in keys :: keys[id].id == id && keys[id].Valid())
      && (current.Some? ==> current.value.id in keys && keys[current.value.id] == current.value)
    }
  }

  /** No identifier is dropped or given to another key. */
  ghost predicate Grows(ring: Keyring, later: Keyring) {
    forall id | id in ring.keys :: id in later.keys && later.keys[id] == ring.keys[id]
  }

  // ----- Records, audits, mutations -----

  datatype Record = Record(
    accountID: string, version: Uint64, keyID: string, nonce: Bytes, ciphertext: Bytes,
    createdAt: Instant, updatedAt: Instant, revokedAt: Option<Instant>)
  {
    predicate Valid() {
      && ValidIdentifier(accountID) && version != 0 && ValidIdentifier(keyID)
      && createdAt != 0 && updatedAt != 0 && createdAt <= updatedAt
      && match revokedAt
         case Some(at) => at != 0 && updatedAt <= at && nonce == [] && ciphertext == []
         case None => |nonce| == NONCE_SIZE && TAG_SIZE <= |ciphertext| <= MAX_PAYLOAD + TAG_SIZE
    }

    function RevokedFrom(at: Instant): Record {
      this.(updatedAt := at, revokedAt := Some(at), nonce := [], ciphertext := [])
    }
  }

  datatype Operation = Store | Access | Rotate | Revoke | RevokeForDeletion

  datatype Audit = Audit(
    auditID: string, accountID: string, deletionID: string, operation: Operation, actor: string, version: Uint64,
    keyID: string, occurredAt: Instant)
  {
    predicate Valid() {
      && ValidIdentifier(auditID) && ValidIdentifier(accountID) && ValidIdentifier(actor) && ValidIdentifier(keyID)
      && version != 0 && occurredAt != 0
      && (deletionID != "" ==> ValidIdentifier(deletionID))
      && (operation == RevokeForDeletion <==> deletionID != "")
    }
  }

  datatype Mutation = Mutation(accountID: string, record: Option<Record>, audit: Audit) {
    function Fault(): Option<Error> {
      if !ValidIdentifier(accountID) || audit.accountID != accountID then Some(InvalidCredential)
      else if !audit.Valid() then Some(InvalidAudit)
      else if record.Some? && !(record.value.Valid() && record.value.accountID == accountID) then Some(InvalidCredential)
      else None
    }
  }

  // ----- The durable store -----

  datatype StoreState = StoreState(accounts: set<string>, records: map<string, Record>, audits: map<(string, string), Audit>)

  function Get(s: StoreState, accountID: string): Result<Option<Record>, Error> {
    if accountID !in s.records then Ok(None)
    else if s.records[accountID].Valid() then Ok(Some(s.records[accountID])) else Err(Corrupt)
  }

  /** The stored record forbids this mutation. */
  predicate Superseded(existing: Record, m: Mutation)
    requires m.record.Some?
  {
    || existing.version > m.record.value.version
    || (existing.version == m.record.value.version && m.audit.operation != Revoke && m.audit.operation != RevokeForDeletion)
    || (existing.version == m.record.value.version && existing.revokedAt.Some?)
  }

  predicate Repeats(s: StoreState, m: Mutation) {
    (m.accountID, m.audit.auditID) in s.audits
  }

  function ApplyError(s: StoreState, m: Mutation): Option<Error> {
    if m.Fault().Some? then m.Fault()
    else if m.accountID !in s.accounts then Some(AccountNotFound)
    else if Repeats(s, m) then
      if s.audits[(m.accountID, m.audit.auditID)] != m.audit then Some(AuditConflict)
      else if m.record.Some? && !(m.accountID in s.records && s.records[m.accountID] == m.record.value) then Some(AuditConflict)
      else None
    else if m.record.Some? && m.accountID in s.records then
      if !s.records[m.accountID].Valid() then Some(Corrupt)
      else if Superseded(s.records[m.accountID], m) then Some(VersionConflict) else None
    else None
  }

  /** Writes the record and its audit together, or nothing. A repeated audit writes nothing. */
  function Apply(s: StoreState, m: Mutation): StoreState {
    if ApplyError(s, m).Some? || Repeats(s, m) then s
    else s.(records := if m.record.Some? then s.records[m.accountID := m.record.value] else s.records,
            audits := s.audits[(m.accountID, m.audit.auditID) := m.audit])
  }

  // ----- Preparing a mutation -----

  /** What the random source yields: a nonce and an audit identifier, or failures. */
  datatype Random = Random(nonce: Option<Bytes>, auditID: Option<string>) {
    predicate Sound() { nonce.Some? ==> |nonce.value| == NONCE_SIZE }
  }

  datatype Call = Call(accountID: string, actor: string, at: Instant, random: Random) {
    predicate Valid() { ValidIdentifier(accountID) && ValidIdentifier(actor) && at != 0 }
  }

  function Next(version: Uint64): Uint64 { if version == MAX_UINT64 then 0 else version + 1 }

  function Audited(call: Call, operation: Operation, version: Uint64, keyID: string, record: Option<Record>)
    : Result<Mutation, Error>
  {
    if call.random.auditID.None? then Err(Randomness)
    else
      var audit := Audit(call.random.auditID.value, call.accountID, "", operation, call.actor, version, keyID, call.at);
      if audit.Valid() then Ok(Mutation(call.accountID, record, audit)) else Err(InvalidAudit)
  }

  function Encrypted(aead: Aead, key: Key, call: Call, version: Uint64, createdAt: Instant, plaintext: Bytes): Result<Record, Error> {
    if call.random.nonce.None? then Err(Randomness)
    else
      var nonce := call.random.nonce.value;
      Ok(Record(call.accountID, version, key.id, nonce,
                aead.seal(key.material, nonce, Binding(call.accountID, version, key.id), plaintext), createdAt, call.at, None))
  }

  function Decrypted(aead: Aead, key: Key, r: Record): Result<Bytes, Error> {
    if !key.Valid() then Err(KeyUnavailable)
    else if |r.nonce| != NONCE_SIZE then Err(Authentication)
    else
      var plaintext := aead.unseal(key.material, r.nonce, Binding(r.accountID, r.version, key.id), r.ciphertext);
      if plaintext.None? || |plaintext.value| > MAX_PAYLOAD then Err(Authentication) else Ok(plaintext.value)
  }

  function PreparePut(aead: Aead, ring: Keyring, s: StoreState, call: Call, plaintext: Bytes): Result<Mutation, Error> {
    if !call.Valid() || !(0 < |plaintext| <= MAX_PAYLOAD) then Err(InvalidCredential)
    else if ring.current.None? || !ring.current.value.Valid() then Err(KeyUnavailable)
    else
      var key := ring.current.value;
      match Get(s, call.accountID)
      case Err(e) => Err(e)
      case Ok(existing) =>
        if existing.Some? && call.at < existing.value.updatedAt then Err(InvalidCredential)
        else
          var version := if existing.Some? then Next(existing.value.version) else 1;
          var createdAt := if existing.Some? then existing.value.createdAt else call.at;
          match Encrypted(aead, key, call, version, createdAt, plaintext)
          case Err(e) => Err(e)
          case Ok(record) => Audited(call, Store, version, key.id, Some(record))
  }

  /** The active record a call works on. */
  function Active(s: StoreState, call: Call): Result<Record, Error> {
    if !call.Valid() then Err(InvalidCredential)
    else match Get(s, call.accountID)
      case Err(e) => Err(e)
      case Ok(None) => Err(NotFound)
      case Ok(Some(r)) =>
        if call.at < r.updatedAt then Err(InvalidCredential) else if r.revokedAt.Some? then Err(RevokedCredential) else Ok(r)
  }

  function Lookup(ring: Keyring, id: string): Result<Key, Error> {
    if id in ring.keys then Ok(ring.keys[id]) else Err(KeyUnavailable)
  }

  /** The plaintext of the account, as far as the call may see it. */
  function Read(aead: Aead, ring: Keyring, s: StoreState, call: Call): Result<Bytes, Error> {
    match Active(s, call)
    case Err(e) => Err(e)
    case Ok(r) =>
      match Lookup(ring, r.keyID)
      case Err(e) => Err(e)
      case Ok(key) => Decrypted(aead, key, r)
  }

  function PrepareUse(aead: Aead, ring: Keyring, s: StoreState, call: Call): Result<Mutation, Error> {
    match Read(aead, ring, s, call)
    case Err(e) => Err(e)
    case Ok(_) => Audited(call, Access, Active(s, call).value.version, Active(s, call).value.keyID, None)
  }

  function PrepareRotate(aead: Aead, ring: Keyring, s: StoreState, call: Call): Result<Mutation, Error> {
    match Active(s, call)
    case Err(e) => Err(e)
    case Ok(r) =>
      if ring.current.None? || !ring.current.value.Valid() then Err(KeyUnavailable)
      else if ring.current.value.id == r.keyID then Err(AlreadyCurrentKey)
      else match Read(aead, ring, s, call)
        case Err(e) => Err(e)
        case Ok(plaintext) =>
          var key, version := ring.current.value, Next(r.version);
          match Encrypted(aead, key, call, version, r.createdAt, plaintext)
          case Err(e) => Err(e)
          case Ok(record) => Audited(call, Rotate, version, key.id, Some(record))
  }

  /** A revocation of a revoked credential has nothing to do. */
  function PrepareRevoke(s: StoreState, call: Call, invalidated: bool): Result<Option<Mutation>, Error> {
    match Active(s, call)
    case Err(RevokedCredential) => Ok(None)
    case Err(e) => Err(e)
    case Ok(r) =>
      if !invalidated then Err(SessionInvalidation)
      else match Audited(call, Revoke, r.version, r.keyID, Some(r.RevokedFrom(call.at)))
        case Err(e) => Err(e)
        case Ok(m) => Ok(Some(m))
  }

  function PrepareRevokeForDeletion(s: StoreState, call: Call, deletionID: string, sessionsStopped: bool): Result<Option<Mutation>, Error> {
    if !call.Valid() then Err(InvalidCredential)
    else if !sessionsStopped then Err(SessionsNotStopped)
    else if !ValidIdentifier(deletionID) then Err(InvalidCredential)
    else match Active(s, call)
      case Err(NotFound) => Ok(None)
      case Err(RevokedCredential) => Ok(None)
      case Err(e) => Err(e)
      case Ok(r) =>
        match Audited(call, Revoke, r.version, r.keyID, Some(r.RevokedFrom(call.at)))
        case Err(e) => Err(e)
        case Ok(m) => Ok(Some(m.(audit := m.audit.(operation := RevokeForDeletion, deletionID := deletionID))))
  }
}
