/**
 Credential calls of any number of processes, interleaved between their read and their write. The store refines one
 plaintext cell per account, with one exception, which is characterised exactly: a key rotation written after a
 revocation that its read predates.
 */
module CredentialProtocol {
  import opened Common
  import opened Credential

  /** What a prepared mutation means for the plaintext cell of its account. */
  datatype Effect = Writes(plaintext: Bytes) | Rekeys(plaintext: Bytes) | Erases | Reads

  datatype Pending = Pending(mutation: Mutation, effect: Effect)

  /** `None` is a revoked cell; an account that never stored anything has no cell. */
  type Cells = map<string, Option<Bytes>>

  datatype System = System(store: StoreState, ring: Keyring, pending: seq<Pending>, cells: Cells)

  datatype Event =
    | BeginPut(call: Call, plaintext: Bytes)
    | BeginUse(call: Call)
    | BeginRotate(call: Call)
    | BeginRevoke(call: Call, invalidated: bool)
    | BeginDeletion(call: Call, deletionID: string, sessionsStopped: bool)
    | Commit(n: nat)
    | ChangeRing(ring: Keyring)
    | Enrol(accountID: string)

  function Queue(y: System, prepared: Result<Mutation, Error>, effect: Effect): System {
    if prepared.Ok? then y.(pending := y.pending + [Pending(prepared.value, effect)]) else y
  }

  function QueueErasure(y: System, prepared: Result<Option<Mutation>, Error>): System {
    if prepared.Ok? && prepared.value.Some? then y.(pending := y.pending + [Pending(prepared.value.value, Erases)]) else y
  }

  /** The cells after a mutation with this effect was applied without error. */
  function CellsAfter(cells: Cells, accountID: string, effect: Effect): Cells {
    match effect
    case Writes(p) => cells[accountID := Some(p)]
    case Erases => cells[accountID := None]
    case _ => cells
  }

  /** A prepared mutation may be applied any number of times, at any later time. */
  function CommitTo(y: System, q: Pending): System {
    if ApplyError(y.store, q.mutation).Some? then y
    else y.(store := Apply(y.store, q.mutation), cells := CellsAfter(y.cells, q.mutation.accountID, q.effect))
  }

  function Step(aead: Aead, y: System, e: Event): System {
    match e
    case BeginPut(call, p) => Queue(y, PreparePut(aead, y.ring, y.store, call, p), Writes(p))
    case BeginUse(call) => Queue(y, PrepareUse(aead, y.ring, y.store, call), Reads)
    case BeginRotate(call) =>
      var read := Read(aead, y.ring, y.store, call);
      if read.Ok? then Queue(y, PrepareRotate(aead, y.ring, y.store, call), Rekeys(read.value)) else y
    case BeginRevoke(call, invalidated) => QueueErasure(y, PrepareRevoke(y.store, call, invalidated))
    case BeginDeletion(call, id, stopped) => QueueErasure(y, PrepareRevokeForDeletion(y.store, call, id, stopped))
    case Commit(n) => if n < |y.pending| then CommitTo(y, y.pending[n]) else y
    case ChangeRing(ring) => y.(ring := ring)
    case Enrol(a) => y.(store := y.store.(accounts := y.store.accounts + {a}))
  }

  // ----- The refinement -----

  predicate Yields(aead: Aead, ring: Keyring, r: Record, p: Bytes) {
    r.revokedAt.None? && r.keyID in ring.keys && Decrypted(aead, ring.keys[r.keyID], r) == Ok(p)
  }

  predicate Holds(aead: Aead, ring: Keyring, r: Record, cell: Option<Bytes>) {
    match cell
    case None => r.revokedAt.Some?
    case Some(p) => Yields(aead, ring, r, p)
  }

  ghost predicate RefinesAt(aead: Aead, ring: Keyring, s: StoreState, cells: Cells, a: string)
    requires a in s.records && a in cells
  {
    s.records[a].Valid() && s.records[a].accountID == a && Holds(aead, ring, s.records[a], cells[a])
  }

  ghost predicate Refines(aead: Aead, ring: Keyring, s: StoreState, cells: Cells) {
    s.records.Keys == cells.Keys && forall a | a in cells :: RefinesAt(aead, ring, s, cells, a)
  }

  /** The mutation continues the history of the stored record. */
  predicate Continues(s: StoreState, r: Record) {
    r.version > 1 ==> r.accountID in s.records && s.records[r.accountID].createdAt == r.createdAt
  }

  /** How a prepared mutation relates to the stored record, now and ever after. */
  predicate Shaped(s: StoreState, q: Pending) {
    var m, a := q.mutation, q.mutation.accountID;
    && (q.effect.Reads? <==> m.record.None?)
    && (m.record.Some? ==> m.record.value.accountID == a && Continues(s, m.record.value))
    && match q.effect
       case Reads => true
       case Writes(_) => m.audit.operation == Store
       case Rekeys(_) => m.audit.operation == Rotate && a in s.records && s.records[a].version >= m.record.value.version - 1
       case Erases =>
         && m.record.value.revokedAt.Some? && (m.audit.operation == Revoke || m.audit.operation == RevokeForDeletion)
         && a in s.records && s.records[a].version >= m.record.value.version
         && s.records[a].createdAt == m.record.value.createdAt
  }

  /** The plaintext a prepared mutation carries is the one its effect names. */
  ghost predicate Prepared(aead: Aead, ring: Keyring, s: StoreState, cells: Cells, q: Pending) {
    var m, a := q.mutation, q.mutation.accountID;
    && Shaped(s, q)
    && match q.effect
       case Writes(p) => Yields(aead, ring, m.record.value, p)
       case Rekeys(p) =>
         && Yields(aead, ring, m.record.value, p) && a in cells
         && (s.records[a].version == m.record.value.version - 1 ==> cells[a] == Some(p) || cells[a] == None)
       case _ => true
  }

  /** A rotation about to be written over a record that was revoked since the rotation read it. */
  predicate Late(s: StoreState, q: Pending) {
    && q.effect.Rekeys? && ApplyError(s, q.mutation).None? && !Repeats(s, q.mutation)
    && q.mutation.accountID in s.records && s.records[q.mutation.accountID].revokedAt.Some?
  }

  // ----- Commits -----

  /** What is known of a mutation that is applied and not a repetition. */
  lemma AppliedFacts(s: StoreState, m: Mutation)
    requires ApplyError(s, m).None?
    ensures m.record.Some? ==> m.record.value.Valid() && m.record.value.accountID == m.accountID
    ensures !Repeats(s, m) && m.record.Some? && m.accountID in s.records ==> !Superseded(s.records[m.accountID], m)
    ensures !Repeats(s, m) && m.record.Some? ==> Apply(s, m).records == s.records[m.accountID := m.record.value]
    ensures Repeats(s, m) && m.record.Some? ==> m.accountID in s.records && s.records[m.accountID] == m.record.value
    ensures Repeats(s, m) || m.record.None? ==> Apply(s, m).records == s.records
  {
    hide ValidIdentifier;
  }

  lemma TimelyCommitRefines(aead: Aead, y: System, q: Pending)
    requires Refines(aead, y.ring, y.store, y.cells) && Prepared(aead, y.ring, y.store, y.cells, q) && !Late(y.store, q)
    requires ApplyError(y.store, q.mutation).None?
    ensures var z := CommitTo(y, q); Refines(aead, z.ring, z.store, z.cells)
  {
    hide ApplyError, Apply, Decrypted, ValidIdentifier;
    var a, z := q.mutation.accountID, CommitTo(y, q);
    AppliedFacts(y.store, q.mutation);
    assert a in y.cells ==> RefinesAt(aead, y.ring, y.store, y.cells, a);
    OthersRefine(aead, y, z, a);
    assert z.store.records.Keys == z.cells.Keys;
    if a in z.cells { assert RefinesAt(aead, z.ring, z.store, z.cells, a); }
  }

  lemma LateCommitBreaks(aead: Aead, y: System, q: Pending)
    requires Refines(aead, y.ring, y.store, y.cells) && Prepared(aead, y.ring, y.store, y.cells, q) && Late(y.store, q)
    ensures var z := CommitTo(y, q); !Refines(aead, z.ring, z.store, z.cells)
  {
    hide ApplyError, Apply, Decrypted, ValidIdentifier;
    var a, z := q.mutation.accountID, CommitTo(y, q);
    AppliedFacts(y.store, q.mutation);
    assert RefinesAt(aead, y.ring, y.store, y.cells, a);
    assert a in z.cells && a in z.store.records && !RefinesAt(aead, z.ring, z.store, z.cells, a);
  }

  /**
   Applying a prepared mutation keeps the store a refinement of the plaintext cells if and only if it is not a late
   rotation.
   */
  lemma CommitRefinesIffNotLate(aead: Aead, y: System, q: Pending)
    requires Refines(aead, y.ring, y.store, y.cells) && Prepared(aead, y.ring, y.store, y.cells, q)
    ensures var z := CommitTo(y, q); Refines(aead, z.ring, z.store, z.cells) <==> !Late(y.store, q)
  {
    hide ApplyError, Apply, Refines, Prepared;
    if Late(y.store, q) {
      LateCommitBreaks(aead, y, q);
    } else if ApplyError(y.store, q.mutation).None? {
      TimelyCommitRefines(aead, y, q);
    }
  }

  lemma OthersRefine(aead: Aead, y: System, z: System, a: string)
    requires Refines(aead, y.ring, y.store, y.cells) && z.ring == y.ring
    requires forall b | b != a :: (b in z.cells <==> b in y.cells) && (b in z.store.records <==> b in y.store.records)
    requires forall b | b != a && b in y.cells :: z.cells[b] == y.cells[b]
    requires forall b | b != a && b in y.store.records :: z.store.records[b] == y.store.records[b]
    ensures forall b | b != a && b in z.cells :: RefinesAt(aead, z.ring, z.store, z.cells, b)
  {
    forall b | b != a && b in z.cells ensures RefinesAt(aead, z.ring, z.store, z.cells, b) {
      assert RefinesAt(aead, y.ring, y.store, y.cells, b);
    }
  }

  ghost predicate WellStored(s: StoreState) {
    forall a | a in s.records :: s.records[a].Valid() && s.records[a].accountID == a
  }

  /** Versions never fall and the creation time stays; a store or a rotation raises the version. */
  lemma CommitOnlyRaises(y: System, q: Pending, a: string)
    requires WellStored(y.store) && Shaped(y.store, q) && a in y.store.records
    ensures var r, z := y.store.records[a], CommitTo(y, q);
      && a in z.store.records && z.store.records[a].createdAt == r.createdAt && z.store.records[a].version >= r.version
      && (z.store.records[a] != r && !q.effect.Erases? ==> z.store.records[a].version > r.version)
      && (z.store.records[a] != r && q.effect.Erases? ==> z.store.records[a].version == r.version && z.store.records[a].revokedAt.Some?)
  {
    hide ApplyError, Apply, ValidIdentifier;
    if ApplyError(y.store, q.mutation).None? { AppliedFacts(y.store, q.mutation); }
  }

  lemma CommitKeepsWellStored(y: System, q: Pending)
    requires WellStored(y.store)
    ensures WellStored(CommitTo(y, q).store)
  {
    hide ApplyError, Apply, ValidIdentifier;
    if ApplyError(y.store, q.mutation).None? { AppliedFacts(y.store, q.mutation); }
  }

  /** Applying one mutation leaves every prepared mutation, itself included, in shape. */
  lemma CommitKeepsShape(y: System, q: Pending, other: Pending)
    requires WellStored(y.store) && Shaped(y.store, q) && Shaped(y.store, other)
    ensures Shaped(CommitTo(y, q).store, other)
  {
    hide ApplyError, Apply, ValidIdentifier;
    var a := other.mutation.accountID;
    if a in y.store.records { CommitOnlyRaises(y, q, a); }
  }

  lemma CommitKeepsPrepared(aead: Aead, y: System, q: Pending, other: Pending)
    requires Refines(aead, y.ring, y.store, y.cells)
    requires Prepared(aead, y.ring, y.store, y.cells, q) && Prepared(aead, y.ring, y.store, y.cells, other)
    ensures var z := CommitTo(y, q); Prepared(aead, z.ring, z.store, z.cells, other)
  {
    hide Yields, ValidIdentifier, Shaped, Apply, ApplyError, Repeats, Refines;
    RefinesWellStored(aead, y);
    CommitKeepsShape(y, q, other);
    var a, z := other.mutation.accountID, CommitTo(y, q);
    if other.effect.Rekeys? {
      ShapedRekey(y.store, other);
      CommitOnlyRaises(y, q, a);
      if ApplyError(y.store, q.mutation).None? && q.mutation.accountID == a && z.store.records[a] == y.store.records[a] {
        UnchangedRecordUnchangedCell(aead, y, q);
      }
    }
  }

  lemma RefinesWellStored(aead: Aead, y: System)
    requires Refines(aead, y.ring, y.store, y.cells)
    ensures WellStored(y.store)
  {
    hide Yields, ValidIdentifier;
    forall a | a in y.store.records ensures y.store.records[a].Valid() && y.store.records[a].accountID == a {
      assert a in y.cells && RefinesAt(aead, y.ring, y.store, y.cells, a);
    }
  }

  lemma ShapedRekey(s: StoreState, q: Pending)
    requires Shaped(s, q) && q.effect.Rekeys?
    ensures q.mutation.record.Some? && q.mutation.accountID in s.records
    ensures s.records[q.mutation.accountID].version >= q.mutation.record.value.version - 1
  {
  }

  lemma UnchangedRecordUnchangedCell(aead: Aead, y: System, q: Pending)
    requires Refines(aead, y.ring, y.store, y.cells) && Prepared(aead, y.ring, y.store, y.cells, q)
    requires q.mutation.accountID in y.store.records && ApplyError(y.store, q.mutation).None?
    requires var z := CommitTo(y, q);
      q.mutation.accountID in z.store.records && z.store.records[q.mutation.accountID] == y.store.records[q.mutation.accountID]
    ensures CommitTo(y, q).cells == y.cells
  {
    hide ValidIdentifier, ApplyError, Apply, Decrypted;
    AppliedFacts(y.store, q.mutation);
    assert RefinesAt(aead, y.ring, y.store, y.cells, q.mutation.accountID);
  }

  // ----- Preparations -----

  /** A fresh encryption under the current key yields its plaintext. */
  lemma EncryptedYields(aead: Aead, ring: Keyring, call: Call, version: Uint64, createdAt: Instant, p: Bytes)
    requires Correct(aead) && ring.Sound() && ring.current.Some? && call.random.Sound() && |p| <= MAX_PAYLOAD
    requires Encrypted(aead, ring.current.value, call, version, createdAt, p).Ok?
    ensures Yields(aead, ring, Encrypted(aead, ring.current.value, call, version, createdAt, p).value, p)
  {
    hide ValidIdentifier;
  }

  lemma PutPrepared(aead: Aead, y: System, call: Call, p: Bytes)
    requires Correct(aead) && y.ring.Sound() && call.random.Sound() && PreparePut(aead, y.ring, y.store, call, p).Ok?
    ensures Prepared(aead, y.ring, y.store, y.cells, Pending(PreparePut(aead, y.ring, y.store, call, p).value, Writes(p)))
  {
    hide ValidIdentifier, Yields, Encrypted, Keyring.Sound, Correct, Audit.Valid;
    hide Random.Sound;
    var existing := Get(y.store, call.accountID).value;
    var version := if existing.Some? then Next(existing.value.version) else 1;
    var createdAt := if existing.Some? then existing.value.createdAt else call.at;
    EncryptedYields(aead, y.ring, call, version, createdAt, p);
    EncryptedShape(aead, y.ring.current.value, call, version, createdAt, p);
  }

  lemma EncryptedShape(aead: Aead, key: Key, call: Call, version: Uint64, createdAt: Instant, p: Bytes)
    requires Encrypted(aead, key, call, version, createdAt, p).Ok?
    ensures var r := Encrypted(aead, key, call, version, createdAt, p).value;
      r.accountID == call.accountID && r.version == version && r.createdAt == createdAt && r.revokedAt.None?
  {
  }

  /** In a refining state the read of a call yields the cell of its account, and only a cell that is not revoked. */
  lemma ReadYieldsCell(aead: Aead, y: System, call: Call, p: Bytes)
    requires Refines(aead, y.ring, y.store, y.cells)
    ensures Read(aead, y.ring, y.store, call) == Ok(p) <==>
      && call.Valid() && call.accountID in y.cells && y.cells[call.accountID] == Some(p)
      && call.at >= y.store.records[call.accountID].updatedAt
  {
    hide ValidIdentifier, Decrypted;
    if call.accountID in y.cells { assert RefinesAt(aead, y.ring, y.store, y.cells, call.accountID); }
  }

  lemma RotatePrepared(aead: Aead, y: System, call: Call)
    requires Correct(aead) && y.ring.Sound() && call.random.Sound() && Refines(aead, y.ring, y.store, y.cells)
    requires Read(aead, y.ring, y.store, call).Ok? && PrepareRotate(aead, y.ring, y.store, call).Ok?
    ensures Prepared(aead, y.ring, y.store, y.cells,
                     Pending(PrepareRotate(aead, y.ring, y.store, call).value, Rekeys(Read(aead, y.ring, y.store, call).value)))
  {
    hide ValidIdentifier, Yields, Encrypted, Keyring.Sound, Correct, Audit.Valid, Read, Refines;
    hide Random.Sound;
    var r, p, key := Active(y.store, call).value, Read(aead, y.ring, y.store, call).value, y.ring.current.value;
    ReadYieldsCell(aead, y, call, p);
    ReadIsBounded(aead, y.ring, y.store, call);
    EncryptedYields(aead, y.ring, call, Next(r.version), r.createdAt, p);
    EncryptedShape(aead, key, call, Next(r.version), r.createdAt, p);
    assert call.accountID in y.store.records && RefinesAt(aead, y.ring, y.store, y.cells, call.accountID) by {
      assert Refines(aead, y.ring, y.store, y.cells);
      CellHasRecord(aead, y, call.accountID);
    }
  }

  lemma CellHasRecord(aead: Aead, y: System, a: string)
    requires Refines(aead, y.ring, y.store, y.cells) && a in y.cells
    ensures a in y.store.records && RefinesAt(aead, y.ring, y.store, y.cells, a)
  {
    hide RefinesAt;
  }

  lemma ReadIsBounded(aead: Aead, ring: Keyring, s: StoreState, call: Call)
    requires Read(aead, ring, s, call).Ok?
    ensures |Read(aead, ring, s, call).value| <= MAX_PAYLOAD && Active(s, call).Ok?
  {
    hide ValidIdentifier;
  }

  lemma ErasurePrepared(aead: Aead, y: System, call: Call, invalidated: bool, deletionID: string, stopped: bool)
    requires WellStored(y.store)
    ensures var m := PrepareRevoke(y.store, call, invalidated);
      m.Ok? && m.value.Some? ==> Prepared(aead, y.ring, y.store, y.cells, Pending(m.value.value, Erases))
    ensures var m := PrepareRevokeForDeletion(y.store, call, deletionID, stopped);
      m.Ok? && m.value.Some? ==> Prepared(aead, y.ring, y.store, y.cells, Pending(m.value.value, Erases))
  {
    hide ValidIdentifier, Audit.Valid;
  }

  lemma UsePrepared(aead: Aead, y: System, call: Call)
    requires PrepareUse(aead, y.ring, y.store, call).Ok?
    ensures Prepared(aead, y.ring, y.store, y.cells, Pending(PrepareUse(aead, y.ring, y.store, call).value, Reads))
  {
    hide ValidIdentifier, Audit.Valid, Decrypted;
  }

  // ----- Runs -----

  ghost predicate AllPrepared(aead: Aead, y: System) {
    forall n | 0 <= n < |y.pending| :: Prepared(aead, y.ring, y.store, y.cells, y.pending[n])
  }

  ghost predicate Inv(aead: Aead, y: System) {
    y.ring.Sound() && Refines(aead, y.ring, y.store, y.cells) && AllPrepared(aead, y)
  }

  /** The keyring only grows, and nonces have the size the cipher asks for. */
  ghost predicate Fair(y: System, e: Event) {
    match e
    case Commit(_) => true
    case Enrol(_) => true
    case ChangeRing(ring) => ring.Sound() && Grows(y.ring, ring)
    case _ => e.call.random.Sound()
  }

  /** Not the write of a late rotation. */
  predicate Timely(y: System, e: Event) {
    e.Commit? && e.n < |y.pending| ==> !Late(y.store, y.pending[e.n])
  }

  lemma RingKeepsInv(aead: Aead, y: System, ring: Keyring)
    requires Inv(aead, y) && ring.Sound() && Grows(y.ring, ring)
    ensures Inv(aead, y.(ring := ring))
  {
    hide ValidIdentifier, Decrypted, Shaped;
    forall a | a in y.cells ensures RefinesAt(aead, ring, y.store, y.cells, a) {
      assert RefinesAt(aead, y.ring, y.store, y.cells, a);
    }
    forall n | 0 <= n < |y.pending| ensures Prepared(aead, ring, y.store, y.cells, y.pending[n]) {
      assert Prepared(aead, y.ring, y.store, y.cells, y.pending[n]);
    }
  }

  lemma CommitKeepsInv(aead: Aead, y: System, q: Pending)
    requires Inv(aead, y) && Prepared(aead, y.ring, y.store, y.cells, q) && !Late(y.store, q)
    ensures Inv(aead, CommitTo(y, q))
  {
    hide Prepared, Refines, Late, ApplyError, Apply;
    CommitRefinesIffNotLate(aead, y, q);
    var z := CommitTo(y, q);
    forall n | 0 <= n < |z.pending| ensures Prepared(aead, z.ring, z.store, z.cells, z.pending[n]) {
      CommitKeepsPrepared(aead, y, q, y.pending[n]);
    }
  }

  lemma EnrolKeepsInv(aead: Aead, y: System, a: string)
    requires Inv(aead, y)
    ensures Inv(aead, y.(store := y.store.(accounts := y.store.accounts + {a})))
  {
    hide Yields, ValidIdentifier;
    var s := y.store.(accounts := y.store.accounts + {a});
    forall b | b in y.cells ensures RefinesAt(aead, y.ring, s, y.cells, b) {
      assert RefinesAt(aead, y.ring, y.store, y.cells, b);
    }
    forall n | 0 <= n < |y.pending| ensures Prepared(aead, y.ring, s, y.cells, y.pending[n]) {
      assert Prepared(aead, y.ring, y.store, y.cells, y.pending[n]);
    }
  }

  lemma StepKeepsInv(aead: Aead, y: System, e: Event)
    requires Correct(aead) && Inv(aead, y) && Fair(y, e) && Timely(y, e)
    ensures Inv(aead, Step(aead, y, e))
  {
    hide Prepared, Refines, Late, PreparePut, PrepareUse, PrepareRotate, PrepareRevoke, PrepareRevokeForDeletion, Read, Correct;
    hide CommitTo, Keyring.Sound, Random.Sound;
    RefinesWellStored(aead, y);
    match e {
      case BeginPut(call, p) => if PreparePut(aead, y.ring, y.store, call, p).Ok? { PutPrepared(aead, y, call, p); }
      case BeginUse(call) => if PrepareUse(aead, y.ring, y.store, call).Ok? { UsePrepared(aead, y, call); }
      case BeginRotate(call) =>
        if Read(aead, y.ring, y.store, call).Ok? && PrepareRotate(aead, y.ring, y.store, call).Ok? {
          RotatePrepared(aead, y, call);
        }
      case BeginRevoke(call, invalidated) => ErasurePrepared(aead, y, call, invalidated, "", false);
      case BeginDeletion(call, id, stopped) => ErasurePrepared(aead, y, call, false, id, stopped);
      case Commit(n) => if n < |y.pending| { CommitKeepsInv(aead, y, y.pending[n]); }
      case ChangeRing(ring) => RingKeepsInv(aead, y, ring);
      case Enrol(a) => EnrolKeepsInv(aead, y, a);
    }
  }

  function Run(aead: Aead, y: System, events: seq<Event>): System {
    if events == [] then y else Step(aead, Run(aead, y, events[..|events| - 1]), events[|events| - 1])
  }

  /** The state before event `n`. */
  function At(aead: Aead, y: System, events: seq<Event>, n: nat): System
    requires n <= |events|
  {
    Run(aead, y, events[..n])
  }

  ghost predicate Initial(y: System) {
    y.store.records == map[] && y.store.audits == map[] && y.pending == [] && y.cells == map[] && y.ring.Sound()
  }

  ghost predicate FairAt(aead: Aead, y: System, events: seq<Event>, n: nat)
    requires n < |events|
  {
    Fair(At(aead, y, events, n), events[n])
  }

  ghost predicate FairRun(aead: Aead, y: System, events: seq<Event>) {
    forall n | 0 <= n < |events| :: FairAt(aead, y, events, n)
  }

  ghost predicate TimelyAt(aead: Aead, y: System, events: seq<Event>, n: nat)
    requires n < |events|
  {
    Timely(At(aead, y, events, n), events[n])
  }

  ghost predicate TimelyRun(aead: Aead, y: System, events: seq<Event>) {
    forall n | 0 <= n < |events| :: TimelyAt(aead, y, events, n)
  }

  lemma Shorter(aead: Aead, y: System, events: seq<Event>)
    requires events != []
    ensures forall n | 0 <= n < |events| :: At(aead, y, events[..|events| - 1], n) == At(aead, y, events, n)
    ensures At(aead, y, events, |events| - 1) == Run(aead, y, events[..|events| - 1])
    ensures FairRun(aead, y, events) ==>
              FairRun(aead, y, events[..|events| - 1]) && Fair(Run(aead, y, events[..|events| - 1]), events[|events| - 1])
    ensures TimelyRun(aead, y, events) ==>
              TimelyRun(aead, y, events[..|events| - 1]) && Timely(Run(aead, y, events[..|events| - 1]), events[|events| - 1])
  {
    hide Run, Fair, Timely;
    var shorter := events[..|events| - 1];
    forall n | 0 <= n < |events| ensures At(aead, y, shorter, n) == At(aead, y, events, n) {
      assert shorter[..n] == events[..n];
    }
    if FairRun(aead, y, events) {
      assert FairAt(aead, y, events, |events| - 1);
      forall n | 0 <= n < |shorter| ensures FairAt(aead, y, shorter, n) { assert FairAt(aead, y, events, n); }
    }
    if TimelyRun(aead, y, events) {
      assert TimelyAt(aead, y, events, |events| - 1);
      forall n | 0 <= n < |shorter| ensures TimelyAt(aead, y, shorter, n) { assert TimelyAt(aead, y, events, n); }
    }
  }

  lemma {:induction false} RunKeepsInv(aead: Aead, y: System, events: seq<Event>)
    requires Correct(aead) && Initial(y) && FairRun(aead, y, events) && TimelyRun(aead, y, events)
    ensures Inv(aead, Run(aead, y, events))
  {
    hide Step, Fair, Timely, FairRun, TimelyRun, Correct, Prepared, RefinesAt;
    if events != [] {
      Shorter(aead, y, events);
      RunKeepsInv(aead, y, events[..|events| - 1]);
      StepKeepsInv(aead, Run(aead, y, events[..|events| - 1]), events[|events| - 1]);
    }
  }

  // ----- What the log of commits says -----

  /** Event `n` successfully applied a mutation of account `a` with this effect. */
  ghost predicate CommitsAt(aead: Aead, y: System, events: seq<Event>, n: int, a: string, effect: Effect): (yes: bool)
    ensures yes ==> 0 <= n < |events|
  {
    && 0 <= n < |events| && events[n].Commit? && events[n].n < |At(aead, y, events, n).pending|
    && var q := At(aead, y, events, n).pending[events[n].n];
       q.effect == effect && q.mutation.accountID == a && ApplyError(At(aead, y, events, n).store, q.mutation).None?
  }

  /** Event `n` stored or revoked the credential of `a`. */
  ghost predicate ReplacesAt(aead: Aead, y: System, events: seq<Event>, n: int, a: string) {
    CommitsAt(aead, y, events, n, a, Erases) || exists p :: CommitsAt(aead, y, events, n, a, Writes(p))
  }

  /** The last store or revocation of `a` is the store of `p` at event `n`. */
  ghost predicate LastStored(aead: Aead, y: System, events: seq<Event>, a: string, p: Bytes, n: int) {
    && CommitsAt(aead, y, events, n, a, Writes(p))
    && forall j | n < j < |events| :: !ReplacesAt(aead, y, events, j, a)
  }

  lemma CommitsBefore(aead: Aead, y: System, events: seq<Event>, a: string)
    requires events != []
    ensures forall n, e | 0 <= n < |events| - 1 ::
              CommitsAt(aead, y, events[..|events| - 1], n, a, e) <==> CommitsAt(aead, y, events, n, a, e)
    ensures forall n | 0 <= n < |events| - 1 :: ReplacesAt(aead, y, events[..|events| - 1], n, a) <==> ReplacesAt(aead, y, events, n, a)
  {
    hide Run, ApplyError;
    Shorter(aead, y, events);
  }

  /** The cell of an account changes only by a commit that replaces it. */
  lemma StepCell(aead: Aead, y: System, e: Event, a: string)
    ensures var z := Step(aead, y, e);
      if e.Commit? && e.n < |y.pending| && y.pending[e.n].mutation.accountID == a
         && ApplyError(y.store, y.pending[e.n].mutation).None? && (y.pending[e.n].effect.Writes? || y.pending[e.n].effect.Erases?)
      then a in z.cells && z.cells[a] == (if y.pending[e.n].effect.Writes? then Some(y.pending[e.n].effect.plaintext) else None)
      else (a in z.cells <==> a in y.cells) && (a in y.cells ==> z.cells[a] == y.cells[a])
  {
    hide PreparePut, PrepareUse, PrepareRotate, PrepareRevoke, PrepareRevokeForDeletion, Read, ApplyError, Apply;
  }

  /** The plaintext cell is what the log says: the last stored payload, unless revoked since. */
  lemma {:induction false} CellIsLastStored(aead: Aead, y: System, events: seq<Event>, a: string, p: Bytes)
    requires Initial(y)
    ensures var z := Run(aead, y, events);
      (a in z.cells && z.cells[a] == Some(p)) <==> exists n :: LastStored(aead, y, events, a, p, n)
  {
    hide Step, CommitsAt, ReplacesAt;
    if events != [] {
      var shorter, last := events[..|events| - 1], |events| - 1;
      var x := Run(aead, y, shorter);
      CellIsLastStored(aead, y, shorter, a, p);
      CommitsBefore(aead, y, events, a);
      StepCell(aead, x, events[last], a);
      LastEvent(aead, y, events, last, a);
      if n :| LastStored(aead, y, events, a, p, n) {
        if n < last {
          assert CommitsAt(aead, y, shorter, n, a, Writes(p));
          forall j | n < j < |shorter| ensures !ReplacesAt(aead, y, shorter, j, a) { assert !ReplacesAt(aead, y, events, j, a); }
          assert LastStored(aead, y, shorter, a, p, n);
        }
      }
      if n :| LastStored(aead, y, shorter, a, p, n) {
        if !ReplacesAt(aead, y, events, last, a) { assert LastStored(aead, y, events, a, p, n); }
      }
      if CommitsAt(aead, y, events, last, a, Writes(p)) { assert LastStored(aead, y, events, a, p, last); }
    }
  }

  /** Whether the last event replaces the cell, read off the state before it. */
  lemma LastEvent(aead: Aead, y: System, events: seq<Event>, last: int, a: string)
    requires events != [] && last == |events| - 1
    ensures var x, e := Run(aead, y, events[..|events| - 1]), events[|events| - 1];
      var hit := e.Commit? && e.n < |x.pending| && x.pending[e.n].mutation.accountID == a && ApplyError(x.store, x.pending[e.n].mutation).None?;
      && (forall effect :: CommitsAt(aead, y, events, last, a, effect) <==> hit && x.pending[e.n].effect == effect)
      && (ReplacesAt(aead, y, events, last, a) <==> hit && (x.pending[e.n].effect.Writes? || x.pending[e.n].effect.Erases?))
  {
    hide Run, ApplyError;
    Shorter(aead, y, events);
    var x, e := Run(aead, y, events[..|events| - 1]), events[|events| - 1];
    assert At(aead, y, events, |events| - 1) == x;
    if e.Commit? && e.n < |x.pending| && x.pending[e.n].effect.Writes? && x.pending[e.n].mutation.accountID == a
       && ApplyError(x.store, x.pending[e.n].mutation).None? {
      assert CommitsAt(aead, y, events, last, a, Writes(x.pending[e.n].effect.plaintext));
    }
  }

  /**
   In every interleaving without late rotations, and across any number of key rotations and keyring changes, a read
   yields `p` exactly when `p` is the last stored payload of the account and has not been revoked since.
   */
  lemma UseYieldsLastPut(aead: Aead, y: System, events: seq<Event>, call: Call, p: Bytes)
    requires Correct(aead) && Initial(y) && FairRun(aead, y, events) && TimelyRun(aead, y, events)
    ensures var z := Run(aead, y, events);
      Read(aead, z.ring, z.store, call) == Ok(p) <==>
        && call.Valid() && (exists n :: LastStored(aead, y, events, call.accountID, p, n))
        && call.accountID in z.store.records && call.at >= z.store.records[call.accountID].updatedAt
  {
    hide Run, Read, LastStored, FairRun, TimelyRun, Correct, AllPrepared;
    hide RefinesAt;
    var z := Run(aead, y, events);
    RunKeepsInv(aead, y, events);
    ReadYieldsCell(aead, z, call, p);
    CellIsLastStored(aead, y, events, call.accountID, p);
  }

  // ----- What a use shows -----

  /**
   The use begun by event `i` shows `p` to its callback at event `j`: `p` is what it read when it began, and its access audit
   is written at `j`.
   */
  ghost predicate ShowsAt(aead: Aead, y: System, events: seq<Event>, i: int, j: int, a: string, p: Bytes) {
    && 0 <= i < j < |events| && events[i].BeginUse? && events[i].call.accountID == a
    && var x, z := At(aead, y, events, i), At(aead, y, events, j);
       && Read(aead, x.ring, x.store, events[i].call) == Ok(p) && PrepareUse(aead, x.ring, x.store, events[i].call).Ok?
       && events[j] == Commit(|x.pending|) && |x.pending| < |z.pending|
       && ApplyError(z.store, z.pending[|x.pending|].mutation).None?
  }

  /** What is prepared stays prepared, so the audit written at `j` is the one prepared at `i`. */
  lemma {:induction false} PendingGrows(aead: Aead, y: System, events: seq<Event>, i: nat, j: nat)
    requires i <= j <= |events|
    ensures At(aead, y, events, i).pending <= At(aead, y, events, j).pending
    decreases j - i
  {
    hide Run, At, PreparePut, PrepareUse, PrepareRotate, PrepareRevoke, PrepareRevokeForDeletion, Read, ApplyError, Apply;
    if i < j {
      PendingGrows(aead, y, events, i, j - 1);
      AtNext(aead, y, events, j - 1);
    }
  }

  lemma ShownWasPrepared(aead: Aead, y: System, events: seq<Event>, i: nat, j: nat, a: string, p: Bytes)
    requires ShowsAt(aead, y, events, i, j, a, p)
    ensures var x, z := At(aead, y, events, i), At(aead, y, events, j);
      z.pending[|x.pending|] == Pending(PrepareUse(aead, x.ring, x.store, events[i].call).value, Reads)
  {
    hide Run, At, PrepareUse, Read, ApplyError;
    AtNext(aead, y, events, i);
    PendingGrows(aead, y, events, i + 1, j);
  }

  /** Nothing stored or revoked the credential between the two events. */
  ghost predicate Undisturbed(aead: Aead, y: System, events: seq<Event>, i: int, j: int, a: string) {
    forall n | i < n < j :: !ReplacesAt(aead, y, events, n, a)
  }

  /** The same payload was stored between the two events, and nothing after it. */
  ghost predicate StoredAgain(aead: Aead, y: System, events: seq<Event>, i: int, j: int, a: string, p: Bytes) {
    exists n | i < n < j :: CommitsAt(aead, y, events, n, a, Writes(p)) && Undisturbed(aead, y, events, n, j, a)
  }

  /** Whether event `n` replaces the cell, read off the state before it. */
  lemma ReplacesMeans(aead: Aead, y: System, events: seq<Event>, n: nat, a: string)
    requires n < |events|
    ensures var x, e := At(aead, y, events, n), events[n];
      var hit := e.Commit? && e.n < |x.pending| && x.pending[e.n].mutation.accountID == a && ApplyError(x.store, x.pending[e.n].mutation).None?;
      && (forall effect :: CommitsAt(aead, y, events, n, a, effect) <==> hit && x.pending[e.n].effect == effect)
      && (ReplacesAt(aead, y, events, n, a) <==> hit && (x.pending[e.n].effect.Writes? || x.pending[e.n].effect.Erases?))
  {
    hide At, ApplyError;
    var x, e := At(aead, y, events, n), events[n];
    if e.Commit? && e.n < |x.pending| && x.pending[e.n].effect.Writes? && x.pending[e.n].mutation.accountID == a
       && ApplyError(x.store, x.pending[e.n].mutation).None? {
      assert CommitsAt(aead, y, events, n, a, Writes(x.pending[e.n].effect.plaintext));
    }
  }

  lemma {:induction false} CellBetween(aead: Aead, y: System, events: seq<Event>, i: nat, j: nat, a: string, p: Bytes)
    requires i < j <= |events|
    requires a in At(aead, y, events, i + 1).cells && At(aead, y, events, i + 1).cells[a] == Some(p)
    ensures a in At(aead, y, events, j).cells
    ensures At(aead, y, events, j).cells[a] == Some(p)
      <==> Undisturbed(aead, y, events, i, j, a) || StoredAgain(aead, y, events, i, j, a, p)
    decreases j - i
  {
    hide At, Step, ReplacesAt, CommitsAt;
    if j > i + 1 {
      var n := j - 1;
      CellBetween(aead, y, events, i, n, a, p);
      AtNext(aead, y, events, n);
      StepCell(aead, At(aead, y, events, n), events[n], a);
      ReplacesMeans(aead, y, events, n, a);
      if ReplacesAt(aead, y, events, n, a) {
        if CommitsAt(aead, y, events, n, a, Writes(p)) { assert Undisturbed(aead, y, events, n, j, a); }
      } else {
        if StoredAgain(aead, y, events, i, n, a, p) {
          var l :| i < l < n && CommitsAt(aead, y, events, l, a, Writes(p)) && Undisturbed(aead, y, events, l, n, a);
          assert Undisturbed(aead, y, events, l, j, a);
        }
        if StoredAgain(aead, y, events, i, j, a, p) {
          var l :| i < l < j && CommitsAt(aead, y, events, l, a, Writes(p)) && Undisturbed(aead, y, events, l, j, a);
          CommitReplaces(aead, y, events, l, a, p);
          assert l < n && Undisturbed(aead, y, events, l, n, a);
        }
      }
    }
  }

  lemma CommitReplaces(aead: Aead, y: System, events: seq<Event>, n: int, a: string, p: Bytes)
    requires CommitsAt(aead, y, events, n, a, Writes(p))
    ensures ReplacesAt(aead, y, events, n, a)
  {
    hide CommitsAt;
  }

  /**
   What a use shows is the credential at the time it is shown exactly when, since the use began, nothing stored or revoked
   the credential, or the last thing that did stored the same payload again.
   */
  lemma UseShowsTheCellIff(aead: Aead, y: System, events: seq<Event>, i: nat, j: nat, a: string, p: Bytes)
    requires Correct(aead) && Initial(y) && FairRun(aead, y, events) && TimelyRun(aead, y, events)
    requires ShowsAt(aead, y, events, i, j, a, p)
    ensures a in At(aead, y, events, j).cells
    ensures At(aead, y, events, j).cells[a] == Some(p)
      <==> Undisturbed(aead, y, events, i, j, a) || StoredAgain(aead, y, events, i, j, a, p)
  {
    hide Run, At, Step, Read, PrepareUse, ApplyError, FairRun, TimelyRun, Correct, Undisturbed, StoredAgain, Prepared, RefinesAt;
    var x := At(aead, y, events, i);
    PrefixIsFair(aead, y, events, i);
    RunKeepsInv(aead, y, events[..i]);
    AtIsRun(aead, y, events, i);
    ReadYieldsCell(aead, x, events[i].call, p);
    AtNext(aead, y, events, i);
    StepCell(aead, x, events[i], a);
    CellBetween(aead, y, events, i, j, a, p);
  }

  lemma AtIsRun(aead: Aead, y: System, events: seq<Event>, n: nat)
    requires n <= |events|
    ensures At(aead, y, events, n) == Run(aead, y, events[..n])
  {
    hide Run;
  }

  lemma PrefixIsFair(aead: Aead, y: System, events: seq<Event>, n: nat)
    requires n <= |events| && FairRun(aead, y, events) && TimelyRun(aead, y, events)
    ensures FairRun(aead, y, events[..n]) && TimelyRun(aead, y, events[..n])
  {
    hide Run, Fair, Timely;
    forall k | 0 <= k < n ensures FairAt(aead, y, events[..n], k) && TimelyAt(aead, y, events[..n], k) {
      assert events[..n][..k] == events[..k];
      assert FairAt(aead, y, events, k) && TimelyAt(aead, y, events, k);
    }
  }

  // ----- Versions -----

  ghost predicate AllShaped(y: System) {
    forall n | 0 <= n < |y.pending| :: Shaped(y.store, y.pending[n])
  }

  lemma PreparedIsShaped(aead: Aead, y: System, call: Call, p: Bytes)
    requires WellStored(y.store)
    ensures var m := PreparePut(aead, y.ring, y.store, call, p); m.Ok? ==> Shaped(y.store, Pending(m.value, Writes(p)))
    ensures var m := PrepareRotate(aead, y.ring, y.store, call); m.Ok? ==> Shaped(y.store, Pending(m.value, Rekeys(p)))
    ensures var m := PrepareUse(aead, y.ring, y.store, call); m.Ok? ==> Shaped(y.store, Pending(m.value, Reads))
  {
    hide ValidIdentifier, Audit.Valid, Decrypted;
  }

  lemma StepKeepsShape(aead: Aead, y: System, e: Event)
    requires WellStored(y.store) && AllShaped(y)
    ensures WellStored(Step(aead, y, e).store) && AllShaped(Step(aead, y, e))
  {
    hide Shaped, PreparePut, PrepareUse, PrepareRotate, PrepareRevoke, PrepareRevokeForDeletion, Read, CommitTo, Record.Valid;
    match e {
      case BeginPut(call, p) => PreparedIsShaped(aead, y, call, p);
      case BeginUse(call) => PreparedIsShaped(aead, y, call, []);
      case BeginRotate(call) =>
        var read := Read(aead, y.ring, y.store, call);
        if read.Ok? { PreparedIsShaped(aead, y, call, read.value); }
      case BeginRevoke(call, invalidated) => ErasurePrepared(aead, y, call, invalidated, "", false);
      case BeginDeletion(call, id, stopped) => ErasurePrepared(aead, y, call, false, id, stopped);
      case Commit(n) =>
        if n < |y.pending| {
          CommitKeepsWellStored(y, y.pending[n]);
          CommitKeepsPending(y, y.pending[n]);
          forall k | 0 <= k < |y.pending| ensures Shaped(CommitTo(y, y.pending[n]).store, y.pending[k]) {
            CommitKeepsShape(y, y.pending[n], y.pending[k]);
          }
        }
      case ChangeRing(_) =>
      case Enrol(a) =>
        forall k | 0 <= k < |y.pending| ensures Shaped(Step(aead, y, e).store, y.pending[k]) { EnrolKeepsShape(y.store, a, y.pending[k]); }
    }
  }

  lemma EnrolKeepsShape(s: StoreState, a: string, q: Pending)
    requires Shaped(s, q)
    ensures Shaped(s.(accounts := s.accounts + {a}), q)
  {
  }

  lemma CommitKeepsPending(y: System, q: Pending)
    ensures CommitTo(y, q).pending == y.pending
  {
  }

  lemma {:induction false} RunIsShaped(aead: Aead, y: System, events: seq<Event>)
    requires Initial(y)
    ensures WellStored(Run(aead, y, events).store) && AllShaped(Run(aead, y, events))
  {
    hide Step, Shaped, Record.Valid;
    if events != [] {
      RunIsShaped(aead, y, events[..|events| - 1]);
      StepKeepsShape(aead, Run(aead, y, events[..|events| - 1]), events[|events| - 1]);
    }
  }

  /** The record of `a` later: the same creation time, no lower version. */
  predicate NoYounger(s: StoreState, t: StoreState, a: string) {
    a in s.records ==> a in t.records && t.records[a].createdAt == s.records[a].createdAt && t.records[a].version >= s.records[a].version
  }

  lemma StepOnlyRaises(aead: Aead, y: System, e: Event, a: string)
    requires WellStored(y.store) && AllShaped(y)
    ensures NoYounger(y.store, Step(aead, y, e).store, a)
  {
    hide Shaped, PreparePut, PrepareUse, PrepareRotate, PrepareRevoke, PrepareRevokeForDeletion, Read, CommitTo, Record.Valid;
    if e.Commit? && e.n < |y.pending| && a in y.store.records { CommitOnlyRaises(y, y.pending[e.n], a); }
  }

  lemma AtNext(aead: Aead, y: System, events: seq<Event>, n: nat)
    requires n < |events|
    ensures At(aead, y, events, n + 1) == Step(aead, At(aead, y, events, n), events[n])
  {
    hide Step;
    assert events[..n + 1][..n] == events[..n];
  }

  /** In every interleaving, late rotations included, versions never fall and the creation time is kept. */
  lemma {:induction false} VersionsNeverFall(aead: Aead, y: System, events: seq<Event>, i: nat, j: nat, a: string)
    requires Initial(y) && i <= j <= |events|
    ensures NoYounger(At(aead, y, events, i).store, At(aead, y, events, j).store, a)
    decreases j - i
  {
    hide Step, AllShaped, WellStored, Run;
    if i < j {
      VersionsNeverFall(aead, y, events, i, j - 1, a);
      RunIsShaped(aead, y, events[..j - 1]);
      AtNext(aead, y, events, j - 1);
      StepOnlyRaises(aead, At(aead, y, events, j - 1), events[j - 1], a);
    }
  }

  /** Two successful stores or rotations of an account, unless one repeats an audit already written, have increasing versions. */
  lemma WritesRaiseTheVersion(aead: Aead, y: System, events: seq<Event>, i: nat, j: nat, a: string)
    requires Initial(y) && i < j < |events|
    requires FreshWriteAt(aead, y, events, i, a) && FreshWriteAt(aead, y, events, j, a)
    ensures a in At(aead, y, events, i + 1).store.records && a in At(aead, y, events, j + 1).store.records
    ensures At(aead, y, events, i + 1).store.records[a].version < At(aead, y, events, j + 1).store.records[a].version
  {
    hide Run, ApplyError, Apply, Step, WellStored, Shaped;
    var x, z := At(aead, y, events, i), At(aead, y, events, j);
    RunIsShaped(aead, y, events[..i]);
    RunIsShaped(aead, y, events[..j]);
    FreshWrite(x, x.pending[events[i].n]);
    FreshWrite(z, z.pending[events[j].n]);
    AtNext(aead, y, events, i);
    AtNext(aead, y, events, j);
    CommitStep(aead, x, events[i]);
    CommitStep(aead, z, events[j]);
    VersionsNeverFall(aead, y, events, i + 1, j, a);
    assert a in z.store.records;
  }

  lemma CommitStep(aead: Aead, y: System, e: Event)
    requires e.Commit? && e.n < |y.pending|
    ensures Step(aead, y, e) == CommitTo(y, y.pending[e.n])
  {
  }

  /** Event `n` applied a store or a rotation of `a` for the first time. */
  ghost predicate FreshWriteAt(aead: Aead, y: System, events: seq<Event>, n: int, a: string) {
    && 0 <= n < |events| && events[n].Commit? && events[n].n < |At(aead, y, events, n).pending|
    && var x, q := At(aead, y, events, n), At(aead, y, events, n).pending[events[n].n];
       && q.mutation.accountID == a && ApplyError(x.store, q.mutation).None? && !Repeats(x.store, q.mutation)
       && (q.effect.Writes? || q.effect.Rekeys?)
  }

  lemma FreshWrite(y: System, q: Pending)
    requires WellStored(y.store) && Shaped(y.store, q) && ApplyError(y.store, q.mutation).None? && !Repeats(y.store, q.mutation)
    requires q.effect.Writes? || q.effect.Rekeys?
    ensures var a, z := q.mutation.accountID, CommitTo(y, q);
      a in z.store.records && (a in y.store.records ==> z.store.records[a].version > y.store.records[a].version)
  {
    hide ApplyError, Apply, ValidIdentifier;
    AppliedFacts(y.store, q.mutation);
  }

  // ----- Late rotations -----

  /** A rotation applied to the very store it was prepared from is never late. */
  lemma PromptRotationIsNotLate(aead: Aead, y: System, call: Call, p: Bytes)
    requires PrepareRotate(aead, y.ring, y.store, call).Ok?
    ensures !Late(y.store, Pending(PrepareRotate(aead, y.ring, y.store, call).value, Rekeys(p)))
  {
    hide ValidIdentifier, ApplyError, Audit.Valid, Decrypted, Record.Valid;
  }

  /** Each write directly follows the read it was prepared from: calls run one at a time. */
  ghost predicate Serial(aead: Aead, y: System, events: seq<Event>) {
    forall n | 0 <= n < |events| && events[n].Commit? ::
      n > 0 && events[n].n == |At(aead, y, events, n - 1).pending| && !events[n - 1].Commit?
  }

  /** Calls that run one at a time never write a rotation late, so UseYieldsLastPut holds of them unconditionally. */
  lemma SerialRunsAreTimely(aead: Aead, y: System, events: seq<Event>)
    requires Serial(aead, y, events)
    ensures TimelyRun(aead, y, events)
  {
    hide Run, Step, Late;
    forall n | 0 <= n < |events| ensures TimelyAt(aead, y, events, n) {
      if events[n].Commit? {
        AtNext(aead, y, events, n - 1);
        PromptStep(aead, At(aead, y, events, n - 1), events[n - 1], events[n]);
      }
    }
  }

  lemma PromptStep(aead: Aead, y: System, begin: Event, commit: Event)
    requires !begin.Commit? && commit.Commit? && commit.n == |y.pending|
    ensures Timely(Step(aead, y, begin), commit)
  {
    hide PreparePut, PrepareUse, PrepareRotate, PrepareRevoke, PrepareRevokeForDeletion, Read;
    hide ApplyError, Repeats;
    if begin.BeginRotate? && Read(aead, y.ring, y.store, begin.call).Ok? && PrepareRotate(aead, y.ring, y.store, begin.call).Ok? {
      PromptRotationIsNotLate(aead, y, begin.call, Read(aead, y.ring, y.store, begin.call).value);
    }
  }

  lemma RotationIsFaultless(aead: Aead, y: System, call: Call)
    requires Correct(aead) && y.ring.Sound() && call.random.Sound() && PrepareRotate(aead, y.ring, y.store, call).Ok?
    ensures PrepareRotate(aead, y.ring, y.store, call).value.Fault().None?
    ensures PrepareRotate(aead, y.ring, y.store, call).value.accountID == call.accountID
    ensures var m := PrepareRotate(aead, y.ring, y.store, call).value;
      m.record.Some? && call.accountID in y.store.records && m.record.value.version > y.store.records[call.accountID].version
  {
    hide ValidIdentifier;
    ReadIsBounded(aead, y.ring, y.store, call);
  }

  lemma RevocationIsFaultless(y: System, call: Call)
    requires WellStored(y.store) && PrepareRevoke(y.store, call, true).Ok? && PrepareRevoke(y.store, call, true).value.Some?
    ensures var m := PrepareRevoke(y.store, call, true).value.value;
      && m.Fault().None? && m.accountID == call.accountID && m.audit.operation == Revoke && m.record.Some?
      && call.accountID in y.store.records && y.store.records[call.accountID].revokedAt.None?
      && y.store.records[call.accountID].Valid() && m.record.value == y.store.records[call.accountID].RevokedFrom(call.at)
  {
    hide ValidIdentifier;
  }

  /**
   Revocation alone does not stop a rotation that has already read: for every active credential, if a rotation and a
   revocation are both prepared from the current store and the revocation is written first, both writes succeed and the
   payload is readable again although its cell is revoked.
   */
  lemma LateRotationRestores(aead: Aead, y: System, rotate: Call, revoke: Call, p: Bytes)
    requires Correct(aead) && Inv(aead, y) && rotate.random.Sound() && rotate.accountID == revoke.accountID
    requires rotate.accountID in y.store.accounts && Read(aead, y.ring, y.store, rotate) == Ok(p)
    requires PrepareRotate(aead, y.ring, y.store, rotate).Ok?
    requires PrepareRevoke(y.store, revoke, true).Ok? && PrepareRevoke(y.store, revoke, true).value.Some?
    requires var m, n := PrepareRotate(aead, y.ring, y.store, rotate).value, PrepareRevoke(y.store, revoke, true).value.value;
      !Repeats(y.store, m) && !Repeats(y.store, n) && m.audit.auditID != n.audit.auditID
    ensures var a := rotate.accountID;
      var q := Pending(PrepareRotate(aead, y.ring, y.store, rotate).value, Rekeys(p));
      var x := CommitTo(y, Pending(PrepareRevoke(y.store, revoke, true).value.value, Erases));
      var z := CommitTo(x, q);
      && a in x.cells && x.cells[a] == None && Late(x.store, q)
      && a in z.cells && z.cells[a] == None && a in z.store.records && Yields(aead, z.ring, z.store.records[a], p)
  {
    hide ValidIdentifier, PrepareRotate, PrepareRevoke, Yields, Read, Refines, AllPrepared, Correct, Record.Valid, Audit.Valid;
    hide Mutation.Fault, Shaped;
    var m, n := PrepareRotate(aead, y.ring, y.store, rotate).value, PrepareRevoke(y.store, revoke, true).value.value;
    RotationIsFaultless(aead, y, rotate);
    RefinesWellStored(aead, y);
    RevocationIsFaultless(y, revoke);
    RotatePrepared(aead, y, rotate);
    var x := CommitTo(y, Pending(n, Erases));
    RevokedIsValid(y.store.records[rotate.accountID], revoke.at, n);
    assert ApplyError(y.store, n).None?;
    assert ApplyError(x.store, m).None?;
  }

  lemma RevokedIsValid(r: Record, at: Instant, m: Mutation)
    requires m.Fault().None? && m.record == Some(r.RevokedFrom(at))
    ensures r.RevokedFrom(at).Valid()
  {
    hide ValidIdentifier;
  }

  lemma UseIsFaultless(aead: Aead, y: System, call: Call)
    requires PrepareUse(aead, y.ring, y.store, call).Ok?
    ensures var m := PrepareUse(aead, y.ring, y.store, call).value;
      m.Fault().None? && m.accountID == call.accountID && m.record.None?
  {
    hide ValidIdentifier, Decrypted;
  }

  /**
   Nor does a revocation stop a use that has already read: for every active credential, if both are prepared from the current
   store and the revocation is written first, the access audit is still accepted, and the payload is shown although its
   cell is revoked.
   */
  lemma UseOutlivesRevocation(aead: Aead, y: System, use: Call, revoke: Call)
    requires Inv(aead, y) && use.accountID == revoke.accountID && use.accountID in y.store.accounts
    requires PrepareUse(aead, y.ring, y.store, use).Ok?
    requires PrepareRevoke(y.store, revoke, true).Ok? && PrepareRevoke(y.store, revoke, true).value.Some?
    requires var m, n := PrepareUse(aead, y.ring, y.store, use).value, PrepareRevoke(y.store, revoke, true).value.value;
      !Repeats(y.store, m) && !Repeats(y.store, n) && m.audit.auditID != n.audit.auditID
    ensures var a := use.accountID;
      var x := CommitTo(y, Pending(PrepareRevoke(y.store, revoke, true).value.value, Erases));
      && a in x.cells && x.cells[a] == None
      && ApplyError(x.store, PrepareUse(aead, y.ring, y.store, use).value).None?
  {
    hide ValidIdentifier, PrepareUse, PrepareRevoke, Refines, AllPrepared, Record.Valid, Audit.Valid, Mutation.Fault;
    var m, n := PrepareUse(aead, y.ring, y.store, use).value, PrepareRevoke(y.store, revoke, true).value.value;
    UseIsFaultless(aead, y, use);
    RefinesWellStored(aead, y);
    RevocationIsFaultless(y, revoke);
    assert ApplyError(y.store, n).None?;
  }
}
