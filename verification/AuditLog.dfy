/**
 The head-backed audit log (`SQLAlchemyAuditLog`): one hash chain per tenant, a head row that
 is locked while a chain grows, rotating HMAC keys, and the verifier.

 A tenant's rows are held in `ORDER BY sequence` order, as every query of the source reads them.
 */
module AuditLog {

  import opened Common
  import opened AuditChain
  import Utf8

  // ----- signing keys -----

  datatype RawKeyring = RawKeyring(activeKeyId: string, keys: map<string, Bytes>)

  predicate IsKeyring(k: RawKeyring) {
    IsIdentifier(k.activeKeyId) && k.activeKeyId in k.keys
    && forall id <- k.keys :: IsIdentifier(id) && |k.keys[id]| >= 32
  }

  ghost const SAMPLE_KEY: Bytes := seq(32, _ => 0)

  type Keyring = k: RawKeyring | IsKeyring(k) ghost witness RawKeyring("k", map["k" := SAMPLE_KEY])

  datatype KeyringError = InvalidActiveId | ActiveUnavailable | InvalidKeys

  /** The checks of the keyring's constructor, in its order. */
  function NewKeyring(activeKeyId: string, keys: map<string, Bytes>): (r: Result<RawKeyring, KeyringError>)
    ensures r.Ok? <==> IsKeyring(RawKeyring(activeKeyId, keys))
    ensures r.Ok? ==> r.value == RawKeyring(activeKeyId, keys)
  {
    if !IsIdentifier(activeKeyId) then Err(InvalidActiveId)
    else if activeKeyId !in keys then Err(ActiveUnavailable)
    else if exists id <- keys :: !IsIdentifier(id) || |keys[id]| < 32 then Err(InvalidKeys)
    else Ok(RawKeyring(activeKeyId, keys))
  }

  function SignedText(keyId: string, eventHash: string): string {
    keyId + ":" + eventHash
  }

  /** The signed text says which key id and which hash it is about. */
  lemma SignedTextUnique(keyId: string, keyId': string, eventHash: string, eventHash': string)
    requires |eventHash| == |eventHash'|
    ensures SignedText(keyId, eventHash) == SignedText(keyId', eventHash') <==> keyId == keyId' && eventHash == eventHash'
  {
    var s, t := SignedText(keyId, eventHash), SignedText(keyId', eventHash');
    assert s[..|s| - |eventHash| - 1] == keyId && s[|s| - |eventHash|..] == eventHash;
    assert t[..|t| - |eventHash'| - 1] == keyId' && t[|t| - |eventHash'|..] == eventHash';
  }

  function Signature(P: Primitives, key: Bytes, keyId: string, eventHash: string): Digest {
    P.hmac(key, SignedText(keyId, eventHash))
  }

  function VerifySignature(P: Primitives, ring: Keyring, keyId: string, eventHash: string, signature: string): bool {
    keyId in ring.keys && signature == Signature(P, ring.keys[keyId], keyId, eventHash)
  }

  // ----- tables -----

  datatype EventRow = EventRow(
    sequence: int,
    eventId: string,
    eventType: string,
    link: Link,
    signature: string,
    keyId: string,
    occurredAt: int)

  datatype Head = Head(lastSequence: int, lastHash: string)

  /** What the two tables hold for one tenant. */
  datatype Partition = Partition(head: Option<Head>, rows: seq<EventRow>)

  type Tables = map<string, Partition>

  function Part(db: Tables, tenant: string): Partition {
    if tenant in db then db[tenant] else Partition(None, [])
  }

  function Links(rows: seq<EventRow>): (links: seq<Link>)
    ensures |links| == |rows| && forall i | 0 <= i < |rows| :: links[i] == rows[i].link
  {
    seq(|rows|, i requires 0 <= i < |rows| => rows[i].link)
  }

  /** The primary key, the unique event id, the foreign key to the head and the length checks. */
  predicate Admits(p: Partition, row: EventRow) {
    p.head.Some? && row.sequence > 0
    && |row.link.previousHash| == 64 && |row.link.eventHash| == 64 && |row.signature| == 64
    && forall r <- p.rows :: r.sequence != row.sequence && r.eventId != row.eventId
  }

  predicate AdmitsHead(head: Head) {
    head.lastSequence >= 0 && |head.lastHash| == 64
  }

  function InsertRow(rows: seq<EventRow>, row: EventRow): seq<EventRow> {
    if rows == [] || rows[|rows| - 1].sequence < row.sequence then rows + [row]
    else InsertRow(rows[..|rows| - 1], row) + [rows[|rows| - 1]]
  }

  predicate HasLengths(r: EventRow) {
    r.sequence > 0 && |r.link.previousHash| == |r.link.eventHash| == |r.signature| == 64
  }

  /** The primary key and the unique event id. */
  ghost predicate HasUniqueKeys(rows: seq<EventRow>) {
    forall i, j | 0 <= i < j < |rows| :: rows[i].sequence != rows[j].sequence && rows[i].eventId != rows[j].eventId
  }

  /** What the declared constraints say of a tenant's part of the two tables, taken as a whole. */
  ghost predicate MeetsConstraints(p: Partition) {
    (p.rows != [] ==> p.head.Some?) && (forall r <- p.rows :: HasLengths(r)) && HasUniqueKeys(p.rows)
  }

  /** The new row goes where its sequence number puts it, and no row is lost. */
  lemma {:induction false} InsertRowPlaces(rows: seq<EventRow>, row: EventRow) returns (k: nat)
    ensures k <= |rows| && InsertRow(rows, row) == rows[..k] + [row] + rows[k..]
    ensures k > 0 ==> rows[k - 1].sequence < row.sequence
    ensures forall i | k <= i < |rows| :: rows[i].sequence >= row.sequence
  {
    var n := |rows|;
    if rows == [] || rows[n - 1].sequence < row.sequence {
      k := n;
      assert rows[..n] + [row] + rows[n..] == rows + [row];
    } else {
      k := InsertRowPlaces(rows[..n - 1], row);
      assert rows[..n - 1][..k] == rows[..k] && rows[..n - 1][k..] + [rows[n - 1]] == rows[k..];
    }
  }

  lemma UniqueInserted(rows: seq<EventRow>, row: EventRow, k: nat)
    requires k <= |rows| && HasUniqueKeys(rows)
    ensures HasUniqueKeys(rows[..k] + [row] + rows[k..])
            <==> forall r <- rows :: r.sequence != row.sequence && r.eventId != row.eventId
  {
    var more := rows[..k] + [row] + rows[k..];
    assert forall i | 0 <= i < |more| :: more[i] == if i < k then rows[i] else if i == k then row else rows[i - 1];
    if HasUniqueKeys(more) {
      forall r <- rows ensures r.sequence != row.sequence && r.eventId != row.eventId {
        var i :| 0 <= i < |rows| && rows[i] == r;
        assert more[k] == row && more[if i < k then i else i + 1] == r;
      }
    }
  }

  lemma LengthsInserted(rows: seq<EventRow>, row: EventRow, k: nat)
    requires k <= |rows| && forall r <- rows :: HasLengths(r)
    ensures (forall r <- rows[..k] + [row] + rows[k..] :: HasLengths(r)) <==> HasLengths(row)
  {
    assert row in rows[..k] + [row] + rows[k..];
  }

  /** The database admits a row exactly when the constraints hold with it in the table. */
  lemma AdmitsIsConstraint(p: Partition, row: EventRow)
    requires MeetsConstraints(p)
    ensures Admits(p, row) <==> MeetsConstraints(p.(rows := InsertRow(p.rows, row)))
  {
    var k := InsertRowPlaces(p.rows, row);
    UniqueInserted(p.rows, row, k);
    LengthsInserted(p.rows, row, k);
  }

  /** `SELECT ... WHERE event_id = ?`. */
  function FindEvent(rows: seq<EventRow>, eventId: string): (r: Option<EventRow>)
    ensures r.Some? ==> r.value in rows && r.value.eventId == eventId
    ensures r.None? ==> forall row <- rows :: row.eventId != eventId
  {
    if rows == [] then None
    else if rows[0].eventId == eventId then Some(rows[0])
    else FindEvent(rows[1..], eventId)
  }

  // ----- append -----

  datatype AppendError = InvalidEvent | PayloadTooLarge | InvalidTimestamp | EventIdReused | ConstraintFailed

  /** A screened event, ready to be stored. */
  datatype Entry = Entry(event: AuditEvent, payload: string, occurredAt: int)

  const MAX_PAYLOAD_BYTES := 65536

  /** Everything `append_in_transaction` checks before it touches the database. */
  function Screen(P: Primitives, e: AuditEvent): Result<Entry, AppendError> {
    if !IsValidEvent(e) then Err(InvalidEvent)
    else
      var payload := Payload(e);
      if |Utf8.Encode(payload)| > MAX_PAYLOAD_BYTES then Err(PayloadTooLarge)
      else match P.parseTime(e.occurredAt)
        case None => Err(InvalidTimestamp)
        case Some(at) => Ok(Entry(e, payload, at))
  }

  /** What gets as far as the database: the entry is about this very event, with its payload and its parsed time. */
  lemma ScreenAccepts(P: Primitives, e: AuditEvent)
    ensures Screen(P, e).Ok? <==> IsValidEvent(e) && |Utf8.Encode(Payload(e))| <= 65536 && P.parseTime(e.occurredAt).Some?
    ensures Screen(P, e).Ok? ==> Screen(P, e).value == Entry(e, Payload(e), P.parseTime(e.occurredAt).value)
  {
  }

  /** `INSERT ... ON CONFLICT DO NOTHING` on the head table. */
  function EnsureHead(p: Partition): (q: Partition)
    ensures q.head.Some?
  {
    if p.head.Some? then p else p.(head := Some(Head(0, ZERO_HASH)))
  }

  function NextRow(P: Primitives, ring: Keyring, head: Head, entry: Entry): EventRow {
    var link := NextLink(P, head.lastHash, entry.payload);
    EventRow(head.lastSequence + 1, entry.event.eventId, entry.event.eventType, link,
             Signature(P, ring.keys[ring.activeKeyId], ring.activeKeyId, link.eventHash),
             ring.activeKeyId, entry.occurredAt)
  }

  function HeadAfter(row: EventRow): Head {
    Head(row.sequence, row.link.eventHash)
  }

  /** The database part of `append_in_transaction`, for the tenant of the entry. */
  function Store(P: Primitives, ring: Keyring, p: Partition, entry: Entry): (Partition, Result<string, AppendError>) {
    var q := EnsureHead(p);
    match FindEvent(q.rows, entry.event.eventId)
    case Some(existing) =>
      (q, if existing.link.payload != entry.payload then Err(EventIdReused) else Ok(entry.event.eventId))
    case None =>
      var row := NextRow(P, ring, q.head.value, entry);
      if !Admits(q, row) || !AdmitsHead(HeadAfter(row)) then (q, Err(ConstraintFailed))
      else (Partition(Some(HeadAfter(row)), InsertRow(q.rows, row)), Ok(entry.event.eventId))
  }

  function AppendTo(P: Primitives, ring: Keyring, db: Tables, e: AuditEvent): (Tables, Result<string, AppendError>) {
    match Screen(P, e)
    case Err(error) => (db, Err(error))
    case Ok(entry) =>
      var (p, r) := Store(P, ring, Part(db, e.tenantId), entry);
      (db[e.tenantId := p], r)
  }

  // ----- verification -----

  datatype VerifyError =
    | InvalidTenant
    | NotContiguous
    | BrokenLink
    | BadHash
    | BadSignature
    | HeadMissing
    | HeadMismatch

  /** The checks of one turn of the verifier's loop, in its order. */
  function RowProblem(P: Primitives, ring: Keyring, row: EventRow, expected: int, previousHash: string): Option<VerifyError> {
    if row.sequence != expected then Some(NotContiguous)
    else if row.link.previousHash != previousHash then Some(BrokenLink)
    else if row.link.eventHash != LinkHash(P, previousHash, row.link.payload) then Some(BadHash)
    else if !VerifySignature(P, ring, row.keyId, row.link.eventHash, row.signature) then Some(BadSignature)
    else None
  }

  /** The first problem from row `i` on. */
  function RowsProblem(P: Primitives, ring: Keyring, rows: seq<EventRow>, i: nat): Option<VerifyError>
    requires i <= |rows|
    decreases |rows| - i
  {
    if i == |rows| then None
    else
      var problem := RowProblem(P, ring, rows[i], i + 1, PreviousHash(Links(rows), i));
      if problem.Some? then problem else RowsProblem(P, ring, rows, i + 1)
  }

  predicate IsTenant(tenant: string) {
    1 <= |tenant| <= 128
  }

  function Verify(P: Primitives, ring: Keyring, p: Partition): Result<nat, VerifyError> {
    match RowsProblem(P, ring, p.rows, 0)
    case Some(error) => Err(error)
    case None =>
      if p.head.None? then if p.rows != [] then Err(HeadMissing) else Ok(0)
      else if p.head.value != Head(|p.rows|, LastHash(Links(p.rows))) then Err(HeadMismatch)
      else Ok(|p.rows|)
  }

  /** What a verified row is, without reference to the verifier. */
  predicate IsSound(P: Primitives, ring: Keyring, rows: seq<EventRow>, i: nat)
    requires i < |rows|
  {
    rows[i].sequence == i + 1 && IsLinkedAt(P, Links(rows), i)
    && VerifySignature(P, ring, rows[i].keyId, rows[i].link.eventHash, rows[i].signature)
  }

  lemma {:induction false} RowsProblemMeans(P: Primitives, ring: Keyring, rows: seq<EventRow>, i: nat)
    requires i <= |rows|
    ensures RowsProblem(P, ring, rows, i).None? <==> forall j | i <= j < |rows| :: IsSound(P, ring, rows, j)
    decreases |rows| - i
  {
    if i < |rows| {
      RowsProblemMeans(P, ring, rows, i + 1);
      assert RowProblem(P, ring, rows[i], i + 1, PreviousHash(Links(rows), i)).None? <==> IsSound(P, ring, rows, i);
    }
  }

  /** The verifier accepts exactly the contiguous, linked and signed chains that the head describes. */
  lemma VerifyAccepts(P: Primitives, ring: Keyring, p: Partition)
    ensures Verify(P, ring, p).Ok? <==>
            (forall i | 0 <= i < |p.rows| :: IsSound(P, ring, p.rows, i))
            && (if p.head.None? then p.rows == [] else p.head.value == Head(|p.rows|, LastHash(Links(p.rows))))
    ensures Verify(P, ring, p).Ok? ==> Verify(P, ring, p).value == |p.rows| && IsLinked(P, Links(p.rows))
  {
    RowsProblemMeans(P, ring, p.rows, 0);
    if Verify(P, ring, p).Ok? {
      forall i | 0 <= i < |p.rows| ensures IsLinkedAt(P, Links(p.rows), i) {
        assert IsSound(P, ring, p.rows, i);
      }
    }
  }

  // ----- what every append keeps -----

  predicate IsRecorded(P: Primitives, rows: seq<EventRow>, i: nat)
    requires i < |rows|
  {
    rows[i].sequence == i + 1 && IsLinkedAt(P, Links(rows), i)
  }

  ghost predicate HasDistinctIds(rows: seq<EventRow>) {
    forall i, j | 0 <= i < j < |rows| :: rows[i].eventId != rows[j].eventId
  }

  ghost predicate WellFormed(P: Primitives, p: Partition) {
    (forall i | 0 <= i < |p.rows| :: IsRecorded(P, p.rows, i))
    && HasDistinctIds(p.rows)
    && (if p.head.None? then p.rows == [] else p.head.value == Head(|p.rows|, LastHash(Links(p.rows))))
  }

  lemma RecordedLinks(P: Primitives, rows: seq<EventRow>)
    requires forall i | 0 <= i < |rows| :: IsRecorded(P, rows, i)
    ensures IsLinked(P, Links(rows)) && |LastHash(Links(rows))| == 64
  {
    forall i | 0 <= i < |rows| ensures IsLinkedAt(P, Links(rows), i) {
      assert IsRecorded(P, rows, i);
    }
    LinkedHashes(P, Links(rows), |rows|);
  }

  /** In a well-formed partition a new row passes every constraint and goes to the end. */
  lemma NextRowFits(P: Primitives, ring: Keyring, p: Partition, entry: Entry)
    requires WellFormed(P, p) && p.head.Some?
    requires FindEvent(p.rows, entry.event.eventId).None?
    ensures var row := NextRow(P, ring, p.head.value, entry);
            Admits(p, row) && AdmitsHead(HeadAfter(row)) && InsertRow(p.rows, row) == p.rows + [row]
            && WellFormed(P, Partition(Some(HeadAfter(row)), p.rows + [row]))
  {
    var row := NextRow(P, ring, p.head.value, entry);
    var rows := p.rows + [row];
    RecordedLinks(P, p.rows);
    LinkedExtends(P, Links(p.rows), entry.payload);
    assert Links(rows) == Links(p.rows) + [row.link];
    assert forall i | 0 <= i < |p.rows| :: IsRecorded(P, p.rows, i);
    forall i | 0 <= i < |rows| ensures IsRecorded(P, rows, i) {
      assert IsLinkedAt(P, Links(rows), i);
      assert i < |p.rows| ==> IsRecorded(P, p.rows, i);
    }
    forall r <- p.rows ensures r.sequence != row.sequence && r.eventId != row.eventId {
      var i :| 0 <= i < |p.rows| && p.rows[i] == r;
      assert IsRecorded(P, p.rows, i);
    }
    if p.rows != [] {
      assert IsRecorded(P, p.rows, |p.rows| - 1);
    }
  }

  function EventIds(rows: seq<EventRow>): set<string> {
    set row <- rows :: row.eventId
  }

  /** The row carries the signature of the ring's active key. */
  predicate IsSignedWith(P: Primitives, ring: Keyring, row: EventRow) {
    row.keyId == ring.activeKeyId
    && row.signature == Signature(P, ring.keys[ring.activeKeyId], row.keyId, row.link.eventHash)
  }

  /** Every column that comes from the event holds what this event says. */
  predicate Records(row: EventRow, entry: Entry) {
    row.eventId == entry.event.eventId && row.eventType == entry.event.eventType
    && row.link.payload == entry.payload && row.occurredAt == entry.occurredAt
  }

  /** The effect of storing `entry`, said without reference to how it is stored. */
  ghost predicate IsStored(P: Primitives, ring: Keyring, p: Partition, entry: Entry,
                           q: Partition, r: Result<string, AppendError>) {
    var existing := FindEvent(p.rows, entry.event.eventId);
    WellFormed(P, q) && q.head.Some? && p.rows <= q.rows
    && r == (if existing.Some? && existing.value.link.payload != entry.payload then Err(EventIdReused)
             else Ok(entry.event.eventId))
    && (existing.Some? ==> q.rows == p.rows && (p.head.Some? ==> q == p))
    && (existing.None? ==> |q.rows| == |p.rows| + 1
                           && Records(q.rows[|p.rows|], entry)
                           && IsSignedWith(P, ring, q.rows[|p.rows|]))
  }

  /**
   Storing keeps a partition well formed, never fails on a constraint, only ever extends the
   chain, and accepts an id exactly when it is new or was stored with the same payload.
   */
  lemma StoreKeeps(P: Primitives, ring: Keyring, p: Partition, entry: Entry)
    requires WellFormed(P, p)
    ensures IsStored(P, ring, p, entry, Store(P, ring, p, entry).0, Store(P, ring, p, entry).1)
  {
    var e := EnsureHead(p);
    assert WellFormed(P, e) by {
      assert p.head.None? ==> LastHash(Links(e.rows)) == ZERO_HASH;
    }
    if FindEvent(p.rows, entry.event.eventId).None? {
      NextRowFits(P, ring, e, entry);
    }
  }

  /** A stored id is on file afterwards, and no other id came or went. */
  lemma StoredIds(P: Primitives, ring: Keyring, p: Partition, entry: Entry,
                  q: Partition, r: Result<string, AppendError>)
    requires IsStored(P, ring, p, entry, q, r)
    ensures EventIds(q.rows) == EventIds(p.rows) + {entry.event.eventId}
    ensures r.Err? ==> entry.event.eventId in EventIds(p.rows)
  {
    var existing := FindEvent(p.rows, entry.event.eventId);
    if existing.Some? {
      assert existing.value in p.rows;
    } else {
      assert q.rows == p.rows + [q.rows[|p.rows|]];
    }
  }

  predicate IsChecked(P: Primitives, ring: Keyring, row: EventRow) {
    VerifySignature(P, ring, row.keyId, row.link.eventHash, row.signature)
  }

  /** Of a recorded chain the verifier's loop can find nothing wrong but a signature. */
  lemma {:induction false} RecordedProblem(P: Primitives, ring: Keyring, rows: seq<EventRow>, i: nat)
    requires i <= |rows| && forall j | 0 <= j < |rows| :: IsRecorded(P, rows, j)
    ensures RowsProblem(P, ring, rows, i)
         == if forall j | i <= j < |rows| :: IsChecked(P, ring, rows[j]) then None else Some(BadSignature)
    decreases |rows| - i
  {
    if i < |rows| {
      RecordedProblem(P, ring, rows, i + 1);
      assert IsRecorded(P, rows, i);
      assert RowProblem(P, ring, rows[i], i + 1, PreviousHash(Links(rows), i))
             == if IsChecked(P, ring, rows[i]) then None else Some(BadSignature);
    }
  }

  /**
   The verdict on the rows of one moment under the head of a later one, when appends have only
   extended the chain: a mismatch exactly when it grew in between.
   */
  lemma TornReadVerdict(P: Primitives, ring: Keyring, p: Partition, q: Partition)
    requires WellFormed(P, p) && WellFormed(P, q) && p.rows <= q.rows
    ensures Verify(P, ring, Partition(q.head, p.rows))
         == if exists r <- p.rows :: !IsChecked(P, ring, r) then Err(BadSignature)
            else if p.rows == q.rows then Ok(|p.rows|)
            else Err(HeadMismatch)
  {
    RecordedProblem(P, ring, p.rows, 0);
    assert (forall j | 0 <= j < |p.rows| :: IsChecked(P, ring, p.rows[j])) <==> forall r <- p.rows :: IsChecked(P, ring, r);
  }

  /** A well-formed chain verifies under exactly the keyrings that check every stored signature. */
  lemma WellFormedVerifies(P: Primitives, ring: Keyring, p: Partition)
    requires WellFormed(P, p)
    ensures Verify(P, ring, p)
         == if exists r <- p.rows :: !IsChecked(P, ring, r) then Err(BadSignature) else Ok(|p.rows|)
  {
    TornReadVerdict(P, ring, p, p);
  }

  // ----- issued keys -----

  /** The material ever issued under each key id, where an id is never issued twice. */
  type Registry = string -> Bytes

  predicate IsIssued(ring: Keyring, registry: Registry) {
    ring.keys[ring.activeKeyId] == registry(ring.activeKeyId)
  }

  ghost predicate AreSigned(P: Primitives, registry: Registry, rows: seq<EventRow>) {
    forall row <- rows :: row.signature == Signature(P, registry(row.keyId), row.keyId, row.link.eventHash)
  }

  /** The ring retains the keys that the rows were signed with. */
  ghost predicate RetainsKeys(ring: Keyring, registry: Registry, rows: seq<EventRow>) {
    forall row <- rows :: row.keyId in ring.keys && ring.keys[row.keyId] == registry(row.keyId)
  }

  /** Storing with an issued key keeps every signature one of an issued key. */
  lemma StoredIsSigned(P: Primitives, registry: Registry, ring: Keyring, p: Partition, entry: Entry,
                       q: Partition, r: Result<string, AppendError>)
    requires IsStored(P, ring, p, entry, q, r) && IsIssued(ring, registry) && AreSigned(P, registry, p.rows)
    ensures AreSigned(P, registry, q.rows)
  {
    if FindEvent(p.rows, entry.event.eventId).None? {
      assert q.rows == p.rows + [q.rows[|p.rows|]];
    }
  }

  lemma RetainedIsChecked(P: Primitives, registry: Registry, ring: Keyring, rows: seq<EventRow>)
    requires AreSigned(P, registry, rows) && RetainsKeys(ring, registry, rows)
    ensures forall row <- rows :: IsChecked(P, ring, row)
  {
  }

  // ----- tampering -----

  /** A verified chain in which one signature is replaced by another text is refused for its signature. */
  lemma AlteredSignature(P: Primitives, ring: Keyring, p: Partition, i: nat, signature: string)
    requires Verify(P, ring, p).Ok? && i < |p.rows| && signature != p.rows[i].signature
    ensures Verify(P, ring, p.(rows := p.rows[i := p.rows[i].(signature := signature)])) == Err(BadSignature)
  {
    var rows := p.rows[i := p.rows[i].(signature := signature)];
    VerifyAccepts(P, ring, p);
    assert Links(rows) == Links(p.rows);
    assert forall j | 0 <= j < |rows| :: IsSound(P, ring, p.rows, j);
    forall j | 0 <= j < |rows| ensures IsRecorded(P, rows, j) {
      assert IsSound(P, ring, p.rows, j);
    }
    RecordedProblem(P, ring, rows, 0);
    assert IsSound(P, ring, p.rows, i) && rows[i].signature == signature;
    assert !IsChecked(P, ring, rows[i]);
  }

  /** Without a key that signed one of its rows, a keyring verifies nothing of a chain that has no other fault. */
  lemma MissingKey(P: Primitives, ring: Keyring, ring': Keyring, p: Partition, i: nat)
    requires Verify(P, ring, p).Ok? && i < |p.rows| && p.rows[i].keyId !in ring'.keys
    ensures Verify(P, ring', p) == Err(BadSignature)
  {
    VerifyAccepts(P, ring, p);
    forall j | 0 <= j < |p.rows| ensures IsRecorded(P, p.rows, j) {
      assert IsSound(P, ring, p.rows, j);
    }
    RecordedProblem(P, ring', p.rows, 0);
    assert !IsChecked(P, ring', p.rows[i]);
  }

  /** Two partitions that verify under any keyrings and share a head hold the same links, or the inputs of two stored rows in the same place collide. */
  lemma SameHeadSamePayloads(P: Primitives, ring: Keyring, ring': Keyring, p: Partition, p': Partition)
    returns (e: Evidence)
    requires Verify(P, ring, p).Ok? && Verify(P, ring', p').Ok? && p.head == p'.head
    ensures |p.rows| == |p'.rows|
    ensures Links(p.rows) == Links(p'.rows) || exists i | 0 <= i < |p.rows| :: CollideAt(P, e, Links(p.rows), Links(p'.rows), i, i)
  {
    VerifyAccepts(P, ring, p);
    VerifyAccepts(P, ring', p');
    e := SameEndSameLinks(P, Links(p.rows), Links(p'.rows));
  }

  /** With the head in place, no loss of rows goes unnoticed, whatever the hash function. */
  lemma LossIsRejected(P: Primitives, ring: Keyring, ring': Keyring, p: Partition, rows: seq<EventRow>)
    requires Verify(P, ring, p).Ok? && |rows| < |p.rows|
    ensures Verify(P, ring', p.(rows := rows)).Err?
  {
    VerifyAccepts(P, ring, p);
    VerifyAccepts(P, ring', p.(rows := rows));
  }

  // ----- the log object -----

  class Database {
    var tenants: Tables

    constructor ()
      ensures tenants == map[]
    {
      tenants := map[];
    }
  }

  class SqlAuditLog {
    const primitives: Primitives
    const engine: Database
    const keyring: Keyring

    constructor (primitives: Primitives, engine: Database, keyring: Keyring)
      ensures this.primitives == primitives && this.engine == engine && this.keyring == keyring
    {
      this.primitives := primitives;
      this.engine := engine;
      this.keyring := keyring;
    }

    /** Leaves the outcome to the caller's transaction: a rejected event may still create the head row. */
    method AppendInTransaction(event: AuditEvent, freshId: string, now: string) returns (r: Result<string, AppendError>)
      modifies engine
      ensures (engine.tenants, r) == AppendTo(primitives, keyring, old(engine.tenants), Normalized(event, freshId, now))
    {
      var normalized := Normalized(event, freshId, now);
      var screened := Screen(primitives, normalized);
      if screened.Err? {
        return Err(screened.error);
      }
      var entry := screened.value;
      var tenant := normalized.tenantId;
      engine.tenants := engine.tenants[tenant := EnsureHead(Part(engine.tenants, tenant))];
      var head := engine.tenants[tenant].head.value;
      var existing := FindEvent(engine.tenants[tenant].rows, normalized.eventId);
      if existing.Some? {
        if existing.value.link.payload != entry.payload {
          return Err(EventIdReused);
        }
        return Ok(normalized.eventId);
      }
      var row := NextRow(primitives, keyring, head, entry);
      if !Admits(engine.tenants[tenant], row) || !AdmitsHead(HeadAfter(row)) {
        return Err(ConstraintFailed);
      }
      engine.tenants := engine.tenants[tenant := engine.tenants[tenant].(rows := InsertRow(engine.tenants[tenant].rows, row))];
      engine.tenants := engine.tenants[tenant := engine.tenants[tenant].(head := Some(HeadAfter(row)))];
      r := Ok(normalized.eventId);
      assert engine.tenants == old(engine.tenants)[tenant := engine.tenants[tenant]];
    }

    /** One event in its own transaction: committed when accepted, rolled back otherwise. */
    method Append(event: AuditEvent, freshId: string, now: string, laterId: string, later: string)
      returns (r: Result<string, AppendError>)
      requires freshId != "" && now != ""
      modifies engine
      ensures r == AppendTo(primitives, keyring, old(engine.tenants), Normalized(event, freshId, now)).1
      ensures engine.tenants == if r.Ok?
                                then AppendTo(primitives, keyring, old(engine.tenants), Normalized(event, freshId, now)).0
                                else old(engine.tenants)
    {
      var normalized := Normalized(event, freshId, now);
      if !IsValidEvent(normalized) {
        return Err(InvalidEvent);
      }
      var before := engine.tenants;
      NormalizedTwice(event, freshId, now, laterId, later);
      r := AppendInTransaction(normalized, laterId, later);
      if r.Err? {
        engine.tenants := before;
      }
    }

    /** The verifier's loop and its head check, on the results of its two queries. */
    method VerifyRows(rows: seq<EventRow>, head: Option<Head>) returns (r: Result<nat, VerifyError>)
      ensures r == Verify(primitives, keyring, Partition(head, rows))
    {
      var previousHash := ZERO_HASH;
      for i := 0 to |rows|
        invariant previousHash == PreviousHash(Links(rows), i)
        invariant RowsProblem(primitives, keyring, rows, 0) == RowsProblem(primitives, keyring, rows, i)
      {
        var row := rows[i];
        if row.sequence != i + 1 {
          return Err(NotContiguous);
        }
        if row.link.previousHash != previousHash {
          return Err(BrokenLink);
        }
        var expectedHash := LinkHash(primitives, previousHash, row.link.payload);
        if row.link.eventHash != expectedHash {
          return Err(BadHash);
        }
        if !VerifySignature(primitives, keyring, row.keyId, row.link.eventHash, row.signature) {
          return Err(BadSignature);
        }
        previousHash := expectedHash;
      }
      if head.None? {
        if rows != [] {
          return Err(HeadMissing);
        }
        return Ok(0);
      }
      if head.value.lastSequence != |rows| || head.value.lastHash != previousHash {
        return Err(HeadMismatch);
      }
      r := Ok(|rows|);
    }

    /** With nobody else at work both queries see the same tables. */
    method VerifyTenantChain(tenant: string) returns (r: Result<nat, VerifyError>)
      ensures r == if IsTenant(tenant) then Verify(primitives, keyring, Part(engine.tenants, tenant))
                   else Err(InvalidTenant)
    {
      if !IsTenant(tenant) {
        return Err(InvalidTenant);
      }
      var rows := Part(engine.tenants, tenant).rows;
      var head := Part(engine.tenants, tenant).head;
      r := VerifyRows(rows, head);
    }
  }
}
