/**
 The single-table SQLite audit log (`SQLiteAuditLog`): rows of all tenants in one automatically
 numbered table, no head row, one signing key. A table is held in order of its row number.
 */
module SqliteAudit {

  import opened Common
  import opened AuditChain
  import opened AuditLog
  import opened AuditHistory

  datatype LiteRow = LiteRow(eventId: string, tenantId: string, link: Link, signature: string)

  datatype LiteError = DuplicateEventId

  /** `WHERE tenant_id = ? ORDER BY sequence`. */
  function RowsOf(table: seq<LiteRow>, tenant: string): seq<LiteRow> {
    if table == [] then []
    else
      var n := |table| - 1;
      RowsOf(table[..n], tenant) + if table[n].tenantId == tenant then [table[n]] else []
  }

  function LiteLinks(rows: seq<LiteRow>): (links: seq<Link>)
    ensures |links| == |rows| && forall i | 0 <= i < |rows| :: links[i] == rows[i].link
  {
    seq(|rows|, i requires 0 <= i < |rows| => rows[i].link)
  }

  function NextLiteRow(P: Primitives, key: Bytes, table: seq<LiteRow>, eventId: string, tenant: string, payload: string): LiteRow {
    var link := NextLink(P, LastHash(LiteLinks(RowsOf(table, tenant))), payload);
    LiteRow(eventId, tenant, link, P.hmac(key, link.eventHash))
  }

  /** The insert and the table's unique event id; an id in use is an error even for the same payload. */
  function LiteStore(P: Primitives, key: Bytes, table: seq<LiteRow>, eventId: string, tenant: string, payload: string)
    : (seq<LiteRow>, Result<string, LiteError>) {
    if exists row <- table :: row.eventId == eventId then (table, Err(DuplicateEventId))
    else (table + [NextLiteRow(P, key, table, eventId, tenant, payload)], Ok(eventId))
  }

  // ----- verification -----

  /** The checks of one turn of the verifier's loop, in its order. */
  function LiteRowProblem(P: Primitives, key: Bytes, row: LiteRow, previousHash: string): Option<VerifyError> {
    var expected := LinkHash(P, previousHash, row.link.payload);
    if row.link.previousHash != previousHash then Some(BrokenLink)
    else if row.link.eventHash != expected then Some(BadHash)
    else if row.signature != P.hmac(key, expected) then Some(BadSignature)
    else None
  }

  function LiteProblem(P: Primitives, key: Bytes, rows: seq<LiteRow>, i: nat): Option<VerifyError>
    requires i <= |rows|
    decreases |rows| - i
  {
    if i == |rows| then None
    else
      var problem := LiteRowProblem(P, key, rows[i], PreviousHash(LiteLinks(rows), i));
      if problem.Some? then problem else LiteProblem(P, key, rows, i + 1)
  }

  function LiteVerify(P: Primitives, key: Bytes, rows: seq<LiteRow>): Result<nat, VerifyError> {
    match LiteProblem(P, key, rows, 0)
    case Some(error) => Err(error)
    case None => Ok(|rows|)
  }

  predicate IsLiteSigned(P: Primitives, key: Bytes, row: LiteRow) {
    row.signature == P.hmac(key, row.link.eventHash)
  }

  predicate IsLiteSound(P: Primitives, key: Bytes, rows: seq<LiteRow>, i: nat)
    requires i < |rows|
  {
    IsLinkedAt(P, LiteLinks(rows), i) && IsLiteSigned(P, key, rows[i])
  }

  lemma {:induction false} LiteProblemMeans(P: Primitives, key: Bytes, rows: seq<LiteRow>, i: nat)
    requires i <= |rows|
    ensures LiteProblem(P, key, rows, i).None? <==> forall j | i <= j < |rows| :: IsLiteSound(P, key, rows, j)
    decreases |rows| - i
  {
    if i < |rows| {
      LiteProblemMeans(P, key, rows, i + 1);
      assert LiteRowProblem(P, key, rows[i], PreviousHash(LiteLinks(rows), i)).None? <==> IsLiteSound(P, key, rows, i);
    }
  }

  /** The verifier accepts exactly the linked chains whose every hash is signed. */
  lemma LiteVerifyAccepts(P: Primitives, key: Bytes, rows: seq<LiteRow>)
    ensures LiteVerify(P, key, rows).Ok? <==>
            IsLinked(P, LiteLinks(rows)) && forall i | 0 <= i < |rows| :: IsLiteSigned(P, key, rows[i])
    ensures LiteVerify(P, key, rows).Ok? ==> LiteVerify(P, key, rows).value == |rows|
  {
    LiteProblemMeans(P, key, rows, 0);
    assert forall i | 0 <= i < |rows| :: IsLiteSound(P, key, rows, i)
                                         <==> IsLinkedAt(P, LiteLinks(rows), i) && IsLiteSigned(P, key, rows[i]);
  }

  /** Without a head row, cutting off the end goes unnoticed: every prefix of a verified chain verifies. */
  lemma PrefixVerifies(P: Primitives, key: Bytes, rows: seq<LiteRow>, n: nat)
    requires LiteVerify(P, key, rows).Ok? && n <= |rows|
    ensures LiteVerify(P, key, rows[..n]) == Ok(n)
  {
    LiteVerifyAccepts(P, key, rows);
    LiteVerifyAccepts(P, key, rows[..n]);
    LinkedPrefix(P, LiteLinks(rows), n);
    assert LiteLinks(rows[..n]) == LiteLinks(rows)[..n];
  }

  /** Deleting a row that a kept row follows is rejected, or the inputs of stored rows break SHA-256. */
  lemma InnerDeletionIsRejected(P: Primitives, key: Bytes, rows: seq<LiteRow>, keep: seq<nat>, gap: nat)
    returns (e: Evidence)
    requires LiteVerify(P, key, rows).Ok? && IsIncreasing(keep, |rows|)
    requires gap < |keep| && keep[gap] != gap
    ensures LiteVerify(P, key, Kept(rows, keep)).Err? || IsBrokenBy(P, LiteLinks(rows), e)
  {
    LiteVerifyAccepts(P, key, rows);
    LiteVerifyAccepts(P, key, Kept(rows, keep));
    assert LiteLinks(Kept(rows, keep)) == Kept(LiteLinks(rows), keep);
    e := DeletionIsEvident(P, LiteLinks(rows), keep, gap);
  }

  // ----- the two logs hold the same chains -----

  function LiteReplay(P: Primitives, key: Bytes, log: seq<Request>): seq<LiteRow> {
    if log == [] then []
    else
      var q := log[|log| - 1];
      LiteStore(P, key, LiteReplay(P, key, log[..|log| - 1]), q.entry.event.eventId, Tenant(q), q.entry.payload).0
  }

  ghost predicate HasDistinctEvents(log: seq<Request>) {
    forall i, j | 0 <= i < j < |log| :: log[i].entry.event.eventId != log[j].entry.event.eventId
  }

  /** One row for each event, with its id. */
  ghost predicate HasIdsOf(table: seq<LiteRow>, log: seq<Request>) {
    |table| == |log| && forall i | 0 <= i < |log| :: table[i].eventId == log[i].entry.event.eventId
  }

  lemma IdsOneMore(table: seq<LiteRow>, log: seq<Request>, row: LiteRow, q: Request)
    requires HasIdsOf(table, log) && row.eventId == q.entry.event.eventId
    ensures HasIdsOf(table + [row], log + [q])
  {
  }

  /** With globally distinct ids nothing is refused, and the table holds one row for each event. */
  lemma {:induction false} LiteReplayIds(P: Primitives, key: Bytes, log: seq<Request>)
    requires HasDistinctEvents(log)
    ensures HasIdsOf(LiteReplay(P, key, log), log)
    decreases |log|
  {
    if log != [] {
      var n := |log| - 1;
      var past, q := log[..n], log[n];
      DistinctPast(log);
      LiteReplayIds(P, key, past);
      var table := LiteReplay(P, key, past);
      FreshRow(P, key, table, past, q);
      var row := NextLiteRow(P, key, table, q.entry.event.eventId, Tenant(q), q.entry.payload);
      assert LiteReplay(P, key, log) == table + [row];
      assert log == past + [q];
      IdsOneMore(table, past, row, q);
    }
  }

  lemma DistinctPast(log: seq<Request>)
    requires HasDistinctEvents(log) && log != []
    ensures var n := |log| - 1;
            HasDistinctEvents(log[..n])
            && forall i | 0 <= i < n :: log[..n][i].entry.event.eventId != log[n].entry.event.eventId
  {
    assert forall i | 0 <= i < |log| - 1 :: log[..|log| - 1][i] == log[i];
  }

  lemma FreshRow(P: Primitives, key: Bytes, table: seq<LiteRow>, past: seq<Request>, q: Request)
    requires HasIdsOf(table, past)
    requires forall i | 0 <= i < |past| :: past[i].entry.event.eventId != q.entry.event.eventId
    ensures LiteStore(P, key, table, q.entry.event.eventId, Tenant(q), q.entry.payload)
         == (table + [NextLiteRow(P, key, table, q.entry.event.eventId, Tenant(q), q.entry.payload)], Ok(q.entry.event.eventId))
  {
  }

  /** A fresh id extends its chain by the link that follows the last hash. */
  lemma StoredLink(P: Primitives, ring: Keyring, p: Partition, entry: Entry, q: Partition, r: Outcome)
    requires WellFormed(P, p) && IsStored(P, ring, p, entry, q, r)
    requires FindEvent(p.rows, entry.event.eventId).None?
    ensures Links(q.rows) == Links(p.rows) + [NextLink(P, LastHash(Links(p.rows)), entry.payload)]
  {
    var n := |p.rows|;
    assert IsRecorded(P, q.rows, n) && IsLinkedAt(P, Links(q.rows), n);
    assert PreviousHash(Links(q.rows), n) == LastHash(Links(p.rows));
  }

  lemma RowsOfExtends(table: seq<LiteRow>, row: LiteRow, tenant: string)
    ensures RowsOf(table + [row], tenant) == RowsOf(table, tenant) + if row.tenantId == tenant then [row] else []
  {
    assert (table + [row])[..|table|] == table;
  }

  /** One more event with a fresh id. */
  lemma LiteExtends(P: Primitives, key: Bytes, past: seq<Request>, q: Request, tenant: string)
    requires HasDistinctEvents(past + [q])
    ensures var links := LiteLinks(RowsOf(LiteReplay(P, key, past), tenant));
            LiteLinks(RowsOf(LiteReplay(P, key, past + [q]), tenant))
            == links + if Tenant(q) == tenant then [NextLink(P, LastHash(links), q.entry.payload)] else []
  {
    var table := LiteReplay(P, key, past);
    var row := NextLiteRow(P, key, table, q.entry.event.eventId, Tenant(q), q.entry.payload);
    LiteReplayOneMore(P, key, past, q);
    RowsOfExtends(table, row, tenant);
    LiteLinksExtend(RowsOf(table, tenant), row);
  }

  lemma LiteReplayOneMore(P: Primitives, key: Bytes, past: seq<Request>, q: Request)
    requires HasDistinctEvents(past + [q])
    ensures var table := LiteReplay(P, key, past);
            LiteReplay(P, key, past + [q])
            == table + [NextLiteRow(P, key, table, q.entry.event.eventId, Tenant(q), q.entry.payload)]
  {
    var log := past + [q];
    assert log[..|past|] == past;
    assert HasDistinctEvents(past) by {
      assert forall i | 0 <= i < |past| :: past[i] == log[i];
    }
    LiteReplayIds(P, key, past);
    LiteReplayIds(P, key, log);
  }

  lemma LiteLinksExtend(rows: seq<LiteRow>, row: LiteRow)
    ensures LiteLinks(rows + [row]) == LiteLinks(rows) + [row.link]
    ensures rows + [] == rows && LiteLinks(rows) + [] == LiteLinks(rows)
  {
  }

  /**
   For any events with globally distinct ids, signed under whatever keys, the two logs hold the
   same (payload, previous hash, event hash) sequence for every tenant.
   */
  lemma {:induction false} SameChains(P: Primitives, store: Storing, key: Bytes, log: seq<Request>, tenant: string)
    requires IsFaithful(P, store) && HasDistinctEvents(log)
    ensures LiteLinks(RowsOf(LiteReplay(P, key, log), tenant)) == Links(Part(Replay(store, map[], log), tenant).rows)
    decreases |log|
  {
    if log != [] {
      var n := |log| - 1;
      var q, past := log[n], log[..n];
      assert q in log && log == past + [q];
      SameChains(P, store, key, past, tenant);
      LiteExtends(P, key, past, q, tenant);
      if Tenant(q) == tenant {
        FreshId(P, store, log);
        ReplayExtends(P, store, past, q);
      } else {
        ReplayOneMore(store, map[], past, q);
      }
    }
  }

  /** A request with a fresh id extends its tenant's chain by the link after the last hash. */
  lemma ReplayExtends(P: Primitives, store: Storing, past: seq<Request>, q: Request)
    requires IsFaithful(P, store)
    requires FindEvent(Part(Replay(store, map[], past), Tenant(q)).rows, q.entry.event.eventId).None?
    ensures var links := Links(Part(Replay(store, map[], past), Tenant(q)).rows);
            Links(Part(Replay(store, map[], past + [q]), Tenant(q)).rows)
            == links + [NextLink(P, LastHash(links), q.entry.payload)]
  {
    var d := Replay(store, map[], past);
    ReplayKeeps(P, store, past, Tenant(q));
    ReplayOneMore(store, map[], past, q);
    StepIsStored(P, store, d, q);
    StoredLink(P, q.ring, Part(d, Tenant(q)), q.entry, Part(After(store, d, q), Tenant(q)), OutcomeOf(store, d, q));
  }

  lemma FreshId(P: Primitives, store: Storing, log: seq<Request>)
    requires IsFaithful(P, store) && HasDistinctEvents(log) && log != []
    ensures var q := log[|log| - 1];
            FindEvent(Part(Replay(store, map[], log[..|log| - 1]), Tenant(q)).rows, q.entry.event.eventId).None?
  {
    var n := |log| - 1;
    var q, past := log[n], log[..n];
    ReplayKeeps(P, store, past, Tenant(q));
    var rows := Part(Replay(store, map[], past), Tenant(q)).rows;
    assert q.entry.event.eventId !in EventIds(rows);
    assert forall row <- rows :: row.eventId in EventIds(rows);
  }

  /** The same for the log's own way of storing. */
  lemma LogsAgree(P: Primitives, key: Bytes, log: seq<Request>, tenant: string)
    requires HasDistinctEvents(log)
    ensures LiteLinks(RowsOf(LiteReplay(P, key, log), tenant)) == Links(Part(Replay(Stores(P), map[], log), tenant).rows)
  {
    StoresIsFaithful(P);
    SameChains(P, Stores(P), key, log, tenant);
  }

  /** The table is sound for every tenant: linked, signed with the log's key, and with the requests' own columns. */
  ghost predicate IsSoundTable(P: Primitives, key: Bytes, table: seq<LiteRow>, tenant: string) {
    IsLinked(P, LiteLinks(RowsOf(table, tenant)))
    && forall row <- RowsOf(table, tenant) :: IsLiteSigned(P, key, row) && row.tenantId == tenant
  }

  lemma LiteStoreKeeps(P: Primitives, key: Bytes, table: seq<LiteRow>, eventId: string, tenant: string, payload: string, other: string)
    requires IsSoundTable(P, key, table, other)
    ensures IsSoundTable(P, key, LiteStore(P, key, table, eventId, tenant, payload).0, other)
  {
    var row := NextLiteRow(P, key, table, eventId, tenant, payload);
    RowsOfExtends(table, row, other);
    LiteLinksExtend(RowsOf(table, other), row);
    LinkedExtends(P, LiteLinks(RowsOf(table, other)), payload);
  }

  lemma {:induction false} LiteReplayIsSound(P: Primitives, key: Bytes, log: seq<Request>, tenant: string)
    ensures IsSoundTable(P, key, LiteReplay(P, key, log), tenant)
    decreases |log|
  {
    if log != [] {
      var q, past := log[|log| - 1], log[..|log| - 1];
      LiteReplayIsSound(P, key, past, tenant);
      LiteStoreKeeps(P, key, LiteReplay(P, key, past), q.entry.event.eventId, Tenant(q), q.entry.payload, tenant);
    }
  }

  /** After any events, repeated ids among them, every tenant's chain verifies under the log's key with all its rows. */
  lemma LiteHistoryVerifies(P: Primitives, key: Bytes, log: seq<Request>, tenant: string)
    ensures var rows := RowsOf(LiteReplay(P, key, log), tenant); LiteVerify(P, key, rows) == Ok(|rows|)
  {
    var rows := RowsOf(LiteReplay(P, key, log), tenant);
    LiteReplayIsSound(P, key, log, tenant);
    assert forall i | 0 <= i < |rows| :: rows[i] in rows;
    LiteVerifyAccepts(P, key, rows);
  }

  /** A verified chain in which one signature is replaced by another text is refused for its signature. */
  lemma LiteAlteredSignature(P: Primitives, key: Bytes, rows: seq<LiteRow>, i: nat, signature: string)
    requires LiteVerify(P, key, rows).Ok? && i < |rows| && signature != rows[i].signature
    ensures LiteVerify(P, key, rows[i := rows[i].(signature := signature)]).Err?
  {
    LiteVerifyAccepts(P, key, rows);
    LiteVerifyAccepts(P, key, rows[i := rows[i].(signature := signature)]);
    assert IsLiteSigned(P, key, rows[i]);
    assert !IsLiteSigned(P, key, rows[i := rows[i].(signature := signature)][i]);
  }

  // ----- the log object -----

  class SqliteAuditLog {
    var table: seq<LiteRow>
    const primitives: Primitives
    const signingKey: Bytes

    /** A shorter key is a `ValueError` in the source. */
    constructor (primitives: Primitives, signingKey: Bytes)
      requires |signingKey| >= 32
      ensures table == [] && this.primitives == primitives && this.signingKey == signingKey
    {
      this.primitives := primitives;
      this.signingKey := signingKey;
      table := [];
    }

    method Append(event: AuditEvent, freshId: string, now: string) returns (r: Result<string, LiteError>)
      modifies this
      ensures var e := Normalized(event, freshId, now);
              (table, r) == LiteStore(primitives, signingKey, old(table), e.eventId, e.tenantId, Payload(e))
    {
      var normalized := Normalized(event, freshId, now);
      var payload := Payload(normalized);
      var rows := RowsOf(table, normalized.tenantId);
      var previousHash := if rows != [] then rows[|rows| - 1].link.eventHash else ZERO_HASH;
      var eventHash := LinkHash(primitives, previousHash, payload);
      var signature := primitives.hmac(signingKey, eventHash);
      if exists row <- table :: row.eventId == normalized.eventId {
        return Err(DuplicateEventId);
      }
      table := table + [LiteRow(normalized.eventId, normalized.tenantId, Link(payload, previousHash, eventHash), signature)];
      r := Ok(normalized.eventId);
    }

    method VerifyTenantChain(tenant: string) returns (r: Result<nat, VerifyError>)
      ensures r == LiteVerify(primitives, signingKey, RowsOf(table, tenant))
    {
      var previousHash := ZERO_HASH;
      var count := 0;
      var rows := RowsOf(table, tenant);
      for i := 0 to |rows|
        invariant count == i && previousHash == PreviousHash(LiteLinks(rows), i)
        invariant LiteProblem(primitives, signingKey, rows, 0) == LiteProblem(primitives, signingKey, rows, i)
      {
        if rows[i].link.previousHash != previousHash {
          return Err(BrokenLink);
        }
        var expectedHash := LinkHash(primitives, previousHash, rows[i].link.payload);
        var expectedSignature := primitives.hmac(signingKey, expectedHash);
        if rows[i].link.eventHash != expectedHash {
          return Err(BadHash);
        }
        if rows[i].signature != expectedSignature {
          return Err(BadSignature);
        }
        previousHash := expectedHash;
        count := count + 1;
      }
      r := Ok(count);
    }
  }
}
