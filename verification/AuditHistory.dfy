/**
 Serial histories of the head-backed log: what a whole sequence of stored requests, for any
 tenants and under a changing active key, leaves in the tables.
 */
module AuditHistory {

  import opened Common
  import opened AuditChain
  import opened AuditLog
  import opened Json

  type Outcome = Result<string, AppendError>

  /** One call of `append_in_transaction` that passed screening, with the keyring of its process. */
  datatype Request = Request(entry: Entry, ring: Keyring)

  function Tenant(q: Request): string {
    q.entry.event.tenantId
  }

  ghost predicate AreIssued(registry: Registry, log: seq<Request>) {
    forall q <- log :: IsIssued(q.ring, registry)
  }

  /** How one request is stored in its tenant's partition. */
  type Storing = (Keyring, Partition, Entry) -> (Partition, Outcome)

  /** The log's own way. */
  function Stores(P: Primitives): Storing {
    (ring: Keyring, p: Partition, entry: Entry) => Store(P, ring, p, entry)
  }

  /** Storing one entry this way keeps what the log promises. */
  ghost predicate KeepsPromise(P: Primitives, store: Storing, ring: Keyring, p: Partition, entry: Entry) {
    WellFormed(P, p) ==>
      IsStored(P, ring, p, entry, store(ring, p, entry).0, store(ring, p, entry).1)
  }

  ghost predicate IsFaithful(P: Primitives, store: Storing) {
    forall ring: Keyring, p: Partition, entry: Entry :: KeepsPromise(P, store, ring, p, entry)
  }

  lemma StoresIsFaithful(P: Primitives)
    ensures IsFaithful(P, Stores(P))
  {
    forall ring: Keyring, p: Partition, entry: Entry ensures KeepsPromise(P, Stores(P), ring, p, entry) {
      if WellFormed(P, p) {
        StoreKeeps(P, ring, p, entry);
      }
    }
  }

  function After(store: Storing, db: Tables, q: Request): Tables {
    db[Tenant(q) := store(q.ring, Part(db, Tenant(q)), q.entry).0]
  }

  function OutcomeOf(store: Storing, db: Tables, q: Request): Outcome {
    store(q.ring, Part(db, Tenant(q)), q.entry).1
  }

  /** The tables after the requests of `log`, one after the other. */
  function Replay(store: Storing, db: Tables, log: seq<Request>): Tables {
    if log == [] then db else After(store, Replay(store, db, log[..|log| - 1]), log[|log| - 1])
  }

  /** What each of those requests returns. */
  function Outcomes(store: Storing, db: Tables, log: seq<Request>): (r: seq<Outcome>)
    ensures |r| == |log|
  {
    if log == [] then []
    else
      var past := log[..|log| - 1];
      Outcomes(store, db, past) + [OutcomeOf(store, Replay(store, db, past), log[|log| - 1])]
  }

  lemma ReplayOneMore(store: Storing, db: Tables, log: seq<Request>, q: Request)
    ensures Replay(store, db, log + [q]) == After(store, Replay(store, db, log), q)
    ensures Outcomes(store, db, log + [q]) == Outcomes(store, db, log) + [OutcomeOf(store, Replay(store, db, log), q)]
  {
    assert (log + [q])[..|log|] == log;
  }

  lemma {:induction false} ReplayConcat(store: Storing, db: Tables, first: seq<Request>, second: seq<Request>)
    ensures Replay(store, db, first + second) == Replay(store, Replay(store, db, first), second)
    ensures Outcomes(store, db, first + second) == Outcomes(store, db, first) + Outcomes(store, Replay(store, db, first), second)
    decreases |second|
  {
    if second == [] {
      assert first + second == first;
    } else {
      var n := |second| - 1;
      var q, past, d := second[n], second[..n], Replay(store, db, first);
      assert second == past + [q];
      ConcatAssociates(first, past, [q]);
      ReplayConcat(store, db, first, past);
      ReplayOneMore(store, db, first + past, q);
      ReplayOneMore(store, d, past, q);
      ConcatAssociates(Outcomes(store, db, first), Outcomes(store, d, past), [OutcomeOf(store, Replay(store, d, past), q)]);
    }
  }

  /** Requests of other tenants leave a tenant's rows alone. */
  lemma {:induction false} ReplayElsewhere(store: Storing, db: Tables, log: seq<Request>, tenant: string)
    requires forall q <- log :: Tenant(q) != tenant
    ensures Part(Replay(store, db, log), tenant) == Part(db, tenant)
    ensures tenant in Replay(store, db, log) <==> tenant in db
    decreases |log|
  {
    if log != [] {
      assert log[|log| - 1] in log;
      ReplayElsewhere(store, db, log[..|log| - 1], tenant);
    }
  }

  /** The outcome of a history depends only on the tenants it names. */
  lemma {:induction false} ReplayLocal(store: Storing, db: Tables, db': Tables, log: seq<Request>, tenants: set<string>)
    requires forall q <- log :: Tenant(q) in tenants
    requires forall t <- tenants :: Part(db, t) == Part(db', t) && (t in db <==> t in db')
    ensures Outcomes(store, db, log) == Outcomes(store, db', log)
    ensures forall t <- tenants ::
              Part(Replay(store, db, log), t) == Part(Replay(store, db', log), t)
              && (t in Replay(store, db, log) <==> t in Replay(store, db', log))
    decreases |log|
  {
    if log != [] {
      assert log[|log| - 1] in log;
      ReplayLocal(store, db, db', log[..|log| - 1], tenants);
    }
  }

  // ----- what every history keeps -----

  /** The ids accepted for a tenant, counted once however often they were sent. */
  function AcceptedIds(log: seq<Request>, outcomes: seq<Outcome>, tenant: string): set<string>
    requires |log| == |outcomes|
  {
    set i | 0 <= i < |log| && outcomes[i].Ok? && Tenant(log[i]) == tenant :: log[i].entry.event.eventId
  }

  lemma AcceptedOneMore(log: seq<Request>, outcomes: seq<Outcome>, q: Request, outcome: Outcome, tenant: string)
    requires |log| == |outcomes|
    ensures AcceptedIds(log + [q], outcomes + [outcome], tenant)
         == AcceptedIds(log, outcomes, tenant)
            + if outcome.Ok? && Tenant(q) == tenant then {q.entry.event.eventId} else {}
  {
    var more, results := log + [q], outcomes + [outcome];
    forall i | 0 <= i < |log| && outcomes[i].Ok? && Tenant(log[i]) == tenant
      ensures log[i].entry.event.eventId in AcceptedIds(more, results, tenant)
    {
      assert more[i] == log[i] && results[i] == outcomes[i];
    }
    assert more[|log|] == q && results[|log|] == outcome;
  }

  lemma StepIsStored(P: Primitives, store: Storing, d: Tables, q: Request)
    requires IsFaithful(P, store) && WellFormed(P, Part(d, Tenant(q)))
    ensures IsStored(P, q.ring, Part(d, Tenant(q)), q.entry, Part(After(store, d, q), Tenant(q)), OutcomeOf(store, d, q))
  {
    assert KeepsPromise(P, store, q.ring, Part(d, Tenant(q)), q.entry);
  }

  /** What a history leaves for one tenant. */
  ghost predicate IsKept(P: Primitives, p: Partition, ids: set<string>) {
    WellFormed(P, p) && EventIds(p.rows) == ids
  }

  /** One more request keeps it, for its own tenant and for every other. */
  lemma StepIsKept(P: Primitives, store: Storing, d: Tables, q: Request, ids: set<string>)
    requires IsFaithful(P, store) && IsKept(P, Part(d, Tenant(q)), ids)
    ensures IsKept(P, Part(After(store, d, q), Tenant(q)),
                   ids + if OutcomeOf(store, d, q).Ok? then {q.entry.event.eventId} else {})
    ensures OutcomeOf(store, d, q) != Err(ConstraintFailed)
  {
    StepIsStored(P, store, d, q);
    StoredIds(P, q.ring, Part(d, Tenant(q)), q.entry, Part(After(store, d, q), Tenant(q)), OutcomeOf(store, d, q));
  }

  lemma {:induction false} ReplayKeeps(P: Primitives, store: Storing, log: seq<Request>, tenant: string)
    requires IsFaithful(P, store)
    ensures IsKept(P, Part(Replay(store, map[], log), tenant),
                   AcceptedIds(log, Outcomes(store, map[], log), tenant))
    ensures Err(ConstraintFailed) !in Outcomes(store, map[], log)
    decreases |log|
  {
    if log != [] {
      var n := |log| - 1;
      var q, past := log[n], log[..n];
      assert q in log && log == past + [q];
      ReplayKeeps(P, store, past, tenant);
      ReplayKeeps(P, store, past, Tenant(q));
      var d, outcomes := Replay(store, map[], past), Outcomes(store, map[], past);
      StepIsKept(P, store, d, q, AcceptedIds(past, outcomes, Tenant(q)));
      ReplayOneMore(store, map[], past, q);
      AcceptedOneMore(past, outcomes, q, OutcomeOf(store, d, q), tenant);
    }
  }

  /** Each stored row holds, column by column, what one accepted request of its tenant said. */
  ghost predicate AreRecorded(rows: seq<EventRow>, log: seq<Request>, outcomes: seq<Outcome>, tenant: string)
    requires |log| == |outcomes|
  {
    forall row <- rows :: IsRecordOf(row, log, outcomes, tenant)
  }

  ghost predicate IsRecordOf(row: EventRow, log: seq<Request>, outcomes: seq<Outcome>, tenant: string)
    requires |log| == |outcomes|
  {
    exists i | 0 <= i < |log| :: outcomes[i].Ok? && Tenant(log[i]) == tenant && Records(row, log[i].entry)
  }

  lemma RecordedLater(rows: seq<EventRow>, log: seq<Request>, outcomes: seq<Outcome>, q: Request, outcome: Outcome, tenant: string)
    requires |log| == |outcomes| && AreRecorded(rows, log, outcomes, tenant)
    ensures AreRecorded(rows, log + [q], outcomes + [outcome], tenant)
  {
    forall row <- rows ensures IsRecordOf(row, log + [q], outcomes + [outcome], tenant) {
      assert IsRecordOf(row, log, outcomes, tenant);
      var i :| 0 <= i < |log| && outcomes[i].Ok? && Tenant(log[i]) == tenant && Records(row, log[i].entry);
      assert (log + [q])[i] == log[i] && (outcomes + [outcome])[i] == outcomes[i];
    }
  }

  lemma {:induction false} ReplayRecords(P: Primitives, store: Storing, log: seq<Request>, tenant: string)
    requires IsFaithful(P, store)
    ensures AreRecorded(Part(Replay(store, map[], log), tenant).rows, log, Outcomes(store, map[], log), tenant)
    decreases |log|
  {
    if log != [] {
      var n := |log| - 1;
      var q, past := log[n], log[..n];
      var d := Replay(store, map[], past);
      assert log == past + [q];
      ReplayRecords(P, store, past, tenant);
      ReplayOneMore(store, map[], past, q);
      RecordedLater(Part(d, tenant).rows, past, Outcomes(store, map[], past), q, OutcomeOf(store, d, q), tenant);
      if Tenant(q) == tenant {
        ReplayKeeps(P, store, past, tenant);
        StepIsStored(P, store, d, q);
        StoredRecords(P, q.ring, Part(d, tenant), q, Part(After(store, d, q), tenant), OutcomeOf(store, d, q),
                      log, Outcomes(store, map[], log), tenant);
      }
    }
  }

  lemma StoredRecords(P: Primitives, ring: Keyring, p: Partition, q: Request, p': Partition, r: Outcome,
                      log: seq<Request>, outcomes: seq<Outcome>, tenant: string)
    requires IsStored(P, ring, p, q.entry, p', r) && |log| == |outcomes| && log != []
    requires log[|log| - 1] == q && outcomes[|log| - 1] == r && Tenant(q) == tenant && AreRecorded(p.rows, log, outcomes, tenant)
    ensures AreRecorded(p'.rows, log, outcomes, tenant)
  {
    if FindEvent(p.rows, q.entry.event.eventId).None? {
      assert p'.rows == p.rows + [p'.rows[|p.rows|]];
      assert IsRecordOf(p'.rows[|p.rows|], log, outcomes, tenant);
    }
  }

  /** So a row of a screened request agrees with its own payload, read by anyone. */
  lemma ColumnsMatchPayload(P: Primitives, row: EventRow, q: Request)
    requires Records(row, q.entry) && Screen(P, q.entry.event) == Ok(q.entry)
    ensures Field(row.link.payload, "event_id") == Some(Str(row.eventId))
    ensures Field(row.link.payload, "event_type") == Some(Str(row.eventType))
    ensures Field(row.link.payload, "tenant_id") == Some(Str(Tenant(q)))
    ensures P.parseTime(q.entry.event.occurredAt) == Some(row.occurredAt)
            && Field(row.link.payload, "occurred_at") == Some(Str(q.entry.event.occurredAt))
  {
    ScreenAccepts(P, q.entry.event);
    PayloadReads(q.entry.event);
  }

  lemma {:induction false} DistinctIdsCount(rows: seq<EventRow>)
    requires HasDistinctIds(rows)
    ensures |EventIds(rows)| == |rows|
  {
    if rows != [] {
      var n := |rows| - 1;
      DistinctIdsCount(rows[..n]);
      assert rows == rows[..n] + [rows[n]];
      assert EventIds(rows) == EventIds(rows[..n]) + {rows[n].eventId};
    }
  }

  /**
   After any history a chain verifies under exactly the keyrings that check every stored
   signature, and its length is the number of distinct accepted ids.
   */
  lemma HistoryVerifies(P: Primitives, store: Storing, log: seq<Request>, tenant: string, ring: Keyring)
    requires IsFaithful(P, store)
    ensures var p := Part(Replay(store, map[], log), tenant);
            Verify(P, ring, p) == if exists r <- p.rows :: !IsChecked(P, ring, r) then Err(BadSignature)
                                  else Ok(|AcceptedIds(log, Outcomes(store, map[], log), tenant)|)
  {
    var p := Part(Replay(store, map[], log), tenant);
    ReplayKeeps(P, store, log, tenant);
    DistinctIdsCount(p.rows);
    WellFormedVerifies(P, ring, p);
  }

  /** When every request is signed with issued key material, every stored signature is one of an issued key. */
  lemma {:induction false} ReplayIsSigned(P: Primitives, registry: Registry, store: Storing, log: seq<Request>, tenant: string)
    requires IsFaithful(P, store) && AreIssued(registry, log)
    ensures AreSigned(P, registry, Part(Replay(store, map[], log), tenant).rows)
    decreases |log|
  {
    if log != [] {
      var n := |log| - 1;
      var q, past := log[n], log[..n];
      assert q in log;
      ReplayIsSigned(P, registry, store, past, tenant);
      if Tenant(q) == tenant {
        var d := Replay(store, map[], past);
        ReplayKeeps(P, store, past, tenant);
        StepIsStored(P, store, d, q);
        StoredIsSigned(P, registry, q.ring, Part(d, tenant), q.entry, Part(After(store, d, q), tenant), OutcomeOf(store, d, q));
      }
    }
  }

  /** Later requests only ever extend a chain. */
  lemma {:induction false} ReplayGrows(P: Primitives, store: Storing, first: seq<Request>, more: seq<Request>, tenant: string)
    requires IsFaithful(P, store)
    ensures Part(Replay(store, map[], first), tenant).rows <= Part(Replay(store, map[], first + more), tenant).rows
    decreases |more|
  {
    if more == [] {
      assert first + more == first;
    } else {
      var n := |more| - 1;
      var q, past := more[n], first + more[..n];
      assert first + more == past + [q];
      ReplayGrows(P, store, first, more[..n], tenant);
      ReplayOneMore(store, map[], past, q);
      if Tenant(q) == tenant {
        ReplayKeeps(P, store, past, tenant);
        StepIsStored(P, store, Replay(store, map[], past), q);
      }
    }
  }

  /** A chain that only grew is the same chain exactly when it holds the same ids. */
  lemma SameIdsSameRows(rows: seq<EventRow>, more: seq<EventRow>)
    requires HasDistinctIds(rows) && HasDistinctIds(more) && rows <= more
    ensures rows == more <==> EventIds(rows) == EventIds(more)
  {
    DistinctIdsCount(rows);
    DistinctIdsCount(more);
  }

  lemma KeptTornVerdict(P: Primitives, ring: Keyring, p: Partition, q: Partition, ids: set<string>, more: set<string>)
    requires IsKept(P, p, ids) && IsKept(P, q, more) && p.rows <= q.rows
    ensures |p.rows| == |ids|
    ensures Verify(P, ring, Partition(q.head, p.rows))
         == if exists r <- p.rows :: !IsChecked(P, ring, r) then Err(BadSignature)
            else if more == ids then Ok(|p.rows|)
            else Err(HeadMismatch)
  {
    TornReadVerdict(P, ring, p, q);
    SameIdsSameRows(p.rows, q.rows);
    DistinctIdsCount(p.rows);
  }

  /** The rows after a part of a history, verified under the head after all of it. */
  lemma HistoryTornVerdict(P: Primitives, store: Storing, first: seq<Request>, more: seq<Request>, tenant: string, ring: Keyring)
    requires IsFaithful(P, store)
    ensures var rows := Part(Replay(store, map[], first), tenant).rows;
            var ids := AcceptedIds(first, Outcomes(store, map[], first), tenant);
            var log := first + more;
            |rows| == |ids|
            && Verify(P, ring, Partition(Part(Replay(store, map[], log), tenant).head, rows))
               == if exists r <- rows :: !IsChecked(P, ring, r) then Err(BadSignature)
                  else if AcceptedIds(log, Outcomes(store, map[], log), tenant) == ids then Ok(|rows|)
                  else Err(HeadMismatch)
  {
    var log := first + more;
    ReplayKeeps(P, store, first, tenant);
    ReplayKeeps(P, store, log, tenant);
    ReplayGrows(P, store, first, more, tenant);
    KeptTornVerdict(P, ring, Part(Replay(store, map[], first), tenant), Part(Replay(store, map[], log), tenant),
                    AcceptedIds(first, Outcomes(store, map[], first), tenant),
                    AcceptedIds(log, Outcomes(store, map[], log), tenant));
  }

  // ----- idempotence -----

  lemma FindEventExtends(rows: seq<EventRow>, more: seq<EventRow>, eventId: string)
    requires rows <= more && FindEvent(rows, eventId).Some?
    ensures FindEvent(more, eventId) == FindEvent(rows, eventId)
  {
    if rows[0].eventId != eventId {
      FindEventExtends(rows[1..], more[1..], eventId);
    }
  }

  lemma {:induction false} FindEventAtEnd(rows: seq<EventRow>, row: EventRow)
    requires FindEvent(rows, row.eventId).None?
    ensures FindEvent(rows + [row], row.eventId) == Some(row)
  {
    if rows != [] {
      FindEventAtEnd(rows[1..], row);
      assert (rows + [row])[1..] == rows[1..] + [row];
    }
  }

  ghost predicate IsOnFile(p: Partition, entry: Entry) {
    var found := FindEvent(p.rows, entry.event.eventId);
    p.head.Some? && found.Some? && found.value.link.payload == entry.payload
  }

  lemma StoredIsOnFile(P: Primitives, ring: Keyring, p: Partition, entry: Entry, q: Partition, r: Outcome)
    requires IsStored(P, ring, p, entry, q, r) && r.Ok?
    ensures IsOnFile(q, entry)
  {
    if FindEvent(p.rows, entry.event.eventId).None? {
      assert q.rows == p.rows + [q.rows[|p.rows|]];
      FindEventAtEnd(p.rows, q.rows[|p.rows|]);
    }
  }

  lemma StoredKeepsOnFile(P: Primitives, ring: Keyring, p: Partition, entry: Entry, q: Partition, r: Outcome,
                          other: Entry)
    requires IsStored(P, ring, p, entry, q, r) && IsOnFile(p, other)
    ensures IsOnFile(q, other)
  {
    FindEventExtends(p.rows, q.rows, other.event.eventId);
  }

  /** One more request leaves what is on file, and puts an accepted entry there. */
  lemma StepRemembers(P: Primitives, store: Storing, d: Tables, q: Request, entry: Entry)
    requires IsFaithful(P, store) && WellFormed(P, Part(d, Tenant(q)))
    ensures OutcomeOf(store, d, q).Ok? ==> IsOnFile(Part(After(store, d, q), Tenant(q)), q.entry)
    ensures IsOnFile(Part(d, Tenant(q)), entry) ==> IsOnFile(Part(After(store, d, q), Tenant(q)), entry)
  {
    var p, p', r := Part(d, Tenant(q)), Part(After(store, d, q), Tenant(q)), OutcomeOf(store, d, q);
    StepIsStored(P, store, d, q);
    if r.Ok? {
      StoredIsOnFile(P, q.ring, p, q.entry, p', r);
    }
    if IsOnFile(p, entry) {
      StoredKeepsOnFile(P, q.ring, p, q.entry, p', r, entry);
    }
  }

  /** An accepted event stays on file with its own payload through all that follows. */
  lemma {:induction false} HistoryRemembers(P: Primitives, store: Storing, log: seq<Request>, i: nat)
    requires IsFaithful(P, store) && i < |log| && Outcomes(store, map[], log)[i].Ok?
    ensures IsOnFile(Part(Replay(store, map[], log), Tenant(log[i])), log[i].entry)
    decreases |log|
  {
    var n := |log| - 1;
    var q, past := log[n], log[..n];
    assert q in log && log == past + [q];
    ReplayKeeps(P, store, past, Tenant(q));
    ReplayOneMore(store, map[], past, q);
    StepRemembers(P, store, Replay(store, map[], past), q, log[i].entry);
    if i < n {
      HistoryRemembers(P, store, past, i);
    }
  }

  /** What `append_in_transaction` does to a screened event is what a history does to its request. */
  lemma AppendToStores(P: Primitives, db: Tables, q: Request)
    requires Screen(P, q.entry.event) == Ok(q.entry)
    ensures AppendTo(P, q.ring, db, q.entry.event) == (After(Stores(P), db, q), OutcomeOf(Stores(P), db, q))
    ensures q.entry.payload == Payload(q.entry.event)
  {
  }

  lemma StoreAgain(P: Primitives, ring: Keyring, p: Partition, entry: Entry, again: Entry)
    requires IsOnFile(p, entry) && again.event.eventId == entry.event.eventId
    ensures Store(P, ring, p, again)
         == (p, if again.payload == entry.payload then Ok(again.event.eventId) else Err(EventIdReused))
  {
  }

  /** An accepted event id sent again changes nothing, and is acknowledged exactly for the same payload. */
  lemma {:induction false} ResendingIsHarmless(P: Primitives, log: seq<Request>, i: nat, again: Request)
    requires i < |log|
    requires Tenant(again) == Tenant(log[i]) && again.entry.event.eventId == log[i].entry.event.eventId
    ensures Outcomes(Stores(P), map[], log)[i].Ok? ==>
              var d := Replay(Stores(P), map[], log);
              After(Stores(P), d, again) == d
              && OutcomeOf(Stores(P), d, again)
                 == if again.entry.payload == log[i].entry.payload then Ok(again.entry.event.eventId) else Err(EventIdReused)
  {
    if Outcomes(Stores(P), map[], log)[i].Ok? {
      assert IsOnFile(Part(Replay(Stores(P), map[], log), Tenant(again)), log[i].entry) by {
        StoresIsFaithful(P);
        HistoryRemembers(P, Stores(P), log, i);
      }
      AfterAgain(P, Replay(Stores(P), map[], log), log[i].entry, again);
    }
  }

  lemma AfterAgain(P: Primitives, d: Tables, entry: Entry, again: Request)
    requires IsOnFile(Part(d, Tenant(again)), entry) && again.entry.event.eventId == entry.event.eventId
    ensures After(Stores(P), d, again) == d
    ensures OutcomeOf(Stores(P), d, again)
         == if again.entry.payload == entry.payload then Ok(again.entry.event.eventId) else Err(EventIdReused)
  {
    StoreAgain(P, again.ring, Part(d, Tenant(again)), entry, again.entry);
    assert d[Tenant(again) := Part(d, Tenant(again))] == d;
  }

  /**
   After any number of intervening appends, sending an accepted event id again changes nothing:
   it is acknowledged when the event is the same one, and refused exactly when it is not.
   */
  lemma {:induction false} AppendIsIdempotent(P: Primitives, log: seq<Request>, i: nat, again: Request)
    requires i < |log|
    requires Tenant(again) == Tenant(log[i]) && again.entry.event.eventId == log[i].entry.event.eventId
    ensures Outcomes(Stores(P), map[], log)[i].Ok? && HasOwnPayload(log[i]) && HasOwnPayload(again) ==>
              var d := Replay(Stores(P), map[], log);
              After(Stores(P), d, again) == d
              && OutcomeOf(Stores(P), d, again)
                 == if again.entry.event == log[i].entry.event then Ok(again.entry.event.eventId) else Err(EventIdReused)
  {
    PayloadInjective(again.entry.event, log[i].entry.event);
    ResendingIsHarmless(P, log, i, again);
  }

  /** As screening leaves every entry. */
  predicate HasOwnPayload(q: Request) {
    q.entry.payload == Payload(q.entry.event)
  }
}
