/**
 Several writers, each in its own database transaction, appending for any tenants at once.

 A transaction takes the steps of `append_in_transaction` one at a time and may append several
 events before it ends. It sees the committed tables overlaid with its own pending partitions.
 It holds a tenant's head row, by having inserted it or by `SELECT ... FOR UPDATE`, from then
 until it commits or rolls back; a second transaction that needs the row waits. A statement
 reads what was committed when it ran, as at the READ COMMITTED level. Between two appends a
 transaction may also verify a tenant's chain, which takes one query for the rows and another
 for the head.
 */
module AuditInterleaving {

  import opened Common
  import opened AuditChain
  import opened AuditLog
  import opened AuditHistory

  /** Where a transaction stands inside `append_in_transaction`. */
  datatype Stage =
    | Idle
    | Ensuring(request: Request)
    | Locking(request: Request)
    | Looking(request: Request, head: Head)
    | Inserting(request: Request, head: Head)
    | Advancing(request: Request, row: EventRow)

  /** The head rows a transaction holds, what it has written, and what it has finished. */
  datatype Writer = Writer(stage: Stage, locks: set<string>, pending: Tables, log: seq<Request>, outcomes: seq<Outcome>)

  const NEW_WRITER := Writer(Idle, {}, map[], [], [])

  /** A verification that has its rows and not yet its head; `since` many requests were committed then. */
  datatype Reading = Reading(ring: Keyring, tenant: string, rows: seq<EventRow>, since: nat)

  /** A finished one, with the requests committed by then; `own` when its transaction holds the head row. */
  datatype Verdict = Verdict(reading: Reading, until: nat, own: bool, result: Result<nat, VerifyError>)

  /** `history` and `outcomes` record the committed requests in commit order. */
  datatype State = State(db: Tables, writers: map<nat, Writer>, readers: map<nat, Reading>,
                         history: seq<Request>, outcomes: seq<Outcome>, verdicts: seq<Verdict>)

  const START := State(map[], map[], map[], [], [], [])

  datatype Action =
    | Begin(request: Request)
    | Ensure
    | Lock
    | Look
    | Insert
    | Advance
    | ReadRows(ring: Keyring, tenant: string)
    | ReadHead
    | Commit
    | Rollback

  function WriterOf(s: State, w: nat): Writer {
    if w in s.writers then s.writers[w] else NEW_WRITER
  }

  predicate IsHeldElsewhere(s: State, w: nat, tenant: string) {
    exists v <- s.writers :: v != w && tenant in s.writers[v].locks
  }

  function Finished(x: Writer, outcome: Outcome): Writer
    requires !x.stage.Idle?
  {
    x.(stage := Idle, log := x.log + [x.stage.request], outcomes := x.outcomes + [outcome])
  }

  /** What a statement of the transaction reads: its own writes over what is committed by now. */
  function Visible(db: Tables, x: Writer, tenant: string): Partition {
    if tenant in x.pending then x.pending[tenant] else Part(db, tenant)
  }

  /** `INSERT ... ON CONFLICT DO NOTHING`: waits for a transaction that has inserted the same head. */
  function EnsureStep(db: Tables, x: Writer, held: bool): Option<Writer>
    requires x.stage.Ensuring?
  {
    var t := Tenant(x.stage.request);
    if Visible(db, x, t).head.Some? then Some(x.(stage := Locking(x.stage.request)))
    else if held then None
    else Some(x.(stage := Locking(x.stage.request), locks := x.locks + {t},
                 pending := x.pending[t := EnsureHead(Visible(db, x, t))]))
  }

  /** `SELECT ... FOR UPDATE` on the head row; the source insists on exactly one. */
  function LockStep(db: Tables, x: Writer, held: bool): Option<Writer>
    requires x.stage.Locking?
  {
    var t := Tenant(x.stage.request);
    var head := Visible(db, x, t).head;
    if held || head.None? then None
    else Some(x.(stage := Looking(x.stage.request, head.value), locks := x.locks + {t}))
  }

  /** `SELECT ... WHERE event_id = ?`, and the decision on what it finds. */
  function LookStep(db: Tables, x: Writer): Writer
    requires x.stage.Looking?
  {
    var q := x.stage.request;
    match FindEvent(Visible(db, x, Tenant(q)).rows, q.entry.event.eventId)
    case None => x.(stage := Inserting(q, x.stage.head))
    case Some(existing) =>
      Finished(x, if existing.link.payload != q.entry.payload then Err(EventIdReused) else Ok(q.entry.event.eventId))
  }

  /** The `INSERT` of the event row. */
  function InsertStep(P: Primitives, db: Tables, x: Writer): Writer
    requires x.stage.Inserting?
  {
    var q := x.stage.request;
    var seen := Visible(db, x, Tenant(q));
    var row := NextRow(P, q.ring, x.stage.head, q.entry);
    if !Admits(seen, row) || !AdmitsHead(HeadAfter(row)) then Finished(x, Err(ConstraintFailed))
    else x.(stage := Advancing(q, row),
            pending := x.pending[Tenant(q) := seen.(rows := InsertRow(seen.rows, row))])
  }

  /** The `UPDATE` of the head row. */
  function AdvanceStep(db: Tables, x: Writer): Writer
    requires x.stage.Advancing?
  {
    var q := x.stage.request;
    var seen := Visible(db, x, Tenant(q));
    Finished(x.(pending := x.pending[Tenant(q) := seen.(head := Some(HeadAfter(x.stage.row)))]), Ok(q.entry.event.eventId))
  }

  /** One statement of a transaction; `None` when it is not the statement's turn or it must wait. */
  function WriterStep(P: Primitives, db: Tables, x: Writer, held: bool, a: Action): Option<Writer> {
    match (x.stage, a)
    case (Idle, Begin(q)) => Some(x.(stage := Ensuring(q)))
    case (Ensuring(_), Ensure) => EnsureStep(db, x, held)
    case (Locking(_), Lock) => LockStep(db, x, held)
    case (Looking(_, _), Look) => Some(LookStep(db, x))
    case (Inserting(_, _), Insert) => Some(InsertStep(P, db, x))
    case (Advancing(_, _), Advance) => Some(AdvanceStep(db, x))
    case _ => None
  }

  /** Whether another transaction holds the head row that `w` works on. */
  predicate MustWait(s: State, w: nat) {
    !WriterOf(s, w).stage.Idle? && IsHeldElsewhere(s, w, Tenant(WriterOf(s, w).stage.request))
  }

  function StepWriter(P: Primitives, s: State, w: nat, a: Action): Option<Writer> {
    WriterStep(P, s.db, WriterOf(s, w), MustWait(s, w), a)
  }

  /** `SELECT ... WHERE tenant_id = ? ORDER BY sequence`. */
  function ReadRowsStep(s: State, w: nat, ring: Keyring, tenant: string): State {
    s.(readers := s.readers[w := Reading(ring, tenant, Visible(s.db, WriterOf(s, w), tenant).rows, |s.history|)])
  }

  /** The query for the head, and the verdict on it and the rows read before. */
  function ReadHeadStep(P: Primitives, s: State, w: nat): State
    requires w in s.readers
  {
    s.(readers := s.readers - {w}, verdicts := s.verdicts + [NewVerdict(P, s, w)])
  }

  function NewVerdict(P: Primitives, s: State, w: nat): Verdict
    requires w in s.readers
  {
    var rd, x := s.readers[w], WriterOf(s, w);
    Verdict(rd, |s.history|, rd.tenant in x.locks, Verify(P, rd.ring, Partition(Visible(s.db, x, rd.tenant).head, rd.rows)))
  }

  function CommitStep(s: State, w: nat): State {
    var x := WriterOf(s, w);
    s.(db := s.db + x.pending, writers := s.writers[w := NEW_WRITER], history := s.history + x.log, outcomes := s.outcomes + x.outcomes)
  }

  /** Committing publishes the pending partitions; rolling back, or a lost connection, forgets them. */
  function Step(P: Primitives, s: State, w: nat, a: Action): Option<State> {
    match a
    case Commit => if WriterOf(s, w).stage != Idle || w in s.readers then None else Some(CommitStep(s, w))
    case Rollback => Some(s.(writers := s.writers[w := NEW_WRITER], readers := s.readers - {w}))
    case ReadRows(ring, tenant) =>
      if WriterOf(s, w).stage != Idle || w in s.readers then None else Some(ReadRowsStep(s, w, ring, tenant))
    case ReadHead => if w in s.readers then Some(ReadHeadStep(P, s, w)) else None
    case _ =>
      if w in s.readers then None
      else
        match StepWriter(P, s, w, a)
        case None => None
        case Some(y) => Some(s.(writers := s.writers[w := y]))
  }

  type Run = seq<(nat, Action)>

  /** The state after a run from empty tables; `None` when some step of it could not be taken. */
  function Execute(P: Primitives, run: Run): Option<State> {
    if run == [] then Some(START)
    else
      match Execute(P, run[..|run| - 1])
      case None => None
      case Some(s) => Step(P, s, run[|run| - 1].0, run[|run| - 1].1)
  }

  /** Every request of the run is signed with issued key material. */
  ghost predicate IsIssuedRun(registry: Registry, run: Run) {
    forall i | 0 <= i < |run| && run[i].1.Begin? :: IsIssued(run[i].1.request.ring, registry)
  }

  // ----- the invariant -----

  /** What the current request of a transaction sees, given what its earlier ones leave serially. */
  ghost predicate IsOnCourse(P: Primitives, db: Tables, serial: Partition, x: Writer)
    requires !x.stage.Idle?
  {
    var q := x.stage.request;
    var t := Tenant(q);
    var seen, base := Visible(db, x, t), EnsureHead(serial);
    match x.stage
    case Ensuring(_) => t in x.locks ==> seen == serial && seen.head.Some?
    case Locking(_) => seen.head.Some? && (t in x.locks ==> seen == base)
    case Looking(_, head) => t in x.locks && seen == base && base.head == Some(head)
    case Inserting(_, head) =>
      t in x.locks && seen == base && base.head == Some(head) && FindEvent(base.rows, q.entry.event.eventId).None?
    case Advancing(_, row) =>
      t in x.locks && FindEvent(base.rows, q.entry.event.eventId).None?
      && row == NextRow(P, q.ring, base.head.value, q.entry)
      && Admits(base, row) && AdmitsHead(HeadAfter(row))
      && seen == base.(rows := InsertRow(base.rows, row))
  }

  ghost predicate IsCurrent(x: Writer, tenant: string) {
    !x.stage.Idle? && Tenant(x.stage.request) == tenant
  }

  /** Every partition a transaction holds, but the one it works on, looks as its finished requests leave it. */
  ghost predicate IsSettled(db: Tables, x: Writer, serial: Tables) {
    forall t <- x.locks | !IsCurrent(x, t) :: t in serial && Visible(db, x, t) == serial[t] && serial[t].head.Some?
  }

  /** It holds what it has written and what it has finished with. */
  ghost predicate IsCovered(x: Writer) {
    (forall q <- x.log :: Tenant(q) in x.locks)
    && (forall t <- x.pending :: t in x.locks && x.pending[t].head.Some?)
  }

  /** A transaction's private view is what its finished requests would do serially, right now. */
  ghost predicate IsSerial(P: Primitives, store: Storing, db: Tables, x: Writer) {
    var serial := Replay(store, db, x.log);
    x.outcomes == Outcomes(store, db, x.log) && IsCovered(x) && IsSettled(db, x, serial)
    && (x.stage.Idle? || IsOnCourse(P, db, Part(serial, Tenant(x.stage.request)), x))
  }

  ghost predicate IsExclusive(s: State) {
    forall v, w | v in s.writers && w in s.writers && v != w :: s.writers[v].locks !! s.writers[w].locks
  }

  ghost predicate AreSerial(P: Primitives, store: Storing, db: Tables, writers: map<nat, Writer>) {
    forall w <- writers :: IsSerial(P, store, db, writers[w])
  }

  ghost predicate Invariant(P: Primitives, store: Storing, s: State) {
    s.db == Replay(store, map[], s.history)
    && s.outcomes == Outcomes(store, map[], s.history)
    && IsExclusive(s)
    && AreSerial(P, store, s.db, s.writers)
  }

  // ----- steps of one transaction -----

  /** The finished request's partition joins the settled ones. */
  lemma FinishIsSettled(db: Tables, x: Writer, outcome: Outcome, serial: Tables, p: Partition)
    requires !x.stage.Idle? && IsSettled(db, x, serial) && Visible(db, x, Tenant(x.stage.request)) == p && p.head.Some?
    ensures IsSettled(db, Finished(x, outcome), serial[Tenant(x.stage.request) := p])
  {
    var y, next := Finished(x, outcome), serial[Tenant(x.stage.request) := p];
    forall t <- y.locks ensures t in next && Visible(db, y, t) == next[t] && next[t].head.Some? {
      assert Visible(db, y, t) == Visible(db, x, t);
      assert t != Tenant(x.stage.request) ==> !IsCurrent(x, t);
    }
  }

  lemma FinishIsCovered(x: Writer, outcome: Outcome)
    requires !x.stage.Idle? && Tenant(x.stage.request) in x.locks && IsCovered(x)
    ensures IsCovered(Finished(x, outcome))
  {
  }

  /** Finishing a request at the point where storing it would stop. */
  lemma FinishIsSerial(P: Primitives, store: Storing, db: Tables, x: Writer, outcome: Outcome)
    requires !x.stage.Idle? && Tenant(x.stage.request) in x.locks
    requires x.outcomes == Outcomes(store, db, x.log) && IsCovered(x) && IsSettled(db, x, Replay(store, db, x.log))
    requires var q := x.stage.request;
             var seen := Visible(db, x, Tenant(q));
             seen.head.Some? && store(q.ring, Part(Replay(store, db, x.log), Tenant(q)), q.entry) == (seen, outcome)
    ensures IsSerial(P, store, db, Finished(x, outcome))
  {
    ReplayOneMore(store, db, x.log, x.stage.request);
    FinishIsCovered(x, outcome);
    FinishIsSettled(db, x, outcome, Replay(store, db, x.log), Visible(db, x, Tenant(x.stage.request)));
  }

  lemma WriteIsSettled(db: Tables, x: Writer, serial: Tables, stage: Stage, p: Partition)
    requires IsSettled(db, x, serial) && !x.stage.Idle? && !stage.Idle? && stage.request == x.stage.request
    ensures var t := Tenant(x.stage.request);
            IsSettled(db, x.(stage := stage, locks := x.locks + {t}, pending := x.pending[t := p]), serial)
  {
    var t := Tenant(x.stage.request);
    var y := x.(stage := stage, locks := x.locks + {t}, pending := x.pending[t := p]);
    forall u <- y.locks | !IsCurrent(y, u) ensures u in serial && Visible(db, y, u) == serial[u] && serial[u].head.Some? {
      assert !IsCurrent(x, u) && Visible(db, y, u) == Visible(db, x, u);
    }
  }

  lemma WriteIsCovered(x: Writer, stage: Stage, t: string, p: Partition)
    requires IsCovered(x) && p.head.Some?
    ensures IsCovered(x.(stage := stage, locks := x.locks + {t}, pending := x.pending[t := p]))
  {
  }

  /** Writing the partition that the current request works on. */
  lemma WriteIsSerial(P: Primitives, store: Storing, db: Tables, x: Writer, stage: Stage, p: Partition)
    requires IsSerial(P, store, db, x) && !x.stage.Idle? && !stage.Idle? && stage.request == x.stage.request
    requires p.head.Some?
    requires var t := Tenant(x.stage.request);
             IsOnCourse(P, db, Part(Replay(store, db, x.log), t),
                        x.(stage := stage, locks := x.locks + {t}, pending := x.pending[t := p]))
    ensures var t := Tenant(x.stage.request);
            IsSerial(P, store, db, x.(stage := stage, locks := x.locks + {t}, pending := x.pending[t := p]))
  {
    WriteIsSettled(db, x, Replay(store, db, x.log), stage, p);
    WriteIsCovered(x, stage, Tenant(x.stage.request), p);
  }

  /** A tenant whose head row is not held has only been read, so its serial partition is the committed one. */
  lemma NotHeld(P: Primitives, store: Storing, db: Tables, x: Writer, tenant: string)
    requires IsCovered(x) && tenant !in x.locks
    ensures Visible(db, x, tenant) == Part(db, tenant) == Part(Replay(store, db, x.log), tenant)
  {
    ReplayElsewhere(store, db, x.log, tenant);
  }

  lemma EnsureIsSerial(P: Primitives, store: Storing, db: Tables, x: Writer, held: bool)
    requires IsSerial(P, store, db, x) && x.stage.Ensuring? && EnsureStep(db, x, held).Some?
    ensures IsSerial(P, store, db, EnsureStep(db, x, held).value)
  {
    var t := Tenant(x.stage.request);
    if t !in x.locks {
      NotHeld(P, store, db, x, t);
    }
    if Visible(db, x, t).head.None? {
      WriteIsSerial(P, store, db, x, Locking(x.stage.request), EnsureHead(Visible(db, x, t)));
    }
  }

  /** Holding the row that the current request works on settles nothing more. */
  lemma LockIsSettled(db: Tables, x: Writer, serial: Tables, stage: Stage)
    requires IsSettled(db, x, serial) && !x.stage.Idle? && !stage.Idle? && stage.request == x.stage.request
    ensures IsSettled(db, x.(stage := stage, locks := x.locks + {Tenant(x.stage.request)}), serial)
  {
    var y := x.(stage := stage, locks := x.locks + {Tenant(x.stage.request)});
    forall u <- y.locks | !IsCurrent(y, u) ensures u in serial && Visible(db, y, u) == serial[u] && serial[u].head.Some? {
      assert !IsCurrent(x, u) && Visible(db, y, u) == Visible(db, x, u);
    }
  }

  lemma LockIsSerial(P: Primitives, store: Storing, db: Tables, x: Writer, held: bool)
    requires IsSerial(P, store, db, x) && x.stage.Locking? && LockStep(db, x, held).Some?
    ensures IsSerial(P, store, db, LockStep(db, x, held).value)
  {
    var t := Tenant(x.stage.request);
    if t !in x.locks {
      NotHeld(P, store, db, x, t);
    }
    LockIsSettled(db, x, Replay(store, db, x.log), LockStep(db, x, held).value.stage);
  }

  ghost predicate StoresAsLog(P: Primitives, store: Storing, q: Request, p: Partition) {
    store(q.ring, p, q.entry) == Store(P, q.ring, p, q.entry)
  }

  /** Moving on within the same request without writing. */
  lemma MoveIsSerial(P: Primitives, store: Storing, db: Tables, x: Writer, stage: Stage)
    requires IsSerial(P, store, db, x) && !x.stage.Idle? && !stage.Idle? && stage.request == x.stage.request
    requires IsOnCourse(P, db, Part(Replay(store, db, x.log), Tenant(stage.request)), x.(stage := stage))
    ensures IsSerial(P, store, db, x.(stage := stage))
  {
  }

  /** Storing an event whose id is already there changes no row and decides by the payload. */
  lemma StoreFinds(P: Primitives, q: Request, p: Partition)
    requires FindEvent(EnsureHead(p).rows, q.entry.event.eventId).Some?
    ensures var existing := FindEvent(EnsureHead(p).rows, q.entry.event.eventId).value;
            Store(P, q.ring, p, q.entry)
              == (EnsureHead(p), if existing.link.payload != q.entry.payload then Err(EventIdReused) else Ok(q.entry.event.eventId))
  {
  }

  /** The `SELECT` by event id sees the rows that a serial execution would see. */
  lemma LookSees(P: Primitives, store: Storing, db: Tables, x: Writer)
    requires IsSerial(P, store, db, x) && x.stage.Looking?
    ensures var t := Tenant(x.stage.request);
            var base := EnsureHead(Part(Replay(store, db, x.log), t));
            t in x.locks && Visible(db, x, t) == base && base.head == Some(x.stage.head)
  {
  }

  lemma LookIsSerial(P: Primitives, store: Storing, db: Tables, x: Writer)
    requires IsSerial(P, store, db, x) && x.stage.Looking?
    requires StoresAsLog(P, store, x.stage.request, Part(Replay(store, db, x.log), Tenant(x.stage.request)))
    ensures IsSerial(P, store, db, LookStep(db, x))
  {
    var q := x.stage.request;
    LookSees(P, store, db, x);
    var found := FindEvent(Visible(db, x, Tenant(q)).rows, q.entry.event.eventId);
    if found.Some? {
      StoreFinds(P, q, Part(Replay(store, db, x.log), Tenant(q)));
      FinishIsSerial(P, store, db, x, if found.value.link.payload != q.entry.payload then Err(EventIdReused)
                                      else Ok(q.entry.event.eventId));
    } else {
      MoveIsSerial(P, store, db, x, Inserting(q, x.stage.head));
    }
  }

  lemma InsertIsSerial(P: Primitives, store: Storing, db: Tables, x: Writer)
    requires IsSerial(P, store, db, x) && x.stage.Inserting?
    requires StoresAsLog(P, store, x.stage.request, Part(Replay(store, db, x.log), Tenant(x.stage.request)))
    ensures IsSerial(P, store, db, InsertStep(P, db, x))
  {
    var q := x.stage.request;
    var seen := Visible(db, x, Tenant(q));
    var row := NextRow(P, q.ring, x.stage.head, q.entry);
    if !Admits(seen, row) || !AdmitsHead(HeadAfter(row)) {
      FinishIsSerial(P, store, db, x, Err(ConstraintFailed));
    } else {
      assert x.locks + {Tenant(q)} == x.locks;
      WriteIsSerial(P, store, db, x, Advancing(q, row), seen.(rows := InsertRow(seen.rows, row)));
    }
  }

  lemma AdvanceIsSerial(P: Primitives, store: Storing, db: Tables, x: Writer)
    requires IsSerial(P, store, db, x) && x.stage.Advancing?
    requires StoresAsLog(P, store, x.stage.request, Part(Replay(store, db, x.log), Tenant(x.stage.request)))
    ensures IsSerial(P, store, db, AdvanceStep(db, x))
  {
    var q := x.stage.request;
    var seen := Visible(db, x, Tenant(q));
    FinishIsSerial(P, store, db, x.(pending := x.pending[Tenant(q) := seen.(head := Some(HeadAfter(x.stage.row)))]),
                   Ok(q.entry.event.eventId));
  }

  lemma StoresStoresAsLog(P: Primitives, q: Request, p: Partition)
    ensures StoresAsLog(P, Stores(P), q, p)
  {
  }

  /** Which statement it was. */
  lemma StepByStage(P: Primitives, db: Tables, x: Writer, held: bool, a: Action, y: Writer)
    requires WriterStep(P, db, x, held, a) == Some(y)
    ensures match x.stage
            case Idle => a.Begin? && y == x.(stage := Ensuring(a.request))
            case Ensuring(_) => EnsureStep(db, x, held) == Some(y)
            case Locking(_) => LockStep(db, x, held) == Some(y)
            case Looking(_, _) => LookStep(db, x) == y
            case Inserting(_, _) => InsertStep(P, db, x) == y
            case Advancing(_, _) => AdvanceStep(db, x) == y
  {
  }

  lemma BeginIsSerial(P: Primitives, store: Storing, db: Tables, x: Writer, q: Request)
    requires IsSerial(P, store, db, x) && x.stage.Idle?
    ensures IsSerial(P, store, db, x.(stage := Ensuring(q)))
  {
  }

  /** A step of a transaction keeps its own view serial. */
  lemma WriterStepIsSerial(P: Primitives, store: Storing, db: Tables, x: Writer, held: bool, a: Action, y: Writer)
    requires IsSerial(P, store, db, x) && WriterStep(P, db, x, held, a) == Some(y)
    requires x.stage.Idle? || StoresAsLog(P, store, x.stage.request, Part(Replay(store, db, x.log), Tenant(x.stage.request)))
    ensures IsSerial(P, store, db, y)
  {
    StepByStage(P, db, x, held, a, y);
    match x.stage
    case Idle => BeginIsSerial(P, store, db, x, a.request);
    case Ensuring(_) => EnsureIsSerial(P, store, db, x, held);
    case Locking(_) => LockIsSerial(P, store, db, x, held);
    case Looking(_, _) => LookIsSerial(P, store, db, x);
    case Inserting(_, _) => InsertIsSerial(P, store, db, x);
    case Advancing(_, _) => AdvanceIsSerial(P, store, db, x);
  }

  lemma StepWriterIsSerial(P: Primitives, db: Tables, x: Writer, held: bool, a: Action)
    requires IsSerial(P, Stores(P), db, x) && WriterStep(P, db, x, held, a).Some?
    ensures IsSerial(P, Stores(P), db, WriterStep(P, db, x, held, a).value)
  {
    if !x.stage.Idle? {
      StoresStoresAsLog(P, x.stage.request, Part(Replay(Stores(P), db, x.log), Tenant(x.stage.request)));
    }
    WriterStepIsSerial(P, Stores(P), db, x, held, a, WriterStep(P, db, x, held, a).value);
  }

  /** It takes no head row that another transaction holds. */
  lemma StepWriterTakes(P: Primitives, s: State, w: nat, a: Action)
    requires StepWriter(P, s, w, a).Some? && HoldsWhatItWorksOn(WriterOf(s, w))
    ensures forall t <- StepWriter(P, s, w, a).value.locks :: t in WriterOf(s, w).locks || !IsHeldElsewhere(s, w, t)
  {
  }

  // ----- steps of the system -----

  /** Publishing other tenants' partitions changes nothing that a transaction holds, and takes no head away. */
  lemma SeenElsewhere(db: Tables, published: Tables, x: Writer, tenant: string)
    requires published.Keys !! x.locks && forall t <- published :: published[t].head.Some?
    ensures tenant in x.locks ==> Visible(db + published, x, tenant) == Visible(db, x, tenant)
    ensures Visible(db, x, tenant).head.Some? ==> Visible(db + published, x, tenant).head.Some?
  {
  }

  /** Only a transaction that has yet to lock depends on the committed tables, and only on the head being there. */
  lemma OnCourseElsewhere(P: Primitives, db: Tables, db': Tables, serial: Partition, serial': Partition, x: Writer)
    requires !x.stage.Idle? && IsOnCourse(P, db, serial, x)
    requires var t := Tenant(x.stage.request);
             (t in x.locks ==> serial == serial' && Visible(db, x, t) == Visible(db', x, t))
             && (Visible(db, x, t).head.Some? ==> Visible(db', x, t).head.Some?)
    ensures IsOnCourse(P, db', serial', x)
  {
  }

  /** A commit of other tenants' partitions leaves a transaction's view as it was. */
  lemma CommitElsewhere(P: Primitives, store: Storing, db: Tables, published: Tables, x: Writer)
    requires IsSerial(P, store, db, x) && published.Keys !! x.locks
    requires forall t <- published :: published[t].head.Some?
    ensures IsSerial(P, store, db + published, x)
  {
    ReplayLocal(store, db, db + published, x.log, x.locks);
    var serial, serial' := Replay(store, db, x.log), Replay(store, db + published, x.log);
    assert IsSettled(db + published, x, serial') by {
      forall t <- x.locks | !IsCurrent(x, t)
        ensures t in serial' && Visible(db + published, x, t) == serial'[t] && serial'[t].head.Some?
      {
        assert Part(serial, t) == Part(serial', t);
        SeenElsewhere(db, published, x, t);
      }
    }
    if !x.stage.Idle? {
      var t := Tenant(x.stage.request);
      SeenElsewhere(db, published, x, t);
      OnCourseElsewhere(P, db, db + published, Part(serial, t), Part(serial', t), x);
    }
  }

  /** Committing is the same as running the transaction's requests serially at that moment. */
  lemma CommitIsReplay(P: Primitives, store: Storing, db: Tables, x: Writer)
    requires IsSerial(P, store, db, x) && x.stage.Idle?
    ensures db + x.pending == Replay(store, db, x.log)
  {
    var serial := Replay(store, db, x.log);
    forall t: string
      ensures t in db + x.pending <==> t in serial
      ensures t in serial ==> (db + x.pending)[t] == serial[t]
    {
      if t !in x.locks {
        NotHeld(P, store, db, x, t);
        ReplayElsewhere(store, db, x.log, t);
      } else {
        assert t in serial && Visible(db, x, t) == serial[t];
      }
    }
  }

  /** A transaction that has done nothing yet is serial whatever is committed. */
  lemma NewWriterIsSerial(P: Primitives, store: Storing, db: Tables)
    ensures IsSerial(P, store, db, NEW_WRITER)
  {
  }

  lemma CommitKeepsWriters(P: Primitives, store: Storing, s: State, w: nat)
    requires IsExclusive(s) && AreSerial(P, store, s.db, s.writers)
    ensures AreSerial(P, store, s.db + WriterOf(s, w).pending, s.writers[w := NEW_WRITER])
  {
    var x := WriterOf(s, w);
    NewWriterIsSerial(P, store, s.db + x.pending);
    forall v <- s.writers | v != w ensures IsSerial(P, store, s.db + x.pending, s.writers[v]) {
      assert s.writers[v].locks !! x.locks && x.pending.Keys <= x.locks;
      CommitElsewhere(P, store, s.db, x.pending, s.writers[v]);
    }
  }

  lemma CommitKeeps(P: Primitives, store: Storing, s: State, w: nat)
    requires Invariant(P, store, s) && WriterOf(s, w).stage.Idle?
    ensures Invariant(P, store, CommitStep(s, w))
  {
    var x := WriterOf(s, w);
    NewWriterIsSerial(P, store, s.db);
    CommitIsReplay(P, store, s.db, x);
    ReplayConcat(store, map[], s.history, x.log);
    CommitKeepsWriters(P, store, s, w);
    ReplaceExclusive(s, w, NEW_WRITER);
  }

  lemma ReplaceExclusive(s: State, w: nat, y: Writer)
    requires IsExclusive(s)
    requires forall t <- y.locks :: t in WriterOf(s, w).locks || !IsHeldElsewhere(s, w, t)
    ensures IsExclusive(s.(writers := s.writers[w := y]))
  {
    forall v <- s.writers | v != w ensures s.writers[v].locks !! y.locks {
      forall t <- y.locks ensures t !in s.writers[v].locks {
        assert t in WriterOf(s, w).locks ==> w in s.writers;
      }
    }
  }

  lemma ReplaceSerial(P: Primitives, store: Storing, db: Tables, writers: map<nat, Writer>, w: nat, y: Writer)
    requires AreSerial(P, store, db, writers) && IsSerial(P, store, db, y)
    ensures AreSerial(P, store, db, writers[w := y])
  {
    var more := writers[w := y];
    forall v <- more ensures IsSerial(P, store, db, more[v]) {
      assert v != w ==> more[v] == writers[v];
    }
  }

  /** Replacing one transaction by another that takes no row held elsewhere. */
  lemma ReplaceKeeps(P: Primitives, store: Storing, s: State, w: nat, y: Writer)
    requires Invariant(P, store, s) && IsSerial(P, store, s.db, y)
    requires forall t <- y.locks :: t in WriterOf(s, w).locks || !IsHeldElsewhere(s, w, t)
    ensures Invariant(P, store, s.(writers := s.writers[w := y]))
  {
    ReplaceExclusive(s, w, y);
    ReplaceSerial(P, store, s.db, s.writers, w, y);
  }

  ghost predicate HoldsWhatItWorksOn(x: Writer) {
    x.stage.Idle? || x.stage.Ensuring? || x.stage.Locking? || Tenant(x.stage.request) in x.locks
  }

  lemma WriterFacts(P: Primitives, store: Storing, s: State, w: nat)
    requires AreSerial(P, store, s.db, s.writers)
    ensures var x := WriterOf(s, w);
            IsSerial(P, store, s.db, x) && HoldsWhatItWorksOn(x)
  {
    NewWriterIsSerial(P, store, s.db);
  }

  lemma StatementKeeps(P: Primitives, s: State, w: nat, a: Action)
    requires Invariant(P, Stores(P), s) && StepWriter(P, s, w, a).Some?
    ensures Invariant(P, Stores(P), s.(writers := s.writers[w := StepWriter(P, s, w, a).value]))
  {
    WriterFacts(P, Stores(P), s, w);
    StepWriterIsSerial(P, s.db, WriterOf(s, w), MustWait(s, w), a);
    StepWriterTakes(P, s, w, a);
    ReplaceKeeps(P, Stores(P), s, w, StepWriter(P, s, w, a).value);
  }

  lemma RollbackKeeps(P: Primitives, store: Storing, s: State, w: nat)
    requires Invariant(P, store, s)
    ensures Invariant(P, store, s.(writers := s.writers[w := NEW_WRITER]))
  {
    NewWriterIsSerial(P, store, s.db);
    ReplaceKeeps(P, store, s, w, NEW_WRITER);
  }

  /** Reading changes nothing that the invariant is about. */
  lemma ReadingKeeps(P: Primitives, store: Storing, s: State, readers: map<nat, Reading>, verdicts: seq<Verdict>)
    requires Invariant(P, store, s)
    ensures Invariant(P, store, s.(readers := readers, verdicts := verdicts))
  {
  }

  /** Which kind of step it was. */
  lemma StepByKind(P: Primitives, s: State, w: nat, a: Action, next: State)
    requires Step(P, s, w, a) == Some(next)
    ensures match a
            case Commit => WriterOf(s, w).stage.Idle? && next == CommitStep(s, w)
            case Rollback => next == s.(writers := s.writers[w := NEW_WRITER], readers := s.readers - {w})
            case ReadRows(ring, tenant) => next == ReadRowsStep(s, w, ring, tenant)
            case ReadHead => w in s.readers && next == ReadHeadStep(P, s, w)
            case _ => StepWriter(P, s, w, a).Some? && next == s.(writers := s.writers[w := StepWriter(P, s, w, a).value])
  {
  }

  lemma StepKeeps(P: Primitives, s: State, w: nat, a: Action)
    requires Invariant(P, Stores(P), s) && Step(P, s, w, a).Some?
    ensures Invariant(P, Stores(P), Step(P, s, w, a).value)
  {
    var next := Step(P, s, w, a).value;
    StepByKind(P, s, w, a, next);
    match a
    case Commit => CommitKeeps(P, Stores(P), s, w);
    case Rollback =>
      RollbackKeeps(P, Stores(P), s, w);
      ReadingKeeps(P, Stores(P), s.(writers := s.writers[w := NEW_WRITER]), s.readers - {w}, s.verdicts);
    case ReadRows(_, _) => ReadingKeeps(P, Stores(P), s, next.readers, next.verdicts);
    case ReadHead => ReadingKeeps(P, Stores(P), s, next.readers, next.verdicts);
    case _ => StatementKeeps(P, s, w, a);
  }

  /** Every interleaving leaves exactly what its committed requests do one after the other, in commit order. */
  lemma {:induction false} RunIsSerializable(P: Primitives, run: Run)
    requires Execute(P, run).Some?
    ensures Invariant(P, Stores(P), Execute(P, run).value)
    decreases |run|
  {
    if run != [] {
      var n := |run| - 1;
      RunIsSerializable(P, run[..n]);
      StepKeeps(P, Execute(P, run[..n]).value, run[n].0, run[n].1);
    }
  }

  /** No request of a history, or of a transaction on top of it, fails on a database constraint. */
  lemma NeverConstraintFailed(P: Primitives, store: Storing, s: State, w: nat)
    requires IsFaithful(P, store) && Invariant(P, store, s)
    ensures Err(ConstraintFailed) !in s.outcomes && Err(ConstraintFailed) !in WriterOf(s, w).outcomes
  {
    var x := WriterOf(s, w);
    ReplayConcat(store, map[], s.history, x.log);
    ReplayKeeps(P, store, s.history + x.log, "");
    assert x.outcomes == Outcomes(store, s.db, x.log);
  }

  /**
   After every run: no append, committed or still pending, has failed on a database constraint,
   and each tenant's chain verifies under exactly the keyrings that check its signatures, with as
   many rows as there are distinct accepted event ids.
   */
  lemma RunVerifies(P: Primitives, run: Run, tenant: string, ring: Keyring)
    requires Execute(P, run).Some?
    ensures var s := Execute(P, run).value;
            |s.history| == |s.outcomes| && Err(ConstraintFailed) !in s.outcomes
            && (forall w: nat :: Err(ConstraintFailed) !in WriterOf(s, w).outcomes)
            && Verify(P, ring, Part(s.db, tenant))
               == if exists r <- Part(s.db, tenant).rows :: !IsChecked(P, ring, r) then Err(BadSignature)
                  else Ok(|AcceptedIds(s.history, s.outcomes, tenant)|)
  {
    var s := Execute(P, run).value;
    RunIsSerializable(P, run);
    StoresIsFaithful(P);
    forall w: nat ensures Err(ConstraintFailed) !in s.outcomes && Err(ConstraintFailed) !in WriterOf(s, w).outcomes {
      NeverConstraintFailed(P, Stores(P), s, w);
    }
    assert Err(ConstraintFailed) !in s.outcomes by { NeverConstraintFailed(P, Stores(P), s, 0); }
    HistoryVerifies(P, Stores(P), s.history, tenant, ring);
  }

  /**
   After every run, an accepted event id sent again changes nothing: it is acknowledged when the
   event is the same one, and refused exactly when it is not.
   */
  lemma RunIsIdempotent(P: Primitives, run: Run, i: nat, again: Request)
    requires Execute(P, run).Some?
    ensures var s := Execute(P, run).value;
            |s.history| == |s.outcomes|
            && (i < |s.history| && s.outcomes[i].Ok? && HasOwnPayload(s.history[i]) && HasOwnPayload(again)
                && Tenant(again) == Tenant(s.history[i]) && again.entry.event.eventId == s.history[i].entry.event.eventId ==>
                  After(Stores(P), s.db, again) == s.db
                  && OutcomeOf(Stores(P), s.db, again)
                     == if again.entry.event == s.history[i].entry.event then Ok(again.entry.event.eventId) else Err(EventIdReused))
  {
    var s := Execute(P, run).value;
    RunIsSerializable(P, run);
    if i < |s.history| && Tenant(again) == Tenant(s.history[i])
       && again.entry.event.eventId == s.history[i].entry.event.eventId {
      AppendIsIdempotent(P, s.history, i, again);
    }
  }

  /**
   After every run each stored row holds, in every column, what one committed and accepted request
   of its tenant said; where that request was screened, the columns agree with the row's own payload.
   */
  lemma RunRecords(P: Primitives, run: Run, tenant: string)
    requires Execute(P, run).Some?
    ensures var s := Execute(P, run).value;
            |s.history| == |s.outcomes| && AreRecorded(Part(s.db, tenant).rows, s.history, s.outcomes, tenant)
  {
    RunIsSerializable(P, run);
    StoresIsFaithful(P);
    ReplayRecords(P, Stores(P), Execute(P, run).value.history, tenant);
  }

  // ----- progress -----

  /** The statement that a transaction has to run next. */
  function NextAction(stage: Stage): Action
    requires !stage.Idle?
  {
    match stage
    case Ensuring(_) => Ensure
    case Locking(_) => Lock
    case Looking(_, _) => Look
    case Inserting(_, _) => Insert
    case Advancing(_, _) => Advance
  }

  lemma LockFindsHead(P: Primitives, store: Storing, db: Tables, x: Writer)
    requires IsSerial(P, store, db, x) && x.stage.Locking?
    ensures LockStep(db, x, false).Some?
  {
  }

  lemma CanStep(P: Primitives, s: State, w: nat)
    requires var x := WriterOf(s, w); !x.stage.Idle? && (x.stage.Locking? ==> LockStep(s.db, x, false).Some?)
    requires w !in s.readers && !MustWait(s, w)
    ensures Step(P, s, w, NextAction(WriterOf(s, w).stage)).Some?
  {
  }

  /** Whatever is not a commit publishes nothing and leaves the other transactions alone. */
  lemma StepFrame(P: Primitives, s: State, w: nat, a: Action)
    requires Step(P, s, w, a).Some? && !a.Commit?
    ensures var next := Step(P, s, w, a).value;
            next.db == s.db && next.history == s.history && next.outcomes == s.outcomes
            && (!a.ReadHead? ==> next.verdicts == s.verdicts)
            && (w in next.readers ==> a.ReadRows? && next == ReadRowsStep(s, w, a.ring, a.tenant))
            && forall v <- next.readers | v != w :: v in s.readers && next.readers[v] == s.readers[v] && WriterOf(next, v) == WriterOf(s, v)
  {
  }

  /** Verifying and committing wait for the end of an append and of another verification. */
  lemma StepNeedsTurn(P: Primitives, s: State, w: nat, a: Action)
    requires Step(P, s, w, a).Some?
    ensures a.Commit? || a.ReadRows? ==> WriterOf(s, w).stage.Idle? && w !in s.readers
    ensures a.Commit? ==> Step(P, s, w, a).value == CommitStep(s, w)
  {
  }

  /** A transaction that verifies is between two appends. */
  ghost predicate ReadersAreIdle(s: State) {
    forall w <- s.readers :: WriterOf(s, w).stage.Idle?
  }

  lemma StepKeepsIdle(P: Primitives, s: State, w: nat, a: Action)
    requires ReadersAreIdle(s) && Step(P, s, w, a).Some?
    ensures ReadersAreIdle(Step(P, s, w, a).value)
  {
    if a.Commit? {
      StepNeedsTurn(P, s, w, a);
    } else {
      StepNeedsTurn(P, s, w, a);
      StepFrame(P, s, w, a);
    }
  }

  lemma {:induction false} RunKeepsIdle(P: Primitives, run: Run)
    requires Execute(P, run).Some?
    ensures ReadersAreIdle(Execute(P, run).value)
    decreases |run|
  {
    if run != [] {
      var n := |run| - 1;
      RunKeepsIdle(P, run[..n]);
      StepKeepsIdle(P, Execute(P, run[..n]).value, run[n].0, run[n].1);
    }
  }

  /**
   In every reachable state a transaction inside an append can run its next statement unless
   another transaction holds the head row: the head it selects is always there.
   */
  lemma NeverStuck(P: Primitives, run: Run, w: nat)
    requires Execute(P, run).Some?
    requires !WriterOf(Execute(P, run).value, w).stage.Idle?
    ensures var s := Execute(P, run).value;
            MustWait(s, w) || Step(P, s, w, NextAction(WriterOf(s, w).stage)).Some?
  {
    var s := Execute(P, run).value;
    if w in s.readers {
      RunKeepsIdle(P, run);
    }
    if WriterOf(s, w).stage.Locking? {
      RunIsSerializable(P, run);
      LockFindsHead(P, Stores(P), s.db, s.writers[w]);
    }
    if !MustWait(s, w) {
      CanStep(P, s, w);
    }
  }
}
