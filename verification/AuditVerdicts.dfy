/**
 What verification finds when it runs beside appends: the verdict on rows read by one query and
 a head read by a later one, in every run of `AuditInterleaving`.
 */
module AuditVerdicts {

  import opened Common
  import opened AuditChain
  import opened AuditLog
  import opened AuditHistory
  import opened AuditInterleaving

  // ----- issued keys -----

  ghost predicate IsIssuedWriter(registry: Registry, x: Writer) {
    AreIssued(registry, x.log) && (x.stage.Idle? || IsIssued(x.stage.request.ring, registry))
  }

  ghost predicate IsIssuedState(registry: Registry, s: State) {
    AreIssued(registry, s.history) && forall w <- s.writers :: IsIssuedWriter(registry, s.writers[w])
  }

  lemma StepWriterIsIssued(P: Primitives, registry: Registry, db: Tables, x: Writer, held: bool, a: Action)
    requires IsIssuedWriter(registry, x) && WriterStep(P, db, x, held, a).Some?
    requires a.Begin? ==> IsIssued(a.request.ring, registry)
    ensures IsIssuedWriter(registry, WriterStep(P, db, x, held, a).value)
  {
  }

  lemma StepIsIssued(P: Primitives, registry: Registry, s: State, w: nat, a: Action)
    requires IsIssuedState(registry, s) && Step(P, s, w, a).Some?
    requires a.Begin? ==> IsIssued(a.request.ring, registry)
    ensures IsIssuedState(registry, Step(P, s, w, a).value)
  {
    if !a.Commit? && !a.Rollback? && !a.ReadRows? && !a.ReadHead? {
      StepWriterIsIssued(P, registry, s.db, WriterOf(s, w), MustWait(s, w), a);
    }
  }

  lemma {:induction false} RunIsIssued(P: Primitives, registry: Registry, run: Run)
    requires Execute(P, run).Some? && IsIssuedRun(registry, run)
    ensures IsIssuedState(registry, Execute(P, run).value)
    decreases |run|
  {
    if run != [] {
      var n := |run| - 1;
      RunIsIssued(P, registry, run[..n]);
      StepIsIssued(P, registry, Execute(P, run[..n]).value, run[n].0, run[n].1);
    }
  }

  /** When all processes sign with issued material, each chain verifies under any keyring that retains the keys used. */
  lemma RetainedKeysVerify(P: Primitives, registry: Registry, run: Run, tenant: string, ring: Keyring)
    requires Execute(P, run).Some? && IsIssuedRun(registry, run)
    ensures var s := Execute(P, run).value;
            |s.history| == |s.outcomes|
            && (RetainsKeys(ring, registry, Part(s.db, tenant).rows) ==>
                  Verify(P, ring, Part(s.db, tenant)) == Ok(|AcceptedIds(s.history, s.outcomes, tenant)|))
  {
    var s := Execute(P, run).value;
    RunIsSerializable(P, run);
    RunVerifies(P, run, tenant, ring);
    RunIsIssued(P, registry, run);
    StoresIsFaithful(P);
    ReplayIsSigned(P, registry, Stores(P), s.history, tenant);
    if RetainsKeys(ring, registry, Part(s.db, tenant).rows) {
      RetainedIsChecked(P, registry, ring, Part(s.db, tenant).rows);
    }
  }

  // ----- verifying while others append -----

  /** What a transaction has read: its own view, which nobody else can change, or the rows committed by then. */
  ghost predicate IsTrueRead(store: Storing, db: Tables, history: seq<Request>, x: Writer, rd: Reading) {
    rd.since <= |history| && x.stage.Idle?
    && if rd.tenant in x.locks
       then rd.rows == Visible(db, x, rd.tenant).rows && IsQuiet(history[rd.since..], rd.tenant)
       else rd.rows == Part(Replay(store, map[], history[..rd.since]), rd.tenant).rows
  }

  ghost predicate IsQuiet(log: seq<Request>, tenant: string) {
    forall q <- log :: Tenant(q) != tenant
  }

  ghost predicate AreTrueReads(store: Storing, s: State) {
    forall w <- s.readers :: IsTrueRead(store, s.db, s.history, WriterOf(s, w), s.readers[w])
  }

  /** A commit of another transaction leaves a read true. */
  lemma PublishKeepsRead(store: Storing, db: Tables, history: seq<Request>, x: Writer, rd: Reading, y: Writer)
    requires IsTrueRead(store, db, history, x, rd) && x.locks !! y.locks && IsCovered(y)
    ensures IsTrueRead(store, db + y.pending, history + y.log, x, rd)
  {
    assert (history + y.log)[..rd.since] == history[..rd.since];
    if rd.tenant in x.locks {
      SeenElsewhere(db, y.pending, x, rd.tenant);
      assert (history + y.log)[rd.since..] == history[rd.since..] + y.log;
    }
  }

  lemma WriterIsCovered(P: Primitives, store: Storing, s: State, v: nat, w: nat)
    requires Invariant(P, store, s) && v != w
    ensures IsCovered(WriterOf(s, w)) && WriterOf(s, v).locks !! WriterOf(s, w).locks
  {
  }

  lemma CommitKeepsReads(P: Primitives, store: Storing, s: State, w: nat)
    requires Invariant(P, store, s) && AreTrueReads(store, s) && w !in s.readers
    ensures AreTrueReads(store, CommitStep(s, w))
  {
    var next := CommitStep(s, w);
    forall v <- s.readers ensures IsTrueRead(store, next.db, next.history, WriterOf(next, v), next.readers[v]) {
      WriterIsCovered(P, store, s, v, w);
      PublishKeepsRead(store, s.db, s.history, WriterOf(s, v), s.readers[v], WriterOf(s, w));
      assert WriterOf(next, v) == WriterOf(s, v);
    }
  }

  lemma NewReadIsTrue(P: Primitives, store: Storing, s: State, w: nat, ring: Keyring, tenant: string)
    requires Invariant(P, store, s) && WriterOf(s, w).stage.Idle?
    ensures var x := WriterOf(s, w);
            IsTrueRead(store, s.db, s.history, x, Reading(ring, tenant, Visible(s.db, x, tenant).rows, |s.history|))
  {
    NewWriterIsSerial(P, store, s.db);
    var x := WriterOf(s, w);
    assert s.history[..|s.history|] == s.history;
    if tenant !in x.locks {
      NotHeld(P, store, s.db, x, tenant);
    }
  }

  /** Steps of others that publish nothing. */
  lemma OthersKeepReads(store: Storing, s: State, next: State, w: nat)
    requires AreTrueReads(store, s) && next.db == s.db && next.history == s.history
    requires forall v <- next.readers | v != w :: v in s.readers && next.readers[v] == s.readers[v] && WriterOf(next, v) == WriterOf(s, v)
    requires w in next.readers ==> IsTrueRead(store, next.db, next.history, WriterOf(next, w), next.readers[w])
    ensures AreTrueReads(store, next)
  {
  }

  lemma QuietStepKeepsReads(P: Primitives, store: Storing, s: State, w: nat, a: Action)
    requires AreTrueReads(store, s) && Step(P, s, w, a).Some? && !a.Commit?
    requires a.ReadRows? ==> var x := WriterOf(s, w);
             IsTrueRead(store, s.db, s.history, x, Reading(a.ring, a.tenant, Visible(s.db, x, a.tenant).rows, |s.history|))
    ensures AreTrueReads(store, Step(P, s, w, a).value)
  {
    StepFrame(P, s, w, a);
    OthersKeepReads(store, s, Step(P, s, w, a).value, w);
  }

  lemma StepKeepsReads(P: Primitives, store: Storing, s: State, w: nat, a: Action)
    requires Invariant(P, store, s) && AreTrueReads(store, s) && Step(P, s, w, a).Some?
    ensures AreTrueReads(store, Step(P, s, w, a).value)
  {
    StepNeedsTurn(P, s, w, a);
    if a.Commit? {
      CommitKeepsReads(P, store, s, w);
    } else {
      if a.ReadRows? {
        NewReadIsTrue(P, store, s, w, a.ring, a.tenant);
      }
      QuietStepKeepsReads(P, store, s, w, a);
    }
  }

  lemma {:induction false} RunReadsTruly(P: Primitives, run: Run)
    requires Execute(P, run).Some?
    ensures AreTrueReads(Stores(P), Execute(P, run).value)
    decreases |run|
  {
    if run != [] {
      var n := |run| - 1;
      RunIsSerializable(P, run[..n]);
      RunReadsTruly(P, run[..n]);
      StepKeepsReads(P, Stores(P), Execute(P, run[..n]).value, run[n].0, run[n].1);
    }
  }

  /** No event id of the tenant was first accepted by the requests committed between the two moments. */
  ghost predicate NoneAccepted(history: seq<Request>, outcomes: seq<Outcome>, tenant: string, since: nat, until: nat)
    requires since <= until <= |history| && |history| == |outcomes|
  {
    AcceptedIds(history[..until], outcomes[..until], tenant) == AcceptedIds(history[..since], outcomes[..since], tenant)
  }

  ghost predicate IsRightVerdict(P: Primitives, history: seq<Request>, outcomes: seq<Outcome>, v: Verdict) {
    var rd := v.reading;
    rd.since <= v.until <= |history| == |outcomes|
    && v.result == (if exists r <- rd.rows :: !IsChecked(P, rd.ring, r) then Err(BadSignature)
                    else if NoneAccepted(history, outcomes, rd.tenant, rd.since, v.until) then Ok(|rd.rows|)
                    else Err(HeadMismatch))
    && (!v.own ==> |rd.rows| == |AcceptedIds(history[..rd.since], outcomes[..rd.since], rd.tenant)|)
  }

  lemma RightVerdictStays(P: Primitives, history: seq<Request>, outcomes: seq<Outcome>,
                          log: seq<Request>, more: seq<Outcome>, v: Verdict)
    requires IsRightVerdict(P, history, outcomes, v) && |log| == |more|
    ensures IsRightVerdict(P, history + log, outcomes + more, v)
  {
    assert (history + log)[..v.until] == history[..v.until] && (outcomes + more)[..v.until] == outcomes[..v.until];
    var n := v.reading.since;
    assert (history + log)[..n] == history[..n] && (outcomes + more)[..n] == outcomes[..n];
  }

  /** Requests of other tenants accept nothing for this one. */
  lemma AcceptedElsewhere(log: seq<Request>, outcomes: seq<Outcome>, tenant: string, n: nat)
    requires |log| == |outcomes| && n <= |log| && IsQuiet(log[n..], tenant)
    ensures AcceptedIds(log, outcomes, tenant) == AcceptedIds(log[..n], outcomes[..n], tenant)
  {
    forall i | n <= i < |log| ensures Tenant(log[i]) != tenant {
      assert log[n..][i - n] in log[n..];
    }
    forall i | 0 <= i < n && outcomes[i].Ok? && Tenant(log[i]) == tenant
      ensures log[i].entry.event.eventId in AcceptedIds(log[..n], outcomes[..n], tenant)
    {
      assert log[..n][i] == log[i] && outcomes[..n][i] == outcomes[i];
    }
    forall i | 0 <= i < n && outcomes[..n][i].Ok? && Tenant(log[..n][i]) == tenant
      ensures log[..n][i].entry.event.eventId in AcceptedIds(log, outcomes, tenant)
    {
      assert log[..n][i] == log[i] && outcomes[..n][i] == outcomes[i];
    }
  }

  /** What an idle transaction sees is a well-formed partition. */
  lemma VisibleIsWellFormed(P: Primitives, store: Storing, s: State, w: nat, tenant: string)
    requires IsFaithful(P, store) && Invariant(P, store, s) && WriterOf(s, w).stage.Idle?
    ensures WellFormed(P, Visible(s.db, WriterOf(s, w), tenant))
  {
    var x := WriterOf(s, w);
    NewWriterIsSerial(P, store, s.db);
    ReplayConcat(store, map[], s.history, x.log);
    ReplayKeeps(P, store, s.history + x.log, tenant);
    if tenant !in x.locks {
      NotHeld(P, store, s.db, x, tenant);
    }
  }

  lemma VerdictFromParts(P: Primitives, first: seq<Request>, more: seq<Request>, results: seq<Outcome>, others: seq<Outcome>,
                         rd: Reading, result: Result<nat, VerifyError>)
    requires |first| == |results| == rd.since && |more| == |others|
    requires |rd.rows| == |AcceptedIds(first, results, rd.tenant)|
    requires result == if exists r <- rd.rows :: !IsChecked(P, rd.ring, r) then Err(BadSignature)
                       else if AcceptedIds(first + more, results + others, rd.tenant) == AcceptedIds(first, results, rd.tenant)
                       then Ok(|rd.rows|) else Err(HeadMismatch)
    ensures IsRightVerdict(P, first + more, results + others, Verdict(rd, |first + more|, false, result))
  {
    var history, outcomes := first + more, results + others;
    assert history[..|history|] == history && outcomes[..|history|] == outcomes;
    assert history[..rd.since] == first && outcomes[..rd.since] == results;
  }

  /** The head read last, over the rows of the committed tables. */
  lemma CommittedVerdict(P: Primitives, store: Storing, first: seq<Request>, more: seq<Request>, rd: Reading, head: Option<Head>)
    requires IsFaithful(P, store) && rd.since == |first| && rd.rows == Part(Replay(store, map[], first), rd.tenant).rows
    requires head == Part(Replay(store, map[], first + more), rd.tenant).head
    ensures IsRightVerdict(P, first + more, Outcomes(store, map[], first + more),
                           Verdict(rd, |first + more|, false, Verify(P, rd.ring, Partition(head, rd.rows))))
  {
    var results, others := Outcomes(store, map[], first), Outcomes(store, Replay(store, map[], first), more);
    assert Outcomes(store, map[], first + more) == results + others by {
      ReplayConcat(store, map[], first, more);
    }
    HistoryTornVerdict(P, store, first, more, rd.tenant, rd.ring);
    VerdictFromParts(P, first, more, results, others, rd, Verify(P, rd.ring, Partition(head, rd.rows)));
  }

  lemma CommittedVerdictNow(P: Primitives, store: Storing, history: seq<Request>, rd: Reading, head: Option<Head>)
    requires IsFaithful(P, store) && rd.since <= |history|
    requires rd.rows == Part(Replay(store, map[], history[..rd.since]), rd.tenant).rows
    requires head == Part(Replay(store, map[], history), rd.tenant).head
    ensures IsRightVerdict(P, history, Outcomes(store, map[], history),
                           Verdict(rd, |history|, false, Verify(P, rd.ring, Partition(head, rd.rows))))
  {
    assert history == history[..rd.since] + history[rd.since..];
    CommittedVerdict(P, store, history[..rd.since], history[rd.since..], rd, head);
  }

  /** The same where the transaction holds the head row, so that nobody else could append. */
  lemma OwnVerdict(P: Primitives, store: Storing, s: State, w: nat, rd: Reading)
    requires IsFaithful(P, store) && Invariant(P, store, s) && WriterOf(s, w).stage.Idle? && rd.since <= |s.history|
    requires rd.rows == Visible(s.db, WriterOf(s, w), rd.tenant).rows && IsQuiet(s.history[rd.since..], rd.tenant)
    ensures IsRightVerdict(P, s.history, s.outcomes,
                           Verdict(rd, |s.history|, true,
                                   Verify(P, rd.ring, Partition(Visible(s.db, WriterOf(s, w), rd.tenant).head, rd.rows))))
  {
    var seen := Visible(s.db, WriterOf(s, w), rd.tenant);
    assert s.history[..|s.history|] == s.history && s.outcomes[..|s.history|] == s.outcomes;
    VisibleIsWellFormed(P, store, s, w, rd.tenant);
    TornReadVerdict(P, rd.ring, seen, seen);
    AcceptedElsewhere(s.history, s.outcomes, rd.tenant, rd.since);
  }

  lemma SeesCommitted(P: Primitives, store: Storing, s: State, w: nat, tenant: string)
    requires Invariant(P, store, s) && tenant !in WriterOf(s, w).locks
    ensures Visible(s.db, WriterOf(s, w), tenant) == Part(Replay(store, map[], s.history), tenant)
    ensures s.outcomes == Outcomes(store, map[], s.history)
  {
    NewWriterIsSerial(P, store, s.db);
    NotHeld(P, store, s.db, WriterOf(s, w), tenant);
  }

  lemma ReadHeadIsRight(P: Primitives, store: Storing, s: State, w: nat)
    requires IsFaithful(P, store) && Invariant(P, store, s) && w in s.readers
    requires IsTrueRead(store, s.db, s.history, WriterOf(s, w), s.readers[w])
    ensures IsRightVerdict(P, s.history, s.outcomes, NewVerdict(P, s, w))
  {
    var rd, x := s.readers[w], WriterOf(s, w);
    if rd.tenant in x.locks {
      OwnVerdict(P, store, s, w, rd);
    } else {
      SeesCommitted(P, store, s, w, rd.tenant);
      CommittedVerdictNow(P, store, s.history, rd, Visible(s.db, x, rd.tenant).head);
    }
  }

  ghost predicate AreRightVerdicts(P: Primitives, s: State) {
    forall v <- s.verdicts :: IsRightVerdict(P, s.history, s.outcomes, v)
  }

  lemma CommitKeepsVerdicts(P: Primitives, store: Storing, s: State, w: nat)
    requires Invariant(P, store, s) && AreRightVerdicts(P, s)
    ensures AreRightVerdicts(P, CommitStep(s, w))
  {
    var x := WriterOf(s, w);
    NewWriterIsSerial(P, store, s.db);
    assert x.outcomes == Outcomes(store, s.db, x.log);
    forall v <- s.verdicts ensures IsRightVerdict(P, s.history + x.log, s.outcomes + x.outcomes, v) {
      RightVerdictStays(P, s.history, s.outcomes, x.log, x.outcomes, v);
    }
  }

  lemma QuietStepKeepsVerdicts(P: Primitives, s: State, w: nat, a: Action)
    requires AreRightVerdicts(P, s) && Step(P, s, w, a).Some? && !a.Commit? && !a.ReadHead?
    ensures AreRightVerdicts(P, Step(P, s, w, a).value)
  {
    StepFrame(P, s, w, a);
  }

  lemma NewVerdictIsRight(P: Primitives, s: State, w: nat)
    requires AreRightVerdicts(P, s) && w in s.readers
    requires IsRightVerdict(P, s.history, s.outcomes, NewVerdict(P, s, w))
    ensures AreRightVerdicts(P, ReadHeadStep(P, s, w))
  {
  }

  lemma StepKeepsVerdicts(P: Primitives, store: Storing, s: State, w: nat, a: Action)
    requires IsFaithful(P, store) && Invariant(P, store, s) && AreTrueReads(store, s) && AreRightVerdicts(P, s)
    requires Step(P, s, w, a).Some?
    ensures AreRightVerdicts(P, Step(P, s, w, a).value)
  {
    if a.Commit? {
      CommitKeepsVerdicts(P, store, s, w);
    } else if a.ReadHead? {
      ReadHeadIsRight(P, store, s, w);
      NewVerdictIsRight(P, s, w);
    } else {
      QuietStepKeepsVerdicts(P, s, w, a);
    }
  }

  /**
   In every run, a verification that runs beside appends reports a mismatch exactly when an event
   of its tenant was committed between its two queries, although the chain is intact all along;
   otherwise it returns the length of the chain. A bad signature, under its keyring, is found
   in either case.
   */
  lemma {:induction false} VerdictsAreRight(P: Primitives, run: Run)
    requires Execute(P, run).Some?
    ensures AreRightVerdicts(P, Execute(P, run).value)
    decreases |run|
  {
    if run != [] {
      var n := |run| - 1;
      VerdictsAreRight(P, run[..n]);
      RunIsSerializable(P, run[..n]);
      RunReadsTruly(P, run[..n]);
      StoresIsFaithful(P);
      StepKeepsVerdicts(P, Stores(P), Execute(P, run[..n]).value, run[n].0, run[n].1);
    }
  }

  /** What is read, and so what is judged, was signed by appends that have started. */
  lemma ReadIsSigned(P: Primitives, registry: Registry, store: Storing, s: State, w: nat, tenant: string)
    requires IsFaithful(P, store) && Invariant(P, store, s) && IsIssuedState(registry, s) && WriterOf(s, w).stage.Idle?
    ensures AreSigned(P, registry, Visible(s.db, WriterOf(s, w), tenant).rows)
  {
    var x := WriterOf(s, w);
    NewWriterIsSerial(P, store, s.db);
    ReplayConcat(store, map[], s.history, x.log);
    ReplayIsSigned(P, registry, store, s.history + x.log, tenant);
    if tenant !in x.locks {
      NotHeld(P, store, s.db, x, tenant);
    }
  }

  ghost predicate AreSignedReads(P: Primitives, registry: Registry, s: State) {
    (forall w <- s.readers :: AreSigned(P, registry, s.readers[w].rows))
    && forall v <- s.verdicts :: AreSigned(P, registry, v.reading.rows)
  }

  lemma StepKeepsSigned(P: Primitives, registry: Registry, s: State, w: nat, a: Action)
    requires AreSignedReads(P, registry, s) && Step(P, s, w, a).Some?
    requires a.ReadRows? ==> AreSigned(P, registry, Visible(s.db, WriterOf(s, w), a.tenant).rows)
    ensures AreSignedReads(P, registry, Step(P, s, w, a).value)
  {
    ReadersFrame(P, s, w, a);
  }

  /** Only a verification's own steps change what is read and judged, but for a rollback that forgets a read. */
  lemma ReadersFrame(P: Primitives, s: State, w: nat, a: Action)
    requires Step(P, s, w, a).Some?
    ensures var next := Step(P, s, w, a).value;
            (forall v <- next.readers | v != w || !a.ReadRows? :: v in s.readers && next.readers[v] == s.readers[v])
            && (a.ReadRows? ==> next == ReadRowsStep(s, w, a.ring, a.tenant))
            && (a.ReadHead? ==> w in s.readers && next == ReadHeadStep(P, s, w))
            && (!a.ReadHead? ==> next.verdicts == s.verdicts)
  {
  }

  lemma {:induction false} RunReadsSigned(P: Primitives, registry: Registry, run: Run)
    requires Execute(P, run).Some? && IsIssuedRun(registry, run)
    ensures AreSignedReads(P, registry, Execute(P, run).value)
    decreases |run|
  {
    if run != [] {
      var n := |run| - 1;
      var s, w, a := Execute(P, run[..n]).value, run[n].0, run[n].1;
      RunReadsSigned(P, registry, run[..n]);
      if a.ReadRows? {
        RunIsSerializable(P, run[..n]);
        RunIsIssued(P, registry, run[..n]);
        StoresIsFaithful(P);
        StepNeedsTurn(P, s, w, a);
        ReadIsSigned(P, registry, Stores(P), s, w, a.tenant);
      }
      StepKeepsSigned(P, registry, s, w, a);
    }
  }

  /** So with issued material and the used keys retained, only a commit in between spoils a verification. */
  lemma RetainedKeysJudge(P: Primitives, registry: Registry, run: Run, v: Verdict)
    requires Execute(P, run).Some? && IsIssuedRun(registry, run) && v in Execute(P, run).value.verdicts
    ensures var s := Execute(P, run).value;
            v.reading.since <= v.until <= |s.history| == |s.outcomes|
            && (RetainsKeys(v.reading.ring, registry, v.reading.rows) ==>
                  v.result == if NoneAccepted(s.history, s.outcomes, v.reading.tenant, v.reading.since, v.until)
                              then Ok(|v.reading.rows|) else Err(HeadMismatch))
  {
    VerdictsAreRight(P, run);
    RunReadsSigned(P, registry, run);
    assert IsRightVerdict(P, Execute(P, run).value.history, Execute(P, run).value.outcomes, v);
    if RetainsKeys(v.reading.ring, registry, v.reading.rows) {
      RetainedIsChecked(P, registry, v.reading.ring, v.reading.rows);
    }
  }

  lemma ExecuteOneMore(P: Primitives, run: Run, w: nat, a: Action)
    requires Execute(P, run).Some?
    ensures Execute(P, run + [(w, a)]) == Step(P, Execute(P, run).value, w, a)
  {
    assert (run + [(w, a)])[..|run|] == run;
  }

  /** With nobody else in a transaction, a statement never waits. */
  lemma RunsAlone(P: Primitives, run: Run, s: State, x: Writer, a: Action, y: Writer)
    requires Execute(P, run) == Some(s.(writers := map[0 := x])) && 0 !in s.readers
    requires WriterStep(P, s.db, x, false, a) == Some(y) && !a.Commit? && !a.Rollback? && !a.ReadRows? && !a.ReadHead?
    ensures Execute(P, run + [(0, a)]) == Some(s.(writers := map[0 := y]))
  {
    ExecuteOneMore(P, run, 0, a);
    var here := s.(writers := map[0 := x]);
    assert !IsHeldElsewhere(here, 0, if x.stage.Idle? then "" else Tenant(x.stage.request));
    assert here.writers[0 := y] == map[0 := y];
  }

  /** The first append of a tenant, statement by statement: it makes the head, holds it and finds nothing. */
  lemma FirstLook(P: Primitives, q: Request) returns (x1: Writer, x2: Writer, x3: Writer, x4: Writer)
    ensures WriterStep(P, map[], NEW_WRITER, false, Begin(q)) == Some(x1)
    ensures WriterStep(P, map[], x1, false, Ensure) == Some(x2)
    ensures WriterStep(P, map[], x2, false, Lock) == Some(x3)
    ensures WriterStep(P, map[], x3, false, Look) == Some(x4)
    ensures x4 == Writer(Inserting(q, Head(0, ZERO_HASH)), {Tenant(q)}, map[Tenant(q) := Partition(Some(Head(0, ZERO_HASH)), [])], [], [])
  {
    var t := Tenant(q);
    var head := Head(0, ZERO_HASH);
    x1 := NEW_WRITER.(stage := Ensuring(q));
    x2 := Writer(Locking(q), {t}, map[t := Partition(Some(head), [])], [], []);
    x3 := x2.(stage := Looking(q, head));
    x4 := x2.(stage := Inserting(q, head));
    assert {} + {t} == {t} == {t} + {t} && EnsureHead(Partition(None, [])) == Partition(Some(head), []);
    assert map[][t := Partition(Some(head), [])] == x2.pending;
  }

  /** Then it inserts its row and moves the head to it. */
  lemma FirstInsert(P: Primitives, q: Request, x4: Writer) returns (row: EventRow, x5: Writer, x6: Writer)
    requires x4 == Writer(Inserting(q, Head(0, ZERO_HASH)), {Tenant(q)}, map[Tenant(q) := Partition(Some(Head(0, ZERO_HASH)), [])], [], [])
    ensures WriterStep(P, map[], x4, false, Insert) == Some(x5)
    ensures WriterStep(P, map[], x5, false, Advance) == Some(x6)
    ensures row == NextRow(P, q.ring, Head(0, ZERO_HASH), q.entry)
    ensures x6.stage == Idle && x6.pending == map[Tenant(q) := Partition(Some(HeadAfter(row)), [row])] && x6.log == [q]
  {
    var t := Tenant(q);
    var head := Head(0, ZERO_HASH);
    row := NextRow(P, q.ring, head, q.entry);
    x5 := x4.(stage := Advancing(q, row), pending := map[t := Partition(Some(head), [row])]);
    x6 := Writer(Idle, {t}, map[t := Partition(Some(HeadAfter(row)), [row])], [q], [Ok(q.entry.event.eventId)]);
    assert Admits(Partition(Some(head), []), row) && AdmitsHead(HeadAfter(row)) && InsertRow([], row) == [row];
    assert x5.log + [q] == x6.log && x5.outcomes + [Ok(q.entry.event.eventId)] == x6.outcomes;
    assert x4.pending[t := Partition(Some(head), [row])] == x5.pending;
    assert x5.pending[t := Partition(Some(HeadAfter(row)), [row])] == x6.pending;
  }

  /** It runs to its commit beside a transaction that has begun to verify. */
  lemma AppendBesideReader(P: Primitives, q: Request, s: State) returns (run: Run, row: EventRow, x: Writer)
    requires s == ReadRowsStep(START, 1, q.ring, Tenant(q))
    ensures row == NextRow(P, q.ring, Head(0, ZERO_HASH), q.entry)
    ensures x.stage == Idle && x.pending == map[Tenant(q) := Partition(Some(HeadAfter(row)), [row])]
    ensures Execute(P, run) == Some(s.(writers := map[0 := x]))
  {
    var x1, x2, x3, x4 := FirstLook(P, q);
    var x5;
    row, x5, x := FirstInsert(P, q, x4);
    run := [(1, ReadRows(q.ring, Tenant(q)))];
    ExecuteOneMore(P, [], 1, ReadRows(q.ring, Tenant(q)));
    assert [] + run == run;
    ExecuteOneMore(P, run, 0, Begin(q));
    run := run + [(0, Begin(q))];
    assert s.writers[0 := x1] == map[0 := x1];
    RunsAlone(P, run, s, x1, Ensure, x2);
    run := run + [(0, Ensure)];
    RunsAlone(P, run, s, x2, Lock, x3);
    run := run + [(0, Lock)];
    RunsAlone(P, run, s, x3, Look, x4);
    run := run + [(0, Look)];
    RunsAlone(P, run, s, x4, Insert, x5);
    run := run + [(0, Insert)];
    RunsAlone(P, run, s, x5, Advance, x);
    run := run + [(0, Advance)];
  }

  /** A mismatch is reported in some run for every first event, though the chain verifies before and after. */
  lemma IntactChainReportedBroken(P: Primitives, q: Request) returns (run: Run)
    ensures Execute(P, run).Some?
    ensures var s := Execute(P, run).value;
            |s.verdicts| == 1 && s.verdicts[0].result == Err(HeadMismatch) && s.verdicts[0].reading.tenant == Tenant(q)
            && Verify(P, q.ring, Part(START.db, Tenant(q))) == Ok(0) && Verify(P, q.ring, Part(s.db, Tenant(q))) == Ok(1)
  {
    var row, x;
    run, row, x := AppendBesideReader(P, q, ReadRowsStep(START, 1, q.ring, Tenant(q)));
    var before := Execute(P, run).value;
    ExecuteOneMore(P, run, 0, Commit);
    run := run + [(0, Commit)];
    var done := CommitStep(before, 0);
    assert Part(done.db, Tenant(q)) == Partition(Some(HeadAfter(row)), [row]);
    ExecuteOneMore(P, run, 1, ReadHead);
    run := run + [(1, ReadHead)];
    FirstChainVerifies(P, q, row);
  }

  lemma FirstChainVerifies(P: Primitives, q: Request, row: EventRow)
    requires row == NextRow(P, q.ring, Head(0, ZERO_HASH), q.entry)
    ensures Verify(P, q.ring, Partition(Some(HeadAfter(row)), [row])) == Ok(1)
    ensures Verify(P, q.ring, Partition(Some(HeadAfter(row)), [])) == Err(HeadMismatch)
  {
    assert IsSound(P, q.ring, [row], 0);
    VerifyAccepts(P, q.ring, Partition(Some(HeadAfter(row)), [row]));
  }
}
