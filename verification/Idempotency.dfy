/**
 Idempotency claims: the durable SQLite store and the in-memory one, sequentially and with any
 number of threads taking the steps of `claim` in any order.
 */
module Idempotency {

  import opened Common

  datatype Key = Key(namespace: string, tenantId: string, idempotencyKey: string)

  datatype Claim = Claim(key: Key, digest: string)

  datatype ClaimStatus = Claimed | Duplicate | Conflict

  datatype ClaimError = MissingField

  type Claims = map<Key, string>

  predicate IsComplete(c: Claim) {
    c.key.namespace != "" && c.key.tenantId != "" && c.key.idempotencyKey != "" && c.digest != ""
  }

  function StatusOf(claims: Claims, c: Claim): ClaimStatus {
    if c.key !in claims then Claimed else if claims[c.key] == c.digest then Duplicate else Conflict
  }

  function After(claims: Claims, c: Claim): Claims {
    if c.key in claims then claims else claims[c.key := c.digest]
  }

  // ----- the two stores -----

  /** A row of `idempotency_claims`. */
  datatype ClaimRow = ClaimRow(key: Key, digest: string, claimedAt: string)

  /** The primary key of the table. */
  ghost predicate HasUniqueKeys(rows: seq<ClaimRow>) {
    forall i, j | 0 <= i < j < |rows| :: rows[i].key != rows[j].key
  }

  /** What a table says about each key. */
  function TableClaims(rows: seq<ClaimRow>): Claims {
    if rows == [] then map[] else TableClaims(rows[..|rows| - 1])[rows[|rows| - 1].key := rows[|rows| - 1].digest]
  }

  lemma {:induction false} TableClaimsAt(rows: seq<ClaimRow>, key: Key)
    requires HasUniqueKeys(rows)
    ensures key in TableClaims(rows) <==> exists row <- rows :: row.key == key
    ensures forall row <- rows :: row.key in TableClaims(rows) && TableClaims(rows)[row.key] == row.digest
    decreases |rows|
  {
    if rows != [] {
      var n := |rows| - 1;
      TableClaimsAt(rows[..n], key);
      assert rows == rows[..n] + [rows[n]];
    }
  }

  class SqliteStore {
    var rows: seq<ClaimRow>

    ghost predicate Valid()
      reads this
    {
      HasUniqueKeys(rows)
    }

    ghost function Contents(): Claims
      reads this
    {
      TableClaims(rows)
    }

    constructor ()
      ensures Valid() && Contents() == map[]
    {
      rows := [];
    }

    /** `SELECT request_digest ... WHERE` the three key columns match. */
    method Select(key: Key) returns (digest: Option<string>)
      requires Valid()
      ensures digest == if key in Contents() then Some(Contents()[key]) else None
    {
      TableClaimsAt(rows, key);
      for i := 0 to |rows|
        invariant forall j | 0 <= j < i :: rows[j].key != key
      {
        if rows[i].key == key {
          return Some(rows[i].digest);
        }
      }
      digest := None;
    }

    method ClaimKey(c: Claim, now: string) returns (r: Result<ClaimStatus, ClaimError>)
      requires Valid()
      modifies this
      ensures Valid()
      ensures IsComplete(c) ==> r == Ok(StatusOf(old(Contents()), c)) && Contents() == After(old(Contents()), c)
      ensures r.Err? <==> c.key.namespace == "" || c.key.tenantId == "" || c.key.idempotencyKey == "" || c.digest == ""
      ensures r.Err? ==> r == Err(MissingField) && rows == old(rows)
    {
      if !IsComplete(c) {
        return Err(MissingField);
      }
      var stored := Select(c.key);
      if stored.Some? {
        return Ok(if stored.value == c.digest then Duplicate else Conflict);
      }
      TableClaimsAt(rows, c.key);
      rows := rows + [ClaimRow(c.key, c.digest, now)];
      assert rows[..|rows| - 1] == old(rows);
      r := Ok(Claimed);
    }
  }

  class InMemoryStore {
    var claims: Claims

    constructor ()
      ensures claims == map[]
    {
      claims := map[];
    }

    method ClaimKey(c: Claim) returns (r: Result<ClaimStatus, ClaimError>)
      modifies this
      ensures IsComplete(c) ==> r == Ok(StatusOf(old(claims), c)) && claims == After(old(claims), c)
      ensures r.Err? <==> c.key.namespace == "" || c.key.tenantId == "" || c.key.idempotencyKey == "" || c.digest == ""
      ensures r.Err? ==> r == Err(MissingField) && claims == old(claims)
    {
      if !IsComplete(c) {
        return Err(MissingField);
      }
      if c.key !in claims {
        claims := claims[c.key := c.digest];
        return Ok(Claimed);
      }
      r := Ok(if claims[c.key] == c.digest then Duplicate else Conflict);
    }
  }

  /** Fed the same claims, the two stores answer alike and end up with the same contents. */
  method AnswerAlike(log: seq<Claim>, now: string) returns (durable: seq<Result<ClaimStatus, ClaimError>>, memory: seq<Result<ClaimStatus, ClaimError>>)
    ensures durable == memory && |memory| == |log|
    ensures forall i | 0 <= i < |log| ::
              memory[i] == if IsComplete(log[i]) then Ok(StatusOf(Replay(log[..i]), log[i])) else Err(MissingField)
  {
    var store := new SqliteStore();
    var cache := new InMemoryStore();
    durable, memory := [], [];
    for i := 0 to |log|
      invariant fresh(store) && fresh(cache) && store.Valid()
      invariant store.Contents() == cache.claims == Replay(log[..i])
      invariant durable == memory && |memory| == i
      invariant forall j | 0 <= j < i ::
                  memory[j] == if IsComplete(log[j]) then Ok(StatusOf(Replay(log[..j]), log[j])) else Err(MissingField)
    {
      assert log[..i + 1][..i] == log[..i];
      var a := store.ClaimKey(log[i], now);
      var b := cache.ClaimKey(log[i]);
      durable, memory := durable + [a], memory + [b];
    }
  }

  // ----- histories -----

  /** The claims after the complete ones of `log`, one after the other; incomplete ones raise. */
  function Replay(log: seq<Claim>): Claims {
    if log == [] then map[]
    else
      var c := log[|log| - 1];
      if IsComplete(c) then After(Replay(log[..|log| - 1]), c) else Replay(log[..|log| - 1])
  }

  /** The position of the first complete claim of a key. */
  ghost predicate IsFirst(log: seq<Claim>, i: nat, key: Key) {
    i < |log| && log[i].key == key && IsComplete(log[i])
    && forall j | 0 <= j < i :: log[j].key != key || !IsComplete(log[j])
  }

  lemma {:induction false} ReplayHoldsFirst(log: seq<Claim>, key: Key)
    ensures key in Replay(log) <==> exists i: nat :: IsFirst(log, i, key)
    ensures forall i: nat :: IsFirst(log, i, key) ==> key in Replay(log) && Replay(log)[key] == log[i].digest
    decreases |log|
  {
    if log != [] {
      var n := |log| - 1;
      var past := log[..n];
      ReplayHoldsFirst(past, key);
      forall i: nat | IsFirst(past, i, key) ensures IsFirst(log, i, key) {
        assert forall j | 0 <= j < i :: past[j] == log[j];
      }
      forall i: nat | IsFirst(log, i, key) && i < n ensures IsFirst(past, i, key) {
        assert forall j | 0 <= j < i :: past[j] == log[j];
      }
      if key !in Replay(past) && log[n].key == key && IsComplete(log[n]) {
        FirstIsLast(log, past, key);
      }
    }
  }

  lemma FirstIsLast(log: seq<Claim>, past: seq<Claim>, key: Key)
    requires log != [] && log[|log| - 1].key == key && IsComplete(log[|log| - 1])
    requires past == log[..|log| - 1] && !exists i: nat :: IsFirst(past, i, key)
    ensures IsFirst(log, |log| - 1, key)
  {
    var n := |log| - 1;
    if k: nat :| k < n && past[k].key == key && IsComplete(past[k]) {
      var i := 0;
      while past[i].key != key || !IsComplete(past[i])
        invariant i <= k && forall j | 0 <= j < i :: past[j].key != key || !IsComplete(past[j])
        decreases k - i
      {
        i := i + 1;
      }
      assert IsFirst(past, i, key);
    }
  }

  /**
   In any history a key is claimed by its first complete claim and by no other: every later one
   is a duplicate exactly when it repeats the first digest, and a conflict otherwise.
   */
  lemma ClaimedOnce(log: seq<Claim>, first: nat, i: nat)
    requires i < |log| && IsComplete(log[i]) && IsFirst(log, first, log[i].key)
    ensures first <= i
    ensures StatusOf(Replay(log[..i]), log[i])
         == if i == first then Claimed else if log[i].digest == log[first].digest then Duplicate else Conflict
  {
    var past := log[..i];
    assert forall j | 0 <= j < i :: past[j] == log[j];
    ReplayHoldsFirst(past, log[i].key);
    if i == first {
      assert !exists j: nat :: IsFirst(past, j, log[i].key);
    } else {
      assert IsFirst(past, first, log[i].key);
    }
  }

  /** An entry never changes. */
  lemma {:induction false} EntriesStay(log: seq<Claim>, more: seq<Claim>, key: Key)
    requires key in Replay(log)
    ensures key in Replay(log + more) && Replay(log + more)[key] == Replay(log)[key]
    decreases |more|
  {
    if more == [] {
      assert log + more == log;
    } else {
      var n := |more| - 1;
      EntriesStay(log, more[..n], key);
      assert (log + more)[..|log + more| - 1] == log + more[..n];
    }
  }

  // ----- threads -----

  /** Where a thread stands inside `claim`; `Inside` and `Looked` hold the lock and the write transaction. */
  datatype Stage = Outside | Waiting(claim: Claim) | Inside(claim: Claim) | Looked(claim: Claim, stored: Option<string>)

  /** `log` and `answers` record the finished claims in the order they finished. */
  datatype State = State(claims: Claims, threads: map<nat, Stage>, log: seq<Claim>, answers: seq<ClaimStatus>, broken: bool)

  const START := State(map[], map[], [], [], false)

  datatype Action = Call(claim: Claim) | Enter | Look | Finish | Crash

  function StageOf(s: State, t: nat): Stage {
    if t in s.threads then s.threads[t] else Outside
  }

  predicate HoldsLock(stage: Stage) {
    stage.Inside? || stage.Looked?
  }

  /** One step of thread `t`; `None` when it is not its turn. A crash, or an incomplete claim, leaves no trace. */
  function Step(s: State, t: nat, a: Action): Option<State> {
    match (StageOf(s, t), a)
    case (Outside, Call(c)) => Some(if IsComplete(c) then s.(threads := s.threads[t := Waiting(c)]) else s)
    case (Waiting(c), Enter) =>
      if exists u <- s.threads :: HoldsLock(s.threads[u]) then None else Some(s.(threads := s.threads[t := Inside(c)]))
    case (Inside(c), Look) =>
      Some(s.(threads := s.threads[t := Looked(c, if c.key in s.claims then Some(s.claims[c.key]) else None)]))
    case (Looked(c, stored), Finish) =>
      var rest := s.(threads := s.threads[t := Outside], log := s.log + [c]);
      if stored.Some? then Some(rest.(answers := s.answers + [if stored.value == c.digest then Duplicate else Conflict]))
      else if c.key in s.claims then Some(s.(broken := true))
      else Some(rest.(claims := s.claims[c.key := c.digest], answers := s.answers + [Claimed]))
    case (_, Crash) => Some(s.(threads := s.threads[t := Outside]))
    case _ => None
  }

  function Execute(run: seq<(nat, Action)>): Option<State> {
    if run == [] then Some(START)
    else
      match Execute(run[..|run| - 1])
      case None => None
      case Some(s) => Step(s, run[|run| - 1].0, run[|run| - 1].1)
  }

  /** The answers are those of the sequential store, claim by claim. */
  ghost predicate AreSequential(log: seq<Claim>, answers: seq<ClaimStatus>) {
    |log| == |answers|
    && forall i | 0 <= i < |log| :: IsComplete(log[i]) && answers[i] == StatusOf(Replay(log[..i]), log[i])
  }

  /** Whoever holds the lock is alone, and what it has read is still true. */
  ghost predicate IsExclusive(s: State) {
    (forall t, u | t in s.threads && u in s.threads && t != u :: !HoldsLock(s.threads[t]) || !HoldsLock(s.threads[u]))
    && forall t <- s.threads | s.threads[t].Looked? ::
         var c := s.threads[t].claim;
         s.threads[t].stored == if c.key in s.claims then Some(s.claims[c.key]) else None
  }

  ghost predicate Invariant(s: State) {
    s.claims == Replay(s.log) && AreSequential(s.log, s.answers) && IsExclusive(s) && AreComplete(s) && !s.broken
  }

  lemma SequentialOneMore(log: seq<Claim>, answers: seq<ClaimStatus>, c: Claim)
    requires AreSequential(log, answers) && IsComplete(c)
    ensures AreSequential(log + [c], answers + [StatusOf(Replay(log), c)]) && Replay(log + [c]) == After(Replay(log), c)
  {
    var more := log + [c];
    assert more[..|log|] == log;
    forall i | 0 <= i < |log| ensures more[..i] == log[..i] && more[i] == log[i] {
    }
  }

  ghost predicate AreComplete(s: State) {
    forall t <- s.threads :: s.threads[t].Outside? || IsComplete(s.threads[t].claim)
  }

  /** A thread may enter when nobody holds the lock; reading and leaving never admit a second holder. */
  lemma StepIsExclusive(s: State, t: nat, a: Action)
    requires IsExclusive(s) && AreComplete(s) && !a.Finish? && Step(s, t, a).Some?
    ensures IsExclusive(Step(s, t, a).value) && AreComplete(Step(s, t, a).value)
  {
  }

  /** The holder finishes: the claims may grow, but no other thread has read them. */
  lemma FinishIsExclusive(s: State, t: nat)
    requires IsExclusive(s) && AreComplete(s) && StageOf(s, t).Looked?
    ensures Step(s, t, Finish).Some?
    ensures var c := StageOf(s, t).claim;
            var next := Step(s, t, Finish).value;
            next == State(After(s.claims, c), s.threads[t := Outside], s.log + [c],
                          s.answers + [StatusOf(s.claims, c)], s.broken)
            && IsExclusive(next) && AreComplete(next)
  {
  }

  lemma StepKeeps(s: State, t: nat, a: Action)
    requires Invariant(s) && Step(s, t, a).Some?
    ensures Invariant(Step(s, t, a).value)
  {
    if a.Finish? {
      FinishIsExclusive(s, t);
      SequentialOneMore(s.log, s.answers, StageOf(s, t).claim);
    } else {
      StepIsExclusive(s, t, a);
    }
  }

  lemma {:induction false} RunIsSequential(run: seq<(nat, Action)>)
    requires Execute(run).Some?
    ensures Invariant(Execute(run).value)
    decreases |run|
  {
    if run != [] {
      var n := |run| - 1;
      RunIsSequential(run[..n]);
      StepKeeps(Execute(run[..n]).value, run[n].0, run[n].1);
    }
  }

  /**
   Under every interleaving the primary key is never violated, exactly the first finished claim
   of each key is answered CLAIMED, and every later one DUPLICATE or CONFLICT by its digest.
   */
  lemma RunClaimsOnce(run: seq<(nat, Action)>, first: nat, i: nat)
    requires Execute(run).Some?
    ensures var s := Execute(run).value;
            !s.broken && |s.log| == |s.answers|
            && (i < |s.log| && IsFirst(s.log, first, s.log[i].key) ==>
                  s.answers[i] == if i == first then Claimed
                                  else if s.log[i].digest == s.log[first].digest then Duplicate else Conflict)
  {
    RunIsSequential(run);
    var s := Execute(run).value;
    if i < |s.log| && IsFirst(s.log, first, s.log[i].key) {
      ClaimedOnce(s.log, first, i);
    }
  }
}
