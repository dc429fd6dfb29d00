/**
 The rotation loop of `rotate_keycloak_client_secrets.py` over the server's secrets and the
 project's environment file, with a stop possible at every point.
 */
module SecretRotation {

  import opened Common
  import opened EnvFile
  import opened EnvWrite
  import opened EnvOthers

  datatype Target = Target(clientId: string, envKey: string)

  ghost predicate AreDistinct(targets: seq<Target>) {
    forall i, j | 0 <= i < j < |targets| :: targets[i].clientId != targets[j].clientId && targets[i].envKey != targets[j].envKey
  }

  datatype Stage = Rotating | Persisting(secret: string) | Checking | Stopped

  /** `index` is the client in progress. */
  datatype State = State(server: map<string, string>, file: string, index: nat, stage: Stage)

  /** An unanswered rotation took effect on the server, but its response was lost or refused. */
  datatype Action = Rotate(secret: string, answered: bool) | Persist | Pass | Stop

  ghost function Step(targets: seq<Target>, s: State, a: Action): Option<State> {
    if s.index >= |targets| || s.stage.Stopped? then None
    else
      var t := targets[s.index];
      match (s.stage, a)
      case (Rotating, Rotate(secret, answered)) =>
        Some(s.(server := s.server[t.clientId := secret],
                stage := if answered && |secret| >= 16 then Persisting(secret) else Stopped))
      case (Persisting(secret), Persist) =>
        var out := Rewrite(s.file, map[t.envKey := secret]);
        Some(if out.Ok? then s.(file := out.value, stage := Checking) else s.(stage := Stopped))
      case (Checking, Pass) => Some(s.(index := s.index + 1, stage := Rotating))
      case (_, Stop) => Some(s.(stage := Stopped))
      case _ => None
  }

  ghost function Execute(targets: seq<Target>, start: State, run: seq<Action>): Option<State> {
    if run == [] then Some(start)
    else
      match Execute(targets, start, run[..|run| - 1])
      case None => None
      case Some(s) => Step(targets, s, run[|run| - 1])
  }

  ghost predicate IsStorableRun(run: seq<Action>) {
    forall a <- run | a.Rotate? :: IsStorable(a.secret)
  }

  predicate IsStart(s: State) {
    s.index == 0 && s.stage == Rotating
  }

  // ----- the guarantee -----

  /** The server's secret of a target is the one in the file. */
  ghost predicate Agrees(s: State, t: Target) {
    t.clientId in s.server && Holds(s.file, t.envKey, s.server[t.clientId])
  }

  /** Neither side of a target has changed since the start. */
  ghost predicate IsUntouched(start: State, s: State, t: Target) {
    (t.clientId in s.server <==> t.clientId in start.server)
    && (t.clientId in s.server ==> s.server[t.clientId] == start.server[t.clientId])
    && Values(Lines(s.file), t.envKey) == Values(Lines(start.file), t.envKey)
  }

  /** Earlier clients agree and later ones are untouched, so at most the client in progress has come to differ. */
  ghost predicate IsSafe(targets: seq<Target>, start: State, s: State) {
    forall j | 0 <= j < |targets| ::
      (j < s.index ==> Agrees(s, targets[j])) && (s.index < j ==> IsUntouched(start, s, targets[j]))
  }

  ghost predicate IsOnce(file: string, t: Target) {
    |Values(Lines(file), t.envKey)| == 1
  }

  /** The loop can reach and write the entry of this client: it and those before it occur once. */
  ghost predicate IsFound(targets: seq<Target>, file: string, j: nat)
    requires j < |targets|
  {
    forall i | 0 <= i <= j :: IsOnce(file, targets[i])
  }

  /** Every entry that the loop can write keeps to its line. */
  ghost predicate IsSteadyWhereFound(targets: seq<Target>, file: string) {
    forall j: nat | j < |targets| && IsFound(targets, file, j) :: IsSteady(Lines(file), targets[j].envKey)
  }

  // ----- what every run keeps -----

  ghost predicate IsAsSteady(start: State, s: State, t: Target) {
    IsSteady(Lines(s.file), t.envKey) <==> IsSteady(Lines(start.file), t.envKey)
  }

  ghost predicate IsDone(start: State, s: State, t: Target) {
    Agrees(s, t) && IsOnce(start.file, t)
  }

  ghost predicate IsAhead(start: State, s: State, t: Target) {
    IsUntouched(start, s, t) && IsAsSteady(start, s, t)
  }

  ghost predicate IsInProgress(start: State, s: State, t: Target) {
    match s.stage
    case Rotating => IsAhead(start, s, t)
    case Persisting(secret) =>
      IsStorable(secret) && t.clientId in s.server && s.server[t.clientId] == secret
      && Values(Lines(s.file), t.envKey) == Values(Lines(start.file), t.envKey) && IsAsSteady(start, s, t)
    case Checking => IsDone(start, s, t)
    case Stopped => true
  }

  ghost predicate AreDone(targets: seq<Target>, start: State, s: State, n: nat) {
    forall j | 0 <= j < n && j < |targets| :: IsDone(start, s, targets[j])
  }

  ghost predicate AreAhead(targets: seq<Target>, start: State, s: State, n: nat) {
    forall j | n <= j < |targets| :: IsAhead(start, s, targets[j])
  }

  ghost predicate Invariant(targets: seq<Target>, start: State, s: State) {
    s.index <= |targets| && AreDone(targets, start, s, s.index) && AreAhead(targets, start, s, s.index + 1)
    && (s.index < |targets| ==> IsInProgress(start, s, targets[s.index]))
  }

  /** The server has a new secret for the client in progress; nothing else moved. */
  lemma RotateKeeps(targets: seq<Target>, start: State, s: State, secret: string, stage: Stage)
    requires AreDistinct(targets) && Invariant(targets, start, s) && s.index < |targets| && s.stage.Rotating?
    requires IsStorable(secret) && (stage == Persisting(secret) || stage == Stopped)
    ensures Invariant(targets, start, s.(server := s.server[targets[s.index].clientId := secret], stage := stage))
  {
    var next := s.(server := s.server[targets[s.index].clientId := secret], stage := stage);
    forall j | 0 <= j < |targets| && j != s.index
      ensures IsDone(start, s, targets[j]) ==> IsDone(start, next, targets[j])
      ensures IsAhead(start, s, targets[j]) ==> IsAhead(start, next, targets[j])
    {
      OthersKeepServer(start, s, next, targets[j]);
    }
    assert IsAhead(start, s, targets[s.index]);
  }

  lemma OthersKeepServer(start: State, s: State, next: State, t: Target)
    requires next.file == s.file && (t.clientId in next.server <==> t.clientId in s.server)
    requires t.clientId in s.server ==> next.server[t.clientId] == s.server[t.clientId]
    ensures IsDone(start, s, t) ==> IsDone(start, next, t)
    ensures IsAhead(start, s, t) ==> IsAhead(start, next, t)
  {
  }

  /** The file has it too, and says the same of every other target. */
  lemma PersistKeeps(targets: seq<Target>, start: State, s: State, file: string)
    requires AreDistinct(targets) && Invariant(targets, start, s) && s.index < |targets| && s.stage.Persisting?
    requires IsOnce(s.file, targets[s.index])
    requires IsWellWritten(Lines(s.file), Lines(file), targets[s.index].envKey, s.stage.secret)
    ensures Invariant(targets, start, s.(file := file, stage := Checking))
  {
    var next := s.(file := file, stage := Checking);
    forall j | 0 <= j < s.index ensures IsDone(start, next, targets[j]) {
      assert targets[j].envKey != targets[s.index].envKey && IsDone(start, s, targets[j]);
    }
    forall j | s.index < j < |targets| ensures IsAhead(start, next, targets[j]) {
      assert targets[j].envKey != targets[s.index].envKey && IsAhead(start, s, targets[j]);
    }
  }

  /** Nothing that is said of a target looks at the loop's own position. */
  lemma DoneElsewhere(targets: seq<Target>, start: State, s: State, next: State, n: nat)
    requires AreDone(targets, start, s, n) && next.file == s.file && next.server == s.server
    ensures AreDone(targets, start, next, n)
  {
    forall j | 0 <= j < n && j < |targets| ensures IsDone(start, next, targets[j]) {
      OthersKeepServer(start, s, next, targets[j]);
    }
  }

  lemma AheadElsewhere(targets: seq<Target>, start: State, s: State, next: State, n: nat)
    requires AreAhead(targets, start, s, n) && next.file == s.file && next.server == s.server
    ensures AreAhead(targets, start, next, n)
  {
    forall j | n <= j < |targets| ensures IsAhead(start, next, targets[j]) {
      OthersKeepServer(start, s, next, targets[j]);
    }
  }

  lemma DoneFurther(targets: seq<Target>, start: State, s: State, n: nat)
    requires n < |targets| && AreDone(targets, start, s, n) && IsDone(start, s, targets[n])
    ensures AreDone(targets, start, s, n + 1)
  {
  }

  lemma AheadFurther(targets: seq<Target>, start: State, s: State, n: nat)
    requires AreAhead(targets, start, s, n)
    ensures AreAhead(targets, start, s, n + 1) && (n < |targets| ==> IsAhead(start, s, targets[n]))
  {
  }

  lemma PassKeeps(targets: seq<Target>, start: State, s: State)
    requires Invariant(targets, start, s) && s.index < |targets| && s.stage.Checking?
    ensures Invariant(targets, start, s.(index := s.index + 1, stage := Rotating))
  {
    var next := s.(index := s.index + 1, stage := Rotating);
    DoneFurther(targets, start, s, s.index);
    DoneElsewhere(targets, start, s, next, next.index);
    AheadElsewhere(targets, start, s, next, next.index);
    AheadFurther(targets, start, next, next.index);
  }

  lemma StopKeeps(targets: seq<Target>, start: State, s: State)
    requires Invariant(targets, start, s)
    ensures Invariant(targets, start, s.(stage := Stopped))
  {
    DoneElsewhere(targets, start, s, s.(stage := Stopped), s.index);
    AheadElsewhere(targets, start, s, s.(stage := Stopped), s.index + 1);
  }

  lemma StepKeeps(targets: seq<Target>, start: State, s: State, a: Action)
    requires AreDistinct(targets) && Invariant(targets, start, s) && Step(targets, s, a).Some?
    requires a.Rotate? ==> IsStorable(a.secret)
    requires a.Persist? && IsOnce(s.file, targets[s.index]) ==> IsSteady(Lines(s.file), targets[s.index].envKey)
    ensures Invariant(targets, start, Step(targets, s, a).value)
  {
    StopKeeps(targets, start, s);
    match a
    case Rotate(secret, answered) =>
      RotateKeeps(targets, start, s, secret, if answered && |secret| >= 16 then Persisting(secret) else Stopped);
    case Persist =>
      var key, secret := targets[s.index].envKey, s.stage.secret;
      RewriteSucceeds(s.file, key, secret);
      if Rewrite(s.file, map[key := secret]).Ok? {
        WriteIsExact(s.file, key, secret);
        PersistKeeps(targets, start, s, Rewrite(s.file, map[key := secret]).value);
      }
    case Pass => PassKeeps(targets, start, s);
    case Stop =>
  }

  lemma InProgressIsReached(targets: seq<Target>, start: State, s: State)
    requires Invariant(targets, start, s) && s.index < |targets| && IsOnce(start.file, targets[s.index])
    ensures IsFound(targets, start.file, s.index)
  {
    forall i | 0 <= i < s.index ensures IsOnce(start.file, targets[i]) {
      assert IsDone(start, s, targets[i]);
    }
  }

  /** The entry about to be written is one the loop can reach. */
  lemma InProgressIsFound(targets: seq<Target>, start: State, s: State)
    requires Invariant(targets, start, s) && s.index < |targets| && s.stage.Persisting? && IsOnce(s.file, targets[s.index])
    requires IsSteadyWhereFound(targets, start.file)
    ensures IsSteady(Lines(s.file), targets[s.index].envKey)
  {
    var t := targets[s.index];
    assert IsInProgress(start, s, t);
    assert IsOnce(start.file, t) && IsAsSteady(start, s, t);
    InProgressIsReached(targets, start, s);
  }

  lemma {:induction false} RunKeeps(targets: seq<Target>, start: State, run: seq<Action>)
    requires AreDistinct(targets) && IsStart(start) && IsSteadyWhereFound(targets, start.file) && IsStorableRun(run)
    requires Execute(targets, start, run).Some?
    ensures Invariant(targets, start, Execute(targets, start, run).value)
    decreases |run|
  {
    if run != [] {
      var n := |run| - 1;
      RunKeeps(targets, start, run[..n]);
      var s := Execute(targets, start, run[..n]).value;
      assert run[n] in run;
      if run[n].Persist? && IsOnce(s.file, targets[s.index]) {
        InProgressIsFound(targets, start, s);
      }
      StepKeeps(targets, start, s, run[n]);
    }
  }

  lemma InvariantIsSafe(targets: seq<Target>, start: State, s: State)
    requires Invariant(targets, start, s)
    ensures IsSafe(targets, start, s)
  {
    forall j | 0 <= j < |targets|
      ensures (j < s.index ==> Agrees(s, targets[j])) && (s.index < j ==> IsUntouched(start, s, targets[j]))
    {
      assert j < s.index ==> IsDone(start, s, targets[j]);
      assert s.index < j ==> IsAhead(start, s, targets[j]);
    }
  }

  /**
   Wherever a run stops, every earlier client's secret is in the file, every later client is as
   it was, and so, if server and file agreed at the start, at most the client in progress differs.
   */
  lemma StopsSafely(targets: seq<Target>, start: State, run: seq<Action>, j: nat)
    requires AreDistinct(targets) && IsStart(start) && j < |targets|
    ensures IsSteadyWhereFound(targets, start.file) && IsStorableRun(run) && Execute(targets, start, run).Some? ==>
              var s := Execute(targets, start, run).value;
              IsSafe(targets, start, s) && (Agrees(start, targets[j]) && j != s.index ==> Agrees(s, targets[j]))
  {
    if IsSteadyWhereFound(targets, start.file) && IsStorableRun(run) && Execute(targets, start, run).Some? {
      RunKeeps(targets, start, run);
      InvariantIsSafe(targets, start, Execute(targets, start, run).value);
    }
  }

  /** Only an answered secret of at least 16 characters is ever written, and only in its own turn. */
  lemma {:induction false} WritesAreLong(targets: seq<Target>, start: State, run: seq<Action>)
    requires IsStart(start) && Execute(targets, start, run).Some?
    ensures var s := Execute(targets, start, run).value; s.stage.Persisting? ==> |s.stage.secret| >= 16
    decreases |run|
  {
    if run != [] {
      WritesAreLong(targets, start, run[..|run| - 1]);
    }
  }

  // ----- exactly when -----

  ghost function Sample(): (secret: string)
    ensures |secret| == 16 && IsStorable(secret) && !EndsInBreak(secret)
  {
    seq(16, _ => 'x')
  }

  lemma ExecuteOneMore(targets: seq<Target>, start: State, run: seq<Action>, a: Action)
    requires Execute(targets, start, run).Some?
    ensures Execute(targets, start, run + [a]) == Step(targets, Execute(targets, start, run).value, a)
  {
    assert (run + [a])[..|run|] == run;
  }

  ghost function Turned(targets: seq<Target>, s: State): State
    requires s.index < |targets| && Rewrite(s.file, map[targets[s.index].envKey := Sample()]).Ok?
  {
    Written(targets[s.index], s, Rewrite(s.file, map[targets[s.index].envKey := Sample()]).value)
      .(index := s.index + 1, stage := Rotating)
  }

  ghost function Written(t: Target, s: State, out: string): State {
    s.(server := s.server[t.clientId := Sample()], file := out, stage := Checking)
  }

  /** The rotation is answered and its secret written. */
  lemma Write(targets: seq<Target>, start: State, run: seq<Action>, s: State, out: string) returns (more: seq<Action>)
    requires Execute(targets, start, run) == Some(s) && IsStorableRun(run) && s.index < |targets| && s.stage.Rotating?
    requires Rewrite(s.file, map[targets[s.index].envKey := Sample()]) == Ok(out)
    ensures IsStorableRun(more) && Execute(targets, start, more) == Some(Written(targets[s.index], s, out))
  {
    var rotate := Rotate(Sample(), true);
    ExecuteOneMore(targets, start, run, rotate);
    StepRotates(targets, s, Sample());
    ExecuteOneMore(targets, start, run + [rotate], Persist);
    StepPersists(targets, s.(server := s.server[targets[s.index].clientId := Sample()], stage := Persisting(Sample())), out);
    StorableMore(run, rotate);
    StorableMore(run + [rotate], Persist);
    more := run + [rotate] + [Persist];
  }

  lemma StepRotates(targets: seq<Target>, s: State, secret: string)
    requires s.index < |targets| && s.stage.Rotating? && |secret| >= 16
    ensures Step(targets, s, Rotate(secret, true))
         == Some(s.(server := s.server[targets[s.index].clientId := secret], stage := Persisting(secret)))
  {
  }

  lemma StepPersists(targets: seq<Target>, s: State, out: string)
    requires s.index < |targets| && s.stage.Persisting? && Rewrite(s.file, map[targets[s.index].envKey := s.stage.secret]) == Ok(out)
    ensures Step(targets, s, Persist) == Some(s.(file := out, stage := Checking))
  {
  }

  lemma StepPasses(targets: seq<Target>, s: State)
    requires s.index < |targets| && s.stage.Checking?
    ensures Step(targets, s, Pass) == Some(s.(index := s.index + 1, stage := Rotating))
  {
  }

  /** One turn of the loop in which everything is answered. */
  lemma OneTurn(targets: seq<Target>, start: State, run: seq<Action>, s: State) returns (more: seq<Action>)
    requires Execute(targets, start, run) == Some(s) && IsStorableRun(run) && s.index < |targets| && s.stage.Rotating?
    requires Rewrite(s.file, map[targets[s.index].envKey := Sample()]).Ok?
    ensures IsStorableRun(more) && Execute(targets, start, more) == Some(Turned(targets, s))
  {
    more := TurnTo(targets, start, run, s, Rewrite(s.file, map[targets[s.index].envKey := Sample()]).value);
  }

  lemma TurnTo(targets: seq<Target>, start: State, run: seq<Action>, s: State, out: string) returns (more: seq<Action>)
    requires Execute(targets, start, run) == Some(s) && IsStorableRun(run) && s.index < |targets| && s.stage.Rotating?
    requires Rewrite(s.file, map[targets[s.index].envKey := Sample()]) == Ok(out)
    ensures IsStorableRun(more)
    ensures Execute(targets, start, more) == Some(Written(targets[s.index], s, out).(index := s.index + 1, stage := Rotating))
  {
    more := Write(targets, start, run, s, out);
    var written := Written(targets[s.index], s, out);
    ExecuteOneMore(targets, start, more, Pass);
    StepPasses(targets, written);
    StorableMore(more, Pass);
    more := more + [Pass];
  }

  lemma StorableMore(run: seq<Action>, a: Action)
    requires IsStorableRun(run) && (a.Rotate? ==> IsStorable(a.secret))
    ensures IsStorableRun(run + [a])
  {
  }

  lemma WrittenKeeps(targets: seq<Target>, start: State, s: State, out: string)
    requires AreDistinct(targets) && Invariant(targets, start, s) && s.index < |targets| && s.stage.Rotating?
    requires IsOnce(s.file, targets[s.index]) && IsWellWritten(Lines(s.file), Lines(out), targets[s.index].envKey, Sample())
    ensures Invariant(targets, start, Written(targets[s.index], s, out))
  {
    RotateKeeps(targets, start, s, Sample(), Persisting(Sample()));
    var rotated := s.(server := s.server[targets[s.index].clientId := Sample()], stage := Persisting(Sample()));
    PersistKeeps(targets, start, rotated, out);
    assert rotated.(file := out, stage := Checking) == Written(targets[s.index], s, out);
  }

  lemma SampleIsWritten(file: string, key: string)
    requires |Values(Lines(file), key)| == 1 && IsSteady(Lines(file), key)
    ensures Rewrite(file, map[key := Sample()]).Ok?
    ensures IsWellWritten(Lines(file), Lines(Rewrite(file, map[key := Sample()]).value), key, Sample())
  {
    RewriteSucceeds(file, key, Sample());
    WriteIsExact(file, key, Sample());
  }

  lemma TurnKeeps(targets: seq<Target>, start: State, s: State)
    requires AreDistinct(targets) && Invariant(targets, start, s) && s.index < |targets| && s.stage.Rotating?
    requires IsOnce(s.file, targets[s.index]) && IsSteady(Lines(s.file), targets[s.index].envKey)
    ensures Rewrite(s.file, map[targets[s.index].envKey := Sample()]).Ok?
    ensures Invariant(targets, start, Turned(targets, s))
  {
    var t := targets[s.index];
    SampleIsWritten(s.file, t.envKey);
    var out := Rewrite(s.file, map[t.envKey := Sample()]).value;
    WrittenKeeps(targets, start, s, out);
    PassKeeps(targets, start, Written(t, s, out));
  }

  /** The loop gets to client `j` when all before it occur once and keep to their lines. */
  lemma {:induction false} ReachClient(targets: seq<Target>, start: State, j: nat) returns (run: seq<Action>)
    requires AreDistinct(targets) && IsStart(start) && j <= |targets|
    requires forall i | 0 <= i < j :: IsOnce(start.file, targets[i]) && IsSteady(Lines(start.file), targets[i].envKey)
    ensures IsStorableRun(run) && Execute(targets, start, run).Some?
    ensures var s := Execute(targets, start, run).value; Invariant(targets, start, s) && s.index == j && s.stage.Rotating?
  {
    if j == 0 {
      run := [];
    } else {
      run := ReachClient(targets, start, j - 1);
      var s := Execute(targets, start, run).value;
      assert IsInProgress(start, s, targets[j - 1]) && IsOnce(start.file, targets[j - 1]);
      TurnKeeps(targets, start, s);
      run := OneTurn(targets, start, run, s);
    }
  }

  lemma {:induction false} FirstUnsteady(targets: seq<Target>, file: string, j: nat) returns (k: nat)
    requires j < |targets| && IsFound(targets, file, j) && !IsSteady(Lines(file), targets[j].envKey)
    ensures k <= j && IsFound(targets, file, k) && !IsSteady(Lines(file), targets[k].envKey)
    ensures forall i | 0 <= i < k :: IsSteady(Lines(file), targets[i].envKey)
    decreases j
  {
    k := j;
    if i: nat :| i < j && !IsSteady(Lines(file), targets[i].envKey) {
      k := FirstUnsteady(targets, file, i);
    }
  }

  /** An entry that does not keep to its line loses the secret just written to it. */
  lemma UnsteadyBreaks(targets: seq<Target>, start: State, j: nat) returns (run: seq<Action>)
    requires AreDistinct(targets) && IsStart(start) && j < |targets| && IsFound(targets, start.file, j)
    requires !IsSteady(Lines(start.file), targets[j].envKey)
    ensures IsStorableRun(run) && Execute(targets, start, run).Some?
    ensures !IsSafe(targets, start, Execute(targets, start, run).value)
  {
    var k := FirstUnsteady(targets, start.file, j);
    run := ReachClient(targets, start, k);
    var s := Execute(targets, start, run).value;
    var t := targets[k];
    assert IsInProgress(start, s, t) && IsOnce(start.file, t);
    RewriteSucceeds(s.file, t.envKey, Sample());
    WriteIsExact(s.file, t.envKey, Sample());
    run := OneTurn(targets, start, run, s);
    assert !Agrees(Turned(targets, s), t);
  }

  ghost predicate IsAlwaysSafe(targets: seq<Target>, start: State) {
    forall run | IsStorableRun(run) && Execute(targets, start, run).Some? ::
      IsSafe(targets, start, Execute(targets, start, run).value)
  }

  /** Every run is safe at every point exactly when each entry that the loop can write keeps to its line. */
  lemma SafetyIsExact(targets: seq<Target>, start: State)
    requires AreDistinct(targets) && IsStart(start)
    ensures IsAlwaysSafe(targets, start) <==> IsSteadyWhereFound(targets, start.file)
  {
    if IsSteadyWhereFound(targets, start.file) {
      forall run | IsStorableRun(run) && Execute(targets, start, run).Some?
        ensures IsSafe(targets, start, Execute(targets, start, run).value)
      {
        RunKeeps(targets, start, run);
        InvariantIsSafe(targets, start, Execute(targets, start, run).value);
      }
    } else {
      var j: nat :| j < |targets| && IsFound(targets, start.file, j) && !IsSteady(Lines(start.file), targets[j].envKey);
      var run := UnsteadyBreaks(targets, start, j);
      assert !IsSafe(targets, start, Execute(targets, start, run).value);
    }
  }

  // ----- a run that touches a later client -----

  lemma TwoLines(line: string, next: string, key: string, other: string) returns (out: string)
    requires AreWhole([line, next]) && Ending(line) == "" && key != other
    requires KeyOf(line) == Some(key) && KeyOf(next) == Some(other)
    ensures Rewrite(Join([line, next]), map[key := Sample()]) == Ok(out)
    ensures |Values(Lines(Join([line, next])), other)| == 1 && Values(Lines(out), other) == []
  {
    var lines, secret := [line, next], Sample();
    var p := Place([], line, [next]);
    LinesReadBack(lines);
    RestIsWhole(lines);
    assert lines[1..] == [next] && [next] + [] == [next] && lines == [line] + [next];
    forall k ensures Values(lines, k) == Said(line, k) + Said(next, k) && Values([next], k) == Said(next, k) {
      FirstValues(line, [next], k);
      FirstValues(next, [], k);
    }
    PlaceFirst(line, [next], key);
    RewriteSucceeds(Join(lines), key, secret);
    RewrittenLines(lines, map[key := secret]);
    out := Rewrite(Join(lines), map[key := secret]).value;
    NeighbourIsLost(p, lines, key, secret, other);
    WrittenLines(p, lines, key, secret);
  }

  lemma NeighbourTouched(targets: seq<Target>, start: State, line: string, next: string) returns (run: seq<Action>)
    requires |targets| == 2 && targets[0].envKey != targets[1].envKey && IsStart(start) && start.file == Join([line, next])
    requires AreWhole([line, next]) && Ending(line) == ""
    requires KeyOf(line) == Some(targets[0].envKey) && KeyOf(next) == Some(targets[1].envKey)
    ensures IsStorableRun(run) && Execute(targets, start, run).Some?
    ensures var s := Execute(targets, start, run).value;
            s.index == 0 && IsOnce(start.file, targets[1]) && Values(Lines(s.file), targets[1].envKey) == []
  {
    var out := TwoLines(line, next, targets[0].envKey, targets[1].envKey);
    run := Write(targets, start, [], start, out);
  }

  lemma StrayLines(line: string, next: string)
    requires line == "A=\U{000B}" && next == "B="
    ensures KeyOf(line) == Some("A") && KeyOf(next) == Some("B") && AreWhole([line, next]) && Ending(line) == ""
  {
    StrayKeys();
    BareKey('B');
    assert next == ['B'] + "=" && "B" == ['B'];
    StrayIsWhole(line, next);
  }

  lemma StrayIsWhole(line: string, next: string)
    requires line == "A=\U{000B}" && next == "B="
    ensures AreWhole([line, next]) && Ending(line) == ""
  {
    assert IsWhole(line, false) && IsWhole(next, true);
  }

  lemma TwoTargets(targets: seq<Target>)
    requires targets == [Target("a", "A"), Target("b", "B")]
    ensures AreDistinct(targets) && targets[0].envKey != targets[1].envKey
  {
    assert "A" != "B" && "a" != "b";
  }

  /** Two clients, the entry of the first ended by a vertical tab: writing it takes the second's entry away. */
  lemma LaterClientTouched() returns (targets: seq<Target>, start: State, run: seq<Action>)
    ensures AreDistinct(targets) && IsStart(start) && IsStorableRun(run) && |targets| == 2
    ensures Execute(targets, start, run).Some?
    ensures var s := Execute(targets, start, run).value;
            s.index == 0 && IsOnce(start.file, targets[1]) && Values(Lines(s.file), targets[1].envKey) == []
  {
    var line, next := "A=\U{000B}", "B=";
    targets := [Target("a", "A"), Target("b", "B")];
    start := State(map[], Join([line, next]), 0, Rotating);
    StrayLines(line, next);
    TwoTargets(targets);
    run := NeighbourTouched(targets, start, line, next);
  }

  /** A secret whose further lines name a later client's key gives that key another value, and so makes its own rotation fail. */
  lemma SecretNamesLaterClient(targets: seq<Target>, start: State, secret: string, j: nat) returns (run: seq<Action>)
    requires AreDistinct(targets) && IsStart(start) && 0 < j < |targets| && |secret| >= 16
    requires IsOnce(start.file, targets[0]) && IsEnded(Lines(start.file), targets[0].envKey)
    ensures Execute(targets, start, run).Some?
    ensures var s := Execute(targets, start, run).value;
            s.index == 0
            && |Values(Lines(s.file), targets[j].envKey)|
               == |Values(Lines(start.file), targets[j].envKey)| + |Values(Rest(Lines(secret)), targets[j].envKey)|
            && (Values(Rest(Lines(secret)), targets[j].envKey) != [] ==> !IsSafe(targets, start, s))
  {
    var key, other := targets[0].envKey, targets[j].envKey;
    RewriteSucceeds(start.file, key, secret);
    OthersAreExact(start.file, key, secret);
    var out := Rewrite(start.file, map[key := secret]).value;
    assert other != key;
    assert GrowsBy(Values(Lines(start.file), other), Values(Lines(out), other), Values(Rest(Lines(secret)), other));
    run := WriteAny(targets, start, secret, out);
    assert !IsUntouched(start, Execute(targets, start, run).value, targets[j]) <==> Values(Rest(Lines(secret)), other) != [];
  }

  lemma WriteAny(targets: seq<Target>, start: State, secret: string, out: string) returns (run: seq<Action>)
    requires IsStart(start) && targets != [] && |secret| >= 16
    requires Rewrite(start.file, map[targets[0].envKey := secret]) == Ok(out)
    ensures Execute(targets, start, run)
         == Some(start.(server := start.server[targets[0].clientId := secret], file := out, stage := Checking))
  {
    var rotate := Rotate(secret, true);
    assert [] + [rotate] == [rotate];
    ExecuteOneMore(targets, start, [], rotate);
    StepRotates(targets, start, secret);
    ExecuteOneMore(targets, start, [rotate], Persist);
    StepPersists(targets, start.(server := start.server[targets[0].clientId := secret], stage := Persisting(secret)), out);
    run := [rotate] + [Persist];
  }

  /** There is such a secret: it names `B` on its second line. */
  lemma NamingSecret() returns (secret: string)
    ensures |secret| >= 16 && |Values(Rest(Lines(secret)), "B")| == 1 && !IsStorable(secret)
  {
    var first, next := Sample() + "\n", "B=";
    secret := first + next;
    assert secret[16] == '\n' && '\n' in secret;
    StorableIsWhole(Sample());
    PlainLine(Sample());
    assert AreWhole([first, next]) by {
      assert IsWhole(first, false) && IsWhole(next, true);
    }
    LinesReadBack([first, next]);
    assert Join([next]) == next && Join([first, next]) == secret by {
      JoinOne(next);
      assert [first, next][1..] == [next];
    }
    BareKey('B');
    assert next == ['B'] + "=" && "B" == ['B'] && [next] + [] == [next];
    FirstValues(next, [], "B");
    assert Rest([first, next]) == [next];
  }
}
