/**
 Agent run commands as the database keeps them: the lifecycle CHECK of revision 14, its update
 trigger, and the stronger trigger of revision 15.
 */
module CommandLifecycle {

  import opened Common
  import opened SqlLogic
  import opened RowChecks

  /** What the triggers call identity and content. */
  datatype Identity = Identity(
    tenantId: string,
    runId: string,
    sequence: int,
    commandId: string,
    commandType: string,
    requestDigest: string,
    contentCiphertext: seq<int>,
    contentNonce: seq<int>,
    contentFingerprint: string,
    contentKeyId: string,
    submittedBy: string,
    createdAt: int)

  datatype Lifecycle = Lifecycle(
    status: string,
    appliedAt: Option<int>,
    appliedRunVersion: Option<int>,
    rejectedAt: Option<int>,
    rejectionCode: Option<string>)

  datatype Command = Command(identity: Identity, lifecycle: Lifecycle)

  // ----- the CHECK constraints -----

  const APPLIED := [Int("applied_at"), Int("applied_run_version")]

  const REJECTED := [Int("rejected_at"), Text("rejection_code")]

  function LifecycleCheck(): Check {
    Or(Or(And(Is("status", "pending"), Absent(APPLIED + REJECTED)),
          And(And(Is("status", "applied"), Present(APPLIED)), Absent(REJECTED))),
       And(And(Is("status", "rejected"), Absent(APPLIED)), Present(REJECTED)))
  }

  function IntColumn(name: string, value: Option<int>): map<string, int> {
    if value.Some? then map[name := value.value] else map[]
  }

  function ToRow(l: Lifecycle): Row {
    Row((if l.rejectionCode.Some? then map["rejection_code" := l.rejectionCode.value] else map[])["status" := l.status],
        IntColumn("applied_at", l.appliedAt) + IntColumn("applied_run_version", l.appliedRunVersion)
        + IntColumn("rejected_at", l.rejectedAt))
  }

  predicate IsPending(l: Lifecycle) {
    l == Lifecycle("pending", None, None, None, None)
  }

  predicate IsApplied(l: Lifecycle) {
    l.status == "applied" && l.appliedAt.Some? && l.appliedRunVersion.Some? && l.rejectedAt.None? && l.rejectionCode.None?
  }

  predicate IsRejected(l: Lifecycle) {
    l.status == "rejected" && l.appliedAt.None? && l.appliedRunVersion.None? && l.rejectedAt.Some? && l.rejectionCode.Some?
  }

  lemma ToRowColumns(l: Lifecycle)
    ensures ToRow(l).texts.Keys == {"status"} + if l.rejectionCode.Some? then {"rejection_code"} else {}
    ensures ToRow(l).texts["status"] == l.status
    ensures IsPresent(Text("rejection_code"), ToRow(l)) <==> l.rejectionCode.Some?
    ensures IsPresent(Int("applied_at"), ToRow(l)) <==> l.appliedAt.Some?
    ensures IsPresent(Int("applied_run_version"), ToRow(l)) <==> l.appliedRunVersion.Some?
    ensures IsPresent(Int("rejected_at"), ToRow(l)) <==> l.rejectedAt.Some?
  {
    assert |"applied_at"| == 10 && |"applied_run_version"| == 19 && |"rejected_at"| == 11;
    assert |"rejection_code"| == 14 && |"status"| == 6;
  }

  /** The CHECK has no gap: it admits exactly the three shapes it spells out. */
  lemma LifecycleAdmits(l: Lifecycle)
    ensures Admits(LifecycleCheck(), ToRow(l)) <==> IsPending(l) || IsApplied(l) || IsRejected(l)
  {
    var row := ToRow(l);
    ToRowColumns(l);
    assert (APPLIED + REJECTED)[0] == APPLIED[0] && (APPLIED + REJECTED)[1] == APPLIED[1];
    assert (APPLIED + REJECTED)[2] == REJECTED[0] && (APPLIED + REJECTED)[3] == REJECTED[1];
    assert AllPresent(APPLIED, row) <==> IsPresent(APPLIED[0], row) && IsPresent(APPLIED[1], row);
    assert AllPresent(REJECTED, row) <==> IsPresent(REJECTED[0], row) && IsPresent(REJECTED[1], row);
    assert NoneIn(APPLIED, row) <==> !IsPresent(APPLIED[0], row) && !IsPresent(APPLIED[1], row);
    assert NoneIn(REJECTED, row) <==> !IsPresent(REJECTED[0], row) && !IsPresent(REJECTED[1], row);
    assert NoneIn(APPLIED + REJECTED, row) <==> NoneIn(APPLIED, row) && NoneIn(REJECTED, row);
    ThreeShapes(row);
  }

  lemma ThreeShapes(row: Row)
    requires "status" in row.texts
    ensures Admits(LifecycleCheck(), row) <==>
            (TextIs(row, "status", "pending") && NoneIn(APPLIED + REJECTED, row))
            || (TextIs(row, "status", "applied") && AllPresent(APPLIED, row) && NoneIn(REJECTED, row))
            || (TextIs(row, "status", "rejected") && NoneIn(APPLIED, row) && AllPresent(REJECTED, row))
  {
    var p, a, r := Is("status", "pending"), Is("status", "applied"), Is("status", "rejected");
    AdmitsPair(p, Absent(APPLIED + REJECTED), row);
    AdmitsPair(a, Present(APPLIED), row);
    AdmitsPair(And(a, Present(APPLIED)), Absent(REJECTED), row);
    AdmitsPair(r, Absent(APPLIED), row);
    AdmitsPair(And(r, Absent(APPLIED)), Present(REJECTED), row);
    var pending := And(p, Absent(APPLIED + REJECTED));
    var applied := And(And(a, Present(APPLIED)), Absent(REJECTED));
    var rejected := And(And(r, Absent(APPLIED)), Present(REJECTED));
    AdmitsPair(pending, applied, row);
    AdmitsPair(Or(pending, applied), rejected, row);
  }

  // ----- the triggers -----

  predicate MayAdvance(before: Command, after: Command) {
    before.lifecycle.status == after.lifecycle.status
    || (before.lifecycle.status == "pending" && after.lifecycle.status in ["applied", "rejected"])
  }

  /** The update trigger of revision 14; false stands for the raised exception. */
  predicate Trigger14(before: Command, after: Command) {
    before.identity == after.identity && MayAdvance(before, after)
  }

  /** The update trigger of revision 15. */
  predicate Trigger15(before: Command, after: Command) {
    before.identity == after.identity
    && (before.lifecycle.status == "pending" || before.lifecycle == after.lifecycle)
    && MayAdvance(before, after)
  }

  predicate IsStored(c: Command) {
    Admits(LifecycleCheck(), ToRow(c.lifecycle))
  }

  /** An update goes through when the trigger lets it and the new row satisfies the CHECK. */
  predicate Update14(before: Command, after: Command) {
    Trigger14(before, after) && IsStored(after)
  }

  predicate Update15(before: Command, after: Command) {
    Trigger15(before, after) && IsStored(after)
  }

  /** Revision 15 refuses, among the updates revision 14 lets through, exactly the changes to a terminal lifecycle. */
  lemma Revision15Refuses(before: Command, after: Command)
    ensures Update15(before, after) ==> Update14(before, after)
    ensures Update14(before, after) && !Update15(before, after)
            <==> Update14(before, after) && before.lifecycle.status != "pending" && before.lifecycle != after.lifecycle
  {
  }

  /**
   Which updates of a stored command go through: a pending one may become any pending, applied or
   rejected one of the same identity and content, and a terminal one may only stay as it is.
   */
  lemma Update15Admits(before: Command, after: Command)
    requires IsStored(before)
    ensures Update15(before, after) <==>
            before.identity == after.identity
            && if IsPending(before.lifecycle)
               then IsPending(after.lifecycle) || IsApplied(after.lifecycle) || IsRejected(after.lifecycle)
               else after.lifecycle == before.lifecycle
  {
    LifecycleAdmits(before.lifecycle);
    LifecycleAdmits(after.lifecycle);
    assert "pending" != "applied" && "pending" != "rejected" by {
      assert |"pending"| == 7 && |"rejected"| == 8 && "applied"[0] == 'a';
    }
  }

  /** Such an update exists: under revision 14 the run version of an applied command could be rewritten. */
  lemma Revision14RewritesTerminal(identity: Identity) returns (before: Command, after: Command)
    ensures IsStored(before) && Update14(before, after) && !Update15(before, after)
    ensures before.lifecycle.status == after.lifecycle.status == "applied"
    ensures before.lifecycle.appliedRunVersion != after.lifecycle.appliedRunVersion
  {
    before := Command(identity, Lifecycle("applied", Some(1), Some(1), None, None));
    after := Command(identity, Lifecycle("applied", Some(1), Some(2), None, None));
    LifecycleAdmits(before.lifecycle);
    LifecycleAdmits(after.lifecycle);
  }

  // ----- whole lives -----

  /** The successive versions of one row. */
  ghost predicate IsLife(versions: seq<Command>) {
    versions != [] && IsStored(versions[0])
    && forall i | 0 < i < |versions| :: Update15(versions[i - 1], versions[i])
  }

  predicate IsTerminal(l: Lifecycle) {
    IsApplied(l) || IsRejected(l)
  }

  /**
   Over every admitted sequence of updates the identity and content never change, the command is
   pending with no lifecycle fields for a prefix of its life, and from the first terminal version
   on its whole lifecycle stays as it is.
   */
  lemma {:induction false} LifeIsMonotone(versions: seq<Command>) returns (k: nat)
    requires IsLife(versions)
    ensures k <= |versions|
    ensures forall v <- versions :: v.identity == versions[0].identity
    ensures forall i | 0 <= i < k :: IsPending(versions[i].lifecycle)
    ensures forall i | k <= i < |versions| :: IsTerminal(versions[i].lifecycle) && versions[i].lifecycle == versions[k].lifecycle
    decreases |versions|
  {
    var n := |versions| - 1;
    LifecycleAdmits(versions[n].lifecycle);
    if n == 0 {
      k := if IsPending(versions[0].lifecycle) then 1 else 0;
    } else {
      var past := versions[..n];
      assert IsLife(past) by {
        assert forall i | 0 <= i < n :: past[i] == versions[i];
      }
      assert Update15(versions[n - 1], versions[n]);
      k := LifeIsMonotone(past);
      assert past[n - 1] in past && versions[n - 1] == past[n - 1];
      forall v <- versions ensures v.identity == versions[0].identity {
        var i :| 0 <= i < |versions| && versions[i] == v;
        if i < n { assert past[i] in past; }
      }
      assert forall i | 0 <= i < n :: past[i] == versions[i];
      if k == n && IsPending(versions[n].lifecycle) {
        k := n + 1;
      }
    }
  }

  /** The successive versions of one row under the trigger of revision 14. */
  ghost predicate IsLife14(versions: seq<Command>) {
    versions != [] && IsStored(versions[0])
    && forall i | 0 < i < |versions| :: Update14(versions[i - 1], versions[i])
  }

  /** A lifecycle that has left `pending` stays as it is. */
  ghost predicate IsFrozen(versions: seq<Command>) {
    forall i, j | 0 <= i < j < |versions| && versions[i].lifecycle.status != "pending" ::
      versions[j].lifecycle == versions[i].lifecycle
  }

  /** The lives that revision 15 admits are exactly those of revision 14 in which a terminal lifecycle never changes. */
  lemma LivesDiffer(versions: seq<Command>)
    ensures IsLife(versions) <==> IsLife14(versions) && IsFrozen(versions)
  {
    if IsLife(versions) {
      var k := LifeIsMonotone(versions);
      forall i | 0 < i < |versions| ensures Update14(versions[i - 1], versions[i]) {
        Revision15Refuses(versions[i - 1], versions[i]);
      }
    }
    if IsLife14(versions) && IsFrozen(versions) {
      forall i | 0 < i < |versions| ensures Update15(versions[i - 1], versions[i]) {
        Revision15Refuses(versions[i - 1], versions[i]);
      }
    }
  }
}
