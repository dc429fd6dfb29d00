/**
 The CHECK constraints of the project-work migrations as expressions of `SqlLogic`, and exactly
 which rows each table admits. The migrations are the files under alembic/versions whose
 revisions end in 52, 53, 54, 57, 58 and 62.
 */
module RowChecks {

  import opened Common
  import opened SqlLogic

  function Is(column: string, text: string): Check {
    TextEq(TextOf(column), TextLiteral(text))
  }

  function HasLength(column: string, n: int): Check {
    IntEq(Length(TextOf(column)), IntLiteral(n))
  }

  function IsVersion(column: string): Check {
    AtLeast(IntOf(column), IntLiteral(1))
  }

  predicate TextIs(row: Row, column: string, text: string) {
    column in row.texts && row.texts[column] == text
  }

  predicate NoneIn(columns: seq<Column>, row: Row) {
    forall c <- columns :: !IsPresent(c, row)
  }

  /** Comparisons of one column with a constant need only that column. */
  lemma ColumnGuards(column: string, text: string, n: int, known: set<Column>)
    ensures Text(column) in known ==> IsGuarded(Is(column, text), known) && IsGuarded(HasLength(column, n), known)
    ensures Int(column) in known ==> IsGuarded(IsVersion(column), known)
  {
  }

  // ----- revision 52: runs bound to team agents -----

  const TASK_IDENTITY := [
    Text("process_id"), Text("team_agent_id"), Text("work_node_id"), Text("team_task_id"),
    Text("orchestration_decision_id"), Text("initiated_by_principal_id"), Text("executed_as_principal_id"),
    Text("delegation_scope_digest"), Int("execution_attempt"), Text("capacity_reservation_id"),
    Text("project_budget_reservation_id")]

  const ACCOUNT_IDENTITY := [Text("created_by"), Text("mode")]

  function LegacyIdentityCheck(): Check {
    Or(Is("run_kind", "task_execution"), Present(ACCOUNT_IDENTITY))
  }

  function ExecutesAsTeamAgent(): Check {
    TextEq(TextOf("executed_as_principal_id"), Concat(TextLiteral("team-agent:"), TextOf("team_id")))
  }

  function TaskIdentityTerms(): seq<Check> {
    [Absent(ACCOUNT_IDENTITY), IsVersion("execution_attempt"), HasLength("delegation_scope_digest", 64),
     Is("initiated_by_principal_id", "service:project-orchestrator"), ExecutesAsTeamAgent()]
  }

  function TaskExecutionCheck(): Check {
    Or(Not(Is("run_kind", "task_execution")), Conj(Present(TASK_IDENTITY), TaskIdentityTerms()))
  }

  lemma TeamAgentGuarded(known: set<Column>)
    requires Text("team_id") in known && Text("executed_as_principal_id") in known
    ensures IsGuarded(ExecutesAsTeamAgent(), known)
  {
    var left, right := TextOf("executed_as_principal_id"), Concat(TextLiteral("team-agent:"), TextOf("team_id"));
    assert TextColumns(right) == [Text("team_id")];
    assert Operands(ExecutesAsTeamAgent()) == TextColumns(left) + TextColumns(right);
  }

  lemma TaskTermsGuarded(known: set<Column>)
    requires Text("team_id") in known && forall c <- TASK_IDENTITY :: c in known
    ensures forall e <- TaskIdentityTerms() :: IsGuarded(e, known)
  {
    assert TASK_IDENTITY[5] in known && TASK_IDENTITY[6] in known && TASK_IDENTITY[7] in known && TASK_IDENTITY[8] in known;
    ColumnGuards("execution_attempt", "", 0, known);
    ColumnGuards("delegation_scope_digest", "", 64, known);
    ColumnGuards("initiated_by_principal_id", "service:project-orchestrator", 0, known);
    TeamAgentGuarded(known);
    assert IsGuarded(Absent(ACCOUNT_IDENTITY), known);
    FiveGuarded(Absent(ACCOUNT_IDENTITY), IsVersion("execution_attempt"), HasLength("delegation_scope_digest", 64),
                Is("initiated_by_principal_id", "service:project-orchestrator"), ExecutesAsTeamAgent(), known);
  }

  lemma FiveGuarded(a: Check, b: Check, c: Check, d: Check, e: Check, known: set<Column>)
    requires IsGuarded(a, known) && IsGuarded(b, known) && IsGuarded(c, known) && IsGuarded(d, known) && IsGuarded(e, known)
    ensures forall term <- [a, b, c, d, e] :: IsGuarded(term, known)
  {
  }

  /** `run_kind` and `team_id` are declared NOT NULL. */
  lemma Revision52IsGuarded(known: set<Column>)
    requires Text("run_kind") in known && Text("team_id") in known
    ensures IsGuarded(TaskExecutionCheck(), known) && IsGuarded(LegacyIdentityCheck(), known)
  {
    TaskTermsGuarded(known + NotNullWhen(Present(TASK_IDENTITY), true));
    GuardedConj(Present(TASK_IDENTITY), TaskIdentityTerms(), known);
    ColumnGuards("run_kind", "task_execution", 0, known);
    GuardedOr(Not(Is("run_kind", "task_execution")), Conj(Present(TASK_IDENTITY), TaskIdentityTerms()), known);
    GuardedOr(Is("run_kind", "task_execution"), Present(ACCOUNT_IDENTITY), known);
  }

  /** A complete service identity, in two-valued logic. */
  predicate HasServiceIdentity(row: Row)
    requires "team_id" in row.texts
  {
    AllPresent(TASK_IDENTITY, row) && NoneIn(ACCOUNT_IDENTITY, row)
    && "execution_attempt" in row.ints && row.ints["execution_attempt"] >= 1
    && "delegation_scope_digest" in row.texts && |row.texts["delegation_scope_digest"]| == 64
    && TextIs(row, "initiated_by_principal_id", "service:project-orchestrator")
    && TextIs(row, "executed_as_principal_id", "team-agent:" + row.texts["team_id"])
  }

  lemma TaskTermsMean(row: Row)
    requires "team_id" in row.texts
    ensures (Eval(Present(TASK_IDENTITY), row) == True && AllTrue(TaskIdentityTerms(), row))
            <==> HasServiceIdentity(row)
  {
    var terms := TaskIdentityTerms();
    assert AllTrue(terms, row) <==>
           Eval(terms[0], row) == True && Eval(terms[1], row) == True && Eval(terms[2], row) == True
           && Eval(terms[3], row) == True && Eval(terms[4], row) == True;
    assert TextValue(Concat(TextLiteral("team-agent:"), TextOf("team_id")), row) == Some("team-agent:" + row.texts["team_id"]);
  }

  /** No incomplete service identity gets past the checks through UNKNOWN. */
  lemma Revision52Admits(row: Row)
    requires "run_kind" in row.texts && "team_id" in row.texts
    ensures Admits(TaskExecutionCheck(), row) <==> (TextIs(row, "run_kind", "task_execution") ==> HasServiceIdentity(row))
    ensures Admits(LegacyIdentityCheck(), row)
            <==> TextIs(row, "run_kind", "task_execution") || AllPresent(ACCOUNT_IDENTITY, row)
  {
    var known := {Text("run_kind"), Text("team_id")};
    Revision52IsGuarded(known);
    GuardedHasNoGap(TaskExecutionCheck(), known, row);
    GuardedHasNoGap(LegacyIdentityCheck(), known, row);
    TaskExecutionMeans(row);
  }

  lemma TaskExecutionMeans(row: Row)
    requires "run_kind" in row.texts && "team_id" in row.texts
    ensures Eval(TaskExecutionCheck(), row) == True <==> (TextIs(row, "run_kind", "task_execution") ==> HasServiceIdentity(row))
    ensures Eval(LegacyIdentityCheck(), row) == True
            <==> TextIs(row, "run_kind", "task_execution") || AllPresent(ACCOUNT_IDENTITY, row)
  {
    var kind, identity := Is("run_kind", "task_execution"), Conj(Present(TASK_IDENTITY), TaskIdentityTerms());
    ConjTrue(Present(TASK_IDENTITY), TaskIdentityTerms(), row);
    TaskTermsMean(row);
    assert Eval(kind, row) == Known(TextIs(row, "run_kind", "task_execution"));
    OrTrue(Not(kind), identity, row);
    OrTrue(kind, Present(ACCOUNT_IDENTITY), row);
  }

  /** The rows that revision 52's downgrade refuses to convert are exactly the task executions. */
  lemma DowngradeGuard52(row: Row)
    requires "run_kind" in row.texts && "team_id" in row.texts
    requires Admits(TaskExecutionCheck(), row) && Admits(LegacyIdentityCheck(), row)
    ensures TextIs(row, "run_kind", "task_execution") <==> "created_by" !in row.texts || "mode" !in row.texts
    ensures "created_by" in row.texts <==> "mode" in row.texts
  {
    Revision52Admits(row);
    assert IsPresent(ACCOUNT_IDENTITY[0], row) <==> "created_by" in row.texts;
    assert IsPresent(ACCOUNT_IDENTITY[1], row) <==> "mode" in row.texts;
  }

  // ----- revision 53: task contracts -----

  const CONTRACT_CORE := [
    Text("process_id"), Text("work_node_id"), Text("requested_capability"), Text("input_manifest_json"),
    Text("output_contract_json"), Text("verification_policy_json"), Text("autonomy_requirement")]

  const CONTRACT_REST := [Int("source_contract_version"), Text("source_decision_id"), Int("accepted_contract_version")]

  function AcceptedVersion(): Check {
    And(IntEq(IntOf("accepted_contract_version"), IntOf("source_contract_version")),
        IsVersion("accepted_contract_version"))
  }

  function ContractTerms(): seq<Check> {
    [IsVersion("source_contract_version"), Present(CONTRACT_CORE),
     Or(Absent([Int("accepted_contract_version")]), AcceptedVersion())]
  }

  function ContractCheck(): Check {
    Or(Absent(CONTRACT_CORE + CONTRACT_REST), Conj(Present([Int("source_contract_version")]), ContractTerms()))
  }

  lemma ContractTermsGuarded(known: set<Column>)
    requires Int("source_contract_version") in known
    ensures forall e <- ContractTerms() :: IsGuarded(e, known)
  {
    ColumnGuards("source_contract_version", "", 0, known);
    var more := known + NotNullWhen(Absent([Int("accepted_contract_version")]), false);
    ColumnGuards("accepted_contract_version", "", 0, more);
    GuardedWider(IsVersion("accepted_contract_version"), more,
                 more + NotNullWhen(IntEq(IntOf("accepted_contract_version"), IntOf("source_contract_version")), true));
    assert IsGuarded(AcceptedVersion(), more);
  }

  /** The nested guards over the two versions are enough: the check is never UNKNOWN. */
  lemma Revision53IsGuarded()
    ensures IsGuarded(ContractCheck(), {})
  {
    var source := Present([Int("source_contract_version")]);
    assert [Int("source_contract_version")][0] in [Int("source_contract_version")];
    ContractTermsGuarded({} + NotNullWhen(source, true));
    GuardedConj(source, ContractTerms(), {});
    GuardedOr(Absent(CONTRACT_CORE + CONTRACT_REST), Conj(source, ContractTerms()), {});
  }

  predicate HasContract(row: Row) {
    "source_contract_version" in row.ints && row.ints["source_contract_version"] >= 1
    && AllPresent(CONTRACT_CORE, row)
    && ("accepted_contract_version" in row.ints
        ==> row.ints["accepted_contract_version"] == row.ints["source_contract_version"])
  }

  lemma ContractTermsMean(row: Row)
    ensures (Eval(Present([Int("source_contract_version")]), row) == True && AllTrue(ContractTerms(), row))
            <==> HasContract(row)
  {
    var terms := ContractTerms();
    assert AllTrue(terms, row) <==>
           Eval(terms[0], row) == True && Eval(terms[1], row) == True && Eval(terms[2], row) == True;
    assert IsPresent([Int("source_contract_version")][0], row) <==> "source_contract_version" in row.ints;
    AcceptedVersionMeans(row);
    assert Eval(terms[0], row) == True <==> "source_contract_version" in row.ints && row.ints["source_contract_version"] >= 1;
    assert Eval(terms[1], row) == True <==> AllPresent(CONTRACT_CORE, row);
    assert Eval(Present([Int("source_contract_version")]), row) == Known("source_contract_version" in row.ints);
  }

  lemma AcceptedVersionMeans(row: Row)
    ensures Eval(Or(Absent([Int("accepted_contract_version")]), AcceptedVersion()), row) == True <==>
            "accepted_contract_version" !in row.ints
            || ("source_contract_version" in row.ints
                && row.ints["accepted_contract_version"] == row.ints["source_contract_version"]
                && row.ints["accepted_contract_version"] >= 1)
  {
    assert IsPresent([Int("accepted_contract_version")][0], row) <==> "accepted_contract_version" in row.ints;
    OrTrue(Absent([Int("accepted_contract_version")]), AcceptedVersion(), row);
  }

  /** A task has a whole contract, whose accepted version is the current one if any, or no trace of one. */
  lemma Revision53Admits(row: Row)
    ensures Admits(ContractCheck(), row) <==> NoneIn(CONTRACT_CORE + CONTRACT_REST, row) || HasContract(row)
  {
    Revision53IsGuarded();
    GuardedHasNoGap(ContractCheck(), {}, row);
    ConjTrue(Present([Int("source_contract_version")]), ContractTerms(), row);
    ContractTermsMean(row);
  }

  /** The downgrade's search for any non-NULL contract column finds exactly the rows with a contract. */
  lemma DowngradeGuard53(row: Row)
    requires Admits(ContractCheck(), row)
    ensures !NoneIn(CONTRACT_CORE + CONTRACT_REST, row) <==> HasContract(row)
  {
    Revision53Admits(row);
    assert (CONTRACT_CORE + CONTRACT_REST)[7] == Int("source_contract_version");
    assert IsPresent((CONTRACT_CORE + CONTRACT_REST)[7], row) <==> "source_contract_version" in row.ints;
  }

  // ----- revision 54: result receipts -----

  const RECEIPT := [Text("task_result_status"), Text("task_result_json"), Text("task_result_at")]

  const RESULT_STATUSES := ["submitted", "invalid_output", "failed", "cancelled"]

  function VersionedOnlyForTasks(): Check {
    Or(Absent([Int("task_contract_version")]), And(Is("run_kind", "task_execution"), IsVersion("task_contract_version")))
  }

  function ReceiptTerms(): seq<Check> {
    [Is("run_kind", "task_execution"), TextIn(TextOf("task_result_status"), RESULT_STATUSES),
     Present([Text("task_result_json")]), Present([Text("task_result_at")])]
  }

  function ResultCheck(): Check {
    And(VersionedOnlyForTasks(), Or(Absent(RECEIPT), Conj(Present([Text("task_result_status")]), ReceiptTerms())))
  }

  lemma Revision54IsGuarded(known: set<Column>)
    requires Text("run_kind") in known
    ensures IsGuarded(ResultCheck(), known)
  {
    ColumnGuards("run_kind", "task_execution", 0, known);
    var versioned := known + NotNullWhen(Absent([Int("task_contract_version")]), false);
    ColumnGuards("run_kind", "task_execution", 0, versioned);
    var both := versioned + NotNullWhen(Is("run_kind", "task_execution"), true);
    ColumnGuards("task_contract_version", "", 0, both);
    assert IsGuarded(And(Is("run_kind", "task_execution"), IsVersion("task_contract_version")), versioned);
    assert IsGuarded(VersionedOnlyForTasks(), known);
    var status := Present([Text("task_result_status")]);
    assert [Text("task_result_status")][0] in [Text("task_result_status")];
    var more := known + NotNullWhen(status, true);
    ColumnGuards("run_kind", "task_execution", 0, more);
    assert forall e <- ReceiptTerms() :: IsGuarded(e, more);
    GuardedConj(status, ReceiptTerms(), known);
    GuardedOr(Absent(RECEIPT), Conj(status, ReceiptTerms()), known);
    GuardedWider(Or(Absent(RECEIPT), Conj(status, ReceiptTerms())), known, known + NotNullWhen(VersionedOnlyForTasks(), true));
  }

  predicate HasReceipt(row: Row) {
    AllPresent(RECEIPT, row) && TextIs(row, "run_kind", "task_execution")
    && "task_result_status" in row.texts && row.texts["task_result_status"] in RESULT_STATUSES
  }

  lemma VersionedMeans(row: Row)
    requires "run_kind" in row.texts
    ensures Eval(VersionedOnlyForTasks(), row) == True <==>
            ("task_contract_version" in row.ints ==>
               TextIs(row, "run_kind", "task_execution") && row.ints["task_contract_version"] >= 1)
  {
    assert IsPresent([Int("task_contract_version")][0], row) <==> "task_contract_version" in row.ints;
    assert Eval(Absent([Int("task_contract_version")]), row) == Known("task_contract_version" !in row.ints);
    assert Eval(Is("run_kind", "task_execution"), row) == Known(TextIs(row, "run_kind", "task_execution"));
    assert Eval(IsVersion("task_contract_version"), row) == True
           <==> "task_contract_version" in row.ints && row.ints["task_contract_version"] >= 1;
  }

  lemma ReceiptTermsMean(row: Row)
    ensures (Eval(Present([Text("task_result_status")]), row) == True && AllTrue(ReceiptTerms(), row)) <==> HasReceipt(row)
  {
    var terms := ReceiptTerms();
    assert AllTrue(terms, row) <==>
           Eval(terms[0], row) == True && Eval(terms[1], row) == True && Eval(terms[2], row) == True && Eval(terms[3], row) == True;
    assert IsPresent([Text("task_result_status")][0], row) <==> IsPresent(RECEIPT[0], row);
    assert IsPresent([Text("task_result_json")][0], row) <==> IsPresent(RECEIPT[1], row);
    assert IsPresent([Text("task_result_at")][0], row) <==> IsPresent(RECEIPT[2], row);
    assert AllPresent(RECEIPT, row) <==>
           IsPresent(RECEIPT[0], row) && IsPresent(RECEIPT[1], row) && IsPresent(RECEIPT[2], row);
  }

  /** Only task executions carry a contract version or a receipt, and a receipt is whole. */
  lemma Revision54Admits(row: Row)
    requires "run_kind" in row.texts
    ensures Admits(ResultCheck(), row) <==>
            ("task_contract_version" in row.ints ==>
               TextIs(row, "run_kind", "task_execution") && row.ints["task_contract_version"] >= 1)
            && (NoneIn(RECEIPT, row) || HasReceipt(row))
  {
    var known := {Text("run_kind")};
    Revision54IsGuarded(known);
    GuardedHasNoGap(ResultCheck(), known, row);
    VersionedMeans(row);
    ReceiptTermsMean(row);
    var receipt := Conj(Present([Text("task_result_status")]), ReceiptTerms());
    ConjTrue(Present([Text("task_result_status")]), ReceiptTerms(), row);
    assert Eval(Absent(RECEIPT), row) == Known(NoneIn(RECEIPT, row));
    assert Eval(Or(Absent(RECEIPT), receipt), row) == True <==> NoneIn(RECEIPT, row) || HasReceipt(row);
  }

  // ----- revision 62: execution tasks bound to project work -----

  const BINDING_IDS := [Text("project_id"), Text("process_id"), Text("team_task_id"), Text("work_node_id")]

  const GOVERNANCE_IDS := [Text("program_id"), Text("assignment_id")]

  function BindingTerms(): seq<Check> {
    [IsVersion("contract_version"), Absent(GOVERNANCE_IDS)]
  }

  function BindingCheck(): Check {
    Or(Absent(BINDING_IDS + [Int("contract_version")]), Conj(Present(BINDING_IDS), BindingTerms()))
  }

  predicate IsUnbound(row: Row) {
    NoneIn(BINDING_IDS, row) && "contract_version" !in row.ints
  }

  predicate IsBound(row: Row) {
    AllPresent(BINDING_IDS, row) && NoneIn(GOVERNANCE_IDS, row)
    && "contract_version" in row.ints && row.ints["contract_version"] >= 1
  }

  /** Bound to project work, but to no version of its contract. */
  predicate IsBoundToNoVersion(row: Row) {
    AllPresent(BINDING_IDS, row) && NoneIn(GOVERNANCE_IDS, row) && "contract_version" !in row.ints
  }

  lemma AbsentWithVersion(row: Row)
    ensures Eval(Absent(BINDING_IDS + [Int("contract_version")]), row) == Known(IsUnbound(row))
  {
    var all := BINDING_IDS + [Int("contract_version")];
    assert IsPresent(all[4], row) <==> "contract_version" in row.ints;
    assert forall c <- BINDING_IDS :: c in all;
  }

  /** The version comparison has no guard, so the check describes two shapes and admits a third. */
  lemma Revision62Admits(row: Row)
    ensures Eval(BindingCheck(), row) == True <==> IsUnbound(row) || IsBound(row)
    ensures Eval(BindingCheck(), row) == Unknown <==> IsBoundToNoVersion(row)
    ensures Admits(BindingCheck(), row) <==> IsUnbound(row) || IsBound(row) || IsBoundToNoVersion(row)
  {
    AbsentWithVersion(row);
    BindingTermsMean(row);
    var unbound, bound := Absent(BINDING_IDS + [Int("contract_version")]), Conj(Present(BINDING_IDS), BindingTerms());
    OrTrue(unbound, bound, row);
    AdmitsPair(unbound, bound, row);
    assert IsPresent(BINDING_IDS[0], row) ==> !NoneIn(BINDING_IDS, row);
  }

  lemma BindingTermsMean(row: Row)
    ensures Eval(Conj(Present(BINDING_IDS), BindingTerms()), row) == True <==> IsBound(row)
    ensures Eval(Conj(Present(BINDING_IDS), BindingTerms()), row) == Unknown <==> IsBoundToNoVersion(row)
  {
    var terms := BindingTerms();
    ConjTrue(Present(BINDING_IDS), terms, row);
    assert AllTrue(terms, row) <==> Eval(terms[0], row) == True && Eval(terms[1], row) == True;
    assert AnyFalse(terms, row) <==> Eval(terms[0], row) == False || Eval(terms[1], row) == False;
    assert Eval(Present(BINDING_IDS), row) == Known(AllPresent(BINDING_IDS, row));
    assert Eval(terms[1], row) == Known(NoneIn(GOVERNANCE_IDS, row));
  }

  /** The rewritten check describes the same rows and admits no others. */
  lemma Revision62Closed(row: Row)
    ensures Admits(Decide(BindingCheck(), true), row) <==> IsUnbound(row) || IsBound(row)
  {
    AdmissionGap(BindingCheck(), row);
    Revision62Admits(row);
  }

  /** A row in the gap, so the guard analysis cannot accept the check whatever it is told about NOT NULL ids. */
  lemma Revision62IsNotGuarded(known: set<Column>)
    requires forall c <- known :: c in BINDING_IDS
    ensures !IsGuarded(BindingCheck(), known)
  {
    var row := Row(map["project_id" := "p", "process_id" := "q", "team_task_id" := "t", "work_node_id" := "n"], map[]);
    assert IsBoundToNoVersion(row) by {
      assert forall c <- GOVERNANCE_IDS :: c == Text("program_id") || c == Text("assignment_id");
      assert |"program_id"| == 10 && |"assignment_id"| == 13 && "program_id"[1] == 'r' && "process_id"[3] == 'c' && "program_id"[3] == 'g';
      assert "project_id"[3] == 'j';
    }
    Revision62Admits(row);
    if IsGuarded(BindingCheck(), known) {
      GuardedIsDecided(BindingCheck(), known, row);
    }
  }

  // ----- revision 62: the partial unique index -----

  /** Two rows clash in the unique index over (process, task, version) only when all three are equal and none NULL. */
  predicate Clash(a: Row, b: Row) {
    "process_id" in a.texts && "process_id" in b.texts && a.texts["process_id"] == b.texts["process_id"]
    && "team_task_id" in a.texts && "team_task_id" in b.texts && a.texts["team_task_id"] == b.texts["team_task_id"]
    && "contract_version" in a.ints && "contract_version" in b.ints && a.ints["contract_version"] == b.ints["contract_version"]
  }

  ghost predicate IsUnique(table: seq<Row>) {
    forall i, j | 0 <= i < j < |table| :: !Clash(table[i], table[j])
  }

  ghost predicate CanInsert(table: seq<Row>, row: Row) {
    Admits(BindingCheck(), row) && IsUnique(table + [row])
  }

  /**
   A row in the gap can be inserted into any table, any number of times, so a task can be bound
   to one contract more than once; a row with a version can be inserted exactly when no other
   row carries the same process, task and version.
   */
  lemma GapEscapesUniqueness(table: seq<Row>, row: Row)
    requires IsUnique(table)
    ensures IsBoundToNoVersion(row) ==> CanInsert(table, row) && CanInsert(table + [row], row)
    ensures IsBound(row) ==> (CanInsert(table, row) <==> forall other <- table :: !Clash(other, row))
  {
    Revision62Admits(row);
    var more := table + [row];
    assert forall i | 0 <= i < |table| :: more[i] == table[i];
    assert more[|table|] == row;
    if IsBound(row) && CanInsert(table, row) {
      forall other <- table ensures !Clash(other, row) {
        var i :| 0 <= i < |table| && table[i] == other;
        assert !Clash(more[i], more[|table|]);
      }
    }
  }

  // ----- the columns by name -----

  /** A service identity is these eleven columns. */
  lemma TaskIdentityColumns(row: Row)
    ensures AllPresent(TASK_IDENTITY, row) <==>
            "process_id" in row.texts && "team_agent_id" in row.texts && "work_node_id" in row.texts
            && "team_task_id" in row.texts && "orchestration_decision_id" in row.texts
            && "initiated_by_principal_id" in row.texts && "executed_as_principal_id" in row.texts
            && "delegation_scope_digest" in row.texts && "execution_attempt" in row.ints
            && "capacity_reservation_id" in row.texts && "project_budget_reservation_id" in row.texts
  {
    TaskPlaceColumns(row);
    TaskAuthorityColumns(row);
    assert TASK_IDENTITY == TASK_IDENTITY[..6] + TASK_IDENTITY[6..];
    assert forall c <- TASK_IDENTITY :: c in TASK_IDENTITY[..6] || c in TASK_IDENTITY[6..];
  }

  lemma TaskPlaceColumns(row: Row)
    ensures AllPresent(TASK_IDENTITY[..6], row) <==>
            "process_id" in row.texts && "team_agent_id" in row.texts && "work_node_id" in row.texts
            && "team_task_id" in row.texts && "orchestration_decision_id" in row.texts && "initiated_by_principal_id" in row.texts
  {
    assert TASK_IDENTITY[..6] == [Text("process_id"), Text("team_agent_id"), Text("work_node_id"), Text("team_task_id"),
                                  Text("orchestration_decision_id"), Text("initiated_by_principal_id")];
    assert IsPresent(TASK_IDENTITY[..6][0], row) <==> "process_id" in row.texts;
    assert IsPresent(TASK_IDENTITY[..6][1], row) <==> "team_agent_id" in row.texts;
    assert IsPresent(TASK_IDENTITY[..6][2], row) <==> "work_node_id" in row.texts;
    assert IsPresent(TASK_IDENTITY[..6][3], row) <==> "team_task_id" in row.texts;
    assert IsPresent(TASK_IDENTITY[..6][4], row) <==> "orchestration_decision_id" in row.texts;
    assert IsPresent(TASK_IDENTITY[..6][5], row) <==> "initiated_by_principal_id" in row.texts;
  }

  lemma TaskAuthorityColumns(row: Row)
    ensures AllPresent(TASK_IDENTITY[6..], row) <==>
            "executed_as_principal_id" in row.texts && "delegation_scope_digest" in row.texts && "execution_attempt" in row.ints
            && "capacity_reservation_id" in row.texts && "project_budget_reservation_id" in row.texts
  {
    assert TASK_IDENTITY[6..] == [Text("executed_as_principal_id"), Text("delegation_scope_digest"), Int("execution_attempt"),
                                  Text("capacity_reservation_id"), Text("project_budget_reservation_id")];
    assert IsPresent(TASK_IDENTITY[6..][0], row) <==> "executed_as_principal_id" in row.texts;
    assert IsPresent(TASK_IDENTITY[6..][1], row) <==> "delegation_scope_digest" in row.texts;
    assert IsPresent(TASK_IDENTITY[6..][2], row) <==> "execution_attempt" in row.ints;
    assert IsPresent(TASK_IDENTITY[6..][3], row) <==> "capacity_reservation_id" in row.texts;
    assert IsPresent(TASK_IDENTITY[6..][4], row) <==> "project_budget_reservation_id" in row.texts;
  }

  /** An account is these two. */
  lemma AccountColumns(row: Row)
    ensures AllPresent(ACCOUNT_IDENTITY, row) <==>
            "created_by" in row.texts && "mode" in row.texts
    ensures NoneIn(ACCOUNT_IDENTITY, row) <==>
            "created_by" !in row.texts && "mode" !in row.texts
  {
    assert IsPresent(ACCOUNT_IDENTITY[0], row) <==> "created_by" in row.texts;
    assert IsPresent(ACCOUNT_IDENTITY[1], row) <==> "mode" in row.texts;
  }

  /** A contract has these seven columns besides its versions and its source. */
  lemma ContractCoreColumns(row: Row)
    ensures AllPresent(CONTRACT_CORE, row) <==>
            "process_id" in row.texts && "work_node_id" in row.texts && "requested_capability" in row.texts
            && "input_manifest_json" in row.texts && "output_contract_json" in row.texts
            && "verification_policy_json" in row.texts && "autonomy_requirement" in row.texts
  {
    assert IsPresent(CONTRACT_CORE[0], row) <==> "process_id" in row.texts;
    assert IsPresent(CONTRACT_CORE[1], row) <==> "work_node_id" in row.texts;
    assert IsPresent(CONTRACT_CORE[2], row) <==> "requested_capability" in row.texts;
    assert IsPresent(CONTRACT_CORE[3], row) <==> "input_manifest_json" in row.texts;
    assert IsPresent(CONTRACT_CORE[4], row) <==> "output_contract_json" in row.texts;
    assert IsPresent(CONTRACT_CORE[5], row) <==> "verification_policy_json" in row.texts;
    assert IsPresent(CONTRACT_CORE[6], row) <==> "autonomy_requirement" in row.texts;
  }

  /** No trace of a contract is none of these ten. */
  lemma ContractColumns(row: Row)
    ensures NoneIn(CONTRACT_CORE + CONTRACT_REST, row) <==>
            "process_id" !in row.texts && "work_node_id" !in row.texts && "requested_capability" !in row.texts
            && "input_manifest_json" !in row.texts && "output_contract_json" !in row.texts
            && "verification_policy_json" !in row.texts && "autonomy_requirement" !in row.texts
            && "source_contract_version" !in row.ints && "source_decision_id" !in row.texts
            && "accepted_contract_version" !in row.ints
  {
    assert IsPresent((CONTRACT_CORE + CONTRACT_REST)[0], row) <==> "process_id" in row.texts;
    assert IsPresent((CONTRACT_CORE + CONTRACT_REST)[1], row) <==> "work_node_id" in row.texts;
    assert IsPresent((CONTRACT_CORE + CONTRACT_REST)[2], row) <==> "requested_capability" in row.texts;
    assert IsPresent((CONTRACT_CORE + CONTRACT_REST)[3], row) <==> "input_manifest_json" in row.texts;
    assert IsPresent((CONTRACT_CORE + CONTRACT_REST)[4], row) <==> "output_contract_json" in row.texts;
    assert IsPresent((CONTRACT_CORE + CONTRACT_REST)[5], row) <==> "verification_policy_json" in row.texts;
    assert IsPresent((CONTRACT_CORE + CONTRACT_REST)[6], row) <==> "autonomy_requirement" in row.texts;
    assert IsPresent((CONTRACT_CORE + CONTRACT_REST)[7], row) <==> "source_contract_version" in row.ints;
    assert IsPresent((CONTRACT_CORE + CONTRACT_REST)[8], row) <==> "source_decision_id" in row.texts;
    assert IsPresent((CONTRACT_CORE + CONTRACT_REST)[9], row) <==> "accepted_contract_version" in row.ints;
  }

  /** A receipt is these three. */
  lemma ReceiptColumns(row: Row)
    ensures AllPresent(RECEIPT, row) <==>
            "task_result_status" in row.texts && "task_result_json" in row.texts && "task_result_at" in row.texts
    ensures NoneIn(RECEIPT, row) <==>
            "task_result_status" !in row.texts && "task_result_json" !in row.texts && "task_result_at" !in row.texts
  {
    assert IsPresent(RECEIPT[0], row) <==> "task_result_status" in row.texts;
    assert IsPresent(RECEIPT[1], row) <==> "task_result_json" in row.texts;
    assert IsPresent(RECEIPT[2], row) <==> "task_result_at" in row.texts;
  }

  lemma ReceiptStatuses(status: string)
    ensures status in RESULT_STATUSES
            <==> status == "submitted" || status == "invalid_output" || status == "failed" || status == "cancelled"
  {
    assert forall s <- RESULT_STATUSES :: s == RESULT_STATUSES[0] || s == RESULT_STATUSES[1] || s == RESULT_STATUSES[2] || s == RESULT_STATUSES[3];
  }

  /** A binding is these four ids. */
  lemma BindingColumns(row: Row)
    ensures AllPresent(BINDING_IDS, row) <==>
            "project_id" in row.texts && "process_id" in row.texts && "team_task_id" in row.texts
            && "work_node_id" in row.texts
    ensures NoneIn(BINDING_IDS, row) <==>
            "project_id" !in row.texts && "process_id" !in row.texts && "team_task_id" !in row.texts
            && "work_node_id" !in row.texts
  {
    assert IsPresent(BINDING_IDS[0], row) <==> "project_id" in row.texts;
    assert IsPresent(BINDING_IDS[1], row) <==> "process_id" in row.texts;
    assert IsPresent(BINDING_IDS[2], row) <==> "team_task_id" in row.texts;
    assert IsPresent(BINDING_IDS[3], row) <==> "work_node_id" in row.texts;
  }

  /** The governance ids are these two. */
  lemma GovernanceColumns(row: Row)
    ensures NoneIn(GOVERNANCE_IDS, row) <==>
            "program_id" !in row.texts && "assignment_id" !in row.texts
  {
    assert IsPresent(GOVERNANCE_IDS[0], row) <==> "program_id" in row.texts;
    assert IsPresent(GOVERNANCE_IDS[1], row) <==> "assignment_id" in row.texts;
  }

  /** So an admitted task execution has every column of a service identity, each with the value it must have, and no account. */
  lemma TaskExecutionHasAll(row: Row)
    requires "run_kind" in row.texts && "team_id" in row.texts && TextIs(row, "run_kind", "task_execution")
    ensures Admits(TaskExecutionCheck(), row) <==>
            "process_id" in row.texts && "team_agent_id" in row.texts && "work_node_id" in row.texts
            && "team_task_id" in row.texts && "orchestration_decision_id" in row.texts
            && "initiated_by_principal_id" in row.texts && "executed_as_principal_id" in row.texts
            && "delegation_scope_digest" in row.texts && "execution_attempt" in row.ints
            && "capacity_reservation_id" in row.texts && "project_budget_reservation_id" in row.texts
            && "created_by" !in row.texts && "mode" !in row.texts && row.ints["execution_attempt"] >= 1
            && |row.texts["delegation_scope_digest"]| == 64
            && row.texts["initiated_by_principal_id"] == "service:project-orchestrator"
            && row.texts["executed_as_principal_id"] == "team-agent:" + row.texts["team_id"]
  {
    Revision52Admits(row);
    TaskIdentityColumns(row);
    AccountColumns(row);
  }
}
