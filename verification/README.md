# Verified model of the COIFESP harness core

This project models the parts of the COIFESP agent harness whose correctness spans several
operations, and proves what they promise.

* **The signed audit chain.** Each tenant has a hash-linked log whose rows are signed with
  rotating HMAC keys. `AuditChain` is the chain itself, `AuditLog` the head-backed log with its
  verifier, `AuditHistory` whole sequences of appends, `AuditInterleaving` several transactions
  taking the statements of appends and verifications one at a time, `AuditVerdicts` what those
  verifications find, and `SqliteAudit` the single-table SQLite log.
* **Canonical JSON and control content.** `Json` gives an independent reader of RFC 8259 that
  inverts the sorted compact printer, and with `Utf8` shows that text and bytes identify a value;
  `ControlCrypto` builds encryption, its associated data and the request digests on that.
* **Row admission in three-valued logic.** `SqlLogic` is an expression language for CHECK
  constraints with Kleene evaluation, a guard analysis and a rewriting that removes UNKNOWN.
  `RowChecks`, `DecisionChecks` and `CommandLifecycle` apply it to the migrations.
* **The foreign-key closure** that revision 54 computes, detaches and restores (`ForeignKeyClosure`).
* **Idempotency claims** by two stores and by threads (`Idempotency`), and **key configuration**
  from the environment to usable keyrings (`KeyConfig`).
* **Client-secret rotation**: the rewriting of the environment file (`EnvFile`), what writing one
  secret makes a file say of its own key (`EnvWrite`) and of the others (`EnvOthers`), and the
  loop over server and file with a stop at every point (`SecretRotation`).

Classes and loops are kept where the source has them; each such method is proved equal to a
function, and the theorems are about that function. Concurrent protocols are state machines whose
runs are arbitrary sequences of steps.

SHA-256, HMAC, HKDF, AES-GCM, Base64, `json.loads`, `str.strip` and ISO time parsing are
parameters of which nothing is assumed beyond their result types; where a result needs more, the
lemma says so (`ControlCrypto.Unseals`) or shows which of the stored or given inputs collide, are
forged or hash to the zero hash.
Clock readings, generated ids and nonces are inputs. A run may change the keyring at every append.
Results about signatures are stated for the keyrings that check them; where processes agree on the
material of each key id (a registry that issues each id once), these are the keyrings that retain
the keys used.

Results that a reader might not expect:

* Verification reads rows and head in two queries. Beside appends it reports a mismatch exactly
  when an event of its tenant was committed in between, although the chain is intact at every
  moment (`AuditVerdicts.VerdictsAreRight`, `AuditVerdicts.IntactChainReportedBroken`).
* The foreign-key context restores the schema whatever its body does, but when the body raises
  with the root still in place and the root has triggers, creating the first of them again fails,
  and that error hides the body's (`ForeignKeyClosure.ContextRestores`,
  `ForeignKeyClosure.RaisedErrorIsMasked`).
* The order by depth does not always let that context rebuild a table only when no other refers to
  it any more (`ForeignKeyClosure.DetachOrderIsExact`, `ForeignKeyClosure.RebuiltWhileReferenced`).
* The binding check of revision 62 compares `contract_version` without an IS NOT NULL guard. It
  admits a third shape, bound rows with no contract version, and these also escape the unique
  index, so the same task can be bound any number of times (`RowChecks.Revision62Admits`,
  `RowChecks.GapEscapesUniqueness`).
* In the review and delivery tables the status checks alone admit an ACCEPTED row with no
  decision; only together with the decision-fields check do they describe their rows.
* The update trigger of revision 14 let the lifecycle fields of an applied command be rewritten.
* `replace_env_values` reads with universal newlines, so its `\r\n` branch is never taken and a
  file with carriage returns comes back without them. A named line that ends in another character
  that `str.splitlines` breaks at (a vertical tab, say) loses it and runs into the next line, which
  can take a later client's entry away (`SecretRotation.LaterClientTouched`).
  `EnvWrite.WriteIsExact` says for every file and secret when the secret is held afterwards, and
  `SecretRotation.SafetyIsExact` for which files the whole loop is safe. A value ending in a line
  feed can grow the file at every rewriting (`EnvFile.LineFeedGrowsFile`), and one with further
  lines can name other keys (`EnvOthers.OthersAreExact`, `SecretRotation.SecretNamesLaterClient`).
* Deleting the newest rows of the single-table SQLite log goes unnoticed; with a head row no loss does.

## Model

| member | source | states |
|---|---|---|
| Json.SortedKeys | src/coifesp_harness/postgres_audit.py:374-383 | The keys of an object in the one strictly increasing order, none missing and none added |
| Json.DigitsDenote | src/coifesp_harness/postgres_audit.py:374-383 | The printed decimal digits denote the number they were printed from, so no two numbers print alike |
| Json.DecodeLiteralInverts | src/coifesp_harness/postgres_audit.py:374-383 | An escaped string literal, with any text after it, decodes to the string and that text, with and without ASCII escaping |
| Json.QuoteUnique | src/coifesp_harness/postgres_audit.py:374-383 | Quoted strings are prefix-free: equal texts that begin with two quoted strings begin with the same one |
| Json.PrintUnique | src/coifesp_harness/postgres_audit.py:374-383 | A printed value followed by a delimiter or the end can be cut off in one way only, containers included |
| Json.ParseInverts | src/coifesp_harness/postgres_audit.py:374-383 | An independent reader of RFC 8259, which accepts neither white space between tokens nor names out of strictly increasing order, gives every printed value back |
| Json.AsciiFlag | src/coifesp_harness/agent_runs/control_crypto.py:167-188 | With ASCII escaping every printed character is a printable ASCII one; without it, text that needs no escape is printed as it is |
| Json.DumpsInjective | src/coifesp_harness/postgres_audit.py:374-383 | Two string-keyed JSON values print alike if and only if they are equal |
| Utf8.DecodeInverts | src/coifesp_harness/agent_runs/control_crypto.py:60-104 | Decoding the UTF-8 bytes of a text gives the text back |
| Utf8.DecodeStrict | src/coifesp_harness/agent_runs/control_crypto.py:103-106 | The strict decoder accepts nothing but what the encoder produces |
| Utf8.EncodeInjective | src/coifesp_harness/postgres_audit.py:243-243 | Different texts have different bytes, so a collision of hashed texts is a collision of byte strings |
| AuditChain.NormalizedTwice | src/coifesp_harness/audit.py:32-42 | The second call of `normalized`, with another fresh id and a later clock, changes nothing |
| AuditChain.NormalizedFills | src/coifesp_harness/audit.py:32-42 | What an event gives stays, and a missing id or time is filled in from its own source |
| AuditChain.PayloadReads | src/coifesp_harness/postgres_audit.py:204-204 | Whoever reads the stored payload finds each of the eight fields under its own name, and no other name |
| AuditChain.PayloadInjective | src/coifesp_harness/postgres_audit.py:204-204 | Two events have the same stored payload if and only if all eight fields are equal |
| AuditChain.LinkInputUnique | src/coifesp_harness/postgres_audit.py:243-243 | With previous hashes of equal length the hashed text determines both the previous hash and the payload |
| AuditChain.SameEndSameLinks | src/coifesp_harness/postgres_audit.py:298-315 | Linked chains of equal length ending in the same hash are equal, or at some position their two stored links have different inputs with one SHA-256 digest, which are returned |
| AuditChain.RecurringHash | src/coifesp_harness/audit.py:118-142 | A hash that recurs at two depths of one chain yields two of its own links whose inputs collide, or one whose input hashes to the zero hash |
| AuditChain.DeletionIsEvident | src/coifesp_harness/audit.py:118-142 | Dropping any link that a kept link follows breaks the linking, or links of the full chain break the hash, and their inputs are returned |
| AuditLog.NewKeyring | src/coifesp_harness/postgres_audit.py:104-118 | Construction succeeds exactly for valid ids, an available active key and keys of at least 32 bytes, and keeps all of them |
| AuditLog.SignedTextUnique | src/coifesp_harness/postgres_audit.py:130-153 | With hashes of equal length the signed text determines both the key id and the hash |
| AuditLog.ScreenAccepts | src/coifesp_harness/postgres_audit.py:202-207 | Exactly the valid events with a payload of at most 65536 bytes and a readable time get as far as the database, with that payload and time |
| AuditLog.AdmitsIsConstraint | src/coifesp_harness/postgres_audit.py:65-93 | A row is admitted exactly when the declared keys, uniqueness and checks hold of the whole table with it |
| AuditLog.RowsProblemMeans | src/coifesp_harness/postgres_audit.py:298-315 | The verifier's loop finds no problem if and only if every row is in sequence, linked, hashed and signed |
| AuditLog.VerifyAccepts | src/coifesp_harness/postgres_audit.py:276-323 | The verifier accepts exactly the contiguous, linked, signed chains that the head describes, and returns their length |
| AuditLog.NextRowFits | src/coifesp_harness/postgres_audit.py:241-267 | In a well-formed partition a new event passes the primary key, uniqueness, length and sign checks, goes to the end and leaves a well-formed partition |
| AuditLog.StoreKeeps | src/coifesp_harness/postgres_audit.py:210-270 | Storing never fails on a constraint, only extends the chain, fills every column from its own event, signs with the active key, accepts an id exactly when new or stored with the same payload, and keeps the partition well formed |
| AuditLog.StoredIds | src/coifesp_harness/postgres_audit.py:221-258 | Exactly the stored id is added to the ids on file |
| AuditLog.WellFormedVerifies | src/coifesp_harness/postgres_audit.py:298-323 | A well-formed chain verifies with its length under exactly the keyrings that check every stored signature, and yields a signature error under every other |
| AuditLog.TornReadVerdict | src/coifesp_harness/postgres_audit.py:283-323 | The rows of one moment under the head of a later one: a signature error, the length when the chain did not grow in between, and a head mismatch exactly when it did |
| AuditLog.StoredIsSigned | src/coifesp_harness/postgres_audit.py:130-154 | Storing with issued material keeps every signature one that issued material checks |
| AuditLog.SameHeadSamePayloads | src/coifesp_harness/postgres_audit.py:298-323 | Partitions that verify, under any two keyrings, and share a head have equally many rows and the same links, or the inputs of two stored rows in the same place collide |
| AuditLog.LossIsRejected | src/coifesp_harness/postgres_audit.py:317-323 | With the head unchanged, any shorter row sequence is rejected, whatever the hash function |
| AuditLog.AlteredSignature | src/coifesp_harness/postgres_audit.py:309-314 | A verified chain with one signature replaced by another text is refused for its signature |
| AuditLog.MissingKey | src/coifesp_harness/postgres_audit.py:146-148 | A chain verifies under no keyring that lacks a key its rows were signed with |
| AuditLog.SqlAuditLog.AppendInTransaction | src/coifesp_harness/postgres_audit.py:192-270 | The statements in order leave the tables and return the result that the specification gives, error cases included |
| AuditLog.SqlAuditLog.Append | src/coifesp_harness/postgres_audit.py:186-190 | A rejected event leaves every table as it was; an accepted one is stored once despite the double normalization |
| AuditLog.SqlAuditLog.VerifyRows | src/coifesp_harness/postgres_audit.py:298-323 | On any results of the two queries the loop with its running hash computes the specified verdict, or the first error in the source order |
| AuditLog.SqlAuditLog.VerifyTenantChain | src/coifesp_harness/postgres_audit.py:272-296 | With nobody else at work the two queries see one partition, and the verdict is that on it; an invalid tenant is refused first |
| AuditHistory.ReplayKeeps | src/coifesp_harness/postgres_audit.py:192-270 | After any history every partition is well formed, its ids are the distinct accepted ones, and no request failed on a constraint |
| AuditHistory.HistoryVerifies | src/coifesp_harness/postgres_audit.py:192-323 | After any history each chain verifies with the number of distinct accepted ids, under exactly the keyrings that check its signatures |
| AuditHistory.ReplayIsSigned | src/coifesp_harness/postgres_audit.py:130-137 | When every request signs with issued material, so is every stored row of every tenant |
| AuditHistory.ReplayGrows | src/coifesp_harness/postgres_audit.py:241-267 | Later requests only ever extend a chain |
| AuditHistory.HistoryTornVerdict | src/coifesp_harness/postgres_audit.py:283-323 | Rows read after a part of a history and the head read after all of it verify exactly when no new id was accepted in between |
| AuditHistory.HistoryRemembers | src/coifesp_harness/postgres_audit.py:221-239 | An accepted event stays on file with its own payload through all later requests |
| AuditHistory.ReplayRecords | src/coifesp_harness/postgres_audit.py:245-258 | After any history each stored row holds, column by column, what one accepted request of its tenant said |
| AuditHistory.ColumnsMatchPayload | src/coifesp_harness/postgres_audit.py:245-258 | The columns of a screened request agree with what its stored payload says under the same names |
| AuditHistory.ReplayConcat | src/coifesp_harness/postgres_audit.py:192-270 | A history replays as its first part followed by its second, in tables and in outcomes |
| AuditHistory.ReplayLocal | src/coifesp_harness/postgres_audit.py:208-235 | What a history does and returns depends only on the partitions of the tenants it names |
| AuditHistory.AppendToStores | src/coifesp_harness/postgres_audit.py:202-270 | For a screened event the append operation is exactly one step of a history |
| AuditHistory.ResendingIsHarmless | src/coifesp_harness/postgres_audit.py:221-239 | An accepted id sent again after any history changes no table and is acknowledged exactly for the same payload |
| AuditHistory.AppendIsIdempotent | src/coifesp_harness/postgres_audit.py:186-239 | The same in terms of events: acknowledged if and only if the whole event is the same, refused otherwise, all chains unchanged |
| AuditInterleaving.CommitIsReplay | src/coifesp_harness/postgres_audit.py:192-270 | What a transaction publishes at commit is what its requests would do serially at that moment |
| AuditInterleaving.CommitElsewhere | src/coifesp_harness/postgres_audit.py:212-220 | A commit of other tenants' rows leaves a running transaction's view serial, whatever statement it has reached |
| AuditInterleaving.StepKeeps | src/coifesp_harness/postgres_audit.py:192-270 | Every statement, commit or rollback of any transaction keeps the serializability invariant |
| AuditInterleaving.RunIsSerializable | src/coifesp_harness/postgres_audit.py:192-270 | After every interleaving tables and outcomes are those of the committed requests one after the other in commit order |
| AuditInterleaving.NeverConstraintFailed | src/coifesp_harness/postgres_audit.py:268-269 | No committed or pending append has taken the constraint-failure path |
| AuditInterleaving.RunVerifies | src/coifesp_harness/postgres_audit.py:192-323 | After every interleaving, whatever key material each process has, no append failed on a constraint, and each chain verifies, with as many rows as distinct accepted ids, under exactly the keyrings that check its signatures |
| AuditVerdicts.RetainedKeysVerify | src/coifesp_harness/postgres_audit.py:139-154 | When processes agree on key material, these include every keyring that retains the used keys |
| AuditInterleaving.RunIsIdempotent | src/coifesp_harness/postgres_audit.py:186-239 | After every interleaving an accepted id sent again changes no table, and is acknowledged if and only if the whole event is the same |
| AuditInterleaving.RunRecords | src/coifesp_harness/postgres_audit.py:245-258 | After every interleaving each stored row holds, column by column, what one committed accepted request of its tenant said |
| AuditVerdicts.VerdictsAreRight | src/coifesp_harness/postgres_audit.py:276-323 | In every interleaving each verification, inside a transaction or not, returns its row count if and only if the signatures check and no id of its tenant was accepted by a commit between its two queries; otherwise a signature error or a head mismatch |
| AuditVerdicts.RetainedKeysJudge | src/coifesp_harness/postgres_audit.py:276-323 | With agreed key material and the used keys retained, the mismatch after such a commit is the only way to fail |
| AuditVerdicts.IntactChainReportedBroken | src/coifesp_harness/postgres_audit.py:283-296 | For every first event a run in which a mismatch is reported although the chain verifies before and after |
| AuditInterleaving.NeverStuck | src/coifesp_harness/postgres_audit.py:211-220 | A transaction inside an append can always run its next statement unless another holds the head row; the head it selects is always there |
| SqliteAudit.LiteVerifyAccepts | src/coifesp_harness/audit.py:118-142 | The verifier accepts exactly the linked chains whose every hash is signed, and counts their rows |
| SqliteAudit.LiteHistoryVerifies | src/coifesp_harness/audit.py:85-142 | After any events, repeated ids among them, the chain of every tenant verifies under the signing key with all its rows |
| SqliteAudit.LiteAlteredSignature | src/coifesp_harness/audit.py:133-139 | A verified chain with one signature replaced by another text is refused |
| SqliteAudit.PrefixVerifies | src/coifesp_harness/audit.py:118-142 | Every prefix of a verified chain verifies with its own length |
| SqliteAudit.InnerDeletionIsRejected | src/coifesp_harness/audit.py:127-142 | Deleting rows before a kept one is rejected, or the inputs of two stored rows collide or that of one hashes to the zero hash |
| SqliteAudit.SameChains | src/coifesp_harness/audit.py:85-116 | For events with globally distinct ids both logs hold the same payloads, previous hashes and event hashes for each tenant, for every faithful store |
| SqliteAudit.LogsAgree | src/coifesp_harness/audit.py:85-116 | The same for the head-backed log's own store |
| SqliteAudit.SqliteAuditLog.Append | src/coifesp_harness/audit.py:85-116 | The insert leaves the specified table, and a used id is refused with the table unchanged |
| SqliteAudit.SqliteAuditLog.VerifyTenantChain | src/coifesp_harness/audit.py:118-142 | The loop with its running hash and count computes the specified verdict |
| SqlLogic.NotNullWhenSound | alembic/versions/20260830_52_team_task_run_bindings.py:70-89 | Columns the analysis derives from a TRUE or FALSE expression are indeed not NULL |
| SqlLogic.GuardedIsDecided | alembic/versions/20260830_52_team_task_run_bindings.py:70-89 | An expression the guard analysis accepts is never UNKNOWN on any row |
| SqlLogic.GuardedWider | alembic/versions/20260830_53_team_task_contracts.py:39-46 | Knowing more columns to be present never loses acceptance |
| SqlLogic.GuardedConj | alembic/versions/20260830_52_team_task_run_bindings.py:75-88 | In an AND chain of any length the first term may guard all others |
| SqlLogic.ConjTrue | alembic/versions/20260830_52_team_task_run_bindings.py:75-88 | An AND chain is TRUE exactly when all terms are, and FALSE exactly when one is |
| SqlLogic.DecideMeans | alembic/versions/20260830_52_team_task_run_bindings.py:70-72 | The rewritten expression is TRUE where the original has the wanted truth value and FALSE everywhere else |
| SqlLogic.DecideIsGuarded | alembic/versions/20260830_52_team_task_run_bindings.py:70-72 | The analysis accepts every rewritten expression |
| SqlLogic.AdmissionGap | alembic/versions/20260830_52_team_task_run_bindings.py:70-72 | The rows a CHECK admits beyond those it describes are exactly those where it is UNKNOWN |
| SqlLogic.GuardedHasNoGap | alembic/versions/20260830_52_team_task_run_bindings.py:70-72 | An accepted CHECK admits exactly the rows it describes |
| RowChecks.Revision52IsGuarded | alembic/versions/20260830_52_team_task_run_bindings.py:66-89 | Both run checks pass the analysis, given the columns declared NOT NULL |
| RowChecks.Revision52Admits | alembic/versions/20260830_52_team_task_run_bindings.py:66-89 | A task execution is admitted exactly with a complete service identity, any other run exactly with an account and a mode |
| RowChecks.TaskExecutionHasAll | alembic/versions/20260830_52_team_task_run_bindings.py:73-89 | A task execution is admitted exactly with each of the eleven columns, named, the four values they must have, and neither account column |
| RowChecks.DowngradeGuard52 | alembic/versions/20260830_52_team_task_run_bindings.py:100-117 | The rows the downgrade looks for are exactly the task executions |
| RowChecks.Revision53IsGuarded | alembic/versions/20260830_53_team_task_contracts.py:32-47 | The nested guards over the two versions pass the analysis with nothing known |
| RowChecks.Revision53Admits | alembic/versions/20260830_53_team_task_contracts.py:32-47 | A task has a whole contract, whose accepted version if any is the current one, or no trace of one |
| RowChecks.ContractColumns | alembic/versions/20260830_53_team_task_contracts.py:33-38 | No trace of a contract means none of the ten named columns |
| RowChecks.ContractCoreColumns | alembic/versions/20260830_53_team_task_contracts.py:40-43 | A whole contract means the seven named columns |
| RowChecks.DowngradeGuard53 | alembic/versions/20260830_53_team_task_contracts.py:84-90 | The downgrade's search for any non-NULL contract column finds exactly the rows with a contract |
| RowChecks.Revision54IsGuarded | alembic/versions/20260830_54_team_task_result_receipts.py:27-34 | The result check passes the analysis, given a run kind |
| RowChecks.Revision54Admits | alembic/versions/20260830_54_team_task_result_receipts.py:27-34 | Only task executions carry a contract version or a receipt, and a receipt is whole |
| RowChecks.ReceiptColumns | alembic/versions/20260830_54_team_task_result_receipts.py:30-33 | A receipt means the three named columns |
| RowChecks.ReceiptStatuses | alembic/versions/20260830_54_team_task_result_receipts.py:32-32 | and one of the four named statuses |
| RowChecks.Revision62Admits | alembic/versions/20260901_62_execution_project_work_binding.py:28-34 | Exactly three shapes are admitted: unbound, bound to a version, and bound to no version, the last through UNKNOWN |
| RowChecks.BindingColumns | alembic/versions/20260901_62_execution_project_work_binding.py:29-32 | A binding means the four named ids |
| RowChecks.GovernanceColumns | alembic/versions/20260901_62_execution_project_work_binding.py:33-33 | and the absence of the two governance ids |
| RowChecks.Revision62Closed | alembic/versions/20260901_62_execution_project_work_binding.py:28-34 | The rewritten check admits exactly the two shapes described |
| RowChecks.Revision62IsNotGuarded | alembic/versions/20260901_62_execution_project_work_binding.py:28-34 | The analysis rejects the check even when all four ids are known to be present |
| RowChecks.GapEscapesUniqueness | alembic/versions/20260901_62_execution_project_work_binding.py:58-65 | A row in the gap can be inserted into any table again and again; a versioned row exactly when no other has its process, task and version |
| DecisionChecks.DecidedAsMeans | alembic/versions/20260831_57_human_reviews.py:105-116 | A per-status decision check on its own lets a missing decision through, and nothing else |
| DecisionChecks.ReviewsAdmitted | alembic/versions/20260831_57_human_reviews.py:75-116 | The checks together admit exactly the reviews: ACCEPTED and REJECTED with their own decision and all its fields, OPEN with none, STALE with a whole decision or none |
| DecisionChecks.ReviewColumns | alembic/versions/20260831_57_human_reviews.py:24-29 | The decision of a review means the six named columns |
| DecisionChecks.ReviewsWithoutFieldsCheck | alembic/versions/20260831_57_human_reviews.py:24-29 | Without the decision-fields check exactly two more kinds of row would be admitted: decided rows lacking only the decision, through UNKNOWN, and partly decided stale rows |
| DecisionChecks.ReviewsWithoutStatusCheck | alembic/versions/20260831_57_human_reviews.py:105-116 | Without either per-status check exactly the rows of that status with no decision, or with the other one, would be admitted too |
| DecisionChecks.ReviewChecksNeedEachOther | alembic/versions/20260831_57_human_reviews.py:75-116 | For ACCEPTED and for REJECTED a row that only the decision-fields check refuses and one that only the status check refuses |
| DecisionChecks.DeliveriesAdmitted | alembic/versions/20260831_58_delivery_evidence.py:156-175 | The delivery checks together admit exactly one shape of row for each status |
| DecisionChecks.DeliveryColumns | alembic/versions/20260831_58_delivery_evidence.py:29-35 | The decision on a delivery means the six named columns |
| DecisionChecks.ApprovalColumns | alembic/versions/20260831_58_delivery_evidence.py:41-45 | Its approval means the two named columns |
| DecisionChecks.DeliveriesWithoutFieldsCheck | alembic/versions/20260831_58_delivery_evidence.py:29-35 | Without the decision-fields check exactly the decided rows lacking only the decision would be admitted too |
| DecisionChecks.DeliveriesWithoutStatusCheck | alembic/versions/20260831_58_delivery_evidence.py:36-49 | Without the status check a whole decision or none would go with any status and any approval |
| DecisionChecks.DeliveryChecksNeedEachOther | alembic/versions/20260831_58_delivery_evidence.py:156-175 | For ACCEPTED and for REJECTED a row that only the decision-fields check refuses and one that only the status check refuses |
| CommandLifecycle.LifecycleAdmits | alembic/versions/20260806_14_agent_run_commands.py:59-70 | The lifecycle check has no gap: pending, applied and rejected rows in exactly their shapes |
| CommandLifecycle.Revision14RewritesTerminal | alembic/versions/20260806_14_agent_run_commands.py:114-146 | For every command identity there is such an update |
| CommandLifecycle.Update15Admits | alembic/versions/20260806_15_agent_run_command_terminal_immutability.py:37-67 | From a stored pending command every pending, applied and rejected one of the same identity is admitted and nothing else; from a terminal one only its own lifecycle |
| CommandLifecycle.LifeIsMonotone | alembic/versions/20260806_15_agent_run_command_terminal_immutability.py:18-67 | Over every admitted sequence of updates identity and content are constant, a prefix is pending, and the rest is one fixed terminal lifecycle |
| CommandLifecycle.LivesDiffer | alembic/versions/20260806_15_agent_run_command_terminal_immutability.py:37-67 | The lives revision 15 admits are exactly those of revision 14 in which a terminal lifecycle never changes |
| Idempotency.SqliteStore.Select | src/coifesp_harness/idempotency.py:64-68 | The search over the rows returns what the table says about the key |
| Idempotency.SqliteStore.ClaimKey | src/coifesp_harness/idempotency.py:53-87 | Answer and new contents are those of the claims map, the primary key is kept, and an incomplete claim changes nothing |
| Idempotency.InMemoryStore.ClaimKey | src/coifesp_harness/idempotency.py:97-114 | The same for the dictionary store |
| Idempotency.AnswerAlike | src/coifesp_harness/idempotency.py:53-114 | Fed any sequence of claims, both stores give the same answers, those of the sequential history |
| Idempotency.ReplayHoldsFirst | src/coifesp_harness/idempotency.py:69-86 | A key is held exactly when it was completely claimed, with the digest of its first claim |
| Idempotency.ClaimedOnce | src/coifesp_harness/idempotency.py:69-87 | In any history the first claim of a key is CLAIMED, every later one DUPLICATE exactly for the first digest and CONFLICT otherwise |
| Idempotency.EntriesStay | src/coifesp_harness/idempotency.py:69-87 | An entry never changes, whatever follows |
| Idempotency.RunIsSequential | src/coifesp_harness/idempotency.py:61-87 | Every interleaving of threads, crashes included, keeps the lock exclusive and answers as the sequential store |
| Idempotency.RunClaimsOnce | src/coifesp_harness/idempotency.py:61-87 | Under every interleaving the primary key is never violated and each key is CLAIMED exactly once |
| ForeignKeyClosure.ComputeDepths | alembic/versions/20260830_54_team_task_result_receipts.py:85-100 | For every table graph the loops end as the passes specified do, with exactly the tables that reach the root; in the order found, each depth is one more than the least of the parents found before, and 1 next to the root |
| ForeignKeyClosure.PassesMean | alembic/versions/20260830_54_team_task_result_receipts.py:88-100 | The same of the passes as a function of the table list, each depth being the length of a real reference path |
| ForeignKeyClosure.PathStaysInside | alembic/versions/20260830_54_team_task_result_receipts.py:88-100 | A closed set that holds the root holds every table with a path to it |
| ForeignKeyClosure.SortedNames | alembic/versions/20260830_54_team_task_result_receipts.py:119-126 | The plans in the order of depth and then name, each once |
| ForeignKeyClosure.Database.RecreateAll | alembic/versions/20260830_54_team_task_result_receipts.py:119-122 | The loop replaces exactly the listed tables |
| ForeignKeyClosure.Database.Detach | alembic/versions/20260830_54_team_task_result_receipts.py:102-122 | The affected tables lose their triggers and their keys into the group, and nothing else changes |
| ForeignKeyClosure.DetachedIsIsolated | alembic/versions/20260830_54_team_task_result_receipts.py:103-122 | While detached no other table of the schema refers to the root or to any affected table, and every other foreign key is kept |
| ForeignKeyClosure.DetachOrderIsExact | alembic/versions/20260830_54_team_task_result_receipts.py:119-122 | Detaching rebuilds every table only when no other refers to it any more, if and only if all references among affected tables, but to the root or to the same table, go to one earlier by depth and name |
| ForeignKeyClosure.RebuiltWhileReferenced | alembic/versions/20260830_54_team_task_result_receipts.py:88-122 | For any such names and any table list, the passes give two children of the root depth 1, and the one is rebuilt while the other refers to it |
| ForeignKeyClosure.CreateNew | alembic/versions/20260830_54_team_task_result_receipts.py:128-131 | Triggers with new, distinct names are all created in order |
| ForeignKeyClosure.Database.CreateTriggers | alembic/versions/20260830_54_team_task_result_receipts.py:128-131 | The loop creates triggers up to the first whose name is taken, and reports that one |
| ForeignKeyClosure.Database.RestoreAll | alembic/versions/20260830_54_team_task_result_receipts.py:126-129 | Each listed table is back as reflected, triggers in their order, and none of their names is taken |
| ForeignKeyClosure.Database.Restore | alembic/versions/20260830_54_team_task_result_receipts.py:126-131 | The `finally` clause as a whole: the tables, then the triggers of the root until one is taken |
| ForeignKeyClosure.ContextRestores | alembic/versions/20260830_54_team_task_result_receipts.py:123-131 | Whatever the body did, every other table is as it was and the root is as it was or as rebuilt, with its triggers; the clause fails exactly when the root is still in place and has triggers |
| ForeignKeyClosure.RaisedErrorIsMasked | alembic/versions/20260830_54_team_task_result_receipts.py:123-131 | A schema where a body that raises with the root in place has its error replaced, the schema being restored |
| ForeignKeyClosure.WithoutInboundForeignKeys | alembic/versions/20260830_54_team_task_result_receipts.py:79-131 | The whole context on any schema, cyclic or not, and any body: final schema, and success, the body error or the trigger error, each exactly when |
| KeyConfig.ParseSecretKeyring | src/coifesp_harness/config.py:907-942 | The parser computes the specified keyring or the first error, and what it returns has distinct valid ids and material of at least 32 bytes |
| KeyConfig.ParseItems | src/coifesp_harness/config.py:920-942 | The loop with its set of seen ids agrees with the specification entry by entry |
| KeyConfig.EntriesMean | src/coifesp_harness/config.py:920-942 | Parsing gives exactly these keys if and only if each entry in turn is an object of exactly two names, gives a valid new id, and names a variable of the environment that holds this material of at least 32 bytes |
| KeyConfig.KeyringMeans | src/coifesp_harness/config.py:907-919 | and the setting is missing, or a list of 1 to 16 such entries in at most 16384 bytes |
| KeyConfig.ErrorMeans | src/coifesp_harness/config.py:922-939 | An error names the first entry that cannot follow those before it, and says which of the three things is wrong with it |
| KeyConfig.EnvironmentNames | src/coifesp_harness/config.py:351-362 | Each key setting comes from its own environment variable |
| KeyConfig.ParsedKeyringIsSound | src/coifesp_harness/config.py:907-942 | Every parsed keyring has distinct valid ids and long enough material |
| KeyConfig.MaterialOfKeepsAll | src/coifesp_harness/key_material.py:21-22 | With distinct ids the dictionary loses no key and mixes up none |
| KeyConfig.ResolutionSucceeds | src/coifesp_harness/key_material.py:8-33 | Key resolution succeeds, with the active key present and every configured key under its id |
| KeyConfig.ResolutionMeans | src/coifesp_harness/key_material.py:8-33 | Key resolution succeeds exactly with a non-empty active id among the keys and material that decodes |
| KeyConfig.MemoryKeysResolve | src/coifesp_harness/key_material.py:36-59 | For every environment, passing validation with memory required makes memory keys resolve without error or loss, all of 32 bytes |
| KeyConfig.MemoryIsExact | src/coifesp_harness/config.py:764-779 | Memory settings pass validation exactly when their keys resolve, their id is valid and a legacy key is usable and agrees |
| KeyConfig.ValidationIsExact | src/coifesp_harness/config.py:476-551 | As far as keys go, production validation passes exactly when audit and memory keys resolve, ids are valid, legacy keys agree and are long enough, and the envelope settings are usable |
| KeyConfig.ControlKeyringBuilds | src/coifesp_harness/agent_runs/control_crypto.py:45-48 | For every environment, passing validation with memory required makes the control keyring construction succeed with every key |
| KeyConfig.AuditKeyringBuilds | src/coifesp_harness/config.py:476-551 | For every environment, passing production validation makes the audit keyring's construction succeed with every configured key |
| ControlCrypto.NewRing | src/coifesp_harness/agent_runs/control_crypto.py:29-43 | Construction succeeds exactly when the decryption keys, or a 32-byte master key under the active id when there are none, make a keyring with its active key; it keeps all of them |
| ControlCrypto.RotationRetains | src/coifesp_harness/agent_runs/control_crypto.py:37-43 | A rotation history that never drops a key retains every key from any ring to any later one |
| ControlCrypto.InfoInjective | src/coifesp_harness/agent_runs/control_crypto.py:157-165 | The HKDF info determines the tenant |
| ControlCrypto.SaltInjective | src/coifesp_harness/agent_runs/control_crypto.py:160-162 | The HKDF salt, before hashing, determines the key id |
| ControlCrypto.AadInjective | src/coifesp_harness/agent_runs/control_crypto.py:167-188 | Associated data are equal if and only if all six fields are, the decimal sequence included |
| ControlCrypto.AadReads | src/coifesp_harness/agent_runs/control_crypto.py:167-188 | Whoever reads the associated data finds the schema and each of the six fields under its own name, in ASCII |
| ControlCrypto.RoundTrip | src/coifesp_harness/agent_runs/control_crypto.py:50-108 | Content encrypted under any ring of a rotation decrypts to itself under every later ring |
| ControlCrypto.EncryptAccepts | src/coifesp_harness/agent_runs/control_crypto.py:50-71 | Encryption succeeds exactly for 1 to 65536 bytes of content and a named tenant |
| ControlCrypto.DecryptAccepts | src/coifesp_harness/agent_runs/control_crypto.py:73-108 | Decryption returns a content exactly when key and tenant are there, the cipher opens at this place to its bytes, the fingerprint is theirs and the bounds hold |
| ControlCrypto.DecryptedIsAsSealed | src/coifesp_harness/agent_runs/control_crypto.py:96-100 | What is decrypted carries the fingerprint that encryption gives this content under this key |
| ControlCrypto.AlteredFingerprint | src/coifesp_harness/agent_runs/control_crypto.py:96-100 | A sealed command with any other fingerprint is refused for it under every ring that retains the key |
| ControlCrypto.OpensOnlyInPlace | src/coifesp_harness/agent_runs/control_crypto.py:73-108 | A ciphertext that opens for another tenant, run, sequence, command or key id is a forgery against the cipher, under any ring, nonce and fingerprint |
| ControlCrypto.DigestStays | src/coifesp_harness/agent_runs/control_crypto.py:110-155 | A request's earlier digest is among its digests under every later ring |
| ControlCrypto.DigestDistinguishes | src/coifesp_harness/agent_runs/control_crypto.py:110-165 | A digest shared by different requests, tenants included, is a clash of HMAC on the keys and texts of these two requests, or of HKDF on the inputs of these two keys |
| ControlCrypto.RequestReads | src/coifesp_harness/agent_runs/control_crypto.py:119-129 | Whoever reads the digested text finds each field of the request under its own name |
| EnvFile.TranslateKeeps | scripts/rotate_keycloak_client_secrets.py:182-182 | Reading gives the file's own text if and only if it holds no carriage return |
| EnvFile.LinesReadBack | scripts/rotate_keycloak_client_secrets.py:185-204 | Written lines are read back as they were if and only if each breaks at its end only and all but the last do |
| EnvFile.MatchAgrees | scripts/rotate_keycloak_client_secrets.py:21-23 | Replacing the value of a matching line leaves prefix and key matched as before |
| EnvFile.MatchIsPattern | scripts/rotate_keycloak_client_secrets.py:21-23 | The deterministic matcher finds an entry exactly when the line can be cut into space, an optional export, a name, an equals sign and that value, and there is at most one way |
| EnvFile.ReplaceLines | scripts/rotate_keycloak_client_secrets.py:183-197 | The loop succeeds exactly when every named key has exactly one line, and tells a duplicate from a missing key |
| EnvFile.ReplaceEnvValues | scripts/rotate_keycloak_client_secrets.py:181-207 | The same for the file: named lines get their values, every other line is as read |
| EnvFile.RewriteReadsBack | scripts/rotate_keycloak_client_secrets.py:185-207 | The rewritten file reads back as the lines meant if and only if each value fits its line |
| EnvFile.StrayBreakJoinsLines | scripts/rotate_keycloak_client_secrets.py:185-192 | A file and a value without breaks for which it does not |
| EnvFile.PlainFits | scripts/rotate_keycloak_client_secrets.py:186-192 | A value without breaks fits if and only if its line ends in a line feed or is the last |
| EnvFile.ValuesAfter | scripts/rotate_keycloak_client_secrets.py:189-195 | Rewritten lines give every named key its new value, as often as before, and every other key its old values, for all values that fit; a line feed at the end is read as the end of the line |
| EnvFile.RewriteTwice | scripts/rotate_keycloak_client_secrets.py:181-207 | Where values fit, rewriting again succeeds and leaves the file as it is if and only if no value ends in a line feed |
| EnvFile.LineFeedGrowsFile | scripts/rotate_keycloak_client_secrets.py:186-192 | A file and a fitting value for which the second rewriting changes the file |
| EnvWrite.RewriteSucceeds | scripts/rotate_keycloak_client_secrets.py:189-197 | Writing one key succeeds if and only if the file has that key once |
| EnvWrite.WriteReadsBack | scripts/rotate_keycloak_client_secrets.py:185-207 | A file written with a value without breaks reads back as meant if and only if the key's lines end in a line feed or with the file |
| EnvWrite.WriteIsExact | scripts/rotate_keycloak_client_secrets.py:185-207 | For every file and secret: afterwards the file holds the secret if and only if it breaks at most at its end, not as line feed or carriage return, and either does break there or its line ends in a line feed, is last or has an empty line after it; then every other key is as before |
| EnvWrite.NeighbourIsLost | scripts/rotate_keycloak_client_secrets.py:185-192 | Otherwise the entry on the line that is run into is no longer there |
| EnvOthers.WrittenValues | scripts/rotate_keycloak_client_secrets.py:185-207 | For every file and every secret: of another key the written file says what the lines before say, and then what the secret, the line ending and the lines behind say when read together, without their first line |
| EnvOthers.OthersAreExact | scripts/rotate_keycloak_client_secrets.py:185-207 | For every secret, on a line that ends in a line feed or with the file: every other key gets as many more values as the secret gives it after its first line, so the others stay the same if and only if those lines name none of them |
| EnvWrite.BrokenSecretNeverHolds | scripts/rotate_keycloak_client_secrets.py:182-192 | A secret with a line feed or carriage return can be held by no file |
| SecretRotation.RunKeeps | scripts/rotate_keycloak_client_secrets.py:236-253 | Every run of the loop, to any point, keeps the invariant on earlier, current and later clients |
| SecretRotation.WritesAreLong | scripts/rotate_keycloak_client_secrets.py:112-117 | Only a secret of at least 16 characters is ever persisted |
| SecretRotation.StopsSafely | scripts/rotate_keycloak_client_secrets.py:236-253 | Wherever the loop stops, earlier clients agree with the file, later ones are untouched, and at most the client in progress differs |
| SecretRotation.SafetyIsExact | scripts/rotate_keycloak_client_secrets.py:236-253 | All runs are safe at every point if and only if each entry the loop can reach keeps to its line (ends in a line feed, is last, or has an empty line after it) |
| SecretRotation.UnsteadyBreaks | scripts/rotate_keycloak_client_secrets.py:236-242 | For every other file a run after which an earlier client does not agree with the file |
| SecretRotation.LaterClientTouched | scripts/rotate_keycloak_client_secrets.py:236-242 | A run in which writing the first client takes the entry of the second out of the file |
| SecretRotation.SecretNamesLaterClient | scripts/rotate_keycloak_client_secrets.py:236-242 | A run in which a secret that names a later client on a further line gives that client as many more values, which is not safe |
| SecretRotation.NamingSecret | scripts/rotate_keycloak_client_secrets.py:181-192 | There is such a secret |

## Left out

- Worker, control-plane and Keycloak composition, the `check_*` scripts, the gateway and the plain record types: wiring or single-pass validation with no property across operations.
- The remaining migrations and row-level-security policies: further instances of the same CHECK shapes; in the review and delivery tables the independent length and version checks of NOT NULL columns are not part of the row predicates.
- `InMemoryAuditSink`, and building keyrings for envelopes: they would repeat simpler members.
- Deadlocks and lost connections appear as a rollback of one transaction; the SQLite dialect serializes writers, so its runs are among those modelled. Column widths and the upper end of BIGINT are not modelled.
- The JSON reader reads the compact form only, as the printer writes it. Floats are identified with their printed form, a number of RFC 8259 with a fraction or an exponent or one of Python's three names; lone surrogates, dictionaries with other keys than strings, tuples and SQLite's type affinity are outside the JSON and row models.
- AuditChain.NormalizedTwice: takes the generated id and the clock reading to be non-empty, as `uuid4` and `isoformat` make them.
- AuditHistory.AppendIsIdempotent: is about events that passed the checks before the database is touched; an event refused by them never reaches it.
- ControlCrypto.DigestDistinguishes: the idealised HMAC and HKDF are not assumed; the lemma returns the clash that such an assumption rules out.
- KeyConfig.AuditKeyringBuilds: only the key-related problems of `validate` are modelled; the others can only make validation stricter.
- EnvFile.ReplaceEnvValues: file permissions, the temporary file and fsync are not modelled; `os.replace` is one atomic step. The view of the file is the script's own line pattern, not the quoting rules of dotenv.
- EnvFile.RewriteTwice: is about values that fit their lines; where one does not, the written file has other lines than were meant, as `EnvFile.RewriteReadsBack` says.
- ForeignKeyClosure.WithoutInboundForeignKeys: covers SQLite, where the context does something, and a body that rebuilds the root or leaves it alone; a temporary table left behind by an interrupted rebuild is not modelled. Columns, constraint options and the deferral PRAGMA are opaque.
- SecretRotation.StopsSafely: the loop is a step machine rather than a method, since the guarantee is about stopping between its effects. Its runs rotate to secrets that can be stored at all; `EnvWrite.WriteIsExact` says which those are and that any other is not held, and `EnvOthers.WrittenValues` and `EnvOthers.OthersAreExact` what any other does to the rest of the file. The later checks of tokens and roles are one step that passes or stops.
