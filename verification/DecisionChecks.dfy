/**
 The decision tables of revisions 57 (human reviews) and 58 (project deliveries): how CHECKs
 that each leave a gap through UNKNOWN add up to tables without one.
 */
module DecisionChecks {

  import opened SqlLogic
  import opened RowChecks

  // ----- small shapes -----

  /** `(all NULL) OR (none NULL)`. */
  function AllOrNone(columns: seq<Column>): Check {
    Or(Absent(columns), Present(columns))
  }

  function OptionalIn(column: string, options: seq<string>): Check {
    Or(Absent([Text(column)]), TextIn(TextOf(column), options))
  }

  function OptionalLength(column: string, n: int): Check {
    Or(Absent([Text(column)]), HasLength(column, n))
  }

  lemma AllOrNoneMeans(columns: seq<Column>, row: Row)
    ensures Admits(AllOrNone(columns), row) <==> NoneIn(columns, row) || AllPresent(columns, row)
  {
    AdmitsPair(Absent(columns), Present(columns), row);
  }

  lemma OptionalMeans(column: string, options: seq<string>, n: int, row: Row)
    ensures Admits(OptionalIn(column, options), row) <==> (column in row.texts ==> row.texts[column] in options)
    ensures Admits(OptionalLength(column, n), row) <==> (column in row.texts ==> |row.texts[column]| == n)
  {
    assert IsPresent([Text(column)][0], row) <==> column in row.texts;
    assert Eval(Absent([Text(column)]), row) == Known(column !in row.texts);
    AdmitsPair(Absent([Text(column)]), TextIn(TextOf(column), options), row);
    AdmitsPair(Absent([Text(column)]), HasLength(column, n), row);
  }

  /** `decision = d`, which says nothing when no decision is stored. */
  predicate MayDecide(row: Row, d: string) {
    "decision" in row.texts ==> row.texts["decision"] == d
  }

  predicate HasStatus(row: Row, status: string) {
    TextIs(row, "status", status)
  }

  lemma IsMeans(column: string, text: string, row: Row)
    requires column in row.texts
    ensures Eval(Is(column, text), row) == Known(TextIs(row, column, text))
  {
  }

  lemma DecisionMeans(d: string, row: Row)
    ensures Eval(Is("decision", d), row) != False <==> MayDecide(row, d)
  {
  }

  /** `status <> s OR (decision = d AND every other decision field IS NOT NULL)`. */
  function DecidedAs(status: string, d: string, others: seq<Column>): Check {
    Or(Not(Is("status", status)), And(Is("decision", d), Present(others)))
  }

  /** On its own this check lets a missing decision through. */
  lemma DecidedAsMeans(status: string, d: string, others: seq<Column>, row: Row)
    requires "status" in row.texts
    ensures Admits(DecidedAs(status, d, others), row)
            <==> (HasStatus(row, status) ==> MayDecide(row, d) && AllPresent(others, row))
  {
    IsMeans("status", status, row);
    DecisionMeans(d, row);
    AdmitsPair(Not(Is("status", status)), And(Is("decision", d), Present(others)), row);
    AdmitsPair(Is("decision", d), Present(others), row);
  }

  // ----- revision 57: human reviews -----

  const REVIEW_OTHERS := [Text("decision_key"), Text("decision_digest"), Text("decided_by"), Text("reason"), Text("decided_at")]

  const REVIEW_FIELDS := [Text("decision")] + REVIEW_OTHERS

  function ReviewCompletion(): Check {
    Or(And(Is("status", "OPEN"), Absent([Text("completed_at")])),
       And(TextIn(TextOf("status"), ["ACCEPTED", "REJECTED", "STALE"]), Present([Text("completed_at")])))
  }

  function ReviewOpen(): Check {
    Or(Not(Is("status", "OPEN")), Absent(REVIEW_FIELDS))
  }

  /** The checks besides the decision-fields check and the two per-status decision checks. */
  predicate AdmitsReviewBasics(row: Row) {
    "status" in row.texts
    && Admits(TextIn(TextOf("status"), ["OPEN", "ACCEPTED", "REJECTED", "STALE"]), row)
    && Admits(ReviewCompletion(), row)
    && Admits(OptionalIn("decision", ["ACCEPT", "REJECT"]), row)
    && Admits(OptionalLength("decision_digest", 64), row)
    && Admits(ReviewOpen(), row)
  }

  predicate AdmitsReview(row: Row) {
    AdmitsReviewBasics(row)
    && Admits(AllOrNone(REVIEW_FIELDS), row)
    && Admits(DecidedAs("ACCEPTED", "ACCEPT", REVIEW_OTHERS), row)
    && Admits(DecidedAs("REJECTED", "REJECT", REVIEW_OTHERS), row)
  }

  /** A stored decision: every field there, a known verdict, a digest of 64 characters. */
  predicate HasDecision(row: Row, fields: seq<Column>) {
    AllPresent(fields, row)
    && "decision" in row.texts && row.texts["decision"] in ["ACCEPT", "REJECT"]
    && "decision_digest" in row.texts && |row.texts["decision_digest"]| == 64
  }

  predicate HasVerdict(row: Row, fields: seq<Column>, d: string) {
    HasDecision(row, fields) && row.texts["decision"] == d
  }

  /** A known status, completed unless open; an open review has no decision. */
  predicate HasReviewStatus(row: Row) {
    "status" in row.texts && row.texts["status"] in ["OPEN", "ACCEPTED", "REJECTED", "STALE"]
    && (HasStatus(row, "OPEN") <==> "completed_at" !in row.texts)
    && (HasStatus(row, "OPEN") ==> NoneIn(REVIEW_FIELDS, row))
  }

  /** A stored verdict is one of the two, a stored digest has 64 characters. */
  predicate HasValidParts(row: Row) {
    ("decision" in row.texts ==> row.texts["decision"] in ["ACCEPT", "REJECT"])
    && ("decision_digest" in row.texts ==> |row.texts["decision_digest"]| == 64)
  }

  /** One shape for each status, but two for STALE: with a whole decision of either kind, or with none. */
  predicate IsReview(row: Row) {
    HasReviewStatus(row)
    && (HasStatus(row, "ACCEPTED") ==> HasVerdict(row, REVIEW_FIELDS, "ACCEPT"))
    && (HasStatus(row, "REJECTED") ==> HasVerdict(row, REVIEW_FIELDS, "REJECT"))
    && (NoneIn(REVIEW_FIELDS, row) || HasDecision(row, REVIEW_FIELDS))
  }

  lemma CompletionMeans(row: Row)
    requires "status" in row.texts
    ensures Admits(ReviewCompletion(), row) <==>
            (HasStatus(row, "OPEN") && "completed_at" !in row.texts)
            || (row.texts["status"] in ["ACCEPTED", "REJECTED", "STALE"] && "completed_at" in row.texts)
  {
    IsMeans("status", "OPEN", row);
    assert IsPresent([Text("completed_at")][0], row) <==> "completed_at" in row.texts;
    var open, absent := Is("status", "OPEN"), Absent([Text("completed_at")]);
    var closed, present := TextIn(TextOf("status"), ["ACCEPTED", "REJECTED", "STALE"]), Present([Text("completed_at")]);
    AdmitsPair(open, absent, row);
    AdmitsPair(closed, present, row);
    AdmitsPair(And(open, absent), And(closed, present), row);
  }

  lemma OpenMeans(row: Row)
    requires "status" in row.texts
    ensures Admits(ReviewOpen(), row) <==> (HasStatus(row, "OPEN") ==> NoneIn(REVIEW_FIELDS, row))
  {
    IsMeans("status", "OPEN", row);
    AdmitsPair(Not(Is("status", "OPEN")), Absent(REVIEW_FIELDS), row);
  }

  lemma ReviewFields(row: Row)
    ensures AllPresent(REVIEW_FIELDS, row) <==> "decision" in row.texts && AllPresent(REVIEW_OTHERS, row)
    ensures NoneIn(REVIEW_FIELDS, row) ==> "decision" !in row.texts && "decision_digest" !in row.texts
    ensures AllPresent(REVIEW_OTHERS, row) ==> "decision_digest" in row.texts && !NoneIn(REVIEW_FIELDS, row)
  {
    assert REVIEW_FIELDS[0] == Text("decision") && REVIEW_FIELDS[2] == REVIEW_OTHERS[1] == Text("decision_digest");
    assert IsPresent(REVIEW_FIELDS[0], row) <==> "decision" in row.texts;
    assert IsPresent(REVIEW_FIELDS[2], row) <==> "decision_digest" in row.texts;
    assert forall c <- REVIEW_OTHERS :: c in REVIEW_FIELDS;
    assert forall c <- REVIEW_FIELDS :: c == Text("decision") || c in REVIEW_OTHERS;
  }

  lemma ReviewBasicsMean(row: Row)
    ensures AdmitsReviewBasics(row) <==> HasReviewStatus(row) && HasValidParts(row)
  {
    if "status" in row.texts {
      CompletionMeans(row);
      OpenMeans(row);
      OptionalMeans("decision", ["ACCEPT", "REJECT"], 0, row);
      OptionalMeans("decision_digest", [], 64, row);
      var s := row.texts["status"];
      assert Admits(TextIn(TextOf("status"), ["OPEN", "ACCEPTED", "REJECTED", "STALE"]), row)
             <==> s in ["OPEN", "ACCEPTED", "REJECTED", "STALE"];
      assert s in ["OPEN", "ACCEPTED", "REJECTED", "STALE"] <==> s == "OPEN" || s in ["ACCEPTED", "REJECTED", "STALE"];
      assert s in ["ACCEPTED", "REJECTED", "STALE"] ==> s != "OPEN";
    }
  }

  /** What the decision checks of a review say, one by one. */
  lemma ReviewDecisionMeans(row: Row)
    requires "status" in row.texts
    ensures Admits(AllOrNone(REVIEW_FIELDS), row) <==> NoneIn(REVIEW_FIELDS, row) || AllPresent(REVIEW_FIELDS, row)
    ensures Admits(DecidedAs("ACCEPTED", "ACCEPT", REVIEW_OTHERS), row)
            <==> (HasStatus(row, "ACCEPTED") ==> MayDecide(row, "ACCEPT") && AllPresent(REVIEW_OTHERS, row))
    ensures Admits(DecidedAs("REJECTED", "REJECT", REVIEW_OTHERS), row)
            <==> (HasStatus(row, "REJECTED") ==> MayDecide(row, "REJECT") && AllPresent(REVIEW_OTHERS, row))
  {
    AllOrNoneMeans(REVIEW_FIELDS, row);
    DecidedAsMeans("ACCEPTED", "ACCEPT", REVIEW_OTHERS, row);
    DecidedAsMeans("REJECTED", "REJECT", REVIEW_OTHERS, row);
  }

  /** The table's CHECKs together admit exactly the reviews. */
  lemma ReviewsAdmitted(row: Row)
    ensures AdmitsReview(row) <==> IsReview(row)
  {
    ReviewBasicsMean(row);
    ReviewFields(row);
    if "status" in row.texts {
      ReviewDecisionMeans(row);
    }
  }

  /** Decided, with every field but the decision itself. */
  predicate LacksDecision(row: Row) {
    HasReviewStatus(row) && HasValidParts(row) && (HasStatus(row, "ACCEPTED") || HasStatus(row, "REJECTED"))
    && "decision" !in row.texts && AllPresent(REVIEW_OTHERS, row)
  }

  predicate IsPartlyDecided(row: Row) {
    HasReviewStatus(row) && HasValidParts(row) && HasStatus(row, "STALE")
    && !NoneIn(REVIEW_FIELDS, row) && !AllPresent(REVIEW_FIELDS, row)
  }

  /** Without the decision-fields check the table would also hold these rows, the first through UNKNOWN. */
  lemma ReviewsWithoutFieldsCheck(row: Row)
    ensures AdmitsReviewBasics(row)
            && Admits(DecidedAs("ACCEPTED", "ACCEPT", REVIEW_OTHERS), row) && Admits(DecidedAs("REJECTED", "REJECT", REVIEW_OTHERS), row)
            <==> IsReview(row) || LacksDecision(row) || IsPartlyDecided(row)
    ensures LacksDecision(row) || IsPartlyDecided(row) ==> !IsReview(row)
  {
    ReviewBasicsMean(row);
    ReviewFields(row);
    if "status" in row.texts {
      ReviewDecisionMeans(row);
      assert "ACCEPTED"[0] != "REJECTED"[0] && "STALE"[0] != "REJECTED"[0] && "STALE"[0] != "ACCEPTED"[0] && "OPEN"[0] != "STALE"[0];
    }
  }

  /** The status says one thing and the stored decision, whole or missing, does not. */
  predicate IsMisdecided(row: Row, status: string, d: string) {
    HasReviewStatus(row) && HasStatus(row, status)
    && (NoneIn(REVIEW_FIELDS, row) || HasDecision(row, REVIEW_FIELDS)) && !HasVerdict(row, REVIEW_FIELDS, d)
  }

  /** Without a per-status decision check it would also hold rows of that status with no decision or the other one. */
  lemma ReviewsWithoutStatusCheck(row: Row)
    ensures AdmitsReviewBasics(row) && Admits(AllOrNone(REVIEW_FIELDS), row) && Admits(DecidedAs("REJECTED", "REJECT", REVIEW_OTHERS), row)
            <==> IsReview(row) || IsMisdecided(row, "ACCEPTED", "ACCEPT")
    ensures AdmitsReviewBasics(row) && Admits(AllOrNone(REVIEW_FIELDS), row) && Admits(DecidedAs("ACCEPTED", "ACCEPT", REVIEW_OTHERS), row)
            <==> IsReview(row) || IsMisdecided(row, "REJECTED", "REJECT")
    ensures IsMisdecided(row, "ACCEPTED", "ACCEPT") || IsMisdecided(row, "REJECTED", "REJECT") ==> !IsReview(row)
  {
    ReviewBasicsMean(row);
    ReviewFields(row);
    if "status" in row.texts {
      ReviewDecisionMeans(row);
      assert "ACCEPTED"[0] != "REJECTED"[0];
    }
  }

  ghost function Digest64(): (s: string)
    ensures |s| == 64
  {
    seq(64, _ => 'd')
  }

  ghost function ReviewTexts(status: string): map<string, string> {
    map["status" := status, "completed_at" := "t", "decision_key" := "k", "decision_digest" := Digest64(),
        "decided_by" := "b", "reason" := "r", "decided_at" := "t"]
  }

  /**
   For either decided status there is a row that only the decision-fields check keeps out, and
   one, with the other decision, that only the status check keeps out.
   */
  lemma ReviewChecksNeedEachOther(status: string, other: string) returns (undecided: Row, misdecided: Row)
    requires (status, other) in [("ACCEPTED", "REJECT"), ("REJECTED", "ACCEPT")]
    ensures HasStatus(undecided, status) && LacksDecision(undecided)
    ensures AdmitsReviewBasics(undecided) && !Admits(AllOrNone(REVIEW_FIELDS), undecided)
    ensures Admits(DecidedAs("ACCEPTED", "ACCEPT", REVIEW_OTHERS), undecided)
            && Admits(DecidedAs("REJECTED", "REJECT", REVIEW_OTHERS), undecided)
    ensures HasStatus(misdecided, status) && TextIs(misdecided, "decision", other)
    ensures AdmitsReviewBasics(misdecided) && Admits(AllOrNone(REVIEW_FIELDS), misdecided)
    ensures Admits(DecidedAs("ACCEPTED", "ACCEPT", REVIEW_OTHERS), misdecided) <==> status != "ACCEPTED"
    ensures Admits(DecidedAs("REJECTED", "REJECT", REVIEW_OTHERS), misdecided) <==> status != "REJECTED"
  {
    undecided := Row(ReviewTexts(status), map[]);
    misdecided := Row(ReviewTexts(status)["decision" := other], map[]);
    assert "ACCEPT"[0] != "REJECT"[0] && "ACCEPTED"[0] != "OPEN"[0] && "REJECTED"[0] != "OPEN"[0];
    ReviewTextsMean(status);
    ReviewFields(misdecided);
    assert AllPresent(REVIEW_OTHERS, misdecided);
    ReviewFields(undecided);
    ReviewBasicsMean(undecided);
    ReviewDecisionMeans(undecided);
    ReviewBasicsMean(misdecided);
    ReviewDecisionMeans(misdecided);
  }

  lemma ReviewTextsMean(status: string)
    ensures var row := Row(ReviewTexts(status), map[]);
            AllPresent(REVIEW_OTHERS, row) && "decision" !in row.texts && "completed_at" in row.texts
            && row.texts["status"] == status && |row.texts["decision_digest"]| == 64
  {
    assert |"decision"| == 8 && |"status"| == 6 && |"completed_at"| == 12 && |"decision_key"| == 12;
  }

  // ----- revision 58: project deliveries -----

  const DELIVERY_OTHERS := [Text("decision_key"), Text("decision_digest"), Text("decision_reason"), Text("decided_by"), Text("decided_at")]

  const DELIVERY_FIELDS := [Text("decision")] + DELIVERY_OTHERS

  const APPROVAL := [Text("approved_by"), Text("accepted_at")]

  function Undecided(): Check {
    And(TextIn(TextOf("status"), ["ASSEMBLING", "READY"]), Absent(APPROVAL + DELIVERY_FIELDS))
  }

  function Accepted(): Check {
    And(And(And(Is("status", "ACCEPTED"), Present(APPROVAL)), Is("decision", "ACCEPT")), Present(DELIVERY_OTHERS))
  }

  function Rejected(): Check {
    And(And(And(Is("status", "REJECTED"), Absent(APPROVAL)), Is("decision", "REJECT")), Present(DELIVERY_OTHERS))
  }

  function DeliveryStatus(): Check {
    Or(Or(Undecided(), Accepted()), Rejected())
  }

  /** The checks besides the decision-fields check and the status check. */
  predicate AdmitsDeliveryBasics(row: Row) {
    "status" in row.texts
    && Admits(TextIn(TextOf("status"), ["ASSEMBLING", "READY", "ACCEPTED", "REJECTED"]), row)
    && Admits(OptionalIn("decision", ["ACCEPT", "REJECT"]), row)
    && Admits(OptionalLength("decision_digest", 64), row)
  }

  predicate AdmitsDelivery(row: Row) {
    AdmitsDeliveryBasics(row) && Admits(AllOrNone(DELIVERY_FIELDS), row) && Admits(DeliveryStatus(), row)
  }

  predicate HasDeliveryStatus(row: Row) {
    "status" in row.texts && row.texts["status"] in ["ASSEMBLING", "READY", "ACCEPTED", "REJECTED"]
  }

  predicate IsDelivery(row: Row) {
    HasDeliveryStatus(row)
    && (row.texts["status"] in ["ASSEMBLING", "READY"] ==> NoneIn(APPROVAL, row) && NoneIn(DELIVERY_FIELDS, row))
    && (HasStatus(row, "ACCEPTED") ==> AllPresent(APPROVAL, row) && HasVerdict(row, DELIVERY_FIELDS, "ACCEPT"))
    && (HasStatus(row, "REJECTED") ==> NoneIn(APPROVAL, row) && HasVerdict(row, DELIVERY_FIELDS, "REJECT"))
  }

  lemma UndecidedMeans(row: Row)
    requires "status" in row.texts
    ensures Admits(Undecided(), row) <==>
            row.texts["status"] in ["ASSEMBLING", "READY"] && NoneIn(APPROVAL, row) && NoneIn(DELIVERY_FIELDS, row)
  {
    AdmitsPair(TextIn(TextOf("status"), ["ASSEMBLING", "READY"]), Absent(APPROVAL + DELIVERY_FIELDS), row);
    assert forall c :: c in APPROVAL + DELIVERY_FIELDS <==> c in APPROVAL || c in DELIVERY_FIELDS;
  }

  /** A chain of four terms is admitted when each is. */
  lemma FourMeans(a: Check, b: Check, c: Check, d: Check, row: Row)
    ensures Admits(And(And(And(a, b), c), d), row) <==> Admits(a, row) && Admits(b, row) && Admits(c, row) && Admits(d, row)
  {
    AdmitsPair(a, b, row);
    AdmitsPair(And(a, b), c, row);
    AdmitsPair(And(And(a, b), c), d, row);
  }

  lemma DecidedMeans(row: Row)
    requires "status" in row.texts
    ensures Admits(Accepted(), row) <==>
            HasStatus(row, "ACCEPTED") && AllPresent(APPROVAL, row) && MayDecide(row, "ACCEPT") && AllPresent(DELIVERY_OTHERS, row)
    ensures Admits(Rejected(), row) <==>
            HasStatus(row, "REJECTED") && NoneIn(APPROVAL, row) && MayDecide(row, "REJECT") && AllPresent(DELIVERY_OTHERS, row)
  {
    IsMeans("status", "ACCEPTED", row);
    IsMeans("status", "REJECTED", row);
    DecisionMeans("ACCEPT", row);
    DecisionMeans("REJECT", row);
    FourMeans(Is("status", "ACCEPTED"), Present(APPROVAL), Is("decision", "ACCEPT"), Present(DELIVERY_OTHERS), row);
    FourMeans(Is("status", "REJECTED"), Absent(APPROVAL), Is("decision", "REJECT"), Present(DELIVERY_OTHERS), row);
  }

  lemma DeliveryFields(row: Row)
    ensures AllPresent(DELIVERY_FIELDS, row) <==> "decision" in row.texts && AllPresent(DELIVERY_OTHERS, row)
    ensures NoneIn(DELIVERY_FIELDS, row) ==> "decision" !in row.texts && "decision_digest" !in row.texts
    ensures AllPresent(DELIVERY_OTHERS, row) ==> "decision_digest" in row.texts && !NoneIn(DELIVERY_FIELDS, row)
  {
    assert DELIVERY_FIELDS[0] == Text("decision") && DELIVERY_FIELDS[2] == DELIVERY_OTHERS[1] == Text("decision_digest");
    assert IsPresent(DELIVERY_FIELDS[0], row) <==> "decision" in row.texts;
    assert IsPresent(DELIVERY_FIELDS[2], row) <==> "decision_digest" in row.texts;
    assert forall c <- DELIVERY_OTHERS :: c in DELIVERY_FIELDS;
    assert forall c <- DELIVERY_FIELDS :: c == Text("decision") || c in DELIVERY_OTHERS;
  }

  lemma DeliveryBasicsMean(row: Row)
    ensures AdmitsDeliveryBasics(row) <==> HasDeliveryStatus(row) && HasValidParts(row)
  {
    if "status" in row.texts {
      OptionalMeans("decision", ["ACCEPT", "REJECT"], 0, row);
      OptionalMeans("decision_digest", [], 64, row);
      assert Admits(TextIn(TextOf("status"), ["ASSEMBLING", "READY", "ACCEPTED", "REJECTED"]), row)
             <==> row.texts["status"] in ["ASSEMBLING", "READY", "ACCEPTED", "REJECTED"];
    }
  }

  /** The status check alone. */
  lemma DeliveryStatusMeans(row: Row)
    requires HasDeliveryStatus(row)
    ensures Admits(DeliveryStatus(), row) <==>
            if row.texts["status"] in ["ASSEMBLING", "READY"] then NoneIn(APPROVAL, row) && NoneIn(DELIVERY_FIELDS, row)
            else if HasStatus(row, "ACCEPTED") then AllPresent(APPROVAL, row) && MayDecide(row, "ACCEPT") && AllPresent(DELIVERY_OTHERS, row)
            else NoneIn(APPROVAL, row) && MayDecide(row, "REJECT") && AllPresent(DELIVERY_OTHERS, row)
    ensures row.texts["status"] in ["ASSEMBLING", "READY"] ==> !HasStatus(row, "ACCEPTED") && !HasStatus(row, "REJECTED")
    ensures row.texts["status"] in ["ASSEMBLING", "READY"] || HasStatus(row, "ACCEPTED") || HasStatus(row, "REJECTED")
    ensures !HasStatus(row, "ACCEPTED") || !HasStatus(row, "REJECTED")
  {
    UndecidedMeans(row);
    DecidedMeans(row);
    AdmitsPair(Undecided(), Accepted(), row);
    AdmitsPair(Or(Undecided(), Accepted()), Rejected(), row);
    var s := row.texts["status"];
    assert s in ["ASSEMBLING", "READY", "ACCEPTED", "REJECTED"]
           <==> s in ["ASSEMBLING", "READY"] || s == "ACCEPTED" || s == "REJECTED";
    assert "ACCEPTED"[0] != "REJECTED"[0];
    assert s in ["ASSEMBLING", "READY"] ==> s != "ACCEPTED" && s != "REJECTED";
  }

  /** The table's CHECKs together admit exactly one shape of row for each status. */
  lemma DeliveriesAdmitted(row: Row)
    ensures AdmitsDelivery(row) <==> IsDelivery(row)
  {
    DeliveryBasicsMean(row);
    DeliveryFields(row);
    AllOrNoneMeans(DELIVERY_FIELDS, row);
    if HasDeliveryStatus(row) {
      DeliveryStatusMeans(row);
    }
  }

  /** Decided and approved as its status asks, with every field but the decision itself. */
  predicate LacksDeliveryDecision(row: Row) {
    HasDeliveryStatus(row) && HasValidParts(row) && "decision" !in row.texts && AllPresent(DELIVERY_OTHERS, row)
    && ((HasStatus(row, "ACCEPTED") && AllPresent(APPROVAL, row)) || (HasStatus(row, "REJECTED") && NoneIn(APPROVAL, row)))
  }

  /** Without the decision-fields check the table would also hold such rows, through UNKNOWN. */
  lemma DeliveriesWithoutFieldsCheck(row: Row)
    ensures AdmitsDeliveryBasics(row) && Admits(DeliveryStatus(), row) <==> IsDelivery(row) || LacksDeliveryDecision(row)
    ensures LacksDeliveryDecision(row) ==> !IsDelivery(row)
  {
    DeliveryBasicsMean(row);
    DeliveryFields(row);
    if HasDeliveryStatus(row) {
      DeliveryStatusMeans(row);
    }
  }

  /** Without the status check a whole decision, or none, would go with any status and any approval. */
  lemma DeliveriesWithoutStatusCheck(row: Row)
    ensures AdmitsDeliveryBasics(row) && Admits(AllOrNone(DELIVERY_FIELDS), row)
            <==> HasDeliveryStatus(row) && (NoneIn(DELIVERY_FIELDS, row) || HasDecision(row, DELIVERY_FIELDS))
  {
    DeliveryBasicsMean(row);
    DeliveryFields(row);
    AllOrNoneMeans(DELIVERY_FIELDS, row);
  }

  ghost function DeliveryTexts(status: string): map<string, string> {
    map["status" := status, "decision_key" := "k", "decision_digest" := Digest64(),
        "decision_reason" := "r", "decided_by" := "b", "decided_at" := "t"]
    + if status == "ACCEPTED" then map["approved_by" := "a", "accepted_at" := "t"] else map[]
  }

  /** The same dependence as for reviews: the second row has the approval its status asks for, and the other decision. */
  lemma DeliveryChecksNeedEachOther(status: string, other: string) returns (undecided: Row, misdecided: Row)
    requires (status, other) in [("ACCEPTED", "REJECT"), ("REJECTED", "ACCEPT")]
    ensures HasStatus(undecided, status) && LacksDeliveryDecision(undecided)
    ensures AdmitsDeliveryBasics(undecided) && Admits(DeliveryStatus(), undecided) && !Admits(AllOrNone(DELIVERY_FIELDS), undecided)
    ensures HasStatus(misdecided, status) && HasVerdict(misdecided, DELIVERY_FIELDS, other)
    ensures AdmitsDeliveryBasics(misdecided) && Admits(AllOrNone(DELIVERY_FIELDS), misdecided) && !Admits(DeliveryStatus(), misdecided)
  {
    undecided := Row(DeliveryTexts(status), map[]);
    misdecided := Row(DeliveryTexts(status)["decision" := other], map[]);
    assert "ACCEPT"[0] != "REJECT"[0] && "ACCEPTED"[0] != "REJECTED"[0];
    DeliveryTextsMean(status);
    DeliveryFields(misdecided);
    assert AllPresent(DELIVERY_OTHERS, misdecided);
    DeliveriesWithoutStatusCheck(misdecided);
    DeliveriesAdmitted(misdecided);
    DeliveriesWithoutFieldsCheck(undecided);
    DeliveriesAdmitted(undecided);
  }

  lemma DeliveryTextsMean(status: string)
    ensures var row := Row(DeliveryTexts(status), map[]);
            AllPresent(DELIVERY_OTHERS, row) && "decision" !in row.texts && row.texts["status"] == status
            && |row.texts["decision_digest"]| == 64
            && (if status == "ACCEPTED" then AllPresent(APPROVAL, row) else NoneIn(APPROVAL, row))
  {
    assert |"decision"| == 8 && |"status"| == 6 && |"decision_key"| == 12 && |"decision_digest"| == 15;
    assert |"approved_by"| == 11 && |"accepted_at"| == 11 && |"decision_reason"| == 15 && |"decided_by"| == 10 && |"decided_at"| == 10;
  }

  // ----- the columns by name -----

  /** The decision of a review is these six columns. */
  lemma ReviewColumns(row: Row)
    ensures AllPresent(REVIEW_FIELDS, row) <==>
            "decision" in row.texts && "decision_key" in row.texts && "decision_digest" in row.texts
            && "decided_by" in row.texts && "reason" in row.texts && "decided_at" in row.texts
    ensures NoneIn(REVIEW_FIELDS, row) <==>
            "decision" !in row.texts && "decision_key" !in row.texts && "decision_digest" !in row.texts
            && "decided_by" !in row.texts && "reason" !in row.texts && "decided_at" !in row.texts
  {
    assert IsPresent(REVIEW_FIELDS[0], row) <==> "decision" in row.texts;
    assert IsPresent(REVIEW_FIELDS[1], row) <==> "decision_key" in row.texts;
    assert IsPresent(REVIEW_FIELDS[2], row) <==> "decision_digest" in row.texts;
    assert IsPresent(REVIEW_FIELDS[3], row) <==> "decided_by" in row.texts;
    assert IsPresent(REVIEW_FIELDS[4], row) <==> "reason" in row.texts;
    assert IsPresent(REVIEW_FIELDS[5], row) <==> "decided_at" in row.texts;
  }

  /** The decision on a delivery is these six. */
  lemma DeliveryColumns(row: Row)
    ensures AllPresent(DELIVERY_FIELDS, row) <==>
            "decision" in row.texts && "decision_key" in row.texts && "decision_digest" in row.texts
            && "decision_reason" in row.texts && "decided_by" in row.texts && "decided_at" in row.texts
    ensures NoneIn(DELIVERY_FIELDS, row) <==>
            "decision" !in row.texts && "decision_key" !in row.texts && "decision_digest" !in row.texts
            && "decision_reason" !in row.texts && "decided_by" !in row.texts && "decided_at" !in row.texts
  {
    assert IsPresent(DELIVERY_FIELDS[0], row) <==> "decision" in row.texts;
    assert IsPresent(DELIVERY_FIELDS[1], row) <==> "decision_key" in row.texts;
    assert IsPresent(DELIVERY_FIELDS[2], row) <==> "decision_digest" in row.texts;
    assert IsPresent(DELIVERY_FIELDS[3], row) <==> "decision_reason" in row.texts;
    assert IsPresent(DELIVERY_FIELDS[4], row) <==> "decided_by" in row.texts;
    assert IsPresent(DELIVERY_FIELDS[5], row) <==> "decided_at" in row.texts;
  }

  /** Its approval is these two. */
  lemma ApprovalColumns(row: Row)
    ensures AllPresent(APPROVAL, row) <==>
            "approved_by" in row.texts && "accepted_at" in row.texts
    ensures NoneIn(APPROVAL, row) <==>
            "approved_by" !in row.texts && "accepted_at" !in row.texts
  {
    assert IsPresent(APPROVAL[0], row) <==> "approved_by" in row.texts;
    assert IsPresent(APPROVAL[1], row) <==> "accepted_at" in row.texts;
  }
}
