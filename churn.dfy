/**
 * `churn_prediction_reasons`: one fixed sentence per (department, count)
 * entry. The four named departments get their own warning when their
 * count exceeds five; every other entry gets the generic sentence.
 */
module Churn {
  import opened Wrappers
  import opened Classifier

  /** Above this many complaints a named department gets its warning. */
  const Threshold: int := 5

  /** The four departments that have a dedicated warning. */
  predicate IsWatched(department: string) {
    department == CustomerSupport || department == TechnicalIssues
    || department == BillingAndPayment || department == GeneralFeedback
  }

  /** The dedicated warning sentence of a department, for the four that have one. */
  function Warning(department: string): (w: Option<string>)
    ensures w.Some? <==> IsWatched(department)
    ensures w.Some? ==> w.value != NoRiskSentence
  {
    if department == CustomerSupport then Some("High complaints indicate unresolved customer issues.")
    else if department == TechnicalIssues then Some("High technical complaints show product dissatisfaction.")
    else if department == BillingAndPayment then Some("High billing issues affect customer trust.")
    else if department == GeneralFeedback then Some("Excess feedback indicates general dissatisfaction.")
    else None
  }

  /** The generic sentence. */
  const NoRiskSentence: string := "No major churn risk."

  /** The generic statement, naming the department. */
  function NoRiskStatement(department: string): string {
    department + ": " + NoRiskSentence
  }

  /** The statement for one entry: `"<department>: <sentence>"`. */
  function Statement(department: string, count: int): (s: string)
    ensures s == NoRiskStatement(department)
            || (Warning(department).Some? && s == department + ": " + Warning(department).value)
  {
    var w := Warning(department);
    department + ": " + (if w.Some? && count > Threshold then w.value else NoRiskSentence)
  }

  /** Every statement starts with its department and ": ". */
  lemma StatementNamesDepartment(department: string, count: int)
    ensures |Statement(department, count)| > |department| + 2
    ensures Statement(department, count)[..|department| + 2] == department + ": "
  {
    var s := Statement(department, count);
    var sentence := if Warning(department).Some? && count > Threshold
                    then Warning(department).value else NoRiskSentence;
    assert s == (department + ": ") + sentence;
  }

  /**
   * The dedicated warning is given exactly when the department is one of the
   * four named ones and its count is above five; otherwise the generic sentence.
   */
  lemma StatementWarnsIff(department: string, count: int)
    ensures Statement(department, count) != NoRiskStatement(department)
            <==> IsWatched(department) && count > Threshold
    ensures IsWatched(department) && count > Threshold ==>
              Statement(department, count) == department + ": " + Warning(department).value
  {
    var n := |department| + 2;
    if IsWatched(department) && count > Threshold {
      var w := Warning(department).value;
      assert (department + ": " + w)[n..] == w;
      assert (department + ": " + NoRiskSentence)[n..] == NoRiskSentence;
    }
  }

  /** A count of five, or any count for `Others`, gives the generic sentence. */
  lemma NoRiskAtThresholdOrForOthers(department: string, count: int)
    requires count <= Threshold || department == Others
    ensures Statement(department, count) == NoRiskStatement(department)
  {
  }

  /**
   * `churn_prediction_reasons` as written: a loop over the count entries
   * that appends one statement per entry.
   */
  method ChurnPredictionReasons(deptCounts: seq<(string, int)>) returns (reasons: seq<string>)
    ensures |reasons| == |deptCounts|
    ensures forall i :: 0 <= i < |deptCounts| ==>
              reasons[i] == Statement(deptCounts[i].0, deptCounts[i].1)
  {
    reasons := [];
    for i := 0 to |deptCounts|
      invariant |reasons| == i
      invariant forall j :: 0 <= j < i ==> reasons[j] == Statement(deptCounts[j].0, deptCounts[j].1)
    {
      var (dept, count) := deptCounts[i];
      var reason;
      if dept == CustomerSupport && count > Threshold {
        reason := dept + ": " + "High complaints indicate unresolved customer issues.";
      } else if dept == TechnicalIssues && count > Threshold {
        reason := dept + ": " + "High technical complaints show product dissatisfaction.";
      } else if dept == BillingAndPayment && count > Threshold {
        reason := dept + ": " + "High billing issues affect customer trust.";
      } else if dept == GeneralFeedback && count > Threshold {
        reason := dept + ": " + "Excess feedback indicates general dissatisfaction.";
      } else {
        reason := dept + ": " + "No major churn risk.";
      }
      assert reason == Statement(dept, count);
      reasons := reasons + [reason];
    }
  }

  /** {Technical Issues: 7, Others: 2} gives a technical warning, then no risk for Others. */
  method ScenarioTechnicalAndOthers() returns (reasons: seq<string>)
    ensures reasons == [TechnicalIssues + ": " + "High technical complaints show product dissatisfaction.",
                        Others + ": " + "No major churn risk."]
  {
    LabelsDistinct();
    reasons := ChurnPredictionReasons([(TechnicalIssues, 7), (Others, 2)]);
  }
}
