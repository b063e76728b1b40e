/**
 * The keyword classifier: `classify_department` applied with the fixed,
 * ordered keyword table of the upload handler.
 */
module Classifier {
  import opened Text

  type Department = string

  /** An ordered keyword table: departments are tried in sequence order. */
  type Rules = seq<(Department, seq<string>)>

  const CustomerSupport: Department := "Customer Support"
  const TechnicalIssues: Department := "Technical Issues"
  const BillingAndPayment: Department := "Billing & Payment"
  const GeneralFeedback: Department := "General Feedback"
  const Others: Department := "Others"

  /** The five department labels of the default table. */
  const DepartmentLabels: set<Department> :=
    {CustomerSupport, TechnicalIssues, BillingAndPayment, GeneralFeedback, Others}

  /** The five labels differ, already in their first letter. */
  lemma LabelsDistinct()
    ensures CustomerSupport != TechnicalIssues && CustomerSupport != BillingAndPayment
    ensures CustomerSupport != GeneralFeedback && CustomerSupport != Others
    ensures TechnicalIssues != BillingAndPayment && TechnicalIssues != GeneralFeedback
    ensures TechnicalIssues != Others && BillingAndPayment != GeneralFeedback
    ensures BillingAndPayment != Others && GeneralFeedback != Others
  {
    assert CustomerSupport[0] == 'C' && TechnicalIssues[0] == 'T' && BillingAndPayment[0] == 'B';
    assert GeneralFeedback[0] == 'G' && Others[0] == 'O';
  }

  /** The table built by the upload handler, in its declared order. */
  const DefaultRules: Rules := [
    (CustomerSupport, ["help", "support", "assist", "service", "issue", "call", "query"]),
    (TechnicalIssues, ["error", "bug", "problem", "crash", "malfunction", "fail", "glitch"]),
    (BillingAndPayment, ["charge", "billing", "payment", "invoice", "transaction", "amount", "pay"]),
    (GeneralFeedback, ["feedback", "suggestion", "idea", "general", "recommendation", "comment"]),
    (Others, ["miscellaneous", "unknown", "query", "general", "other"])
  ]

  /**
   * The default table lists the five departments in the handler's order, and
   * every keyword in it is already lower case, so `keyword.lower()` leaves it unchanged.
   */
  lemma DefaultRulesShape()
    ensures |DefaultRules| == 5
    ensures DefaultRules[0].0 == CustomerSupport && DefaultRules[1].0 == TechnicalIssues
    ensures DefaultRules[2].0 == BillingAndPayment && DefaultRules[3].0 == GeneralFeedback
    ensures DefaultRules[4].0 == Others
    ensures forall i, k :: 0 <= i < |DefaultRules| && 0 <= k < |DefaultRules[i].1| ==>
              Lower(DefaultRules[i].1[k]) == DefaultRules[i].1[k]
  {
    forall i, k | 0 <= i < |DefaultRules| && 0 <= k < |DefaultRules[i].1|
      ensures Lower(DefaultRules[i].1[k]) == DefaultRules[i].1[k]
    {
      LowerOfLowerCase(DefaultRules[i].1[k]);
    }
  }

  /** Some keyword of `keywords`, lower-cased, occurs in the (lower-cased) text. */
  ghost predicate AnyKeywordOccurs(text: string, keywords: seq<string>) {
    exists k :: 0 <= k < |keywords| && IsSubstring(Lower(keywords[k]), text)
  }

  /** The keyword loop of one department: tries the keywords left to right. */
  function MatchesKeywords(text: string, keywords: seq<string>): (r: bool)
    ensures r <==> AnyKeywordOccurs(text, keywords)
  {
    if keywords == [] then
      false
    else if Contains(text, Lower(keywords[0])) then
      true
    else
      var r := MatchesKeywords(text, keywords[1..]);
      assert AnyKeywordOccurs(text, keywords) ==> AnyKeywordOccurs(text, keywords[1..]) by {
        if AnyKeywordOccurs(text, keywords) {
          var k :| 0 <= k < |keywords| && IsSubstring(Lower(keywords[k]), text);
          assert k != 0;
          assert keywords[1..][k - 1] == keywords[k];
        }
      }
      assert AnyKeywordOccurs(text, keywords[1..]) ==> AnyKeywordOccurs(text, keywords) by {
        if AnyKeywordOccurs(text, keywords[1..]) {
          var k :| 0 <= k < |keywords[1..]| && IsSubstring(Lower(keywords[1..][k]), text);
          assert keywords[k + 1] == keywords[1..][k];
        }
      }
      r
  }

  /**
   * The position of the first department, in table order, one of whose
   * keywords occurs in `text`; `|rules|` when there is none.
   */
  function FirstMatch(text: string, rules: Rules): (i: nat)
    ensures i <= |rules|
    ensures i < |rules| ==> AnyKeywordOccurs(text, rules[i].1)
    ensures forall j :: 0 <= j < i ==> !AnyKeywordOccurs(text, rules[j].1)
  {
    if rules == [] then
      0
    else if MatchesKeywords(text, rules[0].1) then
      0
    else
      var i := FirstMatch(text, rules[1..]);
      assert forall j :: 1 <= j < i + 1 ==> rules[j] == rules[1..][j - 1];
      i + 1
  }

  /**
   * `classify_department`: lower-case the complaint, then the department of
   * the first matching keyword wins; `Others` when nothing matches.
   */
  function Classify(complaint: string, rules: Rules): (d: Department)
    ensures d == Others || exists i :: 0 <= i < |rules| && d == rules[i].0
  {
    var i := FirstMatch(Lower(complaint), rules);
    if i < |rules| then rules[i].0 else Others
  }

  /**
   * A department whose keywords occur, with no earlier department's keyword
   * occurring, is the answer: first match wins, not best match.
   */
  lemma ClassifyFirstMatchWins(complaint: string, rules: Rules, i: nat)
    requires i < |rules|
    requires AnyKeywordOccurs(Lower(complaint), rules[i].1)
    requires forall j :: 0 <= j < i ==> !AnyKeywordOccurs(Lower(complaint), rules[j].1)
    ensures Classify(complaint, rules) == rules[i].0
  {
  }

  /** The answer is either the fallback with nothing matching, or a matching department with nothing matching before it. */
  lemma ClassifyCharacterised(complaint: string, rules: Rules)
    ensures (forall j :: 0 <= j < |rules| ==> !AnyKeywordOccurs(Lower(complaint), rules[j].1))
            ==> Classify(complaint, rules) == Others
    ensures Classify(complaint, rules) != Others ==>
              exists i :: 0 <= i < |rules| && Classify(complaint, rules) == rules[i].0
                 && AnyKeywordOccurs(Lower(complaint), rules[i].1)
                 && forall j :: 0 <= j < i ==> !AnyKeywordOccurs(Lower(complaint), rules[j].1)
  {
    var f := FirstMatch(Lower(complaint), rules);
    if f < |rules| {
      assert AnyKeywordOccurs(Lower(complaint), rules[f].1);
    }
  }

  /** Lower-casing the complaint first does not change its department. */
  lemma ClassifyIgnoresCase(complaint: string, rules: Rules)
    ensures Classify(Lower(complaint), rules) == Classify(complaint, rules)
  {
    LowerIdempotent(complaint);
  }

  /** With the default table the answer is always one of its five labels. */
  lemma ClassifyDefaultLabel(complaint: string)
    ensures Classify(complaint, DefaultRules) in DepartmentLabels
  {
    var d := Classify(complaint, DefaultRules);
    if d != Others {
      var i :| 0 <= i < |DefaultRules| && d == DefaultRules[i].0;
      assert DefaultRules[i].0 in DepartmentLabels;
    }
  }

  /**
   * A last table entry labelled `Others` is dead: a match there and the
   * fallback give the same answer, so dropping the entry changes nothing.
   */
  lemma TrailingOthersRuleIsDead(complaint: string, rules: Rules)
    requires |rules| > 0 && rules[|rules| - 1].0 == Others
    ensures Classify(complaint, rules) == Classify(complaint, rules[..|rules| - 1])
  {
    var t := Lower(complaint);
    var n := |rules| - 1;
    var short := rules[..n];
    assert forall j :: 0 <= j < n ==> short[j] == rules[j];
    var f := FirstMatch(t, rules);
    var g := FirstMatch(t, short);
    assert g == f || (g == n && f == n + 1) || (g == n && f == n);
  }

  /** The `Others` keywords of the default table never decide anything. */
  lemma OthersKeywordsUnreachable(complaint: string)
    ensures Classify(complaint, DefaultRules) == Classify(complaint, DefaultRules[..4])
  {
    TrailingOthersRuleIsDead(complaint, DefaultRules);
  }

  /** "I need help with support" goes to Customer Support. */
  lemma ScenarioHelpWithSupport()
    ensures Classify("I need help with support", DefaultRules) == CustomerSupport
  {
    var kws := DefaultRules[0].1;
    ContainsLowered("I need help with support", kws[0], 7);
    assert AnyKeywordOccurs(Lower("I need help with support"), kws);
    ClassifyFirstMatchWins("I need help with support", DefaultRules, 0);
  }

  /**
   * "general query about billing" goes to Customer Support: "query" is a
   * Customer Support keyword, and that department is tried before Billing.
   */
  lemma ScenarioGeneralQueryAboutBilling()
    ensures Classify("general query about billing", DefaultRules) == CustomerSupport
  {
    var kws := DefaultRules[0].1;
    ContainsLowered("general query about billing", kws[6], 8);
    assert AnyKeywordOccurs(Lower("general query about billing"), kws);
    ClassifyFirstMatchWins("general query about billing", DefaultRules, 0);
  }

  /**
   * `classify_department` as written: nested loops over departments and
   * their keywords with an early return on the first hit.
   */
  method ClassifyDepartment(complaint: string, rules: Rules) returns (d: Department)
    ensures d == Classify(complaint, rules)
  {
    var text := Lower(complaint);
    var i := 0;
    while i < |rules|
      invariant 0 <= i <= |rules|
      invariant forall j :: 0 <= j < i ==> !AnyKeywordOccurs(text, rules[j].1)
    {
      var keywords := rules[i].1;
      var k := 0;
      while k < |keywords|
        invariant 0 <= k <= |keywords|
        invariant forall m :: 0 <= m < k ==> !IsSubstring(Lower(keywords[m]), text)
      {
        if Contains(text, Lower(keywords[k])) {
          ClassifyFirstMatchWins(complaint, rules, i);
          return rules[i].0;
        }
        k := k + 1;
      }
      i := i + 1;
    }
    ClassifyCharacterised(complaint, rules);
    return Others;
  }
}
