/**
 * The extraction rule record (`CustomerRegexRule`): one regular expression
 * per customer and field, with the capture group to take and whether the
 * field is a header field or a repeated item field.
 */
module RegexRules {
  import opened Wrappers

  /** The only customer the `customer_name` column offers. */
  const FoodHall: string := "Food Hall"
  const CustomerChoices: set<string> := {FoodHall}

  /** `regex_group` defaults to the first capture group. */
  const DefaultRegexGroup: Option<int> := Some(1)

  /**
   * One row of the rule table. `id` is the primary key; `regexGroup` is
   * None for a null column; `regexPatternV2` and `regexPatternV3` are the
   * alternate patterns the admin screen shows, which nothing reads.
   */
  datatype CustomerRegexRule = CustomerRegexRule(
    id: nat,
    customerId: Option<string>,
    customerName: string,
    fieldName: string,
    regexPattern: string,
    regexGroup: Option<int>,
    isItemField: bool,
    regexPatternV2: Option<string>,
    regexPatternV3: Option<string>)

  /**
   * What the model's field declarations admit: a customer among the
   * choices, a non-blank field name and pattern, and the column lengths.
   */
  predicate ValidRule(r: CustomerRegexRule) {
    && r.customerName in CustomerChoices
    && 0 < |r.fieldName| <= 255
    && r.regexPattern != ""
    && (r.customerId.Some? ==> |r.customerId.value| <= 100)
  }

  /**
   * A rule as a form creates it when only the required columns are given:
   * no customer id, group 1, no alternate patterns.
   */
  function NewRule(id: nat, customerName: string, fieldName: string, pattern: string, isItemField: bool): (r: CustomerRegexRule)
    ensures r.customerId.None? && r.regexGroup == DefaultRegexGroup
    ensures r.regexPatternV2.None? && r.regexPatternV3.None?
    ensures r.id == id && r.customerName == customerName && r.fieldName == fieldName
    ensures r.regexPattern == pattern && r.isItemField == isItemField
    ensures ValidRule(r) <==> customerName == FoodHall && 0 < |fieldName| <= 255 && pattern != ""
  {
    CustomerRegexRule(id, None, customerName, fieldName, pattern, DefaultRegexGroup, isItemField, None, None)
  }

  /**
   * `str(rule)`: the customer name, " - ", then the field name; both parts
   * can be read back from the label.
   */
  function RuleLabel(r: CustomerRegexRule): (s: string)
    ensures |s| == |r.customerName| + 3 + |r.fieldName|
    ensures s[..|r.customerName|] == r.customerName
    ensures s[|r.customerName|..|r.customerName| + 3] == " - "
    ensures s[|r.customerName| + 3..] == r.fieldName
  {
    r.customerName + " - " + r.fieldName
  }

  /** Among one customer's rules, the label tells the fields apart: equal labels mean equal field names. */
  lemma {:induction false} RuleLabelSeparatesFields(r1: CustomerRegexRule, r2: CustomerRegexRule)
    requires r1.customerName == r2.customerName
    ensures RuleLabel(r1) == RuleLabel(r2) <==> r1.fieldName == r2.fieldName
  {
    var n := |r1.customerName| + 3;
    if RuleLabel(r1) == RuleLabel(r2) {
      assert r1.fieldName == RuleLabel(r1)[n..] == RuleLabel(r2)[n..] == r2.fieldName;
    }
  }
}
