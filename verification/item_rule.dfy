/**
 * A status rule of an item (src/main/java/ru/keich/mon/servicemanager/item/ItemRule.java):
 * how the statuses of the children add up to the item's own status.
 */
module ItemRules {
  import opened Wrappers
  import opened Status

  datatype RuleType = DEFAULT | CLUSTER

  datatype ItemRule = ItemRule(
    resultStatus: BaseStatus,
    usingResultStatus: bool,
    statusThreshold: BaseStatus,
    valueThreshold: int,
    ruleType: RuleType)

  /**
   * The JSON constructor: a missing result status is INDETERMINATE, a missing
   * status threshold CLEAR and a missing value threshold 0; the flag and the
   * type are stored as given.
   */
  function NewItemRule(resultStatus: Option<BaseStatus>, usingResultStatus: bool, statusThreshold: Option<BaseStatus>,
                       valueThreshold: Option<int>, ruleType: RuleType): (r: ItemRule)
    ensures resultStatus.None? ==> r.resultStatus == INDETERMINATE
    ensures resultStatus.Some? ==> r.resultStatus == resultStatus.value
    ensures statusThreshold.None? ==> r.statusThreshold == CLEAR
    ensures statusThreshold.Some? ==> r.statusThreshold == statusThreshold.value
    ensures valueThreshold.None? ==> r.valueThreshold == 0
    ensures valueThreshold.Some? ==> r.valueThreshold == valueThreshold.value
    ensures r.usingResultStatus == usingResultStatus && r.ruleType == ruleType
  {
    ItemRule(
      if resultStatus.Some? then resultStatus.value else INDETERMINATE,
      usingResultStatus,
      if statusThreshold.Some? then statusThreshold.value else CLEAR,
      if valueThreshold.Some? then valueThreshold.value else 0,
      ruleType)
  }

  /** Every rule is what the constructor builds from its own fields, so no field is lost or altered. */
  lemma NewItemRuleFromFields(r: ItemRule)
    ensures NewItemRule(Some(r.resultStatus), r.usingResultStatus, Some(r.statusThreshold), Some(r.valueThreshold), r.ruleType) == r
  {
  }

  /** Leaving a field out is the same as giving its default. */
  lemma NewItemRuleDefaults(usingResultStatus: bool, ruleType: RuleType)
    ensures NewItemRule(None, usingResultStatus, None, None, ruleType)
         == NewItemRule(Some(INDETERMINATE), usingResultStatus, Some(CLEAR), Some(0), ruleType)
  {
  }

  /** `equals`: all five fields agree, which makes it value equality. */
  function RuleEquals(a: ItemRule, b: ItemRule): (r: bool)
    ensures r <==> a == b
  {
    && a.resultStatus == b.resultStatus
    && a.statusThreshold == b.statusThreshold
    && a.ruleType == b.ruleType
    && a.usingResultStatus == b.usingResultStatus
    && a.valueThreshold == b.valueThreshold
  }
}
