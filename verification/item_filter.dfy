/**
 * An event filter of an item (src/main/java/ru/keich/mon/servicemanager/item/ItemFilter.java):
 * the field values an event must carry to be linked to the item.
 */
module ItemFilters {
  import opened Wrappers
  import opened Status

  datatype ItemFilter = ItemFilter(
    resultStatus: BaseStatus,
    usingResultStatus: bool,
    equalFields: map<string, string>)

  /**
   * The JSON constructor: a missing result status is INDETERMINATE; the flag
   * and the required field map are stored as given.
   */
  function NewItemFilter(resultStatus: Option<BaseStatus>, usingResultStatus: bool, equalFields: map<string, string>): (r: ItemFilter)
    ensures resultStatus.None? ==> r.resultStatus == INDETERMINATE
    ensures resultStatus.Some? ==> r.resultStatus == resultStatus.value
    ensures r.usingResultStatus == usingResultStatus && r.equalFields == equalFields
  {
    ItemFilter(if resultStatus.Some? then resultStatus.value else INDETERMINATE, usingResultStatus, equalFields)
  }

  /** Every filter is what the constructor builds from its own fields. */
  lemma NewItemFilterFromFields(f: ItemFilter)
    ensures NewItemFilter(Some(f.resultStatus), f.usingResultStatus, f.equalFields) == f
  {
  }

  /**
   * `equals`: field maps of different sizes are rejected first; otherwise the
   * field maps, the result status and the flag must agree. This is value
   * equality, and two filters with differently sized field maps are never equal.
   */
  function FilterEquals(a: ItemFilter, b: ItemFilter): (r: bool)
    ensures r <==> a == b
    ensures |a.equalFields| != |b.equalFields| ==> !r
  {
    if |a.equalFields| != |b.equalFields| then false
    else a.equalFields == b.equalFields && a.resultStatus == b.resultStatus && a.usingResultStatus == b.usingResultStatus
  }

  /**
   * A filter matches a field map when each of its equal-fields is present
   * there with the same value.
   */
  predicate Matches(equalFields: map<string, string>, fields: map<string, string>)
  {
    forall n :: n in equalFields ==> n in fields && fields[n] == equalFields[n]
  }

  /** A filter without equal-fields matches every field map. */
  lemma EmptyFilterMatchesAll(fields: map<string, string>)
    ensures Matches(map[], fields)
  {
  }
}
