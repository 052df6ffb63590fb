/**
 * `Predicates.fromParam` (src/main/java/ru/keich/mon/servicemanager/query/predicates/Predicates.java):
 * a query parameter `name=op:value` becomes a predicate of that operator on the
 * converted value, an error predicate for an unknown operator, or an equality
 * test on the whole value when there is no colon.
 */
module Predicates {
  import opened Wrappers
  import opened Operators
  import opened QueryFilter
  import opened QueryPredicates

  /** A predicate of one of the eight operators, or the error predicate, which holds of nothing. */
  datatype Pred = Query(p: QueryPredicate) | Error(name: string, value: string)

  /** The operators the switch dispatches on; the others fall to the default branch. */
  function AsPredicateOp(op: Operator): (r: Option<PredicateOp>)
    ensures r.Some? <==> !(op in {Operator.SORT, Operator.SORTDESC, Operator.ERROR, Operator.ALL})
  {
    match op
    case NE => Some(PredicateOp.NE)
    case EQ => Some(PredicateOp.EQ)
    case LT => Some(PredicateOp.LT)
    case GT => Some(PredicateOp.GT)
    case GE => Some(PredicateOp.GE)
    case CO => Some(PredicateOp.CO)
    case NC => Some(PredicateOp.NC)
    case NI => Some(PredicateOp.NI)
    case _ => None
  }

  /** The predicate's test; the error predicate is false for every candidate. */
  function TestPred(p: Pred, v: Value): (r: Result<bool>)
    ensures p.Error? ==> r == Ok(false)
    ensures p.Query? ==> r == Test(p.p, v)
  {
    match p
    case Error(_, _) => Ok(false)
    case Query(q) => Test(q, v)
  }

  /**
   * `fromParam`: split at the first colon; a recognised operator gets the
   * converted rest, an unrecognised one the error predicate over the whole
   * value; without a colon, equality with the converted whole value. The
   * comparison predicates of this package cast only when they are tested.
   */
  function FromParam(name: string, value: string, convert: (string, string) -> Value): (r: Pred)
    ensures r.Query? ==> r.p.name == name
    ensures ':' !in value ==> r == Query(Equal(name, convert(name, value)))
    ensures r.Error? ==> r == Error(name, value)
  {
    var arr := SplitFirstColon(value);
    if |arr| == 2 then
      match AsPredicateOp(FromStringExtended(arr[0]))
      case Some(op) => Query(QueryPredicate(name, op, convert(name, arr[1])))
      case None => Error(name, value)
    else Query(Equal(name, convert(name, value)))
  }

  /** A recognised `op:rest` gives that operator on the converted rest, later colons included. */
  lemma FromParamRecognised(name: string, opText: string, rest: string, convert: (string, string) -> Value)
    requires ':' !in opText
    requires AsPredicateOp(FromStringExtended(opText)).Some?
    ensures FromParam(name, opText + ":" + rest, convert)
         == Query(QueryPredicate(name, AsPredicateOp(FromStringExtended(opText)).value, convert(name, rest)))
  {
    SplitJoin(opText, rest);
  }

  /** An unrecognised operator gives the error predicate over the whole value, which matches nothing. */
  lemma FromParamUnrecognised(name: string, opText: string, rest: string, convert: (string, string) -> Value, v: Value)
    requires ':' !in opText
    requires AsPredicateOp(FromStringExtended(opText)).None?
    ensures FromParam(name, opText + ":" + rest, convert) == Error(name, opText + ":" + rest)
    ensures TestPred(FromParam(name, opText + ":" + rest, convert), v) == Ok(false)
  {
    SplitJoin(opText, rest);
  }

  /** `sort:1` is not a filter: it becomes the error predicate. */
  lemma SortIsNoFilter(name: string, convert: (string, string) -> Value)
    ensures FromParam(name, "sort:1", convert) == Error(name, "sort:1")
  {
    ReadsLowerSort();
    assert AsPredicateOp(SORT).None?;
    assert "sort" + ":" + "1" == "sort:1";
    FromParamUnrecognised(name, "sort", "1", convert, Str(""));
  }
}
