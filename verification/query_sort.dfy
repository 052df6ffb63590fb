/**
 * Sort parameters (src/main/java/ru/keich/mon/servicemanager/query/QuerySort.java):
 * `name=sort:n` or `name=sortdesc:n` asks for ordering by `name` with
 * priority `n`; sorts compare by that priority.
 */
module QuerySorts {
  import opened Wrappers
  import opened Operators
  import opened QueryFilter
  import Decimal

  datatype QuerySort = QuerySort(name: string, operator: Operator, order: int)

  /** `error`: the ERROR sort of order 0. */
  function Error(name: string): (q: QuerySort)
    ensures q.name == name && q.operator == ERROR && q.order == 0
  {
    QuerySort(name, ERROR, 0)
  }

  /**
   * `fromParam`: a SORT or SORTDESC operator before the first colon reads
   * the rest with `Integer.valueOf`, which throws NumberFormatException on
   * anything but a 32-bit decimal; every other input is the ERROR sort.
   */
  function FromParam(name: string, value: string): (r: Result<QuerySort>)
    ensures r.Ok? ==> r.value.name == name && r.value.operator in {SORT, SORTDESC, ERROR}
    ensures r.Ok? ==> Decimal.IntMin <= r.value.order <= Decimal.IntMax
    ensures ':' !in value ==> r == Ok(Error(name))
  {
    var arr := SplitFirstColon(value);
    if |arr| == 2 then
      var op := FromStringExtended(arr[0]);
      if op == SORT || op == SORTDESC then
        match Decimal.IntegerValueOf(arr[1])
        case Some(n) => Ok(QuerySort(name, op, n))
        case None => Err("NumberFormatException")
      else Ok(Error(name))
    else Ok(Error(name))
  }

  /** `sort:n` and `sortdesc:n` carry their operator and the number; other operators give ERROR. */
  lemma FromParamSort(name: string, opText: string, rest: string)
    requires ':' !in opText
    ensures var op := FromStringExtended(opText);
      FromParam(name, opText + ":" + rest) ==
        if op in {SORT, SORTDESC} then
          (match Decimal.IntegerValueOf(rest)
           case Some(n) => Ok(QuerySort(name, op, n))
           case None => Err("NumberFormatException"))
        else Ok(Error(name))
  {
    SplitJoin(opText, rest);
  }

  /** A sort operator followed by a non-number throws. */
  lemma FromParamNotANumber(name: string)
    ensures FromParam(name, "sort:x") == Err("NumberFormatException")
  {
    ReadsLowerSort();
    assert "sort" + ":" + "x" == "sort:x";
    assert Decimal.IntegerValueOf("x") == None;
    FromParamSort(name, "sort", "x");
  }

  /** Java's 32-bit `int` arithmetic: the result wraps into [IntMin, IntMax]. */
  function Wrap32(x: int): (r: int)
    ensures Decimal.IntMin <= r <= Decimal.IntMax
    ensures Decimal.IntMin <= x <= Decimal.IntMax ==> r == x
    ensures (r - x) % 0x1_0000_0000 == 0
  {
    (x - Decimal.IntMin) % 0x1_0000_0000 + Decimal.IntMin
  }

  /** `compareTo` as written: the difference of the orders in 32-bit arithmetic. */
  function CompareToAsWritten(a: QuerySort, b: QuerySort): int
  {
    Wrap32(a.order - b.order)
  }

  /** The subtraction overflows: order IntMin compares above order 1. */
  lemma CompareToAsWrittenOverflows(name: string)
    ensures var a := QuerySort(name, SORT, Decimal.IntMin);
            var b := QuerySort(name, SORT, 1);
            a.order < b.order && CompareToAsWritten(a, b) > 0
  {
  }

  /** While the orders are at most 2^30 apart the written comparison has the right sign. */
  lemma CompareToAsWrittenSmallOrders(a: QuerySort, b: QuerySort)
    requires -0x4000_0000 <= a.order <= 0x3fff_ffff && -0x4000_0000 <= b.order <= 0x3fff_ffff
    ensures CompareToAsWritten(a, b) < 0 <==> a.order < b.order
    ensures CompareToAsWritten(a, b) == 0 <==> a.order == b.order
  {
  }

  /** The comparison as intended (`Integer.compare`): ascending by order, for every pair of ints. */
  function CompareTo(a: QuerySort, b: QuerySort): (c: int)
    ensures c < 0 <==> a.order < b.order
    ensures c == 0 <==> a.order == b.order
    ensures c > 0 <==> a.order > b.order
  {
    if a.order < b.order then -1 else if a.order == b.order then 0 else 1
  }

  /** The intended comparison is antisymmetric and agrees with the written one wherever that one is right. */
  lemma CompareToAntisymmetric(a: QuerySort, b: QuerySort)
    ensures CompareTo(a, b) == -CompareTo(b, a)
    ensures -0x4000_0000 <= a.order <= 0x3fff_ffff && -0x4000_0000 <= b.order <= 0x3fff_ffff ==>
              (CompareTo(a, b) < 0 <==> CompareToAsWritten(a, b) < 0)
  {
  }
}
