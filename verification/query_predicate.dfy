/**
 * Query predicates (src/main/java/ru/keich/mon/servicemanager/query/QueryPredicate.java):
 * each factory pairs an operator with a value, and the predicate tests a
 * candidate value against it.
 *
 * The Java values are plain objects; the model has the three kinds the
 * value converters produce: strings, longs and map entries (`key=value`).
 */
module QueryPredicates {
  import opened Wrappers
  import Decimal

  datatype Value = Str(s: string) | Num(n: int) | Pair(key: string, val: string)

  /** `toString`: a string is itself, a number its decimal form, an entry `key=value`. */
  function ToString(v: Value): string
  {
    match v
    case Str(s) => s
    case Num(n) => Decimal.IntToString(n)
    case Pair(k, x) => k + "=" + x
  }

  /** `t` starts `s`. */
  predicate IsPrefix(t: string, s: string)
  {
    |t| <= |s| && s[..|t|] == t
  }

  /** `s.contains(t)`: t occurs somewhere in s. */
  predicate Contains(s: string, t: string)
    decreases |s|
  {
    IsPrefix(t, s) || (s != [] && Contains(s[1..], t))
  }

  /** t occurs in s starting at offset i. */
  predicate OccursAt(s: string, t: string, i: int)
  {
    0 <= i <= |s| - |t| && s[i..i + |t|] == t
  }

  /** Contains is exactly "occurs at some offset". */
  lemma {:induction false} ContainsAt(s: string, t: string)
    ensures Contains(s, t) <==> exists i :: OccursAt(s, t, i)
  {
    if IsPrefix(t, s) {
      assert OccursAt(s, t, 0);
    } else if s == [] {
    } else {
      ContainsAt(s[1..], t);
      if exists i :: OccursAt(s, t, i) {
        var i :| OccursAt(s, t, i);
        assert i != 0;
        assert s[1..][i - 1..i - 1 + |t|] == s[i..i + |t|];
        assert OccursAt(s[1..], t, i - 1);
      }
      if Contains(s[1..], t) {
        var i :| OccursAt(s[1..], t, i);
        assert s[i + 1..i + 1 + |t|] == s[1..][i..i + |t|];
        assert OccursAt(s, t, i + 1);
      }
    }
  }

  /** Every string contains the empty string. */
  lemma ContainsEmpty(s: string)
    ensures Contains(s, "")
  {
    assert IsPrefix("", s);
  }

  /** The sign of `String.compareTo`: the first differing character decides, else the shorter is smaller. */
  function CompareStrings(a: string, b: string): (c: int)
    ensures -1 <= c <= 1
    ensures c == 0 <==> a == b
  {
    if a == [] && b == [] then 0
    else if a == [] then -1
    else if b == [] then 1
    else if a[0] < b[0] then -1
    else if a[0] > b[0] then 1
    else
      var c := CompareStrings(a[1..], b[1..]);
      assert c == 0 ==> a == [a[0]] + a[1..] == [b[0]] + b[1..] == b;
      c
  }

  /** The string order is antisymmetric. */
  lemma {:induction false} CompareStringsAntisymmetric(a: string, b: string)
    ensures CompareStrings(a, b) == -CompareStrings(b, a)
  {
    if a != [] && b != [] && a[0] == b[0] {
      CompareStringsAntisymmetric(a[1..], b[1..]);
    }
  }

  /** The sign of `c.compareTo(v)`; comparing values of different kinds, or entries, throws. */
  function CompareTo(c: Value, v: Value): (r: Result<int>)
    ensures r.Ok? <==> (c.Str? && v.Str?) || (c.Num? && v.Num?)
    ensures r.Ok? ==> -1 <= r.value <= 1 && (r.value == 0 <==> c == v)
  {
    if c.Str? && v.Str? then Ok(CompareStrings(c.s, v.s))
    else if c.Num? && v.Num? then Ok(if c.n < v.n then -1 else if c.n == v.n then 0 else 1)
    else Err("ClassCastException")
  }

  /** Comparing the other way round flips the sign. */
  lemma CompareToFlips(c: Value, v: Value)
    requires CompareTo(c, v).Ok?
    ensures CompareTo(v, c) == Ok(-CompareTo(c, v).value)
  {
    if c.Str? {
      CompareStringsAntisymmetric(c.s, v.s);
    }
  }

  /** The operators of this class's own nested enum. */
  datatype PredicateOp = NE | EQ | LT | GT | GE | CO | NC | NI

  /** A predicate: its name, operator and value; the tested function is `Test`. */
  datatype QueryPredicate = QueryPredicate(name: string, operator: PredicateOp, value: Value)

  /**
   * The lambda each factory installs, applied to a candidate `v`.
   * A comparison of unlike values, or a contain test of an entry against a
   * non-entry, throws ClassCastException.
   */
  function Test(p: QueryPredicate, v: Value): (r: Result<bool>)
    ensures p.operator in {EQ, NE, NI} ==> r.Ok?
    ensures p.operator in {CO, NC} ==> (r.Ok? <==> (!p.value.Pair? || v.Pair?))
    ensures p.operator in {LT, GT, GE} ==> (r.Ok? <==> CompareTo(p.value, v).Ok?)
  {
    var value := p.value;
    match p.operator
    case EQ => Ok(value == v)
    case NE => Ok(value != v)
    case GE => (match CompareTo(value, v) case Ok(c) => Ok(c <= 0) case Err(e) => Err(e))
    case GT => (match CompareTo(value, v) case Ok(c) => Ok(c < 0) case Err(e) => Err(e))
    case LT => (match CompareTo(value, v) case Ok(c) => Ok(c > 0) case Err(e) => Err(e))
    case CO =>
      if value.Pair? then
        if !v.Pair? then Err("ClassCastException")
        else if v.key == value.key then Ok(Contains(v.val, value.val))
        else Ok(false)
      else Ok(Contains(ToString(v), ToString(value)))
    case NC =>
      if value.Pair? then
        if !v.Pair? then Err("ClassCastException")
        else if v.key == value.key then Ok(!Contains(v.val, value.val))
        else Ok(false)
      else Ok(!Contains(ToString(v), ToString(value)))
    case NI => Ok(!Contains(ToString(v), ToString(value)))
  }

  /** `equal` and `notEqual` keep their value; no cast is involved. */
  function Equal(name: string, value: Value): (p: QueryPredicate)
    ensures p.name == name && p.value == value
    ensures forall v :: Test(p, v) == Ok(v == value)
  {
    QueryPredicate(name, EQ, value)
  }

  function NotEqual(name: string, value: Value): (p: QueryPredicate)
    ensures p.name == name && p.value == value
    ensures forall v :: Test(p, v) == Ok(v != value)
  {
    QueryPredicate(name, NE, value)
  }

  /** `greaterEqual`, `greaterThan` and `lessThan` cast the value to Comparable first: an entry throws. */
  function GreaterEqual(name: string, value: Value): (r: Result<QueryPredicate>)
    ensures r.Ok? <==> !value.Pair?
    ensures r.Ok? ==> r.value.name == name && r.value.operator == GE && r.value.value == value
  {
    if value.Pair? then Err("ClassCastException") else Ok(QueryPredicate(name, GE, value))
  }

  function GreaterThan(name: string, value: Value): (r: Result<QueryPredicate>)
    ensures r.Ok? <==> !value.Pair?
    ensures r.Ok? ==> r.value.name == name && r.value.operator == GT && r.value.value == value
  {
    if value.Pair? then Err("ClassCastException") else Ok(QueryPredicate(name, GT, value))
  }

  function LessThan(name: string, value: Value): (r: Result<QueryPredicate>)
    ensures r.Ok? <==> !value.Pair?
    ensures r.Ok? ==> r.value.name == name && r.value.operator == LT && r.value.value == value
  {
    if value.Pair? then Err("ClassCastException") else Ok(QueryPredicate(name, LT, value))
  }

  function Contain(name: string, value: Value): (p: QueryPredicate)
    ensures p.name == name && p.operator == CO && p.value == value
  {
    QueryPredicate(name, CO, value)
  }

  function NotContain(name: string, value: Value): (p: QueryPredicate)
    ensures p.name == name && p.operator == NC && p.value == value
  {
    QueryPredicate(name, NC, value)
  }

  function NotInclude(name: string, value: Value): (p: QueryPredicate)
    ensures p.name == name && p.operator == NI && p.value == value
  {
    QueryPredicate(name, NI, value)
  }

  /** notEqual accepts exactly what equal rejects. */
  lemma NotEqualNegatesEqual(name: string, value: Value, v: Value)
    ensures Test(NotEqual(name, value), v).value == !Test(Equal(name, value), v).value
  {
  }

  /** On numbers the comparisons are the integer order: v > value, v < value, v >= value. */
  lemma NumericComparisons(name: string, value: int, v: int)
    ensures Test(GreaterThan(name, Num(value)).value, Num(v)) == Ok(v > value)
    ensures Test(LessThan(name, Num(value)).value, Num(v)) == Ok(v < value)
    ensures Test(GreaterEqual(name, Num(value)).value, Num(v)) == Ok(v >= value)
  {
  }

  /** greaterEqual is greaterThan or equal, for every value it can compare. */
  lemma GreaterEqualIsGreaterOrEqual(name: string, value: Value, v: Value)
    requires !value.Pair?
    requires CompareTo(value, v).Ok?
    ensures Test(GreaterEqual(name, value).value, v).value
        <==> Test(GreaterThan(name, value).value, v).value || Test(Equal(name, value), v).value
  {
  }

  /** lessThan with value a accepts b exactly when greaterThan with value b accepts a. */
  lemma LessThanMirrorsGreaterThan(name: string, a: Value, b: Value)
    requires !a.Pair? && !b.Pair?
    requires CompareTo(a, b).Ok?
    ensures Test(LessThan(name, a).value, b) == Test(GreaterThan(name, b).value, a)
  {
    CompareToFlips(a, b);
  }

  /** For an entry under another key, contain and notContain both answer false. */
  lemma ContainOtherKey(name: string, key: string, val: string, k: string, x: string)
    requires k != key
    ensures Test(Contain(name, Pair(key, val)), Pair(k, x)) == Ok(false)
    ensures Test(NotContain(name, Pair(key, val)), Pair(k, x)) == Ok(false)
  {
  }

  /** Under the same key, notContain is the negation of contain, which is a substring test of the values. */
  lemma ContainSameKey(name: string, key: string, val: string, x: string)
    ensures Test(Contain(name, Pair(key, val)), Pair(key, x)) == Ok(Contains(x, val))
    ensures Test(NotContain(name, Pair(key, val)), Pair(key, x)) == Ok(!Contains(x, val))
  {
  }

  /** For a non-entry value, notContain and notInclude are both the negation of contain. */
  lemma NotContainNegatesContain(name: string, value: Value, v: Value)
    requires !value.Pair?
    ensures Test(NotContain(name, value), v).value == !Test(Contain(name, value), v).value
    ensures Test(NotInclude(name, value), v) == Test(NotContain(name, value), v)
  {
  }

  /** An entry filter `k=ab` on an entry `k=xaby` under the same key matches. */
  lemma ContainExample()
    ensures Test(Contain("fields", Pair("k", "ab")), Pair("k", "xaby")) == Ok(true)
  {
    assert IsPrefix("ab", "xaby"[1..]);
  }
}
