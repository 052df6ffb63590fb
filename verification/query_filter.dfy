/**
 * Query-string filters (src/main/java/ru/keich/mon/servicemanager/query/Filter.java):
 * a parameter `name=op:value` becomes a filter keyed by (name, operator).
 */
module QueryFilter {
  import opened Wrappers
  import opened Operators

  /** A filter's key: the parameter name and the operator. */
  datatype QueryId = QueryId(name: string, operator: Operator)

  /** A filter; the constructor `Filter(QueryId, String)` stores both arguments as they are. */
  datatype Filter = Filter(id: QueryId, value: string)

  /** The position of the first `c` in `s`, if any. */
  function IndexOf(s: string, c: char): (r: Option<nat>)
    ensures r.None? <==> c !in s
    ensures r.Some? ==> r.value < |s| && s[r.value] == c && c !in s[..r.value]
  {
    if s == [] then None
    else if s[0] == c then Some(0)
    else match IndexOf(s[1..], c)
      case None => None
      case Some(i) =>
        assert s[1..][..i] == s[1..i + 1];
        Some(i + 1)
  }

  /**
   * `split(":", 2)`: the text before the first colon and everything after it
   * (later colons included), or the whole string as the only part.
   */
  function SplitFirstColon(s: string): (parts: seq<string>)
    ensures |parts| == 1 || |parts| == 2
    ensures |parts| == 1 <==> ':' !in s
    ensures |parts| == 1 ==> parts[0] == s
    ensures |parts| == 2 ==> s == parts[0] + ":" + parts[1] && ':' !in parts[0]
  {
    match IndexOf(s, ':')
    case None => [s]
    case Some(i) =>
      assert s == s[..i] + ":" + s[i + 1..];
      [s[..i], s[i + 1..]]
  }

  /** The first `c` of `a + [c] + b` sits right after `a` when `a` has none. */
  lemma {:induction false} IndexOfAfterPrefix(a: string, c: char, b: string)
    requires c !in a
    ensures IndexOf(a + [c] + b, c) == Some(|a|)
  {
    if a != [] {
      assert (a + [c] + b)[1..] == a[1..] + [c] + b;
      IndexOfAfterPrefix(a[1..], c, b);
    }
  }

  /** Splitting at the first colon is undone by joining the parts with a colon. */
  lemma SplitJoin(op: string, rest: string)
    requires ':' !in op
    ensures SplitFirstColon(op + ":" + rest) == [op, rest]
  {
    var s := op + ":" + rest;
    IndexOfAfterPrefix(op, ':', rest);
    assert s[..|op|] == op;
    assert s[|op| + 1..] == rest;
  }

  /**
   * `new Filter(name, value)`: "op:rest" gives operator `fromString(op)` and
   * value `rest`; a value without a colon gives operator ERROR and keeps the
   * whole value.
   */
  function Parse(name: string, value: string): (f: Filter)
    ensures f.id.name == name
    ensures ':' !in value ==> f == Filter(QueryId(name, ERROR), value)
    ensures ':' in value ==> exists op, rest :: ':' !in op && value == op + ":" + rest
                                 && f == Filter(QueryId(name, FromString(op)), rest)
  {
    var arr := SplitFirstColon(value);
    if |arr| == 2 then Filter(QueryId(name, FromString(arr[0])), arr[1])
    else Filter(QueryId(name, ERROR), value)
  }

  /** Only the first colon splits: an operator followed by any rest keeps the rest whole. */
  lemma ParseOperatorAndRest(name: string, op: string, rest: string)
    requires ':' !in op
    ensures Parse(name, op + ":" + rest) == Filter(QueryId(name, FromString(op)), rest)
  {
    SplitJoin(op, rest);
  }

  /** For instance `eq:a:b` is the equality filter with value `a:b`. */
  lemma ParseKeepsLaterColons(name: string)
    ensures Parse(name, "eq:a:b") == Filter(QueryId(name, EQ), "a:b")
  {
    assert ToUpper("eq") == "EQ";
    assert FromString("eq") == EQ;
    assert "eq" + ":" + "a:b" == "eq:a:b";
    ParseOperatorAndRest(name, "eq", "a:b");
  }
}
