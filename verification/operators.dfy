/**
 * Query operators (src/main/java/ru/keich/mon/servicemanager/query/Operator.java)
 * and the case-insensitive `fromString` that reads them from a query string.
 *
 * Predicates.java and QuerySort.java were written against a later revision of
 * the enum that also has GE, NI, SORT and SORTDESC; that revision is not part
 * of this model, and `FromStringExtended` assumes its `fromString` reads the
 * four extra names the same way.
 */
module Operators {

  datatype Operator = NE | EQ | LT | GT | GE | CO | NC | NI | SORT | SORTDESC | ERROR | ALL

  /** The constant names of the enum. */
  function Name(op: Operator): string
  {
    match op
    case NE => "NE"
    case EQ => "EQ"
    case LT => "LT"
    case GT => "GT"
    case GE => "GE"
    case CO => "CO"
    case NC => "NC"
    case NI => "NI"
    case SORT => "SORT"
    case SORTDESC => "SORTDESC"
    case ERROR => "ERROR"
    case ALL => "ALL"
  }

  /** The six comparison operators of Operator.java that `fromString` recognises. */
  predicate IsComparison(op: Operator)
  {
    op in {NE, EQ, LT, GT, CO, NC}
  }

  /** `toUpperCase` on ASCII letters; other characters are kept. */
  function UpperChar(c: char): (u: char)
    ensures 'a' <= c <= 'z' ==> u as int == c as int - 32
    ensures !('a' <= c <= 'z') ==> u == c
  {
    if 'a' <= c <= 'z' then (c as int - 32) as char else c
  }

  function ToUpper(s: string): (r: string)
    ensures |r| == |s|
    ensures forall i :: 0 <= i < |s| ==> r[i] == UpperChar(s[i])
  {
    seq(|s|, i requires 0 <= i < |s| => UpperChar(s[i]))
  }

  /** Upper-casing twice is upper-casing once. */
  lemma ToUpperIdempotent(s: string)
    ensures ToUpper(ToUpper(s)) == ToUpper(s)
  {
    assert forall i :: 0 <= i < |s| ==> UpperChar(UpperChar(s[i])) == UpperChar(s[i]);
  }

  /**
   * `fromString`: NE, EQ, LT, GT, CO and NC in any letter case give that
   * operator; everything else gives ERROR, so ALL is never produced.
   */
  function FromString(str: string): (r: Operator)
    ensures r != ALL
    ensures r == ERROR || IsComparison(r)
    ensures r != ERROR ==> ToUpper(str) == Name(r)
    ensures forall op :: IsComparison(op) && ToUpper(str) == Name(op) ==> r == op
  {
    var u := ToUpper(str);
    if u == "NE" then NE
    else if u == "EQ" then EQ
    else if u == "LT" then LT
    else if u == "GT" then GT
    else if u == "CO" then CO
    else if u == "NC" then NC
    else ERROR
  }

  /** The name of a comparison operator reads back as that operator. */
  lemma FromStringName(op: Operator)
    requires IsComparison(op)
    ensures FromString(Name(op)) == op
  {
    assert ToUpper(Name(op)) == Name(op);
  }

  /** Letter case does not matter: a string reads like its upper-cased form. */
  lemma FromStringIgnoresCase(s: string)
    ensures FromString(s) == FromString(ToUpper(s))
  {
    ToUpperIdempotent(s);
  }

  /** `fromString` of the later revision, which also reads GE, NI, SORT and SORTDESC. */
  function FromStringExtended(str: string): (r: Operator)
    ensures r != ALL
    ensures r != ERROR ==> ToUpper(str) == Name(r)
  {
    var u := ToUpper(str);
    if u == "GE" then GE
    else if u == "NI" then NI
    else if u == "SORT" then SORT
    else if u == "SORTDESC" then SORTDESC
    else FromString(str)
  }

  /** The two revisions agree on every string the older one recognises. */
  lemma FromStringExtendedAgrees(str: string)
    ensures FromString(str) != ERROR ==> FromStringExtended(str) == FromString(str)
    ensures IsComparison(FromStringExtended(str)) ==> FromString(str) == FromStringExtended(str)
  {
  }

  /** The lower-case spelling `sort` reads as SORT. */
  lemma ReadsLowerSort()
    ensures FromStringExtended("sort") == SORT
  {
    var u := ToUpper("sort");
    assert u[0] == 'S' && u[1] == 'O' && u[2] == 'R' && u[3] == 'T';
    assert u == "SORT";
  }
}
