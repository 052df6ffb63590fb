/**
 * The six-level severity scale shared by items and events
 * (src/main/java/ru/keich/mon/servicemanager/BaseStatus.java).
 */
module Status {
  import opened Wrappers

  datatype BaseStatus = CLEAR | INDETERMINATE | INFORMATION | WARNING | MAJOR | CRITICAL

  /** `BaseStatus.length`: the number of statuses. */
  const Length: nat := 6

  /** The integer each constant carries (also its ordinal and its `getInt()`). */
  function Ordinal(s: BaseStatus): (n: nat)
    ensures n < Length
  {
    match s
    case CLEAR => 0
    case INDETERMINATE => 1
    case INFORMATION => 2
    case WARNING => 3
    case MAJOR => 4
    case CRITICAL => 5
  }

  /** The constant's Java name. */
  function Name(s: BaseStatus): string
  {
    match s
    case CLEAR => "CLEAR"
    case INDETERMINATE => "INDETERMINATE"
    case INFORMATION => "INFORMATION"
    case WARNING => "WARNING"
    case MAJOR => "MAJOR"
    case CRITICAL => "CRITICAL"
  }

  function LowerName(s: BaseStatus): string
  {
    match s
    case CLEAR => "clear"
    case INDETERMINATE => "indeterminate"
    case INFORMATION => "information"
    case WARNING => "warning"
    case MAJOR => "major"
    case CRITICAL => "critical"
  }

  function Digit(s: BaseStatus): string
  {
    match s
    case CLEAR => "0"
    case INDETERMINATE => "1"
    case INFORMATION => "2"
    case WARNING => "3"
    case MAJOR => "4"
    case CRITICAL => "5"
  }

  /** The three spellings `fromString` accepts for a status. */
  function Spellings(s: BaseStatus): set<string>
  {
    {Digit(s), LowerName(s), Name(s)}
  }

  /**
   * `fromInteger`: the status whose number is x on 0..5; below the range
   * CLEAR, above it CRITICAL.
   */
  function FromInteger(x: int): (s: BaseStatus)
    ensures 0 <= x < Length ==> Ordinal(s) == x
    ensures x < 0 ==> s == CLEAR
    ensures x >= Length ==> s == CRITICAL
  {
    if x == 0 then CLEAR
    else if x == 1 then INDETERMINATE
    else if x == 2 then INFORMATION
    else if x == 3 then WARNING
    else if x == 4 then MAJOR
    else if x == 5 then CRITICAL
    else if x < 0 then CLEAR
    else CRITICAL
  }

  /** `fromInteger` undoes `Ordinal`, so the numbering is a bijection onto 0..5. */
  lemma FromIntegerOrdinal(s: BaseStatus)
    ensures FromInteger(Ordinal(s)) == s
  {
  }

  lemma OrdinalInjective(a: BaseStatus, b: BaseStatus)
    ensures Ordinal(a) == Ordinal(b) ==> a == b
  {
    FromIntegerOrdinal(a);
    FromIntegerOrdinal(b);
  }

  /**
   * `fromString`: the digit, the lower-case or the upper-case name of a
   * status gives that status; any other string gives CLEAR.
   */
  function FromString(sev: string): (r: BaseStatus)
    ensures forall s :: sev in Spellings(s) ==> r == s
    ensures r != CLEAR ==> sev in Spellings(r)
  {
    if sev == "0" || sev == "clear" || sev == "CLEAR" then CLEAR
    else if sev == "1" || sev == "indeterminate" || sev == "INDETERMINATE" then INDETERMINATE
    else if sev == "2" || sev == "information" || sev == "INFORMATION" then INFORMATION
    else if sev == "3" || sev == "warning" || sev == "WARNING" then WARNING
    else if sev == "4" || sev == "major" || sev == "MAJOR" then MAJOR
    else if sev == "5" || sev == "critical" || sev == "CRITICAL" then CRITICAL
    else CLEAR
  }

  /** The match is exact: a mixed-case name is not recognised. */
  lemma FromStringMixedCase()
    ensures FromString("Warning") == CLEAR
  {
  }

  /**
   * `max`: the more severe of the two; the receiver on a tie and when the
   * other status is null.
   */
  function Max(self: BaseStatus, other: Option<BaseStatus>): (r: BaseStatus)
    ensures other.None? ==> r == self
    ensures other.Some? ==> (r == self || r == other.value)
    ensures other.Some? ==> Ordinal(r) >= Ordinal(self) && Ordinal(r) >= Ordinal(other.value)
    ensures other.Some? && Ordinal(self) == Ordinal(other.value) ==> r == self
  {
    if other.Some? && Ordinal(self) < Ordinal(other.value) then other.value else self
  }

  /** Max of two present statuses does not depend on the argument order. */
  lemma MaxCommutes(a: BaseStatus, b: BaseStatus)
    ensures Max(a, Some(b)) == Max(b, Some(a))
  {
    OrdinalInjective(a, b);
  }

  /** `lessThen`: strictly less severe. */
  function LessThen(self: BaseStatus, other: BaseStatus): (r: bool)
    ensures r ==> self != other
  {
    Ordinal(self) < Ordinal(other)
  }

  /** `lessThen` is a strict total order: asymmetric, and any two distinct statuses are related. */
  lemma LessThenStrictTotal(a: BaseStatus, b: BaseStatus)
    ensures LessThen(a, b) ==> !LessThen(b, a)
    ensures a != b ==> LessThen(a, b) || LessThen(b, a)
  {
    OrdinalInjective(a, b);
  }

  /** `lessThenOrEqual`: less severe or the same status. */
  function LessThenOrEqual(self: BaseStatus, other: BaseStatus): (r: bool)
    ensures r <==> (LessThen(self, other) || self == other)
  {
    OrdinalInjective(self, other);
    Ordinal(self) < Ordinal(other) || Ordinal(self) == Ordinal(other)
  }

  /** `moreThen(x)` is `x.lessThen(this)`. */
  function MoreThen(self: BaseStatus, other: BaseStatus): (r: bool)
    ensures r <==> LessThen(other, self)
  {
    Ordinal(self) > Ordinal(other)
  }

  /** The order is transitive, so the statuses form a chain of six. */
  lemma LessThenTransitive(a: BaseStatus, b: BaseStatus, c: BaseStatus)
    requires LessThen(a, b) && LessThen(b, c)
    ensures LessThen(a, c)
  {
  }

  /** CLEAR is the least status and CRITICAL the greatest. */
  lemma Bounds(s: BaseStatus)
    ensures LessThenOrEqual(CLEAR, s) && LessThenOrEqual(s, CRITICAL)
  {
  }

  /** The largest j in 1..k with `present(j)`, or 0 when there is none. */
  function Highest(k: nat, present: int -> bool): (r: nat)
    ensures r <= k
    ensures r == 0 || present(r)
    ensures forall j :: r < j <= k ==> !present(j)
  {
    if k == 0 then 0 else if present(k) then k else Highest(k - 1, present)
  }

  /** The smallest j in k..5 with `present(j)`, or 0 when there is none. */
  function Lowest(k: nat, present: int -> bool): (r: nat)
    ensures r <= 5
    ensures (forall j :: k <= j <= 5 ==> !present(j)) ==> r == 0
    ensures (exists j :: k <= j <= 5 && present(j)) ==> k <= r && present(r) && forall j :: k <= j < r ==> !present(j)
    decreases 6 - k
  {
    if k > 5 then 0 else if present(k) then k else Lowest(k + 1, present)
  }
}
