/**
 * The query table of the entity service
 * (src/main/java/ru/keich/mon/servicemanager/entity/EntityService.java, constructor):
 * which (name, operator) pairs produce candidate ids from an index, and which
 * filter candidate entities one by one.
 */
module EntityQueries {
  import opened Wrappers
  import opened Operators
  import opened QueryFilter
  import opened Decimal
  import opened Entities

  /** The registered producers; each reads one index. */
  datatype Producer =
    | AllVersions
    | SourceEq | SourceKeyEq
    | VersionGt | VersionLt | VersionEq
    | DeletedOnGt | DeletedOnLt | DeletedOnEq

  /** The registered filters; each tests one entity against the value. */
  datatype Rule = SourceNe | SourceKeyNe | VersionNe | DeletedOnNe | FromHistoryCo | FromHistoryNc

  /** `PRODUCER_ID_ALL`: the producer used when no other applies. */
  const ProducerIdAll := QueryId("", ALL)

  /** `VERSION_MIN`. */
  const VersionMin := 0

  /** The producer registered under a query id, if any. */
  function ProducerOf(id: QueryId): (r: Option<Producer>)
    ensures r.Some? ==> id.operator in {ALL, EQ, GT, LT}
    ensures r == Some(AllVersions) <==> id == ProducerIdAll
  {
    match id
    case QueryId("", ALL) => Some(AllVersions)
    case QueryId("source", EQ) => Some(SourceEq)
    case QueryId("sourceKey", EQ) => Some(SourceKeyEq)
    case QueryId("version", GT) => Some(VersionGt)
    case QueryId("version", LT) => Some(VersionLt)
    case QueryId("version", EQ) => Some(VersionEq)
    case QueryId("deletedOn", GT) => Some(DeletedOnGt)
    case QueryId("deletedOn", LT) => Some(DeletedOnLt)
    case QueryId("deletedOn", EQ) => Some(DeletedOnEq)
    case _ => None
  }

  /** The filter registered under a query id, if any. */
  function RuleOf(id: QueryId): (r: Option<Rule>)
    ensures r.Some? ==> id.operator in {NE, CO, NC}
  {
    match id
    case QueryId("source", NE) => Some(SourceNe)
    case QueryId("sourceKey", NE) => Some(SourceKeyNe)
    case QueryId("version", NE) => Some(VersionNe)
    case QueryId("deletedOn", NE) => Some(DeletedOnNe)
    case QueryId("fromHistory", CO) => Some(FromHistoryCo)
    case QueryId("fromHistory", NC) => Some(FromHistoryNc)
    case _ => None
  }

  /** No query id is registered both as a producer and as a filter. */
  lemma ProducersAndRulesDisjoint(id: QueryId)
    ensures !(ProducerOf(id).Some? && RuleOf(id).Some?)
  {
  }

  /** The value a producer or filter reads: a Long, an Instant or a plain string. */
  datatype Argument = Plain(text: string) | Parsed(n: int)

  /**
   * Reads the producer's value: `Long.valueOf` for versions, `Instant.parse`
   * (the parameter `parseInstant`) for deletion times, the string itself otherwise.
   */
  function ProducerArgument(p: Producer, value: string, parseInstant: string -> Option<int>): (r: Result<Argument>)
    ensures p in {AllVersions, SourceEq, SourceKeyEq} ==> r == Ok(Plain(value))
    ensures p in {VersionGt, VersionLt, VersionEq} ==>
      (r.Err? <==> LongValueOf(value).None?) && (r.Ok? ==> r.value == Parsed(LongValueOf(value).value))
    ensures p in {DeletedOnGt, DeletedOnLt, DeletedOnEq} ==>
      (r.Err? <==> parseInstant(value).None?) && (r.Ok? ==> r.value == Parsed(parseInstant(value).value))
  {
    match p
    case AllVersions => Ok(Plain(value))
    case SourceEq => Ok(Plain(value))
    case SourceKeyEq => Ok(Plain(value))
    case VersionGt | VersionLt | VersionEq =>
      (match LongValueOf(value)
       case None => Err("NumberFormatException")
       case Some(v) => Ok(Parsed(v)))
    case DeletedOnGt | DeletedOnLt | DeletedOnEq =>
      (match parseInstant(value)
       case None => Err("DateTimeParseException")
       case Some(t) => Ok(Parsed(t)))
  }

  /**
   * The entities a producer lists, stated on the entity alone: the index
   * lookups of the producers select exactly these. `indexGetAfter` is
   * inclusive, so `version=gt:v` lists version v itself.
   */
  predicate Lists(p: Producer, e: Entity, arg: Argument)
  {
    match p
    case AllVersions => e.version >= VersionMin
    case SourceEq => arg == Plain(e.source)
    case SourceKeyEq => arg == Plain(e.sourceKey)
    case VersionGt => arg.Parsed? && e.version >= arg.n
    case VersionLt => arg.Parsed? && e.version < arg.n
    case VersionEq => arg == Parsed(e.version)
    case DeletedOnGt => arg.Parsed? && e.deletedOn.Some? && e.deletedOn.value >= arg.n
    case DeletedOnLt => arg.Parsed? && e.deletedOn.Some? && e.deletedOn.value < arg.n
    case DeletedOnEq => arg.Parsed? && e.deletedOn == Some(arg.n)
  }

  /**
   * Java's `!=` on two boxed Longs compares references. Both operands are
   * `Long.valueOf` results, which share one instance only inside the cache
   * range -128..127; any other two values are distinct objects.
   */
  predicate SameLongInstance(a: int, b: int)
  {
    -128 <= a <= 127 && a == b
  }

  /** The `version` NE filter as written: `entity.getVersion() != version` on boxed Longs. */
  function VersionNeAsWritten(e: Entity, value: string): (r: Result<bool>)
    ensures r.Err? <==> LongValueOf(value).None?
  {
    match LongValueOf(value)
    case None => Err("NumberFormatException")
    case Some(v) => Ok(!SameLongInstance(e.version, v))
  }

  /** The `deletedOn` NE filter as written: it keeps an entity whose creation time equals the value. */
  function DeletedOnNeAsWritten(e: Entity, value: string, parseInstant: string -> Option<int>): (r: Result<bool>)
    ensures r.Err? <==> e.createdOn.Some? && parseInstant(value).None?
  {
    if e.createdOn.None? then Ok(true)
    else match parseInstant(value)
      case None => Err("DateTimeParseException")
      case Some(t) => Ok(e.createdOn.value == t)
  }

  /**
   * A filter applied to one entity; `true` keeps it. The `version` and
   * `deletedOn` NE filters are the corrected ones: they keep exactly the
   * entities whose version or deletion time differs from the value.
   */
  function Keep(rule: Rule, e: Entity, value: string, parseInstant: string -> Option<int>): (r: Result<bool>)
    ensures r.Err? <==>
      || (rule == VersionNe && LongValueOf(value).None?)
      || (rule == DeletedOnNe && e.deletedOn.Some? && parseInstant(value).None?)
  {
    match rule
    case SourceNe => Ok(e.source != value)
    case SourceKeyNe => Ok(e.sourceKey != value)
    case VersionNe =>
      (match LongValueOf(value)
       case None => Err("NumberFormatException")
       case Some(v) => Ok(e.version != v))
    case DeletedOnNe =>
      if e.deletedOn.None? then Ok(true)
      else
        (match parseInstant(value)
         case None => Err("DateTimeParseException")
         case Some(t) => Ok(e.deletedOn.value != t))
    case FromHistoryCo => Ok(value in e.fromHistory)
    case FromHistoryNc => Ok(value !in e.fromHistory)
  }

  /** The NE filter the same name pairs with: its EQ producer. */
  function Negated(rule: Rule): Option<Producer>
  {
    match rule
    case SourceNe => Some(SourceEq)
    case SourceKeyNe => Some(SourceKeyEq)
    case VersionNe => Some(VersionEq)
    case DeletedOnNe => Some(DeletedOnEq)
    case _ => None
  }

  /**
   * Each NE filter keeps exactly the entities the EQ producer of the same
   * name does not list.
   */
  lemma KeepNegatesProducer(rule: Rule, e: Entity, value: string, parseInstant: string -> Option<int>)
    requires Negated(rule).Some?
    requires ProducerArgument(Negated(rule).value, value, parseInstant).Ok?
    ensures Keep(rule, e, value, parseInstant)
         == Ok(!Lists(Negated(rule).value, e, ProducerArgument(Negated(rule).value, value, parseInstant).value))
  {
  }

  /** `fromHistory` NC keeps exactly what CO drops. */
  lemma ContainsNegatesNotContains(e: Entity, value: string, parseInstant: string -> Option<int>)
    ensures Keep(FromHistoryCo, e, value, parseInstant).Ok?
    ensures Keep(FromHistoryNc, e, value, parseInstant) == Ok(!Keep(FromHistoryCo, e, value, parseInstant).value)
  {
  }

  /** An entity with the given version, created at 5 and never deleted. */
  function Sample(version: int): Entity
  {
    Entity("a", version, "s", "k", Some(5), Some(5), None, {}, map[])
  }

  /**
   * As written, `version=ne:200` keeps the entity whose version is 200,
   * while `version=ne:100` drops the entity whose version is 100.
   */
  lemma VersionNeAsWrittenKeepsEqualVersion()
    ensures LongValueOf("200") == Some(200) && LongValueOf("100") == Some(100)
    ensures VersionNeAsWritten(Sample(200), "200") == Ok(true)
    ensures VersionNeAsWritten(Sample(100), "100") == Ok(false)
  {
    assert DigitsValue("200") == 200 by {
      assert "200"[..2] == "20" && "20"[..1] == "2";
    }
    assert DigitsValue("100") == 100 by {
      assert "100"[..2] == "10" && "10"[..1] == "1";
    }
  }

  /** The corrected version filter drops exactly the entities of that version. */
  lemma VersionNeDropsEqualVersion(e: Entity, value: string, parseInstant: string -> Option<int>)
    requires LongValueOf(value).Some?
    ensures Keep(VersionNe, e, value, parseInstant) == Ok(e.version != LongValueOf(value).value)
  {
  }

  /**
   * As written, `deletedOn=ne:t` drops a live entity created at another time
   * and keeps one created at t, although neither was deleted at t.
   */
  lemma DeletedOnNeAsWrittenReadsCreation(parseInstant: string -> Option<int>)
    requires parseInstant("7") == Some(7) && parseInstant("5") == Some(5)
    ensures DeletedOnNeAsWritten(Sample(1), "7", parseInstant) == Ok(false)
    ensures DeletedOnNeAsWritten(Sample(1), "5", parseInstant) == Ok(true)
    ensures Keep(DeletedOnNe, Sample(1), "7", parseInstant) == Ok(true)
  {
  }

  /** The corrected deletion filter keeps live entities and drops exactly those deleted at t. */
  lemma DeletedOnNeDropsEqualTime(e: Entity, value: string, parseInstant: string -> Option<int>)
    requires parseInstant(value).Some?
    ensures Keep(DeletedOnNe, e, value, parseInstant) == Ok(e.deletedOn != Some(parseInstant(value).value))
  {
  }

  // ---------------------------------------------------------------------------
  // Selecting and combining the filters of one query
  // ---------------------------------------------------------------------------

  /** The filters of a query that have a producer, in query order. */
  function ProducerFilters(filters: seq<Filter>): (r: seq<Filter>)
    ensures forall f :: f in r <==> f in filters && ProducerOf(f.id).Some?
    ensures forall i :: 0 <= i < |r| ==> ProducerOf(r[i].id).Some?
  {
    if filters == [] then []
    else (if ProducerOf(filters[0].id).Some? then [filters[0]] else []) + ProducerFilters(filters[1..])
  }

  /** The filters of a query that have a filter rule, in query order. */
  function RuleFilters(filters: seq<Filter>): (r: seq<Filter>)
    ensures forall f :: f in r <==> f in filters && RuleOf(f.id).Some?
    ensures forall i :: 0 <= i < |r| ==> RuleOf(r[i].id).Some?
  {
    if filters == [] then []
    else (if RuleOf(filters[0].id).Some? then [filters[0]] else []) + RuleFilters(filters[1..])
  }

  /** The producers a query runs: its own, or the all-versions producer when it has none. */
  function Producers(filters: seq<Filter>): (r: seq<Filter>)
    ensures |r| >= 1
    ensures forall i :: 0 <= i < |r| ==> ProducerOf(r[i].id).Some?
    ensures ProducerFilters(filters) == [] ==> r == [Filter(ProducerIdAll, "")]
    ensures ProducerFilters(filters) != [] ==> r == ProducerFilters(filters)
  {
    var own := ProducerFilters(filters);
    if own == [] then [Filter(ProducerIdAll, "")] else own
  }

  /** The value of the producer filter `f` reads. */
  function ArgumentOf(f: Filter, parseInstant: string -> Option<int>): Result<Argument>
    requires ProducerOf(f.id).Some?
  {
    ProducerArgument(ProducerOf(f.id).value, f.value, parseInstant)
  }

  /** Every producer's value can be read. */
  predicate AllParse(ps: seq<Filter>, parseInstant: string -> Option<int>)
  {
    forall i :: 0 <= i < |ps| ==> ProducerOf(ps[i].id).Some? && ArgumentOf(ps[i], parseInstant).Ok?
  }

  /** Every producer lists the entity. */
  predicate ListedByAll(ps: seq<Filter>, e: Entity, parseInstant: string -> Option<int>)
  {
    forall i :: 0 <= i < |ps| ==>
      && ProducerOf(ps[i].id).Some?
      && ArgumentOf(ps[i], parseInstant).Ok?
      && Lists(ProducerOf(ps[i].id).value, e, ArgumentOf(ps[i], parseInstant).value)
  }

  /** Every filter rule keeps the entity. */
  predicate KeptByAll(rs: seq<Filter>, e: Entity, parseInstant: string -> Option<int>)
  {
    forall i :: 0 <= i < |rs| ==> RuleOf(rs[i].id).Some? && Keep(RuleOf(rs[i].id).value, e, rs[i].value, parseInstant) == Ok(true)
  }

  /** The exception a failing filter rule throws. */
  function RuleError(rule: Rule): string
  {
    if rule == VersionNe then "NumberFormatException" else "DateTimeParseException"
  }

  /**
   * `out.removeIf(entity -> !filter(entity, value))`: the entities the rule
   * keeps, or the rule's exception when it throws on any of them.
   */
  function RemoveIf<T>(out: map<string, T>, baseOf: T -> Entity, f: Filter, parseInstant: string -> Option<int>): (r: Result<map<string, T>>)
    requires RuleOf(f.id).Some?
    ensures r.Err? <==> exists id :: id in out && Keep(RuleOf(f.id).value, baseOf(out[id]), f.value, parseInstant).Err?
    ensures r.Ok? ==> forall id :: id in r.value <==>
      id in out && Keep(RuleOf(f.id).value, baseOf(out[id]), f.value, parseInstant) == Ok(true)
    ensures r.Ok? ==> forall id :: id in r.value ==> r.value[id] == out[id]
  {
    var rule := RuleOf(f.id).value;
    if exists id :: id in out && Keep(rule, baseOf(out[id]), f.value, parseInstant).Err? then Err(RuleError(rule))
    else Ok(map id | id in out && Keep(rule, baseOf(out[id]), f.value, parseInstant) == Ok(true) :: out[id])
  }

  /**
   * The filter loop of `query`: each rule in turn removes the entities it
   * does not keep. On success the survivors are exactly the entities every
   * rule keeps; an exception means some rule threw on an entity.
   */
  function ApplyRules<T>(out: map<string, T>, baseOf: T -> Entity, rs: seq<Filter>, parseInstant: string -> Option<int>): (r: Result<map<string, T>>)
    requires forall i :: 0 <= i < |rs| ==> RuleOf(rs[i].id).Some?
    ensures r.Ok? ==> forall id :: id in r.value <==> id in out && KeptByAll(rs, baseOf(out[id]), parseInstant)
    ensures r.Ok? ==> forall id :: id in r.value ==> r.value[id] == out[id]
    ensures r.Err? ==> exists i, id :: 0 <= i < |rs| && id in out && Keep(RuleOf(rs[i].id).value, baseOf(out[id]), rs[i].value, parseInstant).Err?
    decreases |rs|
  {
    if rs == [] then Ok(out)
    else
      match RemoveIf(out, baseOf, rs[0], parseInstant)
      case Err(e) => Err(e)
      case Ok(kept) =>
        var r := ApplyRules(kept, baseOf, rs[1..], parseInstant);
        assert forall e :: KeptByAll(rs, e, parseInstant) <==>
          Keep(RuleOf(rs[0].id).value, e, rs[0].value, parseInstant) == Ok(true) && KeptByAll(rs[1..], e, parseInstant) by {
          forall e ensures KeptByAll(rs, e, parseInstant) <==>
            Keep(RuleOf(rs[0].id).value, e, rs[0].value, parseInstant) == Ok(true) && KeptByAll(rs[1..], e, parseInstant) {
            if Keep(RuleOf(rs[0].id).value, e, rs[0].value, parseInstant) == Ok(true) && KeptByAll(rs[1..], e, parseInstant) {
              forall i | 0 <= i < |rs| ensures RuleOf(rs[i].id).Some? && Keep(RuleOf(rs[i].id).value, e, rs[i].value, parseInstant) == Ok(true) {
                if i > 0 {
                  assert rs[i] == rs[1..][i - 1];
                }
              }
            }
          }
        }
        if r.Err? then
          assert exists i, id :: 0 <= i < |rs| && id in out && Keep(RuleOf(rs[i].id).value, baseOf(out[id]), rs[i].value, parseInstant).Err? by {
            var i, id :| 0 <= i < |rs[1..]| && id in kept && Keep(RuleOf(rs[1..][i].id).value, baseOf(kept[id]), rs[1..][i].value, parseInstant).Err?;
            assert rs[1..][i] == rs[i + 1];
          }
          r
        else r
  }

  /** With nothing that can throw, the filter loop succeeds. */
  lemma ApplyRulesSucceeds<T>(out: map<string, T>, baseOf: T -> Entity, rs: seq<Filter>, parseInstant: string -> Option<int>)
    requires forall i :: 0 <= i < |rs| ==> RuleOf(rs[i].id).Some?
    requires forall i, id :: 0 <= i < |rs| && id in out ==> Keep(RuleOf(rs[i].id).value, baseOf(out[id]), rs[i].value, parseInstant).Ok?
    ensures ApplyRules(out, baseOf, rs, parseInstant).Ok?
  {
  }
}
