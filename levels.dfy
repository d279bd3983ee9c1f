/**
 * The severity levels of src/index.ts and how a name is resolved to one: the
 * name is upper-cased and looked up, and `|| LEVEL_INFO` replaces anything
 * falsy. LEVEL_ALL is 0, which is falsy, so "ALL" resolves to LEVEL_INFO.
 */
module Levels {
  import opened Common

  const LevelOff: int := 9007199254740991
  const LevelFatal: int := 50000
  const LevelError: int := 40000
  const LevelWarn: int := 30000
  const LevelInfo: int := 20000
  const LevelDebug: int := 10000
  const LevelTrace: int := 5000
  const LevelAll: int := 0

  /** LEVEL_LOOKUP: upper-case names to levels. */
  const LevelLookup: map<string, int> := map[
    "ALL" := LevelAll,
    "TRACE" := LevelTrace,
    "DEBUG" := LevelDebug,
    "INFO" := LevelInfo,
    "WARN" := LevelWarn,
    "ERROR" := LevelError,
    "FATAL" := LevelFatal,
    "OFF" := LevelOff]

  /** The levels a name can resolve to: every level of the table but LEVEL_ALL. */
  const NamedLevels: set<int> := {LevelTrace, LevelDebug, LevelInfo, LevelWarn, LevelError, LevelFatal, LevelOff}

  /** `x || fallback` on a number that may be undefined: undefined and 0 are falsy. */
  function OrElse(x: Option<int>, fallback: int): (r: int)
    ensures x.Some? && x.value != 0 ==> r == x.value
    ensures x.None? || x.value == 0 ==> r == fallback
    ensures r == 0 <==> fallback == 0 && (x.None? || x.value == 0)
  {
    if x.Some? && x.value != 0 then x.value else fallback
  }

  /** `LEVEL_LOOKUP[name.toUpperCase()] || LEVEL_INFO` */
  function LevelOf(name: string): int
  {
    var key := ToUpperAscii(name);
    OrElse(if key in LevelLookup then Some(LevelLookup[key]) else None, LevelInfo)
  }

  /** A name listed in the table resolves to its level, except "ALL"; any other name resolves to INFO. */
  lemma LevelOfCases(name: string)
    ensures ToUpperAscii(name) in LevelLookup && ToUpperAscii(name) != "ALL"
            ==> LevelOf(name) == LevelLookup[ToUpperAscii(name)]
    ensures ToUpperAscii(name) == "ALL" ==> LevelOf(name) == LevelInfo
    ensures ToUpperAscii(name) !in LevelLookup ==> LevelOf(name) == LevelInfo
    ensures LevelOf(name) != LevelAll && LevelOf(name) in NamedLevels
  {
    var key := ToUpperAscii(name);
    if key in LevelLookup && key != "ALL" {
      assert LevelLookup[key] != 0;
    }
  }

  /** The lookup ignores case: a name and its upper-case form resolve alike. */
  lemma LevelOfIgnoresCase(name: string)
    ensures LevelOf(ToUpperAscii(name)) == LevelOf(name)
  {
    ToUpperIdempotent(name);
  }

  /** "ALL" in any case resolves to INFO, not to 0. */
  lemma AllResolvesToInfo()
    ensures LevelOf("ALL") == LevelInfo && LevelOf("all") == LevelInfo && LevelOf("All") == LevelInfo
  {
    assert ToUpperAscii("all") == "ALL";
    assert ToUpperAscii("All") == "ALL";
    assert ToUpperAscii("ALL") == "ALL";
  }

  /** The `level` option: a name, a number, or left out. */
  datatype LevelOption = Named(name: string) | Numeric(value: int) | Unset

  /**
   * The threshold the constructor sets: a number as is, a name looked up, INFO
   * otherwise. Only a number can make the threshold LEVEL_ALL or any value
   * outside the table.
   */
  function ResolveThreshold(opt: LevelOption): (r: int)
    ensures opt.Numeric? ==> r == opt.value
    ensures opt.Unset? ==> r == LevelInfo
    ensures opt.Named? ==> r == LevelOf(opt.name)
    ensures !opt.Numeric? ==> r in NamedLevels && r != LevelAll
  {
    match opt
    case Named(name) => LevelOfCases(name); LevelOf(name)
    case Numeric(value) => value
    case Unset => LevelInfo
  }

  /** A numeric 0 threshold lets everything through, while the name "ALL" stops what is below INFO. */
  lemma ThresholdAllByNumberAndName()
    ensures ResolveThreshold(Numeric(LevelAll)) == 0
    ensures ResolveThreshold(Named("ALL")) == LevelInfo
  {
    assert ToUpperAscii("ALL") == "ALL";
  }

  /** The level of one call: `{ level, name }`. */
  datatype LevelRecord = LevelRecord(level: int, name: string)

  /** The `level` argument of `log`: a name, or a level record given as is. */
  datatype CallLevel = ByName(name: string) | Given(record: LevelRecord)

  /**
   * A name becomes `{ level: LevelOf(name), name }`, keeping the name as
   * written; its level is one of the table's, never LEVEL_ALL.
   */
  function Normalize(l: CallLevel): (r: LevelRecord)
    ensures l.ByName? ==> r.name == l.name && r.level == LevelOf(l.name)
    ensures l.ByName? ==> r.level in NamedLevels && r.level != LevelAll
    ensures l.Given? ==> r == l.record
  {
    match l
    case ByName(name) => LevelOfCases(name); LevelRecord(LevelOf(name), name)
    case Given(record) => record
  }

  /** `level.level < this.level` drops the record: equal levels pass. */
  predicate Passes(l: LevelRecord, threshold: int)
  {
    !(l.level < threshold)
  }

  /** A call by name passes exactly when the name's level reaches the threshold; "ALL" behaves as INFO. */
  lemma PassesByName(name: string, threshold: int)
    ensures Passes(Normalize(ByName(name)), threshold) <==> LevelOf(name) >= threshold
    ensures ToUpperAscii(name) == "ALL" ==> (Passes(Normalize(ByName(name)), threshold) <==> LevelInfo >= threshold)
  {
    LevelOfCases(name);
  }
}
