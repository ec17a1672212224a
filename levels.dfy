/**
 * Log-level selection in `InitLogger`: the level string picks one of zap's
 * four levels by exact, case-sensitive comparison; anything else falls back
 * to Info and makes `InitLogger` return an error beside the logger.
 */
module Levels {
  import opened Wrappers

  /** The levels the switch can choose, least severe first. */
  datatype Level = Debug | Info | Warn | Error

  /** The configuration name of each level, as the switch spells it. */
  function LevelName(l: Level): string {
    match l
    case Debug => "debug"
    case Info => "info"
    case Warn => "warn"
    case Error => "error"
  }

  /** `s` is the name of some level. */
  predicate IsLevelName(s: string) {
    exists l :: LevelName(l) == s
  }

  /** The outcome of the switch: the level set and the `warnInvalidLevel` flag. */
  datatype Resolution = Resolution(level: Level, warnInvalid: bool)

  /**
   * The switch on `logLevel`.  A recognised name selects the level it names
   * and leaves the flag clear; every other string selects Info and sets it.
   */
  function Resolve(s: string): (r: Resolution)
    ensures r.warnInvalid <==> !IsLevelName(s)
    ensures !r.warnInvalid ==> LevelName(r.level) == s
    ensures r.warnInvalid ==> r.level == Info
  {
    if s == "debug" then assert LevelName(Debug) == s; Resolution(Debug, false)
    else if s == "info" then assert LevelName(Info) == s; Resolution(Info, false)
    else if s == "warn" then assert LevelName(Warn) == s; Resolution(Warn, false)
    else if s == "error" then assert LevelName(Error) == s; Resolution(Error, false)
    else Resolution(Info, true)
  }

  /** Every level is selected by its own name, with no warning. */
  lemma ResolveLevelName(l: Level)
    ensures Resolve(LevelName(l)) == Resolution(l, false)
  {
  }

  /** No two levels share a name. */
  lemma LevelNameInjective(a: Level, b: Level)
    requires LevelName(a) == LevelName(b)
    ensures a == b
  {
  }

  /** The message of the error returned for an unrecognised level. */
  const InvalidLevelMessage := "invalid value provided for logLevel. Defaulting to 'info'"

  /**
   * The logger `InitLogger` hands back, reduced to what this model keeps of
   * it: the minimum level it was configured with.
   */
  datatype Logger = Logger(level: Level)

  /**
   * `InitLogger(filePath, logLevel)`, past the construction of zap's logger:
   * a logger at the resolved level, and an error exactly when the level
   * string was not recognised.
   */
  function InitLogger(filePath: string, logLevel: string): (r: (Logger, Option<string>))
    ensures r.1.Some? <==> !IsLevelName(logLevel)
    ensures r.1.Some? ==> r.1.value == InvalidLevelMessage && r.0.level == Info
    ensures r.1.None? ==> LevelName(r.0.level) == logLevel
  {
    var resolution := Resolve(logLevel);
    var invalidLevelErr := if resolution.warnInvalid then Some(InvalidLevelMessage) else None;
    (Logger(resolution.level), invalidLevelErr)
  }

  /**
   * Strings that are not level names fall back: the empty string, a level
   * name in another case or with padding, and a level zap has but the switch
   * does not list.
   */
  lemma NearMissesFallBack()
    ensures Resolve("") == Resolution(Info, true)
    ensures Resolve("DEBUG") == Resolution(Info, true)
    ensures Resolve("Info") == Resolution(Info, true)
    ensures Resolve("info ") == Resolution(Info, true)
    ensures Resolve("trace") == Resolution(Info, true)
  {
  }
}
