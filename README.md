# go_zaplogger_iso8601 — level resolution and caller encoding

`go_zaplogger_iso8601` configures the zap logging library and wraps the
resulting sugared logger behind a six-method `Logger` interface. Almost all of
it hands configuration to zap. This model covers the two pieces of logic the
package owns itself:

- **Level resolution in `InitLogger`.** The `logLevel` string is compared
  exactly and case-sensitively with `"debug"`, `"info"`, `"warn"` and
  `"error"`. Any other string selects Info and sets `warnInvalidLevel`. That
  flag makes `InitLogger` return an error next to the logger. This is module
  `Levels` (`levels.dfy`).
- **`customCallerEncoder`.** Suppose a caller's fully-qualified function name
  starts with `"github.com"`. The encoder then appends one string to zap's
  primitive array encoder: `<trimmed path>:<line> - <last "/"-separated segment
  of the name>`. For every other caller it appends nothing. This is module
  `CallerEncoder` (`caller_encoder.dfy`). It rests on:
  - `GoStrings` (`go_strings.dfy`): Go's `strings.HasPrefix`, `strings.Split`
    with a one-character separator, `strings.Join`, and `strings.LastIndex`.
  - `Decimal` (`decimal.dfy`): fmt's `%d` on an `int`, and its inverse.

The encoder keeps its state in place. It is the class
`CallerEncoder.ArrayEncoder`, whose `strings` field holds the appended strings
as a `seq<string>`. `CustomCallerEncoder` is a method that modifies it. Level
resolution and formatting are pure, so they are functions.

Two consequences of the code are easy to miss:

- A name without the `"github.com"` prefix gets no caller field at all, even
  when it has no `/` (zaplogger_iso8601.go:55). `OtherCallerDropped` states
  this for every such name, and `MainCallerDropped` for `"main.main"`.
- The field is formatted with `"%s:%d - %s"`, so `:<line>` follows the
  trimmed path (zaplogger_iso8601.go:58). `CallerField` states its three
  parts.

Go strings are byte strings. Here they are `seq<char>`. Everything the code
compares or searches for is ASCII: the separator `/` it splits on (:56), the
prefix `"github.com"` it tests (:55) and the level names it matches exactly
(:84-90). An ASCII byte never occurs inside a multi-byte UTF-8 sequence, so
on these inputs comparing characters and comparing bytes give the same
answers, and splitting characters and splitting bytes give the same pieces.

## Model

| member | source | states |
|---|---|---|
| `Levels.Resolve` | zaplogger_iso8601.go:80-95 | The warning flag is set exactly when the string is not the name of any level. When the flag is clear, the chosen level's name is the input string itself. When it is set, the level is Info. |
| `Levels.ResolveLevelName` | zaplogger_iso8601.go:83-91 | Each of `"debug"`, `"info"`, `"warn"` and `"error"` selects its own level and leaves the flag clear. |
| `Levels.LevelNameInjective` | zaplogger_iso8601.go:83-91 | No two levels are selected by the same string. |
| `Levels.NearMissesFallBack` | zaplogger_iso8601.go:92-94 | `""`, `"DEBUG"`, `"Info"`, `"info "` and `"trace"` all fall back to Info with the flag set. Matching is exact and case-sensitive. |
| `Levels.InitLogger` | zaplogger_iso8601.go:110-121 | The returned error is non-nil exactly when the level string is not recognised. It then carries the fixed "Defaulting to 'info'" message, and the logger's level is Info. Otherwise the logger's level is the one the string names. |
| `GoStrings.Split` | zaplogger_iso8601.go:56 | `strings.Split(s, "/")` has one more piece than `s` has separators, so it always has at least one piece. No piece contains the separator. |
| `GoStrings.LastIndex` | zaplogger_iso8601.go:57 | The result is -1 or the position of a separator, and no separator comes after it. |
| `GoStrings.JoinSplit` | zaplogger_iso8601.go:56 | Joining the pieces of a split with the separator gives back the original string. |
| `GoStrings.SplitJoin` | zaplogger_iso8601.go:56 | Splitting the join of a non-empty list of separator-free pieces gives back those pieces, so `Split` and `Join` are inverses. |
| `GoStrings.SplitNoSeparator` | zaplogger_iso8601.go:56 | A string without the separator splits into just itself. |
| `GoStrings.SplitAround` | zaplogger_iso8601.go:56 | Splitting `a + "/" + b` gives the pieces of `a` followed by the pieces of `b`. |
| `GoStrings.LastSplitAfterLastIndex` | zaplogger_iso8601.go:56-57 | `parts[len(parts)-1]` is exactly the text after the last `/`, or the whole string when there is no `/`. |
| `CallerEncoder.FunctionName` | zaplogger_iso8601.go:56-57 | The extracted name is always defined and contains no `/`. It is a suffix of the qualified name, preceded there by a `/` unless it is the whole name. A name without `/` is kept unchanged. |
| `CallerEncoder.FunctionNameAfterPath` | zaplogger_iso8601.go:56-57 | For `p + "/" + x` with no `/` in `x`, the extracted name is exactly `x`, whatever `p` is. |
| `CallerEncoder.Appended` | zaplogger_iso8601.go:55-59 | The encoder appends at most one string. It appends exactly one when the qualified name has the prefix `"github.com"`. |
| `CallerEncoder.ModuleCallerField` | zaplogger_iso8601.go:55-58 | A caller named `"github.com" + pkgpath + "/" + x`, with no `/` in `x`, yields exactly `[path + ":" + %d(line) + " - " + x]`. |
| `CallerEncoder.ParseCallerFieldInverse` | zaplogger_iso8601.go:58 | Given the trimmed path, the formatted caller field can be read back to its line number and function name. The format therefore loses neither. |
| `CallerEncoder.ParseFieldParts` | zaplogger_iso8601.go:58 | A field built by the `"%s:%d - %s"` pattern from any path, line and name is read back, given the path, to exactly that line and name. |
| `CallerEncoder.LineAndNameInverse` | zaplogger_iso8601.go:58 | The `%d` text of the line, then `" - "`, then the name, is read back to exactly that line and name. This holds for negative lines too. |
| `CallerEncoder.ReadDigits` | zaplogger_iso8601.go:58 | In `digits + " - " + name`, the digit run stops right at the separator, and the text after the separator is the name. |
| `CallerEncoder.CallerFieldSingleLine` | zaplogger_iso8601.go:58 | If the trimmed path and the qualified name contain no line break, neither does the caller field. |
| `CallerEncoder.OtherCallerDropped` | zaplogger_iso8601.go:55-59 | Every caller whose name lacks the `"github.com"` prefix appends nothing. |
| `CallerEncoder.MainCallerDropped` | zaplogger_iso8601.go:55-59 | The name `"main.main"`, which has no `/`, appends nothing rather than being kept whole. |
| `CallerEncoder.CallerField` | zaplogger_iso8601.go:58 | The field is the trimmed path and `:`, then the `%d` text of the line, then `" - "` and the extracted function name, with nothing else around or between them. |
| `GoStrings.HasPrefix` | zaplogger_iso8601.go:55 | `strings.HasPrefix` holds exactly when the prefix is no longer than the string and agrees with it at every position. |
| `CallerEncoder.ArrayEncoder.AppendString` | zaplogger_iso8601.go:58 | Appending adds the given string at the end of the encoder's contents. Nothing else changes. |
| `CallerEncoder.CustomCallerEncoder` | zaplogger_iso8601.go:54-60 | The new contents are the old contents followed by `Appended(caller)`, so the old contents are a prefix of the new ones. With the prefix, exactly one string is added, and it is the caller field. Without it, the encoder is unchanged. |
| `Decimal.FormatNat` | zaplogger_iso8601.go:58 | `%d` of a natural number is non-empty and all digits. It has a leading `0` only for zero, and it is one digit exactly below ten. |
| `Decimal.FormatInt` | zaplogger_iso8601.go:58 | `%d` of an int starts with `-` exactly when the int is negative. What follows the sign is canonical digits. |
| `Decimal.ParseFormatNat` | zaplogger_iso8601.go:58 | Reading back the digits of `n` gives `n`. |
| `Decimal.FormatParseNat` | zaplogger_iso8601.go:58 | Every canonical digit string is the `%d` text of its value. |
| `Decimal.ParseNatPositive` | zaplogger_iso8601.go:58 | Digits with a non-zero leading digit denote a positive number. |
| `Decimal.ParseFormatInt` | zaplogger_iso8601.go:58 | `%d` text of any int is canonical (never `-0`), and parsing it gives back the int. |
| `Decimal.FormatParseInt` | zaplogger_iso8601.go:58 | Every canonical signed text is the `%d` text of its value. |
| `Decimal.FormatIntInjective` | zaplogger_iso8601.go:58 | Different line numbers never format to the same text. |
| `Decimal.DigitPrefixLen` | zaplogger_iso8601.go:58 | The result is the longest run of leading digits: all of it is digits, and the character after it is not one. |
| `Decimal.DigitPrefixOfConcat` | zaplogger_iso8601.go:58 | A digit string followed by a non-digit is read exactly up to the non-digit. |

## Left out

- The six `zapLogger` forwarding methods (zaplogger_iso8601.go:31-52). They only delegate to zap's `SugaredLogger`. The panic and exit behaviour of `Panic` and `Fatal` happens inside zap.
- `logConfig.Build`, the output and error paths, and the stdout, stderr and file sinks (zaplogger_iso8601.go:96-105). These are I/O and construction inside zap. The model's `Logger` keeps only the minimum level. `InitLogger` takes `filePath` but does not use it.
- The `panic(err)` on build failure (zaplogger_iso8601.go:106-108). What triggers it lies entirely inside zap, so `InitLogger` models the path after a successful build.
- `logger.Sync()` (zaplogger_iso8601.go:116). It is a buffer flush, that is, I/O.
- The `EncoderConfig` literal (zaplogger_iso8601.go:65-78). It is constant configuration, and its time and level encoders are zap functions.
- `zap.NewAtomicLevel` and its thread-safe storage. Only the level chosen matters here, so it is the plain `Level` value. zap's numeric severities, and the order they put the levels in, are not part of this model.
- The package-level `logger` variable (zaplogger_iso8601.go:11). It is never used.
- `caller.TrimmedPath()`. Its body belongs to zap and is not part of this model, so `EntryCaller.trimmedPath` is a given string. The model does not decide whether that string already contains a line number.
- The `Defined` and `PC` fields of zap's `EntryCaller`. The encoder does not read them.
- `Decimal.FormatInt`: Go's `int` is 64 bits wide, and the model's `int` is unbounded. The `%d` text is the same for every value a 64-bit `int` can hold.
