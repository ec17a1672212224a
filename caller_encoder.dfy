/**
 * `customCallerEncoder`: the caller field of a log line.  For a caller whose
 * fully-qualified function name starts with "github.com" it appends one
 * string, `<trimmed path>:<line> - <last /-separated segment of the name>`,
 * to the primitive array encoder; for any other caller it appends nothing.
 */
module CallerEncoder {
  import opened Wrappers
  import opened GoStrings
  import opened Decimal

  /**
   * The parts of zap's `EntryCaller` the encoder reads.  `trimmedPath` stands
   * for the result of `caller.TrimmedPath()`, taken as given.
   */
  datatype EntryCaller = EntryCaller(trimmedPath: string, line: int, qualified: string)

  const ModulePrefix := "github.com"

  /**
   * `parts := strings.Split(function, "/"); parts[len(parts)-1]`: the name
   * with its package path removed.  It never contains a slash, is a suffix
   * of the full name, and is either the whole name or preceded by a slash.
   */
  function FunctionName(qualified: string): (name: string)
    ensures '/' !in name
    ensures |name| <= |qualified| && qualified[|qualified| - |name|..] == name
    ensures |name| < |qualified| ==> qualified[|qualified| - |name| - 1] == '/'
    ensures '/' !in qualified ==> name == qualified
  {
    LastSplitAfterLastIndex(qualified, '/');
    Last(Split(qualified, '/'))
  }

  /** The name after a package path is kept whole, whatever the path. */
  lemma FunctionNameAfterPath(path: string, name: string)
    requires '/' !in name
    ensures FunctionName(path + "/" + name) == name
  {
    SplitAround(path, '/', name);
    SplitNoSeparator(name, '/');
  }

  /**
   * `fmt.Sprintf("%s:%d - %s", caller.TrimmedPath(), caller.Line, functionName)`:
   * the trimmed path and a colon, then the line's `%d` text, then `" - "` and
   * the function name.
   */
  function CallerField(caller: EntryCaller): (field: string)
    ensures var head := caller.trimmedPath + ":";
      var number := FormatInt(caller.line);
      var tail := " - " + FunctionName(caller.qualified);
      |field| == |head| + |number| + |tail| &&
      field[..|head|] == head &&
      field[|head|..|head| + |number|] == number &&
      field[|head| + |number|..] == tail
  {
    var head := caller.trimmedPath + ":";
    var number := FormatInt(caller.line);
    var tail := " - " + FunctionName(caller.qualified);
    ThreeParts(head, number, tail);
    assert head + number + tail == head + number + " - " + FunctionName(caller.qualified);
    caller.trimmedPath + ":" + FormatInt(caller.line) + " - " + FunctionName(caller.qualified)
  }

  /** Where each of three concatenated strings sits in the result. */
  lemma ThreeParts(a: string, b: string, c: string)
    ensures |a + b + c| == |a| + |b| + |c|
    ensures (a + b + c)[..|a|] == a
    ensures (a + b + c)[|a|..|a| + |b|] == b
    ensures (a + b + c)[|a| + |b|..] == c
  {
  }

  /** The strings the encoder appends for `caller`: one, or none. */
  function Appended(caller: EntryCaller): (appended: seq<string>)
    ensures |appended| <= 1
    ensures |appended| == 1 <==> HasPrefix(caller.qualified, ModulePrefix)
  {
    if HasPrefix(caller.qualified, ModulePrefix) then [CallerField(caller)] else []
  }

  /**
   * Reads a caller field back, given the trimmed path it starts with: the
   * line number and the function name.  This is the reading a consumer of
   * the log line needs; it is the inverse of `CallerField`.
   */
  function ParseCallerField(trimmedPath: string, field: string): Option<(int, string)> {
    var head := trimmedPath + ":";
    if HasPrefix(field, head) then ParseLineAndName(field[|head|..]) else None
  }

  /** Reads `<line> - <name>`: a `%d` number, the separator, then the rest. */
  function ParseLineAndName(rest: string): Option<(int, string)> {
    var negative := |rest| >= 1 && rest[0] == '-';
    var digits := if negative then rest[1..] else rest;
    var k := DigitPrefixLen(digits);
    var number := if negative then "-" + digits[..k] else digits[..k];
    if IsCanonicalInt(number) && HasPrefix(digits[k..], " - ")
    then Some((ParseInt(number), digits[k + 3..]))
    else None
  }

  /** Digits followed by the separator are read up to the separator. */
  lemma ReadDigits(unsigned: string, name: string)
    requires AllDigits(unsigned)
    ensures var digits := unsigned + " - " + name;
      DigitPrefixLen(digits) == |unsigned| &&
      digits[..|unsigned|] == unsigned &&
      HasPrefix(digits[|unsigned|..], " - ") &&
      digits[|unsigned| + 3..] == name
  {
    var digits := unsigned + " - " + name;
    assert digits == unsigned + (" - " + name);
    DigitPrefixOfConcat(unsigned, " - " + name);
    assert digits[|unsigned|..] == " - " + name;
  }

  /** The `%d` text of a line, the separator and a name are read back exactly. */
  lemma LineAndNameInverse(line: int, name: string)
    ensures ParseLineAndName(FormatInt(line) + " - " + name) == Some((line, name))
  {
    ParseFormatInt(line);
    var number := FormatInt(line);
    var unsigned := if line < 0 then number[1..] else number;
    ReadDigits(unsigned, name);
    if line < 0 {
      assert number == "-" + unsigned;
      assert (number + " - " + name)[1..] == unsigned + " - " + name;
    }
  }

  /** A field built from any path, line and name is read back to that line and name. */
  lemma ParseFieldParts(trimmedPath: string, line: int, name: string)
    ensures ParseCallerField(trimmedPath, trimmedPath + ":" + FormatInt(line) + " - " + name)
      == Some((line, name))
  {
    var head := trimmedPath + ":";
    var rest := FormatInt(line) + " - " + name;
    assert trimmedPath + ":" + FormatInt(line) + " - " + name == head + rest;
    assert (head + rest)[..|head|] == head;
    assert (head + rest)[|head|..] == rest;
    LineAndNameInverse(line, name);
  }

  /**
   * The caller field determines the line number and the function name: given
   * the trimmed path, both are read back exactly.
   */
  lemma ParseCallerFieldInverse(caller: EntryCaller)
    ensures ParseCallerField(caller.trimmedPath, CallerField(caller))
      == Some((caller.line, FunctionName(caller.qualified)))
  {
    ParseFieldParts(caller.trimmedPath, caller.line, FunctionName(caller.qualified));
  }

  /** The caller field is one line: it adds no line break of its own. */
  lemma CallerFieldSingleLine(caller: EntryCaller)
    requires '\n' !in caller.trimmedPath && '\n' !in caller.qualified
    ensures '\n' !in CallerField(caller)
  {
  }

  /** `zapcore.PrimitiveArrayEncoder`, holding the strings appended to it so far. */
  class ArrayEncoder {
    var strings: seq<string>

    constructor ()
      ensures strings == []
    {
      strings := [];
    }

    method AppendString(s: string)
      modifies this
      ensures strings == old(strings) + [s]
    {
      strings := strings + [s];
    }
  }

  /**
   * `customCallerEncoder(caller, enc)`: appends the caller field when the
   * function name has the module prefix; otherwise leaves `enc` unchanged.
   */
  method CustomCallerEncoder(caller: EntryCaller, enc: ArrayEncoder)
    modifies enc
    ensures enc.strings == old(enc.strings) + Appended(caller)
    ensures old(enc.strings) <= enc.strings
    ensures HasPrefix(caller.qualified, ModulePrefix) ==>
      |enc.strings| == |old(enc.strings)| + 1 && enc.strings[|enc.strings| - 1] == CallerField(caller)
    ensures !HasPrefix(caller.qualified, ModulePrefix) ==> enc.strings == old(enc.strings)
  {
    if HasPrefix(caller.qualified, ModulePrefix) {
      var parts := Split(caller.qualified, '/');
      var functionName := parts[|parts| - 1];
      assert functionName == FunctionName(caller.qualified);
      enc.AppendString(caller.trimmedPath + ":" + FormatInt(caller.line) + " - " + functionName);
      assert Appended(caller) == [CallerField(caller)];
    } else {
      assert Appended(caller) == [];
    }
  }

  /**
   * A caller in a module under "github.com" yields exactly one string, in
   * which the package path is dropped and the final name kept whole.
   */
  lemma ModuleCallerField(path: string, line: int, packagePath: string, name: string)
    requires '/' !in name
    ensures Appended(EntryCaller(path, line, ModulePrefix + packagePath + "/" + name))
      == [path + ":" + FormatInt(line) + " - " + name]
  {
    var qualified := ModulePrefix + packagePath + "/" + name;
    assert qualified[..|ModulePrefix|] == ModulePrefix;
    assert qualified == (ModulePrefix + packagePath) + "/" + name;
    FunctionNameAfterPath(ModulePrefix + packagePath, name);
  }

  /** A caller whose name lacks the module prefix gets no caller field at all. */
  lemma OtherCallerDropped(caller: EntryCaller)
    requires !HasPrefix(caller.qualified, ModulePrefix)
    ensures Appended(caller) == []
  {
  }

  /** The name "main.main" has no slash, yet it is dropped rather than kept whole. */
  lemma MainCallerDropped(path: string, line: int)
    ensures Appended(EntryCaller(path, line, "main.main")) == []
  {
  }
}
