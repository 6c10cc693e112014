/** C strings, and a value that may be missing. */
module CText {
  /** The value of a `char`, signed or unsigned. */
  type Code = c: int | -128 <= c < 256 witness 0
  type CString = s: seq<Code> | 0 !in s

  const TAB: Code := 9
  const NL: Code := 10
  const CR: Code := 13
  const SPACE: Code := 32
  const DASH: Code := 45
  const ZERO: Code := 48
  const COLON: Code := 58

  /** Reading a C string, up to and including its terminator and no further. */
  function At(s: seq<Code>, j: nat): Code
    requires j <= |s|
  {
    if j < |s| then s[j] else 0
  }

  predicate IsDigit(c: Code) { 48 <= c <= 57 }
  predicate IsBlank(c: Code) { c == SPACE || c == TAB }
  predicate IsSpace(c: Code) { c == SPACE || 9 <= c <= 13 }
}

module Options {
  datatype Option<T> = None | Some(value: T)
}
