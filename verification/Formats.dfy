/** Format names, and how the driver derives a register count from them. */
module Formats {
  /** strings.ToUpper, exact on every character whose upper case is ASCII:
      besides a-z those are the dotless i and the long s. */
  function UpperChar(c: char): char {
    if 'a' <= c <= 'z' then c - 'a' + 'A'
    else if c == '\U{0131}' then 'I'
    else if c == '\U{017F}' then 'S'
    else c
  }

  function ToUpper(s: string): (u: string)
    ensures |u| == |s|
    ensures forall i :: 0 <= i < |s| ==> u[i] == UpperChar(s[i])
  {
    seq(|s|, i requires 0 <= i < |s| => UpperChar(s[i]))
  }

  /** strings.ToLower, exact on every character whose lower case is ASCII: besides A-Z
      those are the dotted capital i and the Kelvin sign. */
  function LowerChar(c: char): char {
    if 'A' <= c <= 'Z' then c - 'A' + 'a'
    else if c == '\U{0130}' then 'i'
    else if c == '\U{212A}' then 'k'
    else c
  }

  function ToLower(s: string): (l: string)
    ensures |l| == |s|
    ensures forall i :: 0 <= i < |s| ==> l[i] == LowerChar(s[i])
  {
    seq(|s|, i requires 0 <= i < |s| => LowerChar(s[i]))
  }

  /** On ASCII: letters change case, 32 apart, and everything else stays. */
  lemma AsciiCase(c: char)
    requires c < '\U{0080}'
    ensures UpperChar(c) as int == if 'a' <= c <= 'z' then c as int - 32 else c as int
    ensures LowerChar(c) as int == if 'A' <= c <= 'Z' then c as int + 32 else c as int
  {
  }

  predicate HasPrefix(s: string, prefix: string) {
    prefix <= s
  }

  /** The closure getRegCount: registers one value of this format takes. */
  function RegCount(format: string): (width: int)
    ensures width == 1 || width == 2 || width == 4
  {
    var f := ToUpper(format);
    if HasPrefix(f, "FLOAT") || HasPrefix(f, "LONG") then 2
    else if HasPrefix(f, "DOUBLE") then 4
    else 1
  }
}
