/** The string helpers of the `util` package: yes/no, quoting and boolean text. */
module Strings {
  /** "Yes" for true, "No" for false. */
  function YesNo(b: bool): (r: string)
    ensures r == "Yes" || r == "No"
    ensures b <==> r == "Yes"
  {
    if b then "Yes" else "No"
  }

  /** `s` between double quotes. */
  function Quote(s: string): (r: string)
    ensures |r| == |s| + 2 && r[0] == '"' && r[|r| - 1] == '"'
    ensures r[1..|r| - 1] == s
  {
    "\"" + s + "\""
  }

  /** `s` between parentheses. */
  function Paren(s: string): (r: string)
    ensures |r| == |s| + 2 && r[0] == '(' && r[|r| - 1] == ')'
    ensures r[1..|r| - 1] == s
  {
    "(" + s + ")"
  }

  /** Only the exact text "true" reads as true; anything else is false. */
  function ParseBool(s: string): bool {
    s == "true"
  }

  /** The text a boolean is stored as; it reads back as the same boolean. */
  function BoolString(b: bool): (r: string)
    ensures r == "true" || r == "false"
    ensures ParseBool(r) == b
  {
    if b then "true" else "false"
  }

  /** The two stored spellings survive a read followed by a write. */
  lemma BoolStringOfParseBool(s: string)
    requires s == "true" || s == "false"
    ensures BoolString(ParseBool(s)) == s
  {
  }

  /** Any text other than "true", including "True" or "1", reads as false. */
  lemma ParseBoolStrict(s: string)
    requires s != "true"
    ensures !ParseBool(s) && BoolString(ParseBool(s)) == "false"
  {
  }

  /** Quoting loses nothing: different texts quote differently. */
  lemma QuoteInjective(a: string, b: string)
    requires Quote(a) == Quote(b)
    ensures a == b
  {
    assert a == Quote(a)[1..|Quote(a)| - 1];
  }
}
