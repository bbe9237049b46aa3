/**
 Character classes and the end-of-line anchor of Python's `re` module, in
 the ASCII reading used throughout this model.
 */
module Text {

  /** `\d`, read as the ASCII digits. */
  predicate IsDigit(c: char) {
    '0' <= c <= '9'
  }

  predicate AllDigits(s: string) {
    forall i :: 0 <= i < |s| ==> IsDigit(s[i])
  }

  /**
   What a Python `$` at the end of a pattern lets through: `$` matches at the
   end of the string and also just before one final newline, so a line read
   with its newline matches like the line without it.
   */
  function DollarBody(s: string): (b: string)
    ensures b == s || b + "\n" == s
    ensures |s| > 0 && s[|s| - 1] == '\n' ==> b + "\n" == s
    ensures |s| > 0 && s[|s| - 1] != '\n' ==> b == s
  {
    if |s| > 0 && s[|s| - 1] == '\n' then s[..|s| - 1] else s
  }
}
