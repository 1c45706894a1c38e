/**
 * Character classes used by the regular expressions of emat_verspm.py,
 * as Python's `re` module reads them on str patterns.
 */
module Chars {

  datatype CharClass =
    | Whitespace   // `\s`
    | InlineSpace  // `[^\S\n]`: whitespace other than a newline
    | Digit        // `\d` and `[0-9]`
    | ValueChar    // `[^#\n]`
    | LineChar     // `.` without DOTALL

  /** Python's `\s` on a str pattern: the characters for which str.isspace() holds. */
  predicate IsSpace(c: char) {
    var n := c as int;
    n == 0x20 || 0x09 <= n <= 0x0D || 0x1C <= n <= 0x1F || n == 0x85 || n == 0xA0 ||
    n == 0x1680 || 0x2000 <= n <= 0x200A || n == 0x2028 || n == 0x2029 || n == 0x202F ||
    n == 0x205F || n == 0x3000
  }

  predicate IsDigit(c: char) {
    '0' <= c <= '9'
  }

  predicate In(k: CharClass, c: char) {
    match k
    case Whitespace => IsSpace(c)
    case InlineSpace => IsSpace(c) && c != '\n'
    case Digit => IsDigit(c)
    case ValueChar => c != '#' && c != '\n'
    case LineChar => c != '\n'
  }

  predicate AllIn(k: CharClass, s: string) {
    forall i :: 0 <= i < |s| ==> In(k, s[i])
  }

  /**
   * Where a greedy `k*` that starts at position i of t stops: the end of the
   * longest run of class-k characters from i.
   */
  function Skip(k: CharClass, t: string, i: nat): (e: nat)
    requires i <= |t|
    ensures i <= e <= |t|
    ensures forall m :: i <= m < e ==> In(k, t[m])
    ensures e < |t| ==> !In(k, t[e])
    decreases |t| - i
  {
    if i < |t| && In(k, t[i]) then Skip(k, t, i + 1) else i
  }

  /** A run of class-k characters from i that stops at e is where `k*` stops. */
  lemma {:induction false} SkipAt(k: CharClass, t: string, i: nat, e: nat)
    requires i <= e <= |t|
    requires forall m :: i <= m < e ==> In(k, t[m])
    requires e < |t| ==> !In(k, t[e])
    ensures Skip(k, t, i) == e
    decreases e - i
  {
    if i < e {
      SkipAt(k, t, i + 1, e);
    }
  }
}
