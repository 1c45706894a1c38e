/**
 * The regular expressions of emat_verspm.py, each written as a hand-made
 * matcher that tries the pattern at the start of a string the way Python's
 * backtracking `re` engine does (greedy quantifiers, ordered alternation),
 * and two corrected variants.
 *
 *   NumberAssign(v, op):  (v\s*op\s*)(([-+]?\d*\.?\d*[eE]?[-+]?\d*|\d+\/\d+))
 *   FractionFirstAssign(v, op): the same with the two alternatives swapped
 *   TextAssign(v, op):    (v\s*op\s*)([^#\n]*)(#.*)?
 *   InlineTextAssign(v, op): the same with `[^\S\n]*` for each `\s*`
 *   Literal(tok):         the plain substring search of str.replace
 *   Timestamp:            (.*)_202[0-9]-[0-9]+-[0-9]+_[0-9]+(\.csv)
 *
 * A successful match is a `Hit(head, body, tail)`: the matched text is
 * head + body + tail, and a substitution keeps head and tail and replaces body.
 */
module Patterns {
  import opened Chars
  import opened Outcomes

  datatype Piece =
    | Kept(c: char)
    | Hit(head: string, body: string, tail: string)

  function Text(p: Piece): string {
    match p
    case Kept(c) => [c]
    case Hit(h, o, t) => h + o + t
  }

  datatype Pattern =
    | NumberAssign(varname: string, op: string)
    | FractionFirstAssign(varname: string, op: string)
    | TextAssign(varname: string, op: string)
    | InlineTextAssign(varname: string, op: string)
    | Literal(token: string)
    | Timestamp

  /** Patterns that cannot match the empty string. */
  predicate Valid(p: Pattern) {
    match p
    case NumberAssign(v, _) => v != []
    case FractionFirstAssign(v, _) => v != []
    case TextAssign(v, _) => v != []
    case InlineTextAssign(v, _) => v != []
    case Literal(tok) => tok != []
    case Timestamp => true
  }

  /** The class each `\s*` of an assignment pattern stands for. */
  function SpaceOf(p: Pattern): CharClass {
    if p.InlineTextAssign? then InlineSpace else Whitespace
  }

  /** The literal `s` occurs in t at position j. */
  predicate LiteralAt(s: string, t: string, j: nat) {
    j + |s| <= |t| && t[j..j + |s|] == s
  }

  lemma PrefixAt(s: string, t: string, j: nat)
    requires j <= |t|
    ensures s <= t[j..] <==> LiteralAt(s, t, j)
  {
    if j + |s| <= |t| {
      assert t[j..][..|s|] == t[j..j + |s|];
    }
  }

  /**
   * The greedy `\s*` before the operator, with backtracking: the largest
   * position k in [lo, hi] at which the literal operator starts.
   */
  function OpSplit(op: string, t: string, lo: nat, hi: nat): (r: Option<nat>)
    requires lo <= hi
    ensures r.Some? ==> lo <= r.value <= hi && LiteralAt(op, t, r.value)
    decreases hi
  {
    if LiteralAt(op, t, hi) then Some(hi)
    else if hi == lo then None
    else OpSplit(op, t, lo, hi - 1)
  }

  lemma {:induction false} OpSplitSpec(op: string, t: string, lo: nat, hi: nat)
    requires lo <= hi
    ensures var r := OpSplit(op, t, lo, hi);
      && (r.Some? ==> forall j :: r.value < j <= hi ==> !LiteralAt(op, t, j))
      && (r.None? ==> forall j :: lo <= j <= hi ==> !LiteralAt(op, t, j))
    decreases hi
  {
    if !LiteralAt(op, t, hi) && hi != lo {
      OpSplitSpec(op, t, lo, hi - 1);
    }
  }

  /**
   * Group 1 of the assignment patterns, `varname\s*op\s*`, at the start of t,
   * with ws the class each `\s*` stands for: the operator's position and the
   * end of the group.
   */
  function AssignHead(ws: CharClass, varname: string, op: string, t: string): (r: Option<(nat, nat)>)
    ensures r.Some? ==> |varname| <= r.value.0 && r.value.0 + |op| <= r.value.1 <= |t|
  {
    if !(varname <= t) then None
    else
      match OpSplit(op, t, |varname|, Skip(ws, t, |varname|))
      case None => None
      case Some(k) => Some((k, Skip(ws, t, k + |op|)))
  }

  /**
   * What group 1 matches: the variable name, a run of whitespace, the
   * operator, and all the whitespace after it; the first run is the longest
   * one after which the operator follows. There is no match exactly when no
   * split of the whitespace after the name is followed by the operator.
   */
  lemma AssignHeadSpec(ws: CharClass, varname: string, op: string, t: string)
    ensures var r := AssignHead(ws, varname, op, t);
      && (r.Some? ==>
        var (k, n) := r.value;
        && varname <= t
        && (forall i :: |varname| <= i < k ==> In(ws, t[i]))
        && LiteralAt(op, t, k)
        && (forall i :: k + |op| <= i < n ==> In(ws, t[i]))
        && (n < |t| ==> !In(ws, t[n]))
        && (forall j :: k < j <= Skip(ws, t, |varname|) ==> !LiteralAt(op, t, j)))
      && (r.None? ==>
        || !(varname <= t)
        || forall j :: |varname| <= j <= Skip(ws, t, |varname|) ==> !LiteralAt(op, t, j))
  {
    if varname <= t {
      OpSplitSpec(op, t, |varname|, Skip(ws, t, |varname|));
    }
  }

  /**
   * For an operator that does not start with whitespace, group 1 is the name,
   * the whitespace up to the operator, the operator and the whitespace after.
   */
  lemma AssignHeadAt(ws: CharClass, varname: string, op: string, t: string, k: nat, n: nat)
    requires varname <= t && |varname| <= k
    requires op != [] && !In(ws, op[0])
    requires LiteralAt(op, t, k)
    requires forall i :: |varname| <= i < k ==> In(ws, t[i])
    requires k + |op| <= n <= |t|
    requires forall i :: k + |op| <= i < n ==> In(ws, t[i])
    requires n < |t| ==> !In(ws, t[n])
    ensures AssignHead(ws, varname, op, t) == Some((k, n))
  {
    assert t[k] == t[k..k + |op|][0] == op[0];
    SkipAt(ws, t, |varname|, k);
    SkipAt(ws, t, k + |op|, n);
  }

  predicate NumeralChar(c: char) {
    IsDigit(c) || c == '+' || c == '-' || c == '.' || c == 'e' || c == 'E'
  }

  /** One optional character of `cs` at position i, as `[cs]?` consumes it. */
  function Opt(cs: string, t: string, i: nat): (j: nat)
    requires i <= |t|
    ensures i <= j <= i + 1 && j <= |t|
    ensures j == i + 1 ==> t[i] in cs
  {
    if i < |t| && t[i] in cs then i + 1 else i
  }

  /**
   * End of the number group that starts at position n of t. Its first
   * alternative, `[-+]?\d*\.?\d*[eE]?[-+]?\d*`, can match the empty string, so
   * it always succeeds and the alternative `\d+\/\d+` is never tried.
   */
  function NumeralEnd(t: string, n: nat): (e: nat)
    requires n <= |t|
    ensures n <= e <= |t|
    ensures forall m :: n <= m < e ==> NumeralChar(t[m])
  {
    var a := Opt("+-", t, n);
    var b := Skip(Digit, t, a);
    var c := Opt(".", t, b);
    var d := Skip(Digit, t, c);
    var e := Opt("eE", t, d);
    var f := Opt("+-", t, e);
    Skip(Digit, t, f)
  }

  /**
   * End of the number group with its alternatives the other way round,
   * `(\d+\/\d+|[-+]?\d*\.?\d*[eE]?[-+]?\d*)`: a fraction where there is
   * one, and the general numeral otherwise.
   */
  function FractionFirstEnd(t: string, n: nat): (e: nat)
    requires n <= |t|
    ensures n <= e <= |t|
  {
    var a := Skip(Digit, t, n);
    if n < a < |t| && t[a] == '/' && a + 1 < Skip(Digit, t, a + 1) then Skip(Digit, t, a + 1)
    else NumeralEnd(t, n)
  }

  /** `[cs]?` from i to j: it takes a character of cs when one is there and nothing otherwise. */
  predicate OptAt(cs: string, t: string, i: nat, j: nat) {
    || (j == i + 1 && i < |t| && t[i] in cs)
    || (j == i && (i >= |t| || t[i] !in cs))
  }

  /** `\d*` from i to j: digits only, and no digit right after. */
  predicate DigitsAt(t: string, i: nat, j: nat) {
    && i <= j <= |t|
    && (forall m :: i <= m < j ==> IsDigit(t[m]))
    && (j < |t| ==> !IsDigit(t[j]))
  }

  /**
   * `[-+]?\d*\.?\d*[eE]?[-+]?\d*` from n, cut at a, b, c, d, e and f and
   * ending at g: each optional character taken when it is there, each digit
   * run as long as it goes.
   */
  predicate NumeralPieces(t: string, n: nat, a: nat, b: nat, c: nat, d: nat, e: nat, f: nat, g: nat) {
    && OptAt("+-", t, n, a) && DigitsAt(t, a, b)
    && OptAt(".", t, b, c) && DigitsAt(t, c, d)
    && OptAt("eE", t, d, e) && OptAt("+-", t, e, f) && DigitsAt(t, f, g)
  }

  /** The number group as written ends where those greedy pieces end. */
  lemma NumeralEndAt(t: string, n: nat, a: nat, b: nat, c: nat, d: nat, e: nat, f: nat, g: nat)
    requires n <= |t| && NumeralPieces(t, n, a, b, c, d, e, f, g)
    ensures NumeralEnd(t, n) == g
  {
    OptAtOpt("+-", t, n, a);
    SkipAt(Digit, t, a, b);
    OptAtOpt(".", t, b, c);
    SkipAt(Digit, t, c, d);
    OptAtOpt("eE", t, d, e);
    OptAtOpt("+-", t, e, f);
    SkipAt(Digit, t, f, g);
  }

  lemma OptAtOpt(cs: string, t: string, i: nat, j: nat)
    requires i <= |t| && OptAt(cs, t, i, j)
    ensures Opt(cs, t, i) == j
  {
  }

  /**
   * On a fraction `a/b` the number group as written stops after the
   * numerator, while the alternatives the other way round take the whole
   * fraction.
   */
  lemma FractionEnds(t: string, n: nat, a: nat, b: nat)
    requires n < a < |t| && t[a] == '/' && a + 1 < b <= |t|
    requires forall m :: n <= m < a ==> IsDigit(t[m])
    requires forall m :: a + 1 <= m < b ==> IsDigit(t[m])
    requires b < |t| ==> !IsDigit(t[b])
    ensures NumeralEnd(t, n) == a
    ensures FractionFirstEnd(t, n) == b
  {
    SkipAt(Digit, t, n, a);
    SkipAt(Digit, t, a + 1, b);
    SkipAt(Digit, t, a, a);
    assert t[n] !in "+-";
    assert t[a] !in "." && t[a] !in "eE" && t[a] !in "+-";
  }

  /** The number group from n to e after a group 1 that ends at n. */
  function NumberHit(t: string, n: nat, e: nat): (h: Piece)
    requires n <= e <= |t|
    ensures h.Hit? && Text(h) <= t && |h.head| == n
  {
    var h := Hit(t[..n], t[n..e], []);
    assert t[..n] + t[n..e] == t[..e];
    assert Text(h) == t[..e];
    h
  }

  lemma NumberHitSpec(t: string, n: nat, e: nat)
    requires n <= e <= |t|
    ensures var h := NumberHit(t, n, e);
      && h.head == t[..n]
      && h.body == t[n..e]
      && h.tail == []
  {
  }

  function MatchNumber(varname: string, op: string, t: string): (r: Option<Piece>)
    requires varname != []
    ensures r.Some? ==> r.value.Hit? && Text(r.value) <= t && Text(r.value) != []
  {
    match AssignHead(Whitespace, varname, op, t)
    case None => None
    case Some((_, n)) => Some(NumberHit(t, n, NumeralEnd(t, n)))
  }

  /**
   * The number pattern matches where group 1 does; it keeps group 1 as the
   * head, and the replaced part is the greedy numeral that follows, made of
   * sign, digit, point and exponent characters only (possibly empty).
   */
  lemma NumberMatchSpec(varname: string, op: string, t: string)
    requires varname != []
    ensures var r := MatchNumber(varname, op, t);
      && (r.Some? <==> AssignHead(Whitespace, varname, op, t).Some?)
      && (r.Some? ==>
        var n := AssignHead(Whitespace, varname, op, t).value.1;
        && r.value.head == t[..n]
        && r.value.body == t[n..NumeralEnd(t, n)]
        && r.value.tail == []
        && forall m :: 0 <= m < |r.value.body| ==> NumeralChar(r.value.body[m]))
  {
    match AssignHead(Whitespace, varname, op, t)
    case None =>
    case Some((_, n)) =>
      NumberMatchAt(varname, op, t, n);
      NumberBody(t, n);
  }

  lemma NumberMatchAt(varname: string, op: string, t: string, n: nat)
    requires varname != []
    requires AssignHead(Whitespace, varname, op, t).Some? && AssignHead(Whitespace, varname, op, t).value.1 == n
    ensures MatchNumber(varname, op, t) == Some(Hit(t[..n], t[n..NumeralEnd(t, n)], []))
  {
    NumberHitSpec(t, n, NumeralEnd(t, n));
  }

  lemma NumberBody(t: string, n: nat)
    requires n <= |t|
    ensures forall m :: 0 <= m < |t[n..NumeralEnd(t, n)]| ==> NumeralChar(t[n..NumeralEnd(t, n)][m])
  {
    var e := NumeralEnd(t, n);
    assert forall m :: 0 <= m < e - n ==> t[n..e][m] == t[n + m];
  }

  /**
   * Where group 1 ends at n and the numeral pieces after it end at g, the
   * number pattern keeps t[..n] and replaces exactly t[n..g].
   */
  lemma NumberAssignAt(varname: string, op: string, t: string, k: nat, n: nat,
                       a: nat, b: nat, c: nat, d: nat, e: nat, f: nat, g: nat)
    requires varname != []
    requires AssignHead(Whitespace, varname, op, t) == Some((k, n))
    requires NumeralPieces(t, n, a, b, c, d, e, f, g)
    ensures MatchNumber(varname, op, t) == Some(Hit(t[..n], t[n..g], []))
  {
    NumeralEndAt(t, n, a, b, c, d, e, f, g);
    NumberMatchAt(varname, op, t, n);
  }

  function MatchFraction(varname: string, op: string, t: string): (r: Option<Piece>)
    requires varname != []
    ensures r.Some? ==> r.value.Hit? && Text(r.value) <= t && Text(r.value) != []
  {
    match AssignHead(Whitespace, varname, op, t)
    case None => None
    case Some((_, n)) => Some(NumberHit(t, n, FractionFirstEnd(t, n)))
  }

  /** Groups 2 and 3 of the string pattern after a group 1 that ends at n. */
  function TextHit(t: string, n: nat): (h: Piece)
    requires n <= |t|
    ensures h.Hit? && Text(h) <= t && |h.head| == n
  {
    var m := Skip(ValueChar, t, n);
    var e := if m < |t| && t[m] == '#' then Skip(LineChar, t, m + 1) else m;
    var h := Hit(t[..n], t[n..m], t[m..e]);
    assert t[..n] + t[n..m] == t[..m];
    assert t[..m] + t[m..e] == t[..e];
    assert Text(h) == t[..e];
    h
  }

  lemma TextHitSpec(t: string, n: nat)
    requires n <= |t|
    ensures var h := TextHit(t, n);
      && h.head == t[..n]
      && AllIn(ValueChar, h.body)
      && (h.tail == [] || (h.tail[0] == '#' && AllIn(LineChar, h.tail[1..])))
      && (|Text(h)| == |t| || t[|Text(h)|] == '\n')
  {
    var m := Skip(ValueChar, t, n);
    var e := if m < |t| && t[m] == '#' then Skip(LineChar, t, m + 1) else m;
    assert TextHit(t, n) == Hit(t[..n], t[n..m], t[m..e]);
    assert |Text(Hit(t[..n], t[n..m], t[m..e]))| == e;
    AllInSlice(ValueChar, t, n, m);
    if m < |t| && t[m] == '#' {
      assert t[m..e][1..] == t[m + 1..e];
      AllInSlice(LineChar, t, m + 1, e);
    }
  }

  lemma AllInSlice(k: CharClass, t: string, i: nat, j: nat)
    requires i <= j <= |t|
    requires forall m :: i <= m < j ==> In(k, t[m])
    ensures AllIn(k, t[i..j])
  {
    assert forall m :: 0 <= m < j - i ==> t[i..j][m] == t[i + m];
  }

  function MatchText(varname: string, op: string, t: string): (r: Option<Piece>)
    requires varname != []
    ensures r.Some? ==> r.value.Hit? && Text(r.value) <= t && Text(r.value) != []
  {
    match AssignHead(Whitespace, varname, op, t)
    case None => None
    case Some((_, n)) => Some(TextHit(t, n))
  }

  /**
   * The string pattern matches where group 1 does; the replaced part runs up
   * to the first `#` or newline, the kept tail is empty or a `#` comment up to
   * the end of the line, and the match always ends at a newline or at the end.
   */
  lemma TextMatchSpec(varname: string, op: string, t: string)
    requires varname != []
    ensures var r := MatchText(varname, op, t);
      && (r.Some? <==> AssignHead(Whitespace, varname, op, t).Some?)
      && (r.Some? ==>
        var h := r.value;
        && h.head == t[..AssignHead(Whitespace, varname, op, t).value.1]
        && AllIn(ValueChar, h.body)
        && (h.tail == [] || (h.tail[0] == '#' && AllIn(LineChar, h.tail[1..])))
        && (|Text(h)| == |t| || t[|Text(h)|] == '\n'))
  {
    match AssignHead(Whitespace, varname, op, t)
    case None =>
    case Some((_, n)) => TextHitSpec(t, n);
  }

  function MatchInlineText(varname: string, op: string, t: string): (r: Option<Piece>)
    requires varname != []
    ensures r.Some? ==> r.value.Hit? && Text(r.value) <= t && Text(r.value) != []
  {
    match AssignHead(InlineSpace, varname, op, t)
    case None => None
    case Some((_, n)) => Some(TextHit(t, n))
  }

  /**
   * With a name and an operator on one line, a match of the corrected string
   * pattern never reaches past the end of the line it starts on.
   */
  lemma InlineMatchInLine(varname: string, op: string, t: string)
    requires varname != []
    requires forall i :: 0 <= i < |varname| ==> varname[i] != '\n'
    requires forall i :: 0 <= i < |op| ==> op[i] != '\n'
    requires MatchInlineText(varname, op, t).Some?
    ensures forall i :: 0 <= i < |Text(MatchInlineText(varname, op, t).value)| ==> t[i] != '\n'
  {
    var (k, n) := AssignHead(InlineSpace, varname, op, t).value;
    AssignHeadSpec(InlineSpace, varname, op, t);
    HeadInLine(varname, op, t, k, n);
    TextHitInLine(t, n);
  }

  /** Group 1 of the corrected pattern holds no newline when the name and the operator hold none. */
  lemma HeadInLine(varname: string, op: string, t: string, k: nat, n: nat)
    requires varname <= t && LiteralAt(op, t, k) && |varname| <= k && k + |op| <= n <= |t|
    requires forall i :: 0 <= i < |varname| ==> varname[i] != '\n'
    requires forall i :: 0 <= i < |op| ==> op[i] != '\n'
    requires forall i :: |varname| <= i < k ==> In(InlineSpace, t[i])
    requires forall i :: k + |op| <= i < n ==> In(InlineSpace, t[i])
    ensures forall i :: 0 <= i < n ==> t[i] != '\n'
  {
    forall i | 0 <= i < n
      ensures t[i] != '\n'
    {
      if i < |varname| {
        assert t[i] == t[..|varname|][i] == varname[i];
      } else if k <= i < k + |op| {
        assert t[i] == t[k..k + |op|][i - k] == op[i - k];
      }
    }
  }

  /** The value and the comment after group 1 stop before the first newline. */
  lemma TextHitInLine(t: string, n: nat)
    requires n <= |t|
    ensures forall i :: n <= i < |Text(TextHit(t, n))| ==> t[i] != '\n'
  {
    var m := Skip(ValueChar, t, n);
    var e := if m < |t| && t[m] == '#' then Skip(LineChar, t, m + 1) else m;
    assert |Text(TextHit(t, n))| == e;
  }

  function MatchLiteral(token: string, t: string): (r: Option<Piece>)
    ensures r.Some? <==> token <= t
    ensures r.Some? ==> r.value == Hit([], token, [])
  {
    if token <= t then Some(Hit([], token, [])) else None
  }

  /**
   * `_202[0-9]-[0-9]+-[0-9]+_[0-9]+` at position j of t, provided `\.csv`
   * follows it: the end of the stamp. Each greedy `[0-9]+` is followed by a
   * non-digit literal, so backtracking into it never helps.
   */
  function StampAt(t: string, j: nat): (r: Option<nat>)
    ensures r.Some? ==> j + 6 < r.value && r.value + 4 <= |t| && t[r.value..r.value + 4] == ".csv"
  {
    if j + 6 <= |t| && t[j] == '_' && t[j + 1] == '2' && t[j + 2] == '0' && t[j + 3] == '2'
       && IsDigit(t[j + 4]) && t[j + 5] == '-'
    then
      var a := Skip(Digit, t, j + 6);
      if a > j + 6 && a < |t| && t[a] == '-' then
        var b := Skip(Digit, t, a + 1);
        if b > a + 1 && b < |t| && t[b] == '_' then
          var c := Skip(Digit, t, b + 1);
          if c > b + 1 && c + 4 <= |t| && t[c] == '.' && t[c + 1] == 'c' && t[c + 2] == 's' && t[c + 3] == 'v'
          then
            assert t[c..c + 4] == ".csv";
            Some(c)
          else None
        else None
      else None
    else None
  }

  /** The largest k <= hi for which f holds: how a greedy quantifier backtracks. */
  function LastAt(f: nat -> bool, hi: nat): (r: Option<nat>)
    ensures r.Some? ==> r.value <= hi && f(r.value)
  {
    if f(hi) then Some(hi)
    else if hi == 0 then None
    else LastAt(f, hi - 1)
  }

  lemma {:induction false} LastAtSpec(f: nat -> bool, hi: nat)
    ensures var r := LastAt(f, hi);
      && (r.Some? ==> forall j :: r.value < j <= hi ==> !f(j))
      && (r.None? ==> forall j :: 0 <= j <= hi ==> !f(j))
  {
    if !f(hi) && hi != 0 {
      LastAtSpec(f, hi - 1);
    }
  }

  function StampStarts(t: string): nat -> bool {
    (j: nat) => StampAt(t, j).Some?
  }

  /** The greedy `(.*)` with backtracking: the largest k <= hi at which a stamp starts. */
  function StampSplit(t: string, hi: nat): (r: Option<nat>)
    ensures r.Some? ==> r.value <= hi && StampAt(t, r.value).Some?
  {
    LastAt(StampStarts(t), hi)
  }

  lemma StampSplitSpec(t: string, hi: nat)
    ensures var r := StampSplit(t, hi);
      && (r.Some? ==> forall j :: r.value < j <= hi ==> StampAt(t, j).None?)
      && (r.None? ==> forall j :: 0 <= j <= hi ==> StampAt(t, j).None?)
  {
    LastAtSpec(StampStarts(t), hi);
    assert forall j: nat :: StampStarts(t)(j) == StampAt(t, j).Some?;
  }

  function MatchTimestamp(t: string): (r: Option<Piece>)
    ensures r.Some? ==> r.value.Hit? && Text(r.value) <= t && Text(r.value) != []
    ensures r.Some? ==> |r.value.body| > 6 && r.value.tail == ".csv"
  {
    match StampSplit(t, Skip(LineChar, t, 0))
    case None => None
    case Some(k) =>
      var c := StampAt(t, k).value;
      StampHitText(t, k, c);
      Some(Hit(t[..k], t[k..c], ".csv"))
  }

  lemma StampHitText(t: string, k: nat, c: nat)
    requires k + 6 < c && c + 4 <= |t| && t[c..c + 4] == ".csv"
    ensures Text(Hit(t[..k], t[k..c], ".csv")) == t[..c + 4]
  {
    assert t[..k] + t[k..c] == t[..c];
    assert t[..c] + t[c..c + 4] == t[..c + 4];
  }

  /**
   * The shape of a stamp `_202<d>-<digits>-<digits>_<digits>.csv` at j that ends
   * t: the dashes at j + 5 and a, the underscore at b and the `.csv` at c.
   */
  predicate StampShape(t: string, j: nat, a: nat, b: nat, c: nat) {
    && j + 6 < a && a + 1 < b && b + 1 < c && c + 4 == |t|
    && t[j] == '_' && t[j + 1] == '2' && t[j + 2] == '0' && t[j + 3] == '2'
    && IsDigit(t[j + 4]) && t[j + 5] == '-'
    && (forall i :: j + 6 <= i < a ==> IsDigit(t[i]))
    && t[a] == '-'
    && (forall i :: a + 1 <= i < b ==> IsDigit(t[i]))
    && t[b] == '_'
    && (forall i :: b + 1 <= i < c ==> IsDigit(t[i]))
    && t[c] == '.' && t[c + 1] == 'c' && t[c + 2] == 's' && t[c + 3] == 'v'
  }

  lemma StampAtShape(t: string, j: nat, a: nat, b: nat, c: nat)
    requires StampShape(t, j, a, b, c)
    ensures StampAt(t, j) == Some(c)
  {
    SkipAt(Digit, t, j + 6, a);
    SkipAt(Digit, t, a + 1, b);
    SkipAt(Digit, t, b + 1, c);
  }

  lemma NoStampAfterShape(t: string, j: nat, a: nat, b: nat, c: nat, k: nat)
    requires StampShape(t, j, a, b, c)
    requires j < k <= |t|
    ensures StampAt(t, k).None?
  {
    if k + 6 <= |t| && t[k] == '_' {
      assert k == b;
      assert t[b + 5] != '-';
    }
  }

  /**
   * A name on one line that ends in a stamp: the timestamp pattern matches all
   * of it, with everything before the stamp as group 1.
   */
  lemma TimestampMatchAt(t: string, j: nat, a: nat, b: nat, c: nat)
    requires StampShape(t, j, a, b, c)
    requires forall i :: 0 <= i < |t| ==> t[i] != '\n'
    ensures MatchTimestamp(t) == Some(Hit(t[..j], t[j..c], ".csv"))
  {
    StampSplitAt(t, j, a, b, c);
    StampAtShape(t, j, a, b, c);
    SkipAt(LineChar, t, 0, |t|);
  }

  /** In a name that ends in a stamp at j, the backtracking of `(.*)` stops at j. */
  lemma StampSplitAt(t: string, j: nat, a: nat, b: nat, c: nat)
    requires StampShape(t, j, a, b, c)
    ensures StampSplit(t, |t|) == Some(j)
  {
    StampAtShape(t, j, a, b, c);
    forall k | j < k <= |t|
      ensures StampAt(t, k).None?
    {
      NoStampAfterShape(t, j, a, b, c, k);
    }
    StampSplitSpec(t, |t|);
  }

  /** The pattern tried at the start of t (Python's `pattern.match`). */
  function Match(p: Pattern, t: string): (r: Option<Piece>)
    requires Valid(p)
    ensures r.Some? ==> r.value.Hit? && Text(r.value) <= t && Text(r.value) != []
  {
    match p
    case NumberAssign(v, op) => MatchNumber(v, op, t)
    case FractionFirstAssign(v, op) => MatchFraction(v, op, t)
    case TextAssign(v, op) => MatchText(v, op, t)
    case InlineTextAssign(v, op) => MatchInlineText(v, op, t)
    case Literal(tok) => MatchLiteral(tok, t)
    case Timestamp => MatchTimestamp(t)
  }
}
