/**
 * The text substitutions of emat_verspm.py: `ReplacementOfNumber.sub`,
 * `ReplacementOfString.sub`, the `str.replace` of template markers, and the
 * `renamer.sub` that strips the timestamp from an output file name.
 */
module Replacement {
  import opened Chars
  import opened Outcomes
  import opened Patterns
  import opened Rewrite

  /**
   * `ReplacementOfNumber(varname, op).sub(value, s)`: every number assigned
   * to varname with op is replaced by value (`\g<1>{value}`).
   */
  function SubNumber(varname: string, op: string, value: string, s: string): string
    requires varname != []
  {
    Sub(MatcherOf(NumberAssign(varname, op)), value, s)
  }

  /** The same with the number alternatives the other way round. */
  function SubNumberFractionFirst(varname: string, op: string, value: string, s: string): string
    requires varname != []
  {
    Sub(MatcherOf(FractionFirstAssign(varname, op)), value, s)
  }

  /**
   * `ReplacementOfString(varname, op).sub(value, s)`: the value of every
   * assignment to varname becomes value followed by two spaces, and a
   * trailing `#` comment is kept (`\g<1>{value}  \g<3>`).
   */
  function SubText(varname: string, op: string, value: string, s: string): string
    requires varname != []
  {
    Sub(MatcherOf(TextAssign(varname, op)), value + "  ", s)
  }

  /**
   * The string substitution with horizontal whitespace, `[^\S\n]*`, in place
   * of each `\s*` of group 1, so that a match stays on its line.
   */
  function SubInlineText(varname: string, op: string, value: string, s: string): string
    requires varname != []
  {
    Sub(MatcherOf(InlineTextAssign(varname, op)), value + "  ", s)
  }

  /**
   * `s.replace(token, value)`: scanning from the left, each occurrence of
   * the token is replaced and the scan resumes after it.
   * ReplaceAllIsSub shows it is the substitution of the literal pattern.
   */
  function ReplaceAll(s: string, token: string, value: string): string
    requires token != []
    decreases |s|
  {
    if s == [] then []
    else if token <= s then value + ReplaceAll(s[|token|..], token, value)
    else [s[0]] + ReplaceAll(s[1..], token, value)
  }

  /** `renamer.match(name)`: the name carries a VisionEval timestamp before `.csv`. */
  predicate Stamped(name: string) {
    MatchTimestamp(name).Some?
  }

  /** The timestamp rewrite of a name: every match becomes its group 1 followed by `.csv`. */
  function StripTimestamp(name: string): string {
    Sub(MatcherOf(Timestamp), "", name)
  }

  lemma LiteralMatch(token: string, s: string, i: nat)
    requires token != [] && i <= |s|
    ensures Match(Literal(token), s[i..]).Some? <==> LiteralAt(token, s, i)
  {
    PrefixAt(token, s, i);
  }

  /** An assignment pattern matches at no position in [lo, hi) where the name does not occur. */
  lemma AssignAbsentIn(p: Pattern, s: string, lo: nat, hi: nat)
    requires p.NumberAssign? || p.FractionFirstAssign? || p.TextAssign? || p.InlineTextAssign?
    requires Valid(p) && hi <= |s|
    requires forall i :: lo <= i < hi ==> !LiteralAt(p.varname, s, i)
    ensures forall i :: lo <= i < hi ==> MatcherOf(p)(s[i..]).None?
  {
    forall i | lo <= i < hi
      ensures AssignHead(SpaceOf(p), p.varname, p.op, s[i..]).None?
    {
      PrefixAt(p.varname, s, i);
    }
  }

  /**
   * A text in which the name occurs only where the assignment h matches, at
   * n: that assignment alone is rewritten, group 1 and the kept tail around
   * the replacement, and the text before and after it stays as it is.
   */
  lemma SubAssignAt(p: Pattern, mid: string, s: string, n: nat, h: Piece)
    requires p.NumberAssign? || p.FractionFirstAssign? || p.TextAssign? || p.InlineTextAssign?
    requires Valid(p) && n <= |s|
    requires Match(p, s[n..]) == Some(h)
    requires forall i :: 0 <= i < n ==> !LiteralAt(p.varname, s, i)
    requires forall i :: n + |Text(h)| <= i < |s| ==> !LiteralAt(p.varname, s, i)
    ensures Sub(MatcherOf(p), mid, s) == s[..n] + (h.head + mid + h.tail + s[n + |Text(h)|..])
  {
    AssignAbsentIn(p, s, 0, n);
    AssignAbsentIn(p, s, n + |Text(h)|, |s|);
    SubOneHit(MatcherOf(p), mid, s, n, h);
  }

  /** A text in which the variable name does not occur is left as it is by all three substitutions. */
  lemma NameAbsent(varname: string, op: string, value: string, s: string)
    requires varname != []
    requires forall i :: 0 <= i < |s| ==> !LiteralAt(varname, s, i)
    ensures SubNumber(varname, op, value, s) == s
    ensures SubNumberFractionFirst(varname, op, value, s) == s
    ensures SubText(varname, op, value, s) == s
  {
    AssignAbsentIn(NumberAssign(varname, op), s, 0, |s|);
    SubNoMatch(MatcherOf(NumberAssign(varname, op)), value, s);
    AssignAbsentIn(FractionFirstAssign(varname, op), s, 0, |s|);
    SubNoMatch(MatcherOf(FractionFirstAssign(varname, op)), value, s);
    AssignAbsentIn(TextAssign(varname, op), s, 0, |s|);
    SubNoMatch(MatcherOf(TextAssign(varname, op)), value + "  ", s);
  }

  /**
   * The corrected string substitution of a lone assignment at n rewrites
   * only the line it is on: the rewritten stretch holds no newline, and the
   * text before it and after it, the following lines included, stays as it is.
   */
  lemma SubInlineTextAt(varname: string, op: string, value: string, s: string, n: nat, h: Piece)
    requires varname != []
    requires forall i :: 0 <= i < |varname| ==> varname[i] != '\n'
    requires forall i :: 0 <= i < |op| ==> op[i] != '\n'
    requires n <= |s| && Match(InlineTextAssign(varname, op), s[n..]) == Some(h)
    requires forall i :: 0 <= i < n ==> !LiteralAt(varname, s, i)
    requires forall i :: n + |Text(h)| <= i < |s| ==> !LiteralAt(varname, s, i)
    ensures n + |Text(h)| <= |s|
    ensures forall i :: n <= i < n + |Text(h)| ==> s[i] != '\n'
    ensures SubInlineText(varname, op, value, s) == s[..n] + (h.head + (value + "  ") + h.tail + s[n + |Text(h)|..])
  {
    InlineHitInLine(varname, op, s[n..], h);
    forall i | n <= i < n + |Text(h)|
      ensures s[i] != '\n'
    {
      assert s[n..][i - n] == s[i];
    }
    SubInlineOne(varname, op, value, s, n, h);
  }

  lemma SubInlineOne(varname: string, op: string, value: string, s: string, n: nat, h: Piece)
    requires varname != []
    requires n <= |s| && Match(InlineTextAssign(varname, op), s[n..]) == Some(h)
    requires forall i :: 0 <= i < n ==> !LiteralAt(varname, s, i)
    requires forall i :: n + |Text(h)| <= i < |s| ==> !LiteralAt(varname, s, i)
    ensures SubInlineText(varname, op, value, s) == s[..n] + (h.head + (value + "  ") + h.tail + s[n + |Text(h)|..])
  {
    SubAssignAt(InlineTextAssign(varname, op), value + "  ", s, n, h);
  }

  lemma InlineHitInLine(varname: string, op: string, t: string, h: Piece)
    requires varname != []
    requires forall i :: 0 <= i < |varname| ==> varname[i] != '\n'
    requires forall i :: 0 <= i < |op| ==> op[i] != '\n'
    requires Match(InlineTextAssign(varname, op), t) == Some(h)
    ensures |Text(h)| <= |t| && forall i :: 0 <= i < |Text(h)| ==> t[i] != '\n'
  {
    InlineMatchInLine(varname, op, t);
  }

  /** The literal pattern matches at no position in [lo, hi) where the token does not occur. */
  lemma LiteralAbsentIn(token: string, s: string, lo: nat, hi: nat)
    requires token != [] && hi <= |s|
    requires forall i :: lo <= i < hi ==> !LiteralAt(token, s, i)
    ensures forall i :: lo <= i < hi ==> MatcherOf(Literal(token))(s[i..]).None?
  {
    forall i | lo <= i < hi
      ensures MatchLiteral(token, s[i..]).None?
    {
      PrefixAt(token, s, i);
    }
  }

  /** `str.replace` is the substitution of the token as a literal pattern. */
  lemma {:induction false} ReplaceAllIsSub(s: string, token: string, value: string)
    requires token != []
    ensures ReplaceAll(s, token, value) == Sub(MatcherOf(Literal(token)), value, s)
    decreases |s|
  {
    if s != [] {
      if token <= s {
        LiteralHitStep(s, token, value);
        ReplaceAllIsSub(s[|token|..], token, value);
      } else {
        LiteralKeptStep(s, token, value);
        ReplaceAllIsSub(s[1..], token, value);
      }
    }
  }

  lemma LiteralHitStep(s: string, token: string, value: string)
    requires token != [] && token <= s
    ensures Sub(MatcherOf(Literal(token)), value, s) == value + Sub(MatcherOf(Literal(token)), value, s[|token|..])
  {
    var m := MatcherOf(Literal(token));
    var h := Hit([], token, []);
    assert m(s) == Some(h);
    assert |Text(h)| == |token| && h.head + value + h.tail == value;
    SubHitStep(m, value, s);
  }

  lemma LiteralKeptStep(s: string, token: string, value: string)
    requires token != [] && s != [] && !(token <= s)
    ensures Sub(MatcherOf(Literal(token)), value, s) == [s[0]] + Sub(MatcherOf(Literal(token)), value, s[1..])
  {
    SubKeptStep(MatcherOf(Literal(token)), value, s);
  }

  /** A token that does not occur leaves the string as it is. */
  lemma ReplaceAllAbsent(s: string, token: string, value: string)
    requires token != []
    requires forall i :: 0 <= i < |s| ==> !LiteralAt(token, s, i)
    ensures ReplaceAll(s, token, value) == s
  {
    ReplaceAllIsSub(s, token, value);
    LiteralAbsentIn(token, s, 0, |s|);
    SubNoMatch(MatcherOf(Literal(token)), value, s);
  }

  /**
   * The first occurrence of the token, at n, is replaced, and the search
   * goes on after it: occurrences do not overlap.
   */
  lemma ReplaceAllFirst(s: string, token: string, value: string, n: nat)
    requires token != []
    requires LiteralAt(token, s, n)
    requires forall i :: 0 <= i < n ==> !LiteralAt(token, s, i)
    ensures ReplaceAll(s, token, value) == s[..n] + (value + ReplaceAll(s[n + |token|..], token, value))
  {
    var h := Hit([], token, []);
    assert |Text(h)| == |token| && h.head + value + h.tail == value;
    assert s[n + |Text(h)|..] == s[n + |token|..];
    ReplaceAllIsSub(s, token, value);
    ReplaceAllIsSub(s[n + |token|..], token, value);
    LiteralAbsentIn(token, s, 0, n);
    LiteralMatch(token, s, n);
    SubFirstHit(MatcherOf(Literal(token)), value, s, n, h);
  }

  /** A token that occurs once, at n, is replaced there and nothing else changes. */
  lemma ReplaceAllOnce(s: string, token: string, value: string, n: nat)
    requires token != []
    requires LiteralAt(token, s, n)
    requires forall i :: 0 <= i < |s| && i != n ==> !LiteralAt(token, s, i)
    ensures ReplaceAll(s, token, value) == s[..n] + (value + s[n + |token|..])
  {
    var h := Hit([], token, []);
    assert |Text(h)| == |token| && h.head + value + h.tail == value;
    assert s[n + |Text(h)|..] == s[n + |token|..];
    ReplaceAllIsSub(s, token, value);
    LiteralAbsentIn(token, s, 0, n);
    LiteralAbsentIn(token, s, n + |token|, |s|);
    LiteralMatch(token, s, n);
    SubOneHit(MatcherOf(Literal(token)), value, s, n, h);
  }

  /**
   * A name on one line that ends in `_202<d>-<digits>-<digits>_<digits>.csv`
   * is stamped, and renaming keeps what comes before the stamp and `.csv`.
   */
  lemma StripTimestampShape(t: string, j: nat, a: nat, b: nat, c: nat)
    requires StampShape(t, j, a, b, c)
    requires forall i :: 0 <= i < |t| ==> t[i] != '\n'
    ensures Stamped(t)
    ensures StripTimestamp(t) == t[..j] + ".csv"
  {
    var h := Hit(t[..j], t[j..c], ".csv");
    assert Match(Timestamp, t) == Some(h) by {
      TimestampMatchAt(t, j, a, b, c);
    }
    StripWhole(t, h);
  }

  /** A name the timestamp pattern matches as a whole loses the stamp. */
  lemma StripWhole(t: string, h: Piece)
    requires Match(Timestamp, t) == Some(h) && |Text(h)| == |t|
    ensures StripTimestamp(t) == h.head + h.tail
  {
    SubWhole(MatcherOf(Timestamp), "", t, h);
  }

  /** Stripping the stamp of a stamped name gives a strictly shorter name, so never the same one. */
  lemma StripTimestampShorter(name: string)
    requires Stamped(name)
    ensures |StripTimestamp(name)| < |name|
  {
    var m := MatcherOf(Timestamp);
    var h := m(name).value;
    var rest := name[|Text(h)|..];
    SubHitStep(m, "", name);
    ScanIsScan(m, rest);
    SpliceShrinks(Scan(m, rest), "");
  }
}

/**
 * The substitutions on small concrete texts. Each example is proved from
 * the match found at the start of the text and the absence of the name after it.
 */
module ReplacementExamples {
  import opened Chars
  import opened Outcomes
  import opened Patterns
  import opened Rewrite
  import opened Replacement

  /** A one-character name that does not occur from lo on. */
  lemma NameAbsentFrom(c: char, t: string, lo: nat)
    requires forall i :: lo <= i < |t| ==> t[i] != c
    ensures forall i :: lo <= i < |t| ==> !LiteralAt([c], t, i)
  {
    forall i | lo <= i < |t|
      ensures !LiteralAt([c], t, i)
    {
      assert t[i..i + 1][0] == t[i];
    }
  }

  /** The pattern tried at the start of the example text matches with the hit given. */
  lemma DecimalHit(t: string)
    requires t == "x: 1.5"
    ensures Match(NumberAssign("x", ":"), t) == Some(Hit("x: ", "1.5", []))
  {
    AssignHeadAt(Whitespace, "x", ":", t, 1, 3);
    SkipAt(Digit, t, 3, 4);
    SkipAt(Digit, t, 5, 6);
    assert NumeralEnd(t, 3) == 6;
    NumberHitSpec(t, 3, 6);
    assert t[..3] == "x: " && t[3..6] == "1.5";
  }

  /** The text spliced from the example's hit is the expected result. */
  lemma DecimalResult(t: string, r: string)
    requires t == "x: 1.5"
    requires r == t[..0] + ("x: " + "7" + [] + t[6..])
    ensures r == "x: 7"
  {
    assert t[6..] == [];
  }

  /** A decimal number is replaced as a whole. */
  lemma SubNumberDecimal(t: string)
    requires t == "x: 1.5"
    ensures SubNumber("x", ":", "7", t) == "x: 7"
  {
    DecimalHit(t);
    assert t[0..] == t;
    SubAssignAt(NumberAssign("x", ":"), "7", t, 0, Hit("x: ", "1.5", []));
    DecimalResult(t, SubNumber("x", ":", "7", t));
  }

  /** The pattern tried at the start of the example text matches with the hit given. */
  lemma EmptyNumeralHit(t: string)
    requires t == "x: abc"
    ensures Match(NumberAssign("x", ":"), t) == Some(Hit("x: ", [], []))
  {
    AssignHeadAt(Whitespace, "x", ":", t, 1, 3);
    SkipAt(Digit, t, 3, 3);
    assert NumeralEnd(t, 3) == 3;
    NumberHitSpec(t, 3, 3);
    assert t[..3] == "x: ";
  }

  /** The text spliced from the example's hit is the expected result. */
  lemma EmptyNumeralResult(t: string, r: string)
    requires t == "x: abc"
    requires r == t[..0] + ("x: " + "7" + [] + t[3..])
    ensures r == "x: 7abc"
  {
    assert t[3..] == "abc";
  }

  /** Where no number follows, the empty numeral matches and the value is inserted before the text. */
  lemma SubNumberEmptyNumeral(t: string)
    requires t == "x: abc"
    ensures SubNumber("x", ":", "7", t) == "x: 7abc"
  {
    EmptyNumeralHit(t);
    NameAbsentFrom('x', t, 3);
    assert t[0..] == t;
    SubAssignAt(NumberAssign("x", ":"), "7", t, 0, Hit("x: ", [], []));
    EmptyNumeralResult(t, SubNumber("x", ":", "7", t));
  }

  /** The pattern tried at the start of the example text matches with the hit given. */
  lemma FractionHit(t: string)
    requires t == "x: 3/4"
    ensures Match(NumberAssign("x", ":"), t) == Some(Hit("x: ", "3", []))
    ensures Match(FractionFirstAssign("x", ":"), t) == Some(Hit("x: ", "3/4", []))
  {
    AssignHeadAt(Whitespace, "x", ":", t, 1, 3);
    FractionEnds(t, 3, 4, 6);
    NumberHitSpec(t, 3, 4);
    NumberHitSpec(t, 3, 6);
    assert t[..3] == "x: " && t[3..4] == "3" && t[3..6] == "3/4";
  }

  /** The text spliced from the example's hit is the expected result. */
  lemma FractionResult(t: string, r: string)
    requires t == "x: 3/4"
    requires r == t[..0] + ("x: " + "7" + [] + t[4..])
    ensures r == "x: 7/4"
  {
    assert t[4..] == "/4";
  }

  /** As written, only the numerator of a fraction is replaced. */
  lemma SubNumberFraction(t: string)
    requires t == "x: 3/4"
    ensures SubNumber("x", ":", "7", t) == "x: 7/4"
  {
    FractionHit(t);
    NameAbsentFrom('x', t, 4);
    assert t[0..] == t;
    SubAssignAt(NumberAssign("x", ":"), "7", t, 0, Hit("x: ", "3", []));
    FractionResult(t, SubNumber("x", ":", "7", t));
  }

  /** The text spliced from the example's hit is the expected result. */
  lemma FractionFirstResult(t: string, r: string)
    requires t == "x: 3/4"
    requires r == t[..0] + ("x: " + "7" + [] + t[6..])
    ensures r == "x: 7"
  {
    assert t[6..] == [];
  }

  /** With the fraction alternative first, the whole fraction is replaced. */
  lemma SubNumberFractionFirstFraction(t: string)
    requires t == "x: 3/4"
    ensures SubNumberFractionFirst("x", ":", "7", t) == "x: 7"
  {
    FractionHit(t);
    assert t[0..] == t;
    SubAssignAt(FractionFirstAssign("x", ":"), "7", t, 0, Hit("x: ", "3/4", []));
    FractionFirstResult(t, SubNumberFractionFirst("x", ":", "7", t));
  }

  /** The pattern tried at the start of the example text matches with the hit given. */
  lemma CommentHit(t: string)
    requires t == "v: a #c\nw"
    ensures Match(TextAssign("v", ":"), t) == Some(Hit("v: ", "a ", "#c"))
  {
    AssignHeadAt(Whitespace, "v", ":", t, 1, 3);
    SkipAt(ValueChar, t, 3, 5);
    SkipAt(LineChar, t, 6, 7);
    assert TextHit(t, 3) == Hit(t[..3], t[3..5], t[5..7]);
    assert t[..3] == "v: " && t[3..5] == "a " && t[5..7] == "#c";
  }

  /** The text spliced from the example's hit is the expected result. */
  lemma CommentResult(t: string, r: string)
    requires t == "v: a #c\nw"
    requires r == t[..0] + ("v: " + ("b" + "  ") + "#c" + t[7..])
    ensures r == "v: b  #c\nw"
  {
    assert t[7..] == "\nw";
  }

  /** The string value up to the comment is replaced, followed by two spaces; the comment and later lines stay. */
  lemma SubTextComment(t: string)
    requires t == "v: a #c\nw"
    ensures SubText("v", ":", "b", t) == "v: b  #c\nw"
  {
    CommentHit(t);
    NameAbsentFrom('v', t, 7);
    assert t[0..] == t;
    SubAssignAt(TextAssign("v", ":"), "b" + "  ", t, 0, Hit("v: ", "a ", "#c"));
    CommentResult(t, SubText("v", ":", "b", t));
  }

  /** The pattern tried at the start of the example text matches with the hit given. */
  lemma NextLineHit(t: string)
    requires t == "v:\nw: 1"
    ensures Match(TextAssign("v", ":"), t) == Some(Hit("v:\n", "w: 1", []))
  {
    AssignHeadAt(Whitespace, "v", ":", t, 1, 3);
    SkipAt(ValueChar, t, 3, 7);
    assert TextHit(t, 3) == Hit(t[..3], t[3..7], t[7..7]);
    assert t[..3] == "v:\n" && t[3..7] == "w: 1";
  }

  /** The text spliced from the example's hit is the expected result. */
  lemma NextLineResult(t: string, r: string)
    requires t == "v:\nw: 1"
    requires r == t[..0] + ("v:\n" + ("b" + "  ") + [] + t[7..])
    ensures r == "v:\nb  "
  {
    assert t[7..] == [];
  }

  /**
   * As written, an assignment with nothing after the operator takes the
   * next line as its value: the `\s*` after the operator crosses the newline.
   */
  lemma SubTextNextLine(t: string)
    requires t == "v:\nw: 1"
    ensures SubText("v", ":", "b", t) == "v:\nb  "
  {
    NextLineHit(t);
    NameAbsentFrom('v', t, 1);
    assert t[0..] == t;
    SubAssignAt(TextAssign("v", ":"), "b" + "  ", t, 0, Hit("v:\n", "w: 1", []));
    NextLineResult(t, SubText("v", ":", "b", t));
  }

  /** The pattern tried at the start of the example text matches with the hit given. */
  lemma InlineNextLineHit(t: string)
    requires t == "v:\nw: 1"
    ensures Match(InlineTextAssign("v", ":"), t) == Some(Hit("v:", [], []))
  {
    AssignHeadAt(InlineSpace, "v", ":", t, 1, 2);
    SkipAt(ValueChar, t, 2, 2);
    assert TextHit(t, 2) == Hit(t[..2], t[2..2], t[2..2]);
    assert t[..2] == "v:";
  }

  /** The text spliced from the example's hit is the expected result. */
  lemma InlineNextLineResult(t: string, r: string)
    requires t == "v:\nw: 1"
    requires r == t[..0] + ("v:" + ("b" + "  ") + [] + t[2..])
    ensures r == "v:b  \nw: 1"
  {
    assert t[2..] == "\nw: 1";
  }

  /** With horizontal whitespace only, the same text keeps its second line. */
  lemma SubInlineTextNextLine(t: string)
    requires t == "v:\nw: 1"
    ensures SubInlineText("v", ":", "b", t) == "v:b  \nw: 1"
  {
    InlineNextLineHit(t);
    NameAbsentFrom('v', t, 1);
    assert t[0..] == t;
    SubAssignAt(InlineTextAssign("v", ":"), "b" + "  ", t, 0, Hit("v:", [], []));
    InlineNextLineResult(t, SubInlineText("v", ":", "b", t));
  }

  /** The pattern tried at the start of the example text matches with the hit given. */
  lemma NumberNextLineHit(t: string)
    requires t == "x:\nabc"
    ensures Match(NumberAssign("x", ":"), t) == Some(Hit("x:\n", [], []))
  {
    AssignHeadAt(Whitespace, "x", ":", t, 1, 3);
    SkipAt(Digit, t, 3, 3);
    assert NumeralEnd(t, 3) == 3;
    NumberHitSpec(t, 3, 3);
    assert t[..3] == "x:\n";
  }

  /** The text spliced from the example's hit is the expected result. */
  lemma NumberNextLineResult(t: string, r: string)
    requires t == "x:\nabc"
    requires r == t[..0] + ("x:\n" + "7" + [] + t[3..])
    ensures r == "x:\n7abc"
  {
    assert t[3..] == "abc";
  }

  /** The number substitution crosses the newline too, and writes the value into the next line. */
  lemma SubNumberNextLine(t: string)
    requires t == "x:\nabc"
    ensures SubNumber("x", ":", "7", t) == "x:\n7abc"
  {
    NumberNextLineHit(t);
    NameAbsentFrom('x', t, 1);
    assert t[0..] == t;
    SubAssignAt(NumberAssign("x", ":"), "7", t, 0, Hit("x:\n", [], []));
    NumberNextLineResult(t, SubNumber("x", ":", "7", t));
  }

  lemma HouseholdShape(t: string)
    requires t == "Household_2024-05-06_1.csv"
    ensures StampShape(t, 9, 17, 20, 22)
    ensures forall i :: 0 <= i < |t| ==> t[i] != '\n'
  {
  }

  /** The text spliced from the example's hit is the expected result. */
  lemma HouseholdResult(t: string, r: string)
    requires t == "Household_2024-05-06_1.csv"
    requires r == t[..9] + ".csv"
    ensures r == "Household.csv"
  {
    assert t[..9] == "Household";
  }

  /** A VisionEval output name loses its timestamp. */
  lemma StripHousehold(t: string)
    requires t == "Household_2024-05-06_1.csv"
    ensures Stamped(t) && StripTimestamp(t) == "Household.csv"
  {
    HouseholdShape(t);
    StripTimestampShape(t, 9, 17, 20, 22);
    HouseholdResult(t, StripTimestamp(t));
  }
}
