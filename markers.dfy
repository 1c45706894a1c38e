/**
 * The template steps of `setup` (`_manipulate_income`, `_manipulate_bikes`,
 * `_manipulate_transit`, `_manipulate_fuel_cost`): values computed from the
 * parameters replace the `__EMAT_PROVIDES_<name>__` markers of a template,
 * one name after another.
 */
module Markers {
  import opened Chars
  import opened Patterns
  import opened Replacement
  import opened Outcomes
  import opened Params

  /** The marker of a name: the name between `__EMAT_PROVIDES_` and `__`. */
  function Token(name: string): (tok: string)
    ensures tok != []
  {
    "__EMAT_PROVIDES_" + name + "__"
  }

  /** Different names have different markers. */
  lemma TokenInjective(a: string, b: string)
    requires Token(a) == Token(b)
    ensures a == b
  {
    assert a == Token(a)[16..|Token(a)| - 2];
    assert b == Token(b)[16..|Token(b)| - 2];
  }

  /** A marker name and the text that replaces its marker. */
  type Marker = (string, string)

  /** The template after each marker in turn has had all its occurrences replaced by its value. */
  function FillMarkers(y: string, ms: seq<Marker>): string
    decreases |ms|
  {
    if ms == [] then y
    else
      var (name, value) := ms[|ms| - 1];
      ReplaceAll(FillMarkers(y, ms[..|ms| - 1]), Token(name), value)
  }

  /** The replacement loop itself. */
  method ApplyMarkers(template: string, ms: seq<Marker>) returns (y: string)
    ensures y == FillMarkers(template, ms)
  {
    y := template;
    for i := 0 to |ms|
      invariant y == FillMarkers(template, ms[..i])
    {
      assert ms[..i + 1][..i] == ms[..i];
      var (name, value) := ms[i];
      y := ReplaceAll(y, Token(name), value);
    }
    assert ms[..|ms|] == ms;
  }

  /** None of the markers occurs in y. */
  predicate NoMarkers(y: string, ms: seq<Marker>) {
    forall k, i :: 0 <= k < |ms| && 0 <= i < |y| ==> !LiteralAt(Token(ms[k].0), y, i)
  }

  /** A template without markers comes out as it went in. */
  lemma {:induction false} FillMarkersAbsent(y: string, ms: seq<Marker>)
    requires NoMarkers(y, ms)
    ensures FillMarkers(y, ms) == y
    decreases |ms|
  {
    if ms != [] {
      var init := ms[..|ms| - 1];
      assert NoMarkers(y, init) by {
        forall k | 0 <= k < |init| ensures init[k] == ms[k] { }
      }
      FillMarkersAbsent(y, init);
      ReplaceAllAbsent(y, Token(ms[|ms| - 1].0), ms[|ms| - 1].1);
    }
  }

  /** A later marker is replaced in the text the earlier ones left. */
  lemma FillMarkersSnoc(y: string, ms: seq<Marker>, name: string, value: string)
    ensures FillMarkers(y, ms + [(name, value)]) == ReplaceAll(FillMarkers(y, ms), Token(name), value)
  {
    assert (ms + [(name, value)])[..|ms|] == ms;
  }

  /** The marker occurs in y at n and nowhere else. */
  predicate OnlyAt(tok: string, y: string, n: nat) {
    LiteralAt(tok, y, n) && forall i :: 0 <= i < |y| && i != n ==> !LiteralAt(tok, y, i)
  }

  /** A character that appears in written numbers: a digit, a point or a minus sign. */
  predicate NumberChar(c: char) {
    IsDigit(c) || c == '.' || c == '-'
  }

  /** Text as a number is written: not empty, and nothing but number characters. */
  predicate NumericText(v: string) {
    v != [] && forall c :: c in v ==> NumberChar(c)
  }

  /** Text without number characters, such as the marker name `GQIncomePC`. */
  predicate Wordlike(name: string) {
    forall c :: c in name ==> !NumberChar(c)
  }

  /** The marker of a word-like name holds no number character. */
  lemma TokenWordlike(name: string)
    requires Wordlike(name)
    ensures Wordlike(Token(name))
  {
    var tok := Token(name);
    forall c | c in tok
      ensures !NumberChar(c)
    {
      var m :| 0 <= m < |tok| && tok[m] == c;
      if 16 <= m < 16 + |name| {
        assert tok[m] == name[m - 16];
      }
    }
  }

  /** A marker that occurs only at n is replaced there and nothing else changes. */
  lemma FillOne(y: string, name: string, value: string, n: nat)
    requires OnlyAt(Token(name), y, n)
    ensures FillMarkers(y, [(name, value)]) == y[..n] + (value + y[n + |Token(name)|..])
  {
    assert [(name, value)][..0] == [];
    ReplaceOnly(y, Token(name), value, n);
  }

  /**
   * Two markers that occur once each, the first before the second, are
   * each replaced by their value where they stood, when the first value is
   * a written number and cannot form part of the second marker.
   */
  lemma FillTwo(y: string, n1: string, v1: string, n2: string, v2: string, p: nat, q: nat)
    requires OnlyAt(Token(n1), y, p) && OnlyAt(Token(n2), y, q) && p + |Token(n1)| <= q
    requires NumericText(v1) && Wordlike(n2)
    ensures FillMarkers(y, [(n1, v1), (n2, v2)])
      == y[..p] + v1 + y[p + |Token(n1)|..q] + v2 + y[q + |Token(n2)|..]
  {
    FillMarkersSnoc(y, [(n1, v1)], n2, v2);
    assert [(n1, v1)][..0] == [];
    TokenWordlike(n2);
    ReplaceTwo(y, Token(n1), v1, Token(n2), v2, p, q);
  }

  /** The same for any two tokens, the second without number characters. */
  lemma ReplaceTwo(y: string, t1: string, v1: string, t2: string, v2: string, p: nat, q: nat)
    requires t1 != [] && t2 != []
    requires OnlyAt(t1, y, p) && OnlyAt(t2, y, q) && p + |t1| <= q
    requires NumericText(v1) && Wordlike(t2)
    ensures ReplaceAll(ReplaceAll(y, t1, v1), t2, v2) == y[..p] + v1 + y[p + |t1|..q] + v2 + y[q + |t2|..]
  {
    ReplaceOnly(y, t1, v1, p);
    ReplaceAfterSplice(y, p, |t1|, v1, t2, v2, q);
  }

  /**
   * A token that occurs only at q, after the stretch [p, p + l) of y, is
   * replaced at its shifted place once a number v1 has replaced that stretch.
   */
  lemma ReplaceAfterSplice(y: string, p: nat, l: nat, v1: string, t: string, v2: string, q: nat)
    requires p + l <= q && OnlyAt(t, y, q) && t != [] && NumericText(v1) && Wordlike(t)
    ensures ReplaceAll(y[..p] + (v1 + y[p + l..]), t, v2) == y[..p] + v1 + y[p + l..q] + v2 + y[q + |t|..]
  {
    OnlyAtAfterSplice(y, p, l, v1, t, q);
    ReplaceOnly(y[..p] + (v1 + y[p + l..]), t, v2, q - l + |v1|);
    SpliceTwo(y, p, l, v1, q, |t|, v2);
  }

  /** A token that occurs only at n is replaced there. */
  lemma ReplaceOnly(y: string, t: string, v: string, n: nat)
    requires t != [] && OnlyAt(t, y, n)
    ensures ReplaceAll(y, t, v) == y[..n] + (v + y[n + |t|..])
  {
    ReplaceAllOnce(y, t, v, n);
  }

  /** The second splice in terms of the template's own stretches. */
  lemma SpliceTwo(y: string, p: nat, l1: nat, v1: string, q: nat, l2: nat, v2: string)
    requires p + l1 <= q && q + l2 <= |y|
    ensures (y[..p] + (v1 + y[p + l1..]))[..q - l1 + |v1|] + (v2 + (y[..p] + (v1 + y[p + l1..]))[q - l1 + |v1| + l2..])
      == y[..p] + v1 + y[p + l1..q] + v2 + y[q + l2..]
  {
    var y1 := y[..p] + (v1 + y[p + l1..]);
    var q1 := q - l1 + |v1|;
    assert y1[..q1] == y[..p] + v1 + y[p + l1..q];
    assert y1[q1 + l2..] == y[q + l2..];
  }

  /**
   * A marker t that occurs only at q, after the stretch [p, p + l) of y,
   * occurs only at its shifted place once a number v sharing no character
   * with it has replaced that stretch.
   */
  lemma OnlyAtAfterSplice(y: string, p: nat, l: nat, v: string, t: string, q: nat)
    requires p + l <= q && OnlyAt(t, y, q) && t != [] && NumericText(v) && Wordlike(t)
    ensures OnlyAt(t, y[..p] + (v + y[p + l..]), q - l + |v|)
  {
    var y1 := y[..p] + (v + y[p + l..]);
    var q1 := q - l + |v|;
    SpliceAfter(y, p, l, v, q, |t|);
    forall i | 0 <= i < |y1| && i != q1
      ensures !LiteralAt(t, y1, i)
    {
      if i + |t| > |y1| {
      } else if i + |t| <= p {
        SpliceBefore(y, p, l, v, i, |t|);
        assert !LiteralAt(t, y, i);
      } else if i < p + |v| {
        SpliceInside(y, p, l, v, t, i);
      } else {
        SpliceAfter(y, p, l, v, i - |v| + l, |t|);
        assert !LiteralAt(t, y, i - |v| + l);
      }
    }
  }

  /** A window of the spliced text before the splice is the same window of y. */
  lemma SpliceBefore(y: string, p: nat, l: nat, v: string, i: nat, w: nat)
    requires p + l <= |y| && i + w <= p
    ensures (y[..p] + (v + y[p + l..]))[i..i + w] == y[i..i + w]
  {
  }

  /** A window of y after the replaced stretch reappears shifted in the spliced text. */
  lemma SpliceAfter(y: string, p: nat, l: nat, v: string, i: nat, w: nat)
    requires p + l <= i && i + w <= |y|
    ensures var i1 := i - l + |v|;
      i1 + w <= |y[..p] + (v + y[p + l..])| && (y[..p] + (v + y[p + l..]))[i1..i1 + w] == y[i..i + w]
  {
    var y1 := y[..p] + (v + y[p + l..]);
    var i1 := i - l + |v|;
    assert forall k :: p + |v| <= k < |y1| ==> y1[k] == y[k - |v| + l];
    assert y1[i1..i1 + w] == y[i..i + w];
  }

  /** A window that overlaps the inserted number cannot spell a marker without number characters. */
  lemma SpliceInside(y: string, p: nat, l: nat, v: string, t: string, i: nat)
    requires p + l <= |y| && t != [] && p < i + |t| && i < p + |v| && NumericText(v) && Wordlike(t)
    ensures !LiteralAt(t, y[..p] + (v + y[p + l..]), i)
  {
    var y1 := y[..p] + (v + y[p + l..]);
    var k := if i < p then p else i;
    if i + |t| <= |y1| {
      assert y1[k] == v[k - p] && v[k - p] in v;
      assert y1[i..i + |t|][k - i] == y1[k];
      assert t[k - i] in t;
    }
  }

  function DigitChar(d: nat): char
    requires d < 10
  {
    (48 + d) as char
  }

  /** The decimal digits of n, without leading zeros. */
  function Digits(n: nat): (s: string)
    ensures s != [] && AllIn(Digit, s)
    ensures s[0] == '0' ==> n == 0
    decreases n
  {
    if n < 10 then [DigitChar(n)] else Digits(n / 10) + [DigitChar(n % 10)]
  }

  /** The number a string of decimal digits denotes. */
  function DigitsValue(s: string): nat
    requires AllIn(Digit, s)
    decreases |s|
  {
    if s == [] then 0
    else
      var init := s[..|s| - 1];
      assert AllIn(Digit, init) by {
        forall i | 0 <= i < |init| ensures init[i] == s[i] { }
      }
      10 * DigitsValue(init) + (s[|s| - 1] as int - 48)
  }

  lemma {:induction false} DigitsValueOf(n: nat)
    ensures DigitsValue(Digits(n)) == n
    decreases n
  {
    if n >= 10 {
      DigitsValueOf(n / 10);
      var s := Digits(n);
      assert s[..|s| - 1] == Digits(n / 10);
    }
  }

  /** `str(i)` for an int. */
  function Str(i: int): (s: string)
    ensures s != []
  {
    if i < 0 then "-" + Digits(-i) else Digits(i)
  }

  /** Reading a decimal integer: an optional minus sign and at least one digit. */
  function ParseInt(s: string): Option<int> {
    if |s| > 1 && s[0] == '-' && AllIn(Digit, s[1..]) then Some(-(DigitsValue(s[1..]) as int))
    else if s != [] && AllIn(Digit, s) then Some(DigitsValue(s))
    else None
  }

  /** The text written for an int reads back as that int. */
  lemma ParseStr(i: int)
    ensures ParseInt(Str(i)) == Some(i)
  {
    if i < 0 {
      DigitsValueOf(-i);
      assert Str(i)[1..] == Digits(-i);
    } else {
      DigitsValueOf(i);
    }
  }

  /** What `str` writes for an int is a written number. */
  lemma StrNumeric(i: int)
    ensures NumericText(Str(i))
  {
    var s := Str(i);
    var d := Digits(if i < 0 then -i else i);
    forall c | c in s
      ensures NumberChar(c)
    {
      var m :| 0 <= m < |s| && s[m] == c;
      if i < 0 && m > 0 {
        assert s[m] == d[m - 1];
      }
    }
  }

  /** `int(x)` for a float: truncation toward zero. */
  function Trunc(x: real): (r: int)
    ensures x >= 0.0 ==> r >= 0 && r as real <= x < r as real + 1.0
    ensures x < 0.0 ==> r <= 0 && r as real - 1.0 < x <= r as real
  {
    if x >= 0.0 then x.Floor else -((-x).Floor)
  }

  /**
   * What a template step gets from the parameters: an exception raised
   * before the template is opened, or the markers' values, one of which may
   * still fail to format once the template is open.
   */
  datatype Prepared = Before(error: Error) | After(markers: Result<seq<Marker>>)

  /**
   * The income markers: `int(Income)` and `int(Income*3/13)`, written with
   * `str`. Text that `int` cannot read raises ValueError; text it can read
   * then fails the arithmetic with a TypeError.
   */
  function IncomeMarkers(params: map<string, Value>): (r: Prepared)
    ensures r.Before? <==> "Income" !in params || !params["Income"].Num?
    ensures r.Before? ==>
      r.error == (if "Income" !in params then KeyError("Income")
                  else if ParseInt(params["Income"].s).Some? then TypeError("Income")
                  else ValueError("Income"))
    ensures r.After? ==>
      var income := params["Income"].x;
      && r.markers.Ok? && |r.markers.value| == 2
      && r.markers.value[0] == ("HHIncomePC", Str(Trunc(income)))
      && r.markers.value[1] == ("GQIncomePC", Str(Trunc(income * 3.0 / 13.0)))
      && ParseInt(r.markers.value[0].1) == Some(Trunc(income))
      && ParseInt(r.markers.value[1].1) == Some(Trunc(income * 3.0 / 13.0))
  {
    if "Income" !in params then Before(KeyError("Income"))
    else match params["Income"]
      case Text(s) => Before(if ParseInt(s).Some? then TypeError("Income") else ValueError("Income"))
      case Num(income) =>
        ParseStr(Trunc(income));
        ParseStr(Trunc(income * 3.0 / 13.0));
        After(Ok([("HHIncomePC", Str(Trunc(income))), ("GQIncomePC", Str(Trunc(income * 3.0 / 13.0)))]))
  }

  /** A number parameter formatted with `:.3f`, which fails on text. */
  function Formatted(params: map<string, Value>, name: string, fmt3: real -> string): Result<string>
    requires name in params
  {
    match params[name]
    case Num(x) => Ok(fmt3(x))
    case Text(_) => Err(ValueError(name))
  }

  /**
   * The bicycle marker: `Bicycles` as it is, formatted on use. The ensures
   * are the interface facts the template step relies on (which exception,
   * and the marker list), not a property of their own.
   */
  function BikeMarkers(params: map<string, Value>, fmt3: real -> string): (r: Prepared)
    ensures r.Before? <==> "Bicycles" !in params
    ensures r.Before? ==> r.error == KeyError("Bicycles")
    ensures r.After? ==>
      && (r.markers.Ok? <==> params["Bicycles"].Num?)
      && (r.markers.Err? ==> r.markers.error == ValueError("Bicycles"))
      && (r.markers.Ok? ==> r.markers.value == [("BikeDiversion", fmt3(params["Bicycles"].x))])
  {
    if "Bicycles" !in params then Before(KeyError("Bicycles"))
    else match Formatted(params, "Bicycles", fmt3)
      case Err(e) => After(Err(e))
      case Ok(v) => After(Ok([("BikeDiversion", v)]))
  }

  /** Revenue miles per unit of `Transit` for demand-responsive service and for buses. */
  const DRRevMiPerTransit: real := 2381994.664
  const MBRevMiPerTransit: real := 3580237.203

  /**
   * The transit markers: `Transit` scaled to demand-responsive and bus
   * revenue miles. The ensures are interface facts for the template step.
   */
  function TransitMarkers(params: map<string, Value>, fmt3: real -> string): (r: Prepared)
    ensures r.Before? <==> "Transit" !in params || !params["Transit"].Num?
    ensures r.Before? ==> r.error == (if "Transit" !in params then KeyError("Transit") else TypeError("Transit"))
    ensures r.After? ==>
      var transit := params["Transit"].x;
      r.markers == Ok([("DRRevMi", fmt3(transit * DRRevMiPerTransit)), ("MBRevMi", fmt3(transit * MBRevMiPerTransit))])
  {
    if "Transit" !in params then Before(KeyError("Transit"))
    else match params["Transit"]
      case Text(_) => Before(TypeError("Transit"))
      case Num(transit) =>
        After(Ok([("DRRevMi", fmt3(transit * DRRevMiPerTransit)), ("MBRevMi", fmt3(transit * MBRevMiPerTransit))]))
  }

  /**
   * The fuel markers: `FuelCost` and `ElectricCost` as they are, formatted
   * on use. The ensures are interface facts for the template step.
   */
  function FuelMarkers(params: map<string, Value>, fmt3: real -> string): (r: Prepared)
    ensures r.Before? <==> "FuelCost" !in params || "ElectricCost" !in params
    ensures r.Before? ==> r.error == KeyError(if "FuelCost" !in params then "FuelCost" else "ElectricCost")
    ensures r.After? ==>
      && (r.markers.Ok? <==> params["FuelCost"].Num? && params["ElectricCost"].Num?)
      && (r.markers.Err? ==> r.markers.error == ValueError(if params["FuelCost"].Num? then "ElectricCost" else "FuelCost"))
      && (r.markers.Ok? ==>
        r.markers.value == [("FuelCost", fmt3(params["FuelCost"].x)), ("ElectricCost", fmt3(params["ElectricCost"].x))])
  {
    if "FuelCost" !in params then Before(KeyError("FuelCost"))
    else if "ElectricCost" !in params then Before(KeyError("ElectricCost"))
    else match (Formatted(params, "FuelCost", fmt3), Formatted(params, "ElectricCost", fmt3))
      case (Err(e), _) => After(Err(e))
      case (Ok(_), Err(e)) => After(Err(e))
      case (Ok(f), Ok(e)) => After(Ok([("FuelCost", f), ("ElectricCost", e)]))
  }
}
