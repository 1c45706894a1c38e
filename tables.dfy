/**
 * The blend of two scenario tables in `_manipulate_by_mixture`: every float
 * column of the first table, and every int column, except the columns named
 * in `no_mix_cols`, becomes the first times 1 - w plus the second times w; the blended int
 * columns are rounded half to even and stay int; all other columns are kept
 * from the first table.
 */
module Tables {
  import opened Outcomes

  /** A float cell: a number, or NaN, as `pd.read_csv` reads an empty cell. */
  datatype Num = Real(r: real) | NaN

  /** A column's cells, by dtype: float, int, or anything else. */
  datatype Cells = Floats(xs: seq<Num>) | Ints(ns: seq<int>) | Others(vs: seq<string>)

  datatype Column = Column(name: string, cells: Cells)

  type Table = seq<Column>

  function Rows(c: Cells): nat {
    match c
    case Floats(xs) => |xs|
    case Ints(ns) => |ns|
    case Others(vs) => |vs|
  }

  /** `no_mix_cols`. */
  const NoMix: set<string> := {"Year", "Geo"}

  /** The two column groups blended one after the other: `select_dtypes('float')`, then `select_dtypes('int')`. */
  datatype Group = FloatGroup | IntGroup

  predicate InGroup(c: Column, g: Group) {
    c.name !in NoMix && (if g == FloatGroup then c.cells.Floats? else c.cells.Ints?)
  }

  /** The column is blended. */
  predicate Mixed(c: Column) {
    InGroup(c, FloatGroup) || InGroup(c, IntGroup)
  }

  /** The position of the first column called name, or |t| when there is none. */
  function Find(t: Table, name: string): (i: nat)
    ensures i <= |t|
    ensures i < |t| ==> t[i].name == name
    ensures forall j :: 0 <= j < i ==> t[j].name != name
  {
    if t == [] then 0
    else if t[0].name == name then 0
    else 1 + Find(t[1..], name)
  }

  /** The cells as numbers; text cells have none. */
  function Numbers(c: Cells): (r: seq<Num>)
    ensures !c.Others? ==> |r| == Rows(c)
  {
    match c
    case Floats(xs) => xs
    case Ints(ns) => seq(|ns|, i requires 0 <= i < |ns| => Real(ns[i] as real))
    case Others(_) => []
  }

  predicate AllReal(xs: seq<Num>) {
    forall k :: 0 <= k < |xs| ==> xs[k].Real?
  }

  /** One cell of the blend: the first value weighted by 1 - w, the second by w. */
  function Blend(a: real, b: real, w: real): real {
    a * (1.0 - w) + b * w
  }

  /** The blend is the first value at weight 0, the second at weight 1, and lies between them in between. */
  lemma BlendSpec(a: real, b: real, w: real)
    ensures w == 0.0 ==> Blend(a, b, w) == a
    ensures w == 1.0 ==> Blend(a, b, w) == b
    ensures 0.0 <= w <= 1.0 && a <= b ==> a <= Blend(a, b, w) <= b
    ensures 0.0 <= w <= 1.0 && b <= a ==> b <= Blend(a, b, w) <= a
  {
    var d, e := b - a, 1.0 - w;
    assert Blend(a, b, w) == a + d * w == b - d * e;
    if 0.0 <= w <= 1.0 {
      if a <= b {
        Scale(d, w);
      } else {
        Scale(-d, e);
      }
    }
  }

  lemma Scale(c: real, w: real)
    requires 0.0 <= c && 0.0 <= w <= 1.0
    ensures 0.0 <= c * w <= c
  {
    assert c - c * w == c * (1.0 - w);
  }

  /** A cell of the blend: NaN when either cell is NaN. */
  function BlendCell(a: Num, b: Num, w: real): Num {
    if a.Real? && b.Real? then Real(Blend(a.r, b.r, w)) else NaN
  }

  /**
   * `df1_cols * weight_1 + df2_cols * weight_2` as it lands in the first
   * table: rows pair up by position, a row the second table lacks is NaN,
   * and rows only the second table has are dropped when the blend is
   * assigned back.
   */
  function Blended(xs: seq<Num>, ys: seq<Num>, w: real): (r: seq<Num>)
    ensures |r| == |xs|
  {
    seq(|xs|, i requires 0 <= i < |xs| => if i < |ys| then BlendCell(xs[i], ys[i], w) else NaN)
  }

  /** `np.round` to an integer: the nearest integer, ties to the even one. */
  function RoundHalfEven(x: real): (n: int)
    ensures -0.5 <= n as real - x <= 0.5
    ensures (n as real - x == 0.5 || x - n as real == 0.5) ==> n % 2 == 0
  {
    var f := x.Floor;
    var d := x - f as real;
    if d < 0.5 then f
    else if d > 0.5 then f + 1
    else if f % 2 == 0 then f
    else f + 1
  }

  /** Only one integer lies within a half of x and is even at a tie, so the rounding is that one. */
  lemma RoundHalfEvenUnique(x: real, n: int)
    requires -0.5 <= n as real - x <= 0.5
    requires (n as real - x == 0.5 || x - n as real == 0.5) ==> n % 2 == 0
    ensures RoundHalfEven(x) == n
  {
  }

  /** A whole number rounds to itself. */
  lemma RoundWhole(n: int)
    ensures RoundHalfEven(n as real) == n
  {
    RoundHalfEvenUnique(n as real, n);
  }

  /** `np.round(...).astype(int)` of cells that are all numbers. */
  function Rounded(xs: seq<Num>): (r: seq<int>)
    requires AllReal(xs)
    ensures |r| == |xs|
  {
    seq(|xs|, i requires 0 <= i < |xs| => RoundHalfEven(xs[i].r))
  }

  /**
   * Cells c can be blended with their counterpart d: d is numeric, and
   * for an int column it has as many rows and no NaN, because `astype(int)`
   * refuses NaN and a row that only one of the tables has blends to NaN.
   * A float column blends with a counterpart of any length.
   */
  predicate Fits(c: Cells, d: Cells) {
    && !c.Others? && !d.Others?
    && (c.Ints? ==> Rows(d) == Rows(c) && AllReal(Numbers(d)))
  }

  /** The column can be blended with the same-named column of t2, which exists. */
  predicate Ready(c: Column, t2: Table) {
    var j := Find(t2, c.name);
    j < |t2| && Fits(c.cells, t2[j].cells)
  }

  /** The blend of one column with its counterpart d. */
  function MixColumn(c: Column, d: Column, w: real): (r: Column)
    requires Fits(c.cells, d.cells)
    ensures r.name == c.name && Rows(r.cells) == Rows(c.cells)
    ensures r.cells.Floats? == c.cells.Floats? && r.cells.Ints? == c.cells.Ints?
  {
    match c.cells
    case Floats(xs) => Column(c.name, Floats(Blended(xs, Numbers(d.cells), w)))
    case Ints(_) => Column(c.name, Ints(Rounded(Blended(Numbers(c.cells), Numbers(d.cells), w))))
  }

  /** The first table with the columns of group g assigned their blends, the others as they were. */
  function MixColumns(t1: Table, t2: Table, w: real, g: Group): (r: Table)
    ensures |r| == |t1|
  {
    seq(|t1|, i requires 0 <= i < |t1| =>
      if InGroup(t1[i], g) && Ready(t1[i], t2) then MixColumn(t1[i], t2[Find(t2, t1[i].name)], w) else t1[i])
  }

  /** The position of the first column for which p holds, or |t| when there is none. */
  function FirstWhere(t: Table, p: Column -> bool): (i: nat)
    ensures i <= |t|
    ensures i < |t| ==> p(t[i])
    ensures forall j :: 0 <= j < i ==> !p(t[j])
  {
    if t == [] then 0
    else if p(t[0]) then 0
    else 1 + FirstWhere(t[1..], p)
  }

  /**
   * The exception blending group g raises, if any: `df2[cols]` raises a
   * KeyError for a column df2 lacks, the arithmetic a TypeError for a text
   * column, and `astype(int)` a ValueError for an int blend holding NaN.
   */
  function GroupError(t1: Table, t2: Table, g: Group): (r: Option<Error>)
    ensures r.None? <==> forall i :: 0 <= i < |t1| && InGroup(t1[i], g) ==> Ready(t1[i], t2)
    ensures r.Some? && r.value.ValueError? ==> g == IntGroup
  {
    var missing := FirstWhere(t1, c => InGroup(c, g) && Find(t2, c.name) == |t2|);
    var text := FirstWhere(t1, c => InGroup(c, g) && Find(t2, c.name) < |t2| && t2[Find(t2, c.name)].cells.Others?);
    var nan := FirstWhere(t1, c => InGroup(c, g) && !Ready(c, t2));
    if missing < |t1| then Some(KeyError(t1[missing].name))
    else if text < |t1| then Some(TypeError(t1[text].name))
    else if nan < |t1| then Some(ValueError(t1[nan].name))
    else None
  }

  function MixGroup(t1: Table, t2: Table, w: real, g: Group): Result<Table> {
    match GroupError(t1, t2, g)
    case Some(e) => Err(e)
    case None => Ok(MixColumns(t1, t2, w, g))
  }

  /** `df1` after the float group and then the int group have been blended. */
  function MixTable(t1: Table, t2: Table, w: real): Result<Table> {
    match MixGroup(t1, t2, w, FloatGroup)
    case Err(e) => Err(e)
    case Ok(t) => MixGroup(t, t2, w, IntGroup)
  }

  /** Blending the float group leaves every column's name, dtype and length, and the int columns themselves. */
  lemma FloatMixKeeps(t1: Table, t2: Table, w: real)
    ensures var t := MixColumns(t1, t2, w, FloatGroup);
      forall i :: 0 <= i < |t1| ==>
        && t[i].name == t1[i].name && Rows(t[i].cells) == Rows(t1[i].cells)
        && t[i].cells.Floats? == t1[i].cells.Floats? && t[i].cells.Ints? == t1[i].cells.Ints?
        && (!InGroup(t1[i], FloatGroup) ==> t[i] == t1[i])
  {
  }

  /**
   * The blend succeeds exactly when every blended column has a numeric
   * counterpart, which for an int column has as many rows and no NaN.
   */
  lemma MixTableOk(t1: Table, t2: Table, w: real)
    ensures MixTable(t1, t2, w).Ok? <==> forall i :: 0 <= i < |t1| && Mixed(t1[i]) ==> Ready(t1[i], t2)
  {
    var t := MixColumns(t1, t2, w, FloatGroup);
    FloatMixKeeps(t1, t2, w);
    if GroupError(t1, t2, FloatGroup).None? {
      assert forall i :: 0 <= i < |t1| && InGroup(t1[i], IntGroup) ==> t[i] == t1[i];
    }
  }

  /** The blended table has the first table's columns, in its order, with their dtypes and lengths. */
  lemma MixTableLayout(t1: Table, t2: Table, w: real)
    requires MixTable(t1, t2, w).Ok?
    ensures var r := MixTable(t1, t2, w).value;
      && |r| == |t1|
      && forall i :: 0 <= i < |t1| ==>
        && r[i].name == t1[i].name && Rows(r[i].cells) == Rows(t1[i].cells)
        && r[i].cells.Floats? == t1[i].cells.Floats? && r[i].cells.Ints? == t1[i].cells.Ints?
  {
    FloatMixKeeps(t1, t2, w);
  }

  /** `Year`, `Geo` and the columns that are neither float nor int are copied from the first table. */
  lemma MixTablePassThrough(t1: Table, t2: Table, w: real, i: nat)
    requires MixTable(t1, t2, w).Ok? && i < |t1| && !Mixed(t1[i])
    ensures MixTable(t1, t2, w).value[i] == t1[i]
  {
    FloatMixKeeps(t1, t2, w);
  }

  /** A blended column of the result is its column blended with the same-named column of the second table. */
  lemma MixTableColumn(t1: Table, t2: Table, w: real, i: nat)
    requires MixTable(t1, t2, w).Ok? && i < |t1| && Mixed(t1[i])
    ensures Ready(t1[i], t2)
    ensures MixTable(t1, t2, w).value[i] == MixColumn(t1[i], t2[Find(t2, t1[i].name)], w)
  {
    MixTableOk(t1, t2, w);
    FloatMixKeeps(t1, t2, w);
  }

  /** The counterpart d holds a number for every row of c. */
  predicate Covers(c: Cells, d: Cells) {
    Rows(c) <= |Numbers(d)| && forall k :: 0 <= k < Rows(c) ==> Numbers(d)[k].Real?
  }

  /** Every blended column of t1 that t2 has is covered by its counterpart. */
  predicate Complete(t1: Table, t2: Table) {
    forall i :: 0 <= i < |t1| && Mixed(t1[i]) && Find(t2, t1[i].name) < |t2| ==>
      Covers(t1[i].cells, t2[Find(t2, t1[i].name)].cells)
  }

  /** At weight 0 a column blends to itself when its counterpart covers it. */
  lemma MixColumnAtZero(c: Column, d: Column)
    requires Fits(c.cells, d.cells) && Covers(c.cells, d.cells)
    ensures MixColumn(c, d, 0.0) == c
  {
    var xs, ys := Numbers(c.cells), Numbers(d.cells);
    forall k | 0 <= k < |xs|
      ensures Blended(xs, ys, 0.0)[k] == xs[k]
    {
      if xs[k].Real? {
        BlendSpec(xs[k].r, ys[k].r, 0.0);
      }
    }
    if c.cells.Ints? {
      forall k | 0 <= k < |xs|
        ensures Rounded(Blended(xs, ys, 0.0))[k] == c.cells.ns[k]
      {
        RoundWhole(c.cells.ns[k]);
      }
    }
  }

  /** At weight 0 the blend gives back the first table when the second covers it. */
  lemma MixTableAtZero(t1: Table, t2: Table)
    requires MixTable(t1, t2, 0.0).Ok? && Complete(t1, t2)
    ensures MixTable(t1, t2, 0.0).value == t1
  {
    var r := MixTable(t1, t2, 0.0).value;
    MixTableLayout(t1, t2, 0.0);
    forall i | 0 <= i < |t1|
      ensures r[i] == t1[i]
    {
      if Mixed(t1[i]) {
        MixTableColumn(t1, t2, 0.0, i);
        MixColumnAtZero(t1[i], t2[Find(t2, t1[i].name)]);
      } else {
        MixTablePassThrough(t1, t2, 0.0, i);
      }
    }
  }

  /**
   * A blended float cell is NaN exactly when the first table's cell is,
   * or the second table's column is NaN in that row or has no such row:
   * a second table shorter than the first leaves NaN in the rows it lacks.
   */
  lemma MixTableNaN(t1: Table, t2: Table, w: real, i: nat, k: nat)
    requires MixTable(t1, t2, w).Ok? && i < |t1| && InGroup(t1[i], FloatGroup) && k < Rows(t1[i].cells)
    ensures Ready(t1[i], t2)
    ensures var ys := Numbers(t2[Find(t2, t1[i].name)].cells);
      MixTable(t1, t2, w).value[i].cells.xs[k].NaN? <==> (t1[i].cells.xs[k].NaN? || k >= |ys| || ys[k].NaN?)
  {
    MixTableColumn(t1, t2, w, i);
  }

  /** An int column whose counterpart has another number of rows makes the blend fail. */
  lemma MixTableIntRows(t1: Table, t2: Table, w: real, i: nat)
    requires i < |t1| && InGroup(t1[i], IntGroup) && Find(t2, t1[i].name) < |t2|
    requires Rows(t2[Find(t2, t1[i].name)].cells) != Rows(t1[i].cells)
    ensures MixTable(t1, t2, w).Err?
  {
    MixTableOk(t1, t2, w);
  }

  /** At weight 1 a column takes its counterpart's numbers, rounded for an int column. */
  lemma MixColumnAtOne(c: Column, d: Column)
    requires Fits(c.cells, d.cells)
    ensures c.cells.Floats? ==> forall k :: 0 <= k < Rows(c.cells) && k < Rows(d.cells) && c.cells.xs[k].Real? ==>
      MixColumn(c, d, 1.0).cells.xs[k] == Numbers(d.cells)[k]
    ensures c.cells.Ints? ==> MixColumn(c, d, 1.0).cells.ns == Rounded(Numbers(d.cells))
  {
    var xs, ys := Numbers(c.cells), Numbers(d.cells);
    forall k | 0 <= k < |xs| && k < |ys| && xs[k].Real?
      ensures Blended(xs, ys, 1.0)[k] == ys[k]
    {
      if ys[k].Real? {
        BlendSpec(xs[k].r, ys[k].r, 1.0);
      }
    }
  }

  /**
   * At weight 1 every blended column holds the second table's values: in a
   * float column in each row both tables have a number for, rounded in an
   * int column, so an int column of the second table comes through unchanged.
   */
  lemma MixTableAtOne(t1: Table, t2: Table, i: nat)
    requires MixTable(t1, t2, 1.0).Ok? && i < |t1| && Mixed(t1[i])
    ensures Ready(t1[i], t2)
    ensures var d := t2[Find(t2, t1[i].name)].cells;
      var r := MixTable(t1, t2, 1.0).value[i].cells;
      && (t1[i].cells.Floats? ==> forall k :: 0 <= k < Rows(t1[i].cells) && k < Rows(d) && t1[i].cells.xs[k].Real? ==>
            r.xs[k] == Numbers(d)[k])
      && (t1[i].cells.Ints? ==> r == Ints(Rounded(Numbers(d))))
      && (t1[i].cells.Ints? && d.Ints? ==> r == d)
  {
    MixTableColumn(t1, t2, 1.0, i);
    var d := t2[Find(t2, t1[i].name)];
    MixColumnAtOne(t1[i], d);
    if t1[i].cells.Ints? && d.cells.Ints? {
      forall k | 0 <= k < |d.cells.ns|
        ensures Rounded(Numbers(d.cells))[k] == d.cells.ns[k]
      {
        RoundWhole(d.cells.ns[k]);
      }
    }
  }

  /** For a weight in [0, 1] a blended float cell of two numbers lies between them. */
  lemma MixTableBetween(t1: Table, t2: Table, w: real, i: nat, k: nat)
    requires MixTable(t1, t2, w).Ok? && 0.0 <= w <= 1.0
    requires i < |t1| && InGroup(t1[i], FloatGroup) && k < Rows(t1[i].cells)
    ensures Ready(t1[i], t2)
    ensures var a := t1[i].cells.xs[k];
      var ys := Numbers(t2[Find(t2, t1[i].name)].cells);
      var x := MixTable(t1, t2, w).value[i].cells.xs[k];
      a.Real? && k < |ys| && ys[k].Real? ==>
        && x.Real?
        && (a.r <= ys[k].r ==> a.r <= x.r <= ys[k].r)
        && (ys[k].r <= a.r ==> ys[k].r <= x.r <= a.r)
  {
    MixTableColumn(t1, t2, w, i);
    var a := t1[i].cells.xs[k];
    var ys := Numbers(t2[Find(t2, t1[i].name)].cells);
    if a.Real? && k < |ys| && ys[k].Real? {
      BlendSpec(a.r, ys[k].r, w);
    }
  }

  /**
   * A float column the second table lacks makes the blend fail with a
   * KeyError, whatever else is wrong: `df2[float_mix_cols]` is the first
   * thing evaluated.
   */
  lemma MixTableMissingFloat(t1: Table, t2: Table, w: real, i: nat)
    requires i < |t1| && InGroup(t1[i], FloatGroup) && Find(t2, t1[i].name) == |t2|
    ensures MixTable(t1, t2, w).Err? && MixTable(t1, t2, w).error.KeyError?
  {
    var missing := FirstWhere(t1, c => InGroup(c, FloatGroup) && Find(t2, c.name) == |t2|);
    assert missing <= i;
  }
}
