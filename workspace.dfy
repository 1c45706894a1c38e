/**
 * The files the VERSPM core model works on: the read-only `scenario_inputs`
 * tree the setup steps draw from, the model's `inputs` directory they write,
 * and the `output` directory whose file names `run` strips of timestamps.
 * This module holds the specification of each step as a function of the
 * state before it; the `Model` class carries them out.
 */
module Workspace {
  import opened Outcomes
  import opened Params
  import opened Markers
  import opened Tables
  import opened Replacement

  /** An entry of the scenario tree: a file and its text, or a directory and its entries' names in `os.scandir` order. */
  datatype Entry = File(text: string) | Dir(names: seq<string>)

  /** The scenario tree, by the path of each entry below `scenario_inputs`. */
  type Store = map<Path, Entry>

  /** `DirEntry.is_file()`. */
  predicate IsFile(store: Store, p: Path) {
    p in store && store[p].File?
  }

  /** `os.scandir(p)`: the names listed in the directory p. */
  function ListDir(store: Store, p: Path): (r: Result<seq<string>>)
    ensures r.Ok? <==> p in store && store[p].Dir?
    ensures r.Err? ==> r.error == (if p in store then NotADirectory(p) else FileNotFound(p))
  {
    if p !in store then Err(FileNotFound(p))
    else match store[p]
      case File(_) => Err(NotADirectory(p))
      case Dir(names) => Ok(names)
  }

  /** `open(p).read()`. */
  function ReadFile(store: Store, p: Path): (r: Result<string>)
    ensures r.Ok? <==> IsFile(store, p)
    ensures r.Err? ==> r.error == (if p in store then IsADirectory(p) else FileNotFound(p))
  {
    if p !in store then Err(FileNotFound(p))
    else match store[p]
      case Dir(_) => Err(IsADirectory(p))
      case File(text) => Ok(text)
  }

  /** What the model leaves to pandas and to Python's float formatting. */
  datatype Env = Env(fmt3: real -> string, parse: string -> Option<Table>, render: Table -> string)

  // ---------------------------------------------------------------- templates

  /**
   * A template step: read the template, replace its markers, write the
   * result into `inputs`. An exception raised before the template is opened
   * wins over a missing template.
   */
  function TemplateSpec(inputs: map<string, string>, store: Store, template: Path, outName: string, prep: Prepared)
    : (map<string, string>, Outcome)
  {
    match prep
    case Before(e) => (inputs, Failure(e))
    case After(ms) =>
      match ReadFile(store, template)
      case Err(e) => (inputs, Failure(e))
      case Ok(text) =>
        match ms
        case Err(e) => (inputs, Failure(e))
        case Ok(markers) => (inputs[outName := FillMarkers(text, markers)], Success)
  }

  /** The step writes only its output file, and that file is the filled template. */
  lemma TemplateWrites(inputs: map<string, string>, store: Store, template: Path, outName: string, prep: Prepared)
    ensures var (r, o) := TemplateSpec(inputs, store, template, outName, prep);
      && (o.Success? <==> prep.After? && prep.markers.Ok? && IsFile(store, template))
      && (o.Success? ==> r == inputs[outName := FillMarkers(store[template].text, prep.markers.value)])
      && (o.Failure? ==> r == inputs)
  {
  }

  /** A template with one marker, once: the file written is the template with the value in its place. */
  lemma TemplateFillsOne(inputs: map<string, string>, store: Store, template: Path, outName: string,
                         name: string, value: string, n: nat)
    requires IsFile(store, template) && OnlyAt(Token(name), store[template].text, n)
    ensures var y := store[template].text;
      TemplateSpec(inputs, store, template, outName, After(Ok([(name, value)])))
        == (inputs[outName := y[..n] + value + y[n + |Token(name)|..]], Success)
  {
    var y := store[template].text;
    FillOne(y, name, value, n);
    assert y[..n] + (value + y[n + |Token(name)|..]) == y[..n] + value + y[n + |Token(name)|..];
  }

  /**
   * A template with two markers, once each and in order, the first value a
   * written number and the second name without number characters: the file
   * written is the template with each value in its marker's place.
   */
  lemma TemplateFillsTwo(inputs: map<string, string>, store: Store, template: Path, outName: string,
                         n1: string, v1: string, n2: string, v2: string, p: nat, q: nat)
    requires IsFile(store, template)
    requires OnlyAt(Token(n1), store[template].text, p) && OnlyAt(Token(n2), store[template].text, q)
    requires p + |Token(n1)| <= q && NumericText(v1) && Wordlike(n2)
    ensures var y := store[template].text;
      TemplateSpec(inputs, store, template, outName, After(Ok([(n1, v1), (n2, v2)])))
        == (inputs[outName := y[..p] + v1 + y[p + |Token(n1)|..q] + v2 + y[q + |Token(n2)|..]], Success)
  {
    FillTwo(store[template].text, n1, v1, n2, v2, p, q);
  }

  /** `'{:.3f}'.format(x)` writes a number: digits, a point and perhaps a minus sign. */
  ghost predicate WritesNumbers(fmt3: real -> string) {
    forall x :: NumericText(fmt3(x))
  }

  /**
   * The income step on a template holding the household marker once and the
   * group-quarters marker once after it: the written file is the template
   * with `str(int(Income))` and `str(int(Income*3/13))` in their places.
   */
  lemma IncomeStep(inputs: map<string, string>, store: Store, params: map<string, Value>, env: Env, p: nat, q: nat)
    requires "Income" in params && params["Income"].Num?
    requires IsFile(store, ["I", "azone_per_cap_inc.csv.template"])
    requires var y := store[["I", "azone_per_cap_inc.csv.template"]].text;
      OnlyAt(Token("HHIncomePC"), y, p) && OnlyAt(Token("GQIncomePC"), y, q) && p + |Token("HHIncomePC")| <= q
    ensures var y := store[["I", "azone_per_cap_inc.csv.template"]].text;
      var income := params["Income"].x;
      StepSpec(inputs, store, params, SetupSteps[0], env) == (inputs["azone_per_cap_inc.csv" :=
        IncomeFilled(y, p, q, Str(Trunc(income)), Str(Trunc(income * 3.0 / 13.0)))], Success)
  {
    var income := params["Income"].x;
    StrNumeric(Trunc(income));
    assert Wordlike("GQIncomePC");
    TemplateFillsTwo(inputs, store, ["I", "azone_per_cap_inc.csv.template"], "azone_per_cap_inc.csv",
                     "HHIncomePC", Str(Trunc(income)), "GQIncomePC", Str(Trunc(income * 3.0 / 13.0)), p, q);
  }

  /** The income template y with the household value at p and the group-quarters value at q. */
  function IncomeFilled(y: string, p: nat, q: nat, hh: string, gq: string): string
    requires p + |Token("HHIncomePC")| <= q && q + |Token("GQIncomePC")| <= |y|
  {
    y[..p] + hh + y[p + |Token("HHIncomePC")|..q] + gq + y[q + |Token("GQIncomePC")|..]
  }

  /** Each income written into the template reads back as the truncated income it stands for. */
  lemma IncomeReadsBack(y: string, p: nat, q: nat, income: real)
    requires p + |Token("HHIncomePC")| <= q && q + |Token("GQIncomePC")| <= |y|
    ensures var hh, gq := Str(Trunc(income)), Str(Trunc(income * 3.0 / 13.0));
      var out := IncomeFilled(y, p, q, hh, gq);
      var q1 := q - |Token("HHIncomePC")| + |hh|;
      && q1 + |gq| <= |out|
      && ParseInt(out[p..p + |hh|]) == Some(Trunc(income))
      && ParseInt(out[q1..q1 + |gq|]) == Some(Trunc(income * 3.0 / 13.0))
  {
    var hh, gq := Str(Trunc(income)), Str(Trunc(income * 3.0 / 13.0));
    SplicedValues(y[..p], hh, y[p + |Token("HHIncomePC")|..q], gq, y[q + |Token("GQIncomePC")|..]);
    ParseStr(Trunc(income));
    ParseStr(Trunc(income * 3.0 / 13.0));
  }

  /** The values of a text with two values spliced in are where they were put. */
  lemma SplicedValues(a: string, v1: string, b: string, v2: string, c: string)
    ensures (a + v1 + b + v2 + c)[|a|..|a| + |v1|] == v1
    ensures (a + v1 + b + v2 + c)[|a| + |v1| + |b|..|a| + |v1| + |b| + |v2|] == v2
  {
    var out := a + v1 + b + v2 + c;
    assert out[|a|..|a| + |v1|] == v1;
    assert out[|a| + |v1| + |b|..|a| + |v1| + |b| + |v2|] == v2;
  }

  /**
   * The bicycle step on a template holding its marker once: `Bicycles`,
   * formatted, stands in the marker's place.
   */
  lemma BikeStep(inputs: map<string, string>, store: Store, params: map<string, Value>, env: Env, n: nat)
    requires "Bicycles" in params && params["Bicycles"].Num?
    requires IsFile(store, ["B", "azone_prop_sov_dvmt_diverted.csv.template"])
    requires OnlyAt(Token("BikeDiversion"), store[["B", "azone_prop_sov_dvmt_diverted.csv.template"]].text, n)
    ensures var y := store[["B", "azone_prop_sov_dvmt_diverted.csv.template"]].text;
      var out := y[..n] + env.fmt3(params["Bicycles"].x) + y[n + |Token("BikeDiversion")|..];
      StepSpec(inputs, store, params, SetupSteps[1], env) == (inputs["azone_prop_sov_dvmt_diverted.csv" := out], Success)
  {
    TemplateFillsOne(inputs, store, ["B", "azone_prop_sov_dvmt_diverted.csv.template"], "azone_prop_sov_dvmt_diverted.csv",
                     "BikeDiversion", env.fmt3(params["Bicycles"].x), n);
  }

  /**
   * The transit step on a template holding the demand-responsive marker once
   * and the bus marker once after it: `Transit` scaled by each service's
   * revenue miles, formatted, stands in each marker's place.
   */
  lemma TransitStep(inputs: map<string, string>, store: Store, params: map<string, Value>, env: Env, p: nat, q: nat)
    requires "Transit" in params && params["Transit"].Num? && WritesNumbers(env.fmt3)
    requires IsFile(store, ["T", "marea_transit_service.csv.template"])
    requires var y := store[["T", "marea_transit_service.csv.template"]].text;
      OnlyAt(Token("DRRevMi"), y, p) && OnlyAt(Token("MBRevMi"), y, q) && p + |Token("DRRevMi")| <= q
    ensures var y := store[["T", "marea_transit_service.csv.template"]].text;
      var transit := params["Transit"].x;
      var out := y[..p] + env.fmt3(transit * DRRevMiPerTransit) + y[p + |Token("DRRevMi")|..q]
        + env.fmt3(transit * MBRevMiPerTransit) + y[q + |Token("MBRevMi")|..];
      StepSpec(inputs, store, params, SetupSteps[3], env) == (inputs["marea_transit_service.csv" := out], Success)
  {
    var transit := params["Transit"].x;
    assert NumericText(env.fmt3(transit * DRRevMiPerTransit));
    assert Wordlike("MBRevMi");
    TemplateFillsTwo(inputs, store, ["T", "marea_transit_service.csv.template"], "marea_transit_service.csv",
                     "DRRevMi", env.fmt3(transit * DRRevMiPerTransit), "MBRevMi", env.fmt3(transit * MBRevMiPerTransit), p, q);
  }

  /**
   * The fuel step on a template holding the fuel-cost marker once and the
   * electricity-cost marker once after it: each cost, formatted, stands in
   * its marker's place.
   */
  lemma FuelStep(inputs: map<string, string>, store: Store, params: map<string, Value>, env: Env, p: nat, q: nat)
    requires "FuelCost" in params && params["FuelCost"].Num? && WritesNumbers(env.fmt3)
    requires "ElectricCost" in params && params["ElectricCost"].Num?
    requires IsFile(store, ["G", "azone_fuel_power_cost.csv.template"])
    requires var y := store[["G", "azone_fuel_power_cost.csv.template"]].text;
      OnlyAt(Token("FuelCost"), y, p) && OnlyAt(Token("ElectricCost"), y, q) && p + |Token("FuelCost")| <= q
    ensures var y := store[["G", "azone_fuel_power_cost.csv.template"]].text;
      var out := y[..p] + env.fmt3(params["FuelCost"].x) + y[p + |Token("FuelCost")|..q]
        + env.fmt3(params["ElectricCost"].x) + y[q + |Token("ElectricCost")|..];
      StepSpec(inputs, store, params, SetupSteps[4], env) == (inputs["azone_fuel_power_cost.csv" := out], Success)
  {
    assert NumericText(env.fmt3(params["FuelCost"].x));
    assert Wordlike("ElectricCost");
    TemplateFillsTwo(inputs, store, ["G", "azone_fuel_power_cost.csv.template"], "azone_fuel_power_cost.csv",
                     "FuelCost", env.fmt3(params["FuelCost"].x), "ElectricCost", env.fmt3(params["ElectricCost"].x), p, q);
  }

  // ---------------------------------------------------------------- drop-in

  /** The category directories of `_manipulate_land_use`. */
  const LandUseCategories: map<string, string> := map["base" := "1", "growth" := "2"]

  /** The category directories of `_manipulate_vehicle_travel_cost`. */
  const TravelCostCategories: map<string, string> :=
    map["base" := "1", "steady ownership cost" := "2", "pay-per-mile insurance and higher cost" := "3"]

  /** `inputs` after the regular files among names in directory d have been copied in, in order. */
  function CopyFiles(inputs: map<string, string>, store: Store, d: Path, names: seq<string>): map<string, string>
    decreases |names|
  {
    if names == [] then inputs
    else
      var r := CopyFiles(inputs, store, d, names[..|names| - 1]);
      var name := names[|names| - 1];
      if IsFile(store, d + [name]) then r[name := store[d + [name]].text] else r
  }

  /** Every regular file listed is copied in under its own name, replacing what was there. */
  lemma {:induction false} CopyFilesCopied(inputs: map<string, string>, store: Store, d: Path, names: seq<string>, i: nat)
    requires i < |names| && IsFile(store, d + [names[i]])
    ensures names[i] in CopyFiles(inputs, store, d, names)
    ensures CopyFiles(inputs, store, d, names)[names[i]] == store[d + [names[i]]].text
    decreases |names|
  {
    var init := names[..|names| - 1];
    if i < |names| - 1 && names[|names| - 1] != names[i] {
      assert init[i] == names[i];
      CopyFilesCopied(inputs, store, d, init, i);
    }
  }

  /** Every other entry of `inputs` is left as it was, and nothing else is added. */
  lemma {:induction false} CopyFilesOthers(inputs: map<string, string>, store: Store, d: Path, names: seq<string>, k: string)
    requires forall i :: 0 <= i < |names| && names[i] == k ==> !IsFile(store, d + [k])
    ensures k in CopyFiles(inputs, store, d, names) <==> k in inputs
    ensures k in inputs ==> CopyFiles(inputs, store, d, names)[k] == inputs[k]
    decreases |names|
  {
    if names != [] {
      var init := names[..|names| - 1];
      assert forall i :: 0 <= i < |init| ==> init[i] == names[i];
      CopyFilesOthers(inputs, store, d, init, k);
    }
  }

  /**
   * `_manipulate_by_categorical_drop_in`: the parameter names a category,
   * the mapping gives its directory, and the directory's regular files are
   * copied into `inputs`.
   */
  function DropInSpec(inputs: map<string, string>, store: Store, params: map<string, Value>,
                      catParam: string, mapping: map<string, string>, dir: string): (map<string, string>, Outcome)
  {
    if catParam !in params then (inputs, Failure(KeyError(catParam)))
    else
      var v := params[catParam];
      // `cat_mapping.get` gives None, and joining None into a path raises a TypeError
      if !(v.Text? && v.s in mapping) then (inputs, Failure(TypeError(catParam)))
      else
        var d := [dir, mapping[v.s]];
        match ListDir(store, d)
        case Err(e) => (inputs, Failure(e))
        case Ok(names) => (CopyFiles(inputs, store, d, names), Success)
  }

  /** The drop-in fails, and copies nothing, exactly when the category or its directory cannot be found. */
  lemma DropInOutcome(inputs: map<string, string>, store: Store, params: map<string, Value>,
                      catParam: string, mapping: map<string, string>, dir: string)
    ensures var (r, o) := DropInSpec(inputs, store, params, catParam, mapping, dir);
      && (o.Success? <==>
        catParam in params && params[catParam].Text? && params[catParam].s in mapping
        && ListDir(store, [dir, mapping[params[catParam].s]]).Ok?)
      && (o.Failure? ==> r == inputs)
      && (catParam !in params ==> o == Failure(KeyError(catParam)))
  {
  }

  // ---------------------------------------------------------------- mixture

  /**
   * The first loop of `_manipulate_by_mixture`: the regular files listed
   * in directory `<dir>/1`, each checked for a same-named entry in `<dir>/2`.
   */
  function CheckCounterparts(store: Store, dir: string, names: seq<string>): Result<seq<string>>
    decreases |names|
  {
    if names == [] then Ok([])
    else
      match CheckCounterparts(store, dir, names[..|names| - 1])
      case Err(e) => Err(e)
      case Ok(files) =>
        var name := names[|names| - 1];
        if !IsFile(store, [dir, "1", name]) then Ok(files)
        else if [dir, "2", name] !in store then Err(FileNotFound([dir, "2", name]))
        else Ok(files + [name])
  }

  /** The names among names that are regular files of `<dir>/1`, in listing order. */
  function RegularFiles(store: Store, dir: string, names: seq<string>): seq<string>
    decreases |names|
  {
    if names == [] then []
    else
      var r := RegularFiles(store, dir, names[..|names| - 1]);
      var name := names[|names| - 1];
      if IsFile(store, [dir, "1", name]) then r + [name] else r
  }

  /** A name is kept exactly when it is listed and is a regular file. */
  lemma {:induction false} RegularFilesMembers(store: Store, dir: string, names: seq<string>, x: string)
    ensures x in RegularFiles(store, dir, names) <==> x in names && IsFile(store, [dir, "1", x])
    decreases |names|
  {
    if names != [] {
      var init := names[..|names| - 1];
      assert names == init + [names[|names| - 1]];
      RegularFilesMembers(store, dir, init, x);
    }
  }

  /** A listing of regular files only is kept whole, in its order. */
  lemma {:induction false} RegularFilesAll(store: Store, dir: string, names: seq<string>)
    requires forall i :: 0 <= i < |names| ==> IsFile(store, [dir, "1", names[i]])
    ensures RegularFiles(store, dir, names) == names
    decreases |names|
  {
    if names != [] {
      var init := names[..|names| - 1];
      assert forall i :: 0 <= i < |init| ==> init[i] == names[i];
      RegularFilesAll(store, dir, init);
      assert names == init + [names[|names| - 1]];
    }
  }

  /** The file of `<dir>/1` has no counterpart in `<dir>/2`. */
  predicate Unmatched(store: Store, dir: string, name: string) {
    IsFile(store, [dir, "1", name]) && [dir, "2", name] !in store
  }

  /**
   * The check succeeds, with the regular files in listing order, when every
   * one has a counterpart; otherwise it names the path of the first that
   * has none.
   */
  lemma {:induction false} CheckCounterpartsSpec(store: Store, dir: string, names: seq<string>)
    ensures var r := CheckCounterparts(store, dir, names);
      && (r.Ok? <==> forall i :: 0 <= i < |names| ==> !Unmatched(store, dir, names[i]))
      && (r.Ok? ==> r.value == RegularFiles(store, dir, names))
      && (r.Ok? ==> forall k :: 0 <= k < |r.value| ==> IsFile(store, [dir, "1", r.value[k]]) && [dir, "2", r.value[k]] in store)
      && (r.Err? ==>
            exists i :: (0 <= i < |names| && Unmatched(store, dir, names[i])
              && r.error == FileNotFound([dir, "2", names[i]])
              && forall j :: 0 <= j < i ==> !Unmatched(store, dir, names[j])))
    decreases |names|
  {
    if names != [] {
      var init := names[..|names| - 1];
      var last := |names| - 1;
      CheckCounterpartsSpec(store, dir, init);
      assert forall i :: 0 <= i < |init| ==> init[i] == names[i];
      var r := CheckCounterparts(store, dir, names);
      if CheckCounterparts(store, dir, init).Err? {
        var i :| 0 <= i < |init| && Unmatched(store, dir, init[i])
          && CheckCounterparts(store, dir, init).error == FileNotFound([dir, "2", init[i]])
          && forall j :: 0 <= j < i ==> !Unmatched(store, dir, init[j]);
        assert Unmatched(store, dir, names[i]);
      } else if r.Err? {
        assert Unmatched(store, dir, names[last]);
      }
    }
  }

  /** Once a file without counterpart is met, the check fails with it whatever follows. */
  lemma {:induction false} CheckCounterpartsFails(store: Store, dir: string, names: seq<string>, k: nat)
    requires k <= |names| && CheckCounterparts(store, dir, names[..k]).Err?
    ensures CheckCounterparts(store, dir, names) == CheckCounterparts(store, dir, names[..k])
    decreases |names|
  {
    if k < |names| {
      var init := names[..|names| - 1];
      assert init[..k] == names[..k];
      CheckCounterpartsFails(store, dir, init, k);
    } else {
      assert names[..k] == names;
    }
  }

  /** One file of the mixture: both tables read, blended, and written back as text. */
  function MixFile(store: Store, dir: string, name: string, w: real, env: Env): Result<string> {
    var p1, p2 := [dir, "1", name], [dir, "2", name];
    match ReadFile(store, p1)
    case Err(e) => Err(e)
    case Ok(text1) =>
      match env.parse(text1)
      case None => Err(ParseError(p1))
      case Some(t1) =>
        match ReadFile(store, p2)
        case Err(e) => Err(e)
        case Ok(text2) =>
          match env.parse(text2)
          case None => Err(ParseError(p2))
          case Some(t2) =>
            match MixTable(t1, t2, w)
            case Err(e) => Err(e)
            case Ok(t) => Ok(env.render(t))
  }

  /**
   * The second loop: each file blended and written in turn; an exception
   * stops the loop with the files before it already written.
   */
  function WriteMixed(inputs: map<string, string>, store: Store, dir: string, files: seq<string>, w: real, env: Env)
    : (map<string, string>, Outcome)
    decreases |files|
  {
    if files == [] then (inputs, Success)
    else
      match MixFile(store, dir, files[0], w, env)
      case Err(e) => (inputs, Failure(e))
      case Ok(text) => WriteMixed(inputs[files[0] := text], store, dir, files[1..], w, env)
  }

  /** A name that is not among the files is never written. */
  lemma {:induction false} WriteMixedFrame(inputs: map<string, string>, store: Store, dir: string, files: seq<string>,
                                           w: real, env: Env, k: string)
    requires forall i :: 0 <= i < |files| ==> files[i] != k
    ensures var r := WriteMixed(inputs, store, dir, files, w, env).0;
      (k in r <==> k in inputs) && (k in inputs ==> r[k] == inputs[k])
    decreases |files|
  {
    if files != [] && MixFile(store, dir, files[0], w, env).Ok? {
      var text := MixFile(store, dir, files[0], w, env).value;
      WriteMixedFrame(inputs[files[0] := text], store, dir, files[1..], w, env, k);
    }
  }

  /**
   * Every file before the first that fails to blend has been written with
   * its blend; when none fails, every file has.
   */
  lemma {:induction false} WriteMixedWritten(inputs: map<string, string>, store: Store, dir: string, files: seq<string>,
                                             w: real, env: Env, j: nat)
    requires j < |files|
    requires forall i :: 0 <= i <= j ==> MixFile(store, dir, files[i], w, env).Ok?
    ensures var r := WriteMixed(inputs, store, dir, files, w, env).0;
      files[j] in r && r[files[j]] == MixFile(store, dir, files[j], w, env).value
    decreases |files|
  {
    var text := MixFile(store, dir, files[0], w, env).value;
    var rest := files[1..];
    WriteMixedStep(inputs, store, dir, files, w, env);
    if j > 0 {
      assert forall i :: 0 <= i <= j - 1 ==> rest[i] == files[i + 1];
      WriteMixedWritten(inputs[files[0] := text], store, dir, rest, w, env, j - 1);
    } else {
      WriteMixedKeeps(inputs[files[0] := text], store, dir, rest, w, env, files[0]);
    }
  }

  /** A file that already holds its blend keeps it: writing it again writes the same text. */
  lemma {:induction false} WriteMixedKeeps(inputs: map<string, string>, store: Store, dir: string, files: seq<string>,
                                           w: real, env: Env, k: string)
    requires k in inputs && MixFile(store, dir, k, w, env).Ok? && inputs[k] == MixFile(store, dir, k, w, env).value
    ensures var r := WriteMixed(inputs, store, dir, files, w, env).0;
      k in r && r[k] == inputs[k]
    decreases |files|
  {
    if files != [] && MixFile(store, dir, files[0], w, env).Ok? {
      var text := MixFile(store, dir, files[0], w, env).value;
      WriteMixedKeeps(inputs[files[0] := text], store, dir, files[1..], w, env, k);
    }
  }

  lemma WriteMixedStep(inputs: map<string, string>, store: Store, dir: string, files: seq<string>, w: real, env: Env)
    requires files != [] && MixFile(store, dir, files[0], w, env).Ok?
    ensures WriteMixed(inputs, store, dir, files, w, env)
      == WriteMixed(inputs[files[0] := MixFile(store, dir, files[0], w, env).value], store, dir, files[1..], w, env)
  {
  }

  /** The loop stops at, and reports, the first file that fails to blend. */
  lemma {:induction false} WriteMixedStops(inputs: map<string, string>, store: Store, dir: string, files: seq<string>,
                                           w: real, env: Env, j: nat)
    requires j < |files|
    requires forall i :: 0 <= i < j ==> MixFile(store, dir, files[i], w, env).Ok?
    requires MixFile(store, dir, files[j], w, env).Err?
    ensures WriteMixed(inputs, store, dir, files, w, env).1 == Failure(MixFile(store, dir, files[j], w, env).error)
    decreases |files|
  {
    if j > 0 {
      var text := MixFile(store, dir, files[0], w, env).value;
      var rest := files[1..];
      assert forall i :: 0 <= i < j - 1 ==> rest[i] == files[i + 1];
      WriteMixedStops(inputs[files[0] := text], store, dir, rest, w, env, j - 1);
    }
  }

  /** The loop completes exactly when every file blends. */
  lemma {:induction false} WriteMixedOutcome(inputs: map<string, string>, store: Store, dir: string, files: seq<string>,
                                             w: real, env: Env)
    ensures WriteMixed(inputs, store, dir, files, w, env).1.Success?
      <==> forall i :: 0 <= i < |files| ==> MixFile(store, dir, files[i], w, env).Ok?
    decreases |files|
  {
    if files != [] && MixFile(store, dir, files[0], w, env).Ok? {
      var text := MixFile(store, dir, files[0], w, env).value;
      assert forall i :: 0 <= i < |files| - 1 ==> files[1..][i] == files[i + 1];
      WriteMixedOutcome(inputs[files[0] := text], store, dir, files[1..], w, env);
    }
  }

  /** `_manipulate_by_mixture(params, weight_param, dir)`. */
  function MixtureSpec(inputs: map<string, string>, store: Store, params: map<string, Value>,
                       weightParam: string, dir: string, env: Env): (map<string, string>, Outcome)
  {
    if weightParam !in params then (inputs, Failure(KeyError(weightParam)))
    else if !params[weightParam].Num? then (inputs, Failure(TypeError(weightParam)))
    else
      match ListDir(store, [dir, "1"])
      case Err(e) => (inputs, Failure(e))
      case Ok(names) =>
        match CheckCounterparts(store, dir, names)
        case Err(e) => (inputs, Failure(e))
        case Ok(files) => WriteMixed(inputs, store, dir, files, params[weightParam].x, env)
  }

  /**
   * A file of `<dir>/1` without a counterpart in `<dir>/2`: the mixture
   * raises FileNotFoundError for the counterpart of the first such file
   * and has written nothing.
   */
  lemma MixtureUnmatched(inputs: map<string, string>, store: Store, params: map<string, Value>,
                         weightParam: string, dir: string, env: Env, i: nat)
    requires weightParam in params && params[weightParam].Num?
    requires ListDir(store, [dir, "1"]).Ok?
    requires var names := ListDir(store, [dir, "1"]).value;
      i < |names| && Unmatched(store, dir, names[i]) && forall j :: 0 <= j < i ==> !Unmatched(store, dir, names[j])
    ensures MixtureSpec(inputs, store, params, weightParam, dir, env)
      == (inputs, Failure(FileNotFound([dir, "2", ListDir(store, [dir, "1"]).value[i]])))
  {
    var names := ListDir(store, [dir, "1"]).value;
    CheckCounterpartsSpec(store, dir, names);
    var r := CheckCounterparts(store, dir, names);
    var k :| 0 <= k < |names| && Unmatched(store, dir, names[k])
      && r.error == FileNotFound([dir, "2", names[k]])
      && forall j :: 0 <= j < k ==> !Unmatched(store, dir, names[j]);
    assert k == i;
  }

  /**
   * Once the weight and the directory `<dir>/1` are found, the mixture
   * completes exactly when every regular file there has a counterpart and
   * blends, and then every one of them has been written with its blend.
   */
  lemma MixtureOutcome(inputs: map<string, string>, store: Store, params: map<string, Value>,
                       weightParam: string, dir: string, env: Env)
    requires weightParam in params && params[weightParam].Num?
    requires ListDir(store, [dir, "1"]).Ok?
    ensures var names := ListDir(store, [dir, "1"]).value;
      var w := params[weightParam].x;
      var (r, o) := MixtureSpec(inputs, store, params, weightParam, dir, env);
      && (o.Success? <==>
            && (forall i :: 0 <= i < |names| ==> !Unmatched(store, dir, names[i]))
            && (forall i :: 0 <= i < |names| && IsFile(store, [dir, "1", names[i]]) ==> MixFile(store, dir, names[i], w, env).Ok?))
      && (o.Success? ==>
            forall i :: 0 <= i < |names| && IsFile(store, [dir, "1", names[i]]) ==>
              names[i] in r && r[names[i]] == MixFile(store, dir, names[i], w, env).value)
  {
    var names := ListDir(store, [dir, "1"]).value;
    var w := params[weightParam].x;
    var files := RegularFiles(store, dir, names);
    CheckCounterpartsSpec(store, dir, names);
    if CheckCounterparts(store, dir, names).Ok? {
      WriteMixedOutcome(inputs, store, dir, files, w, env);
      forall i | 0 <= i < |names| && IsFile(store, [dir, "1", names[i]])
        ensures exists j :: 0 <= j < |files| && files[j] == names[i]
      {
        RegularFilesMembers(store, dir, names, names[i]);
      }
      forall k | 0 <= k < |files|
        ensures IsFile(store, [dir, "1", files[k]]) && files[k] in names
      {
        RegularFilesMembers(store, dir, names, files[k]);
      }
      if WriteMixed(inputs, store, dir, files, w, env).1.Success? {
        forall i | 0 <= i < |names| && IsFile(store, [dir, "1", names[i]])
          ensures var r := WriteMixed(inputs, store, dir, files, w, env).0;
            names[i] in r && r[names[i]] == MixFile(store, dir, names[i], w, env).value
        {
          var j :| 0 <= j < |files| && files[j] == names[i];
          WriteMixedWritten(inputs, store, dir, files, w, env, j);
        }
      }
    }
  }

  // ---------------------------------------------------------------- setup

  /** Which markers a template step fills. */
  datatype MarkerSet = IncomeSet | BikeSet | TransitSet | FuelSet

  function Prepare(ms: MarkerSet, params: map<string, Value>, env: Env): Prepared {
    match ms
    case IncomeSet => IncomeMarkers(params)
    case BikeSet => BikeMarkers(params, env.fmt3)
    case TransitSet => TransitMarkers(params, env.fmt3)
    case FuelSet => FuelMarkers(params, env.fmt3)
  }

  /** One `_manipulate_*` step of `setup`. */
  datatype Step =
    | Template(dir: string, template: string, outName: string, markers: MarkerSet)
    | DropIn(catParam: string, mapping: map<string, string>, scenarioDir: string)
    | Mixture(weightParam: string, mixDir: string)

  /** The steps of `setup` after the model parameters file, in the order it calls them. */
  const SetupSteps: seq<Step> := [
    Template("I", "azone_per_cap_inc.csv.template", "azone_per_cap_inc.csv", IncomeSet),
    Template("B", "azone_prop_sov_dvmt_diverted.csv.template", "azone_prop_sov_dvmt_diverted.csv", BikeSet),
    DropIn("LandUse", LandUseCategories, "L"),
    Template("T", "marea_transit_service.csv.template", "marea_transit_service.csv", TransitSet),
    Template("G", "azone_fuel_power_cost.csv.template", "azone_fuel_power_cost.csv", FuelSet),
    Mixture("TechMix", "F"),
    Mixture("Parking", "P"),
    Mixture("DemandManagement", "D"),
    Mixture("VehicleCharacteristics", "V"),
    Mixture("DrivingEfficiency", "E"),
    DropIn("VehicleTravelCost", TravelCostCategories, "C")
  ]

  function StepSpec(inputs: map<string, string>, store: Store, params: map<string, Value>, step: Step, env: Env)
    : (map<string, string>, Outcome)
  {
    match step
    case Template(dir, template, outName, ms) => TemplateSpec(inputs, store, [dir, template], outName, Prepare(ms, params, env))
    case DropIn(catParam, mapping, scenarioDir) => DropInSpec(inputs, store, params, catParam, mapping, scenarioDir)
    case Mixture(weightParam, mixDir) => MixtureSpec(inputs, store, params, weightParam, mixDir, env)
  }

  /** The steps run in order; the first exception ends `setup`. */
  function RunSteps(inputs: map<string, string>, store: Store, params: map<string, Value>, steps: seq<Step>, env: Env)
    : (map<string, string>, Outcome)
    decreases |steps|
  {
    if steps == [] then (inputs, Success)
    else
      var (r, o) := StepSpec(inputs, store, params, steps[0], env);
      if o.Failure? then (r, o) else RunSteps(r, store, params, steps[1..], env)
  }

  /** The run starts with its first step, and goes on only when that step succeeds. */
  lemma RunStepsFirst(inputs: map<string, string>, store: Store, params: map<string, Value>, steps: seq<Step>, env: Env)
    requires steps != []
    ensures var (r, o) := StepSpec(inputs, store, params, steps[0], env);
      RunSteps(inputs, store, params, steps, env) == if o.Failure? then (r, o) else RunSteps(r, store, params, steps[1..], env)
  {
  }

  /**
   * Without an income parameter the steps after the model parameters file
   * stop at the first, the income template, with KeyError('Income'), and
   * leave `inputs` as that file's step left it.
   */
  lemma SetupNeedsIncome(inputs: map<string, string>, store: Store, params: map<string, Value>, env: Env)
    requires "Income" !in params
    ensures RunSteps(inputs, store, params, SetupSteps, env) == (inputs, Failure(KeyError("Income")))
  {
    RunStepsFirst(inputs, store, params, SetupSteps, env);
  }

  /** A step that fails ends the run with its exception, whatever the later steps would do. */
  lemma {:induction false} RunStepsStops(inputs: map<string, string>, store: Store, params: map<string, Value>,
                                         steps: seq<Step>, env: Env, j: nat)
    requires j < |steps|
    requires RunSteps(inputs, store, params, steps[..j], env).1.Success?
    requires StepSpec(RunSteps(inputs, store, params, steps[..j], env).0, store, params, steps[j], env).1.Failure?
    ensures RunSteps(inputs, store, params, steps, env)
      == StepSpec(RunSteps(inputs, store, params, steps[..j], env).0, store, params, steps[j], env)
    decreases j
  {
    if j > 0 {
      assert steps[..j][0] == steps[0] && steps[..j][1..] == steps[1..][..j - 1];
      assert steps[1..][j - 1] == steps[j];
      RunStepsFirst(inputs, store, params, steps[..j], env);
      RunStepsFirst(inputs, store, params, steps, env);
      RunStepsStops(StepSpec(inputs, store, params, steps[0], env).0, store, params, steps[1..], env, j - 1);
    }
  }

  // ---------------------------------------------------------------- run

  /**
   * The renaming loop of `run` over the paths `glob` listed: a path the
   * timestamp pattern matches is moved to its stripped name, replacing a
   * file of that name.
   */
  function RenameAll(outputs: map<string, string>, listing: seq<string>): (map<string, string>, Outcome)
    decreases |listing|
  {
    if listing == [] then (outputs, Success)
    else
      var f := listing[0];
      if !Stamped(f) then RenameAll(outputs, listing[1..])
      else if f !in outputs then (outputs, Failure(FileNotFound([f])))
      else RenameAll((outputs - {f})[StripTimestamp(f) := outputs[f]], listing[1..])
  }

  /** Renaming never creates a file nor any contents: it only moves and replaces files. */
  lemma {:induction false} RenameAllMoves(outputs: map<string, string>, listing: seq<string>)
    ensures var r := RenameAll(outputs, listing).0;
      |r.Keys| <= |outputs.Keys| && r.Values <= outputs.Values
    decreases |listing|
  {
    if listing != [] {
      var f := listing[0];
      if Stamped(f) && f in outputs {
        MoveShrinks(outputs, f, StripTimestamp(f));
        RenameAllMoves((outputs - {f})[StripTimestamp(f) := outputs[f]], listing[1..]);
      } else {
        RenameAllMoves(outputs, listing[1..]);
      }
    }
  }

  /** `os.rename(f, g)` on a directory's files. */
  lemma MoveShrinks(m: map<string, string>, f: string, g: string)
    requires f in m
    ensures var n := (m - {f})[g := m[f]];
      |n.Keys| <= |m.Keys| && n.Values <= m.Values
  {
    var n := (m - {f})[g := m[f]];
    assert n.Keys <= (m.Keys - {f}) + {g};
    var b := (m.Keys - {f}) + {g};
    assert b == b - {g} + {g};
    assert |b| <= |m.Keys - {f}| + 1;
    SubsetCard(n.Keys, b);
    forall v | v in n.Values ensures v in m.Values {
      var k :| k in n && n[k] == v;
      if k != g { assert m[k] == v; }
    }
  }

  lemma SubsetCard<T>(a: set<T>, b: set<T>)
    requires a <= b
    ensures |a| <= |b|
  {
    assert b == a + (b - a);
  }

  /** A stamped file is moved to its name without the stamp, which is a different name. */
  lemma RenameOne(outputs: map<string, string>, f: string)
    requires f in outputs && Stamped(f)
    ensures StripTimestamp(f) != f
    ensures RenameAll(outputs, [f]) == ((outputs - {f})[StripTimestamp(f) := outputs[f]], Success)
  {
    StripTimestampShorter(f);
  }

  /** A file whose path is not listed and that no listed path strips to is left alone. */
  lemma {:induction false} RenameAllOthers(outputs: map<string, string>, listing: seq<string>, k: string)
    requires forall i :: 0 <= i < |listing| ==> listing[i] != k && (Stamped(listing[i]) ==> StripTimestamp(listing[i]) != k)
    ensures var r := RenameAll(outputs, listing).0;
      (k in r <==> k in outputs) && (k in outputs ==> r[k] == outputs[k])
    decreases |listing|
  {
    if listing != [] {
      var f := listing[0];
      assert forall i :: 0 <= i < |listing| - 1 ==> listing[1..][i] == listing[i + 1];
      if Stamped(f) && f in outputs {
        var moved := (outputs - {f})[StripTimestamp(f) := outputs[f]];
        assert (k in moved <==> k in outputs) && (k in outputs ==> moved[k] == outputs[k]);
        RenameAllOthers(moved, listing[1..], k);
      } else {
        RenameAllOthers(outputs, listing[1..], k);
      }
    }
  }
}
