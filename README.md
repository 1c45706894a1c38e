# VERSPM core model: scenario inputs, text substitutions, output renaming

This project models the file-manipulating core of the VisionEval VERSPM
connector for TMIP-EMAT (`emat_verspm.py`) and proves properties of it.

The model covers these parts of the connector:

- the two regular-expression rewriters, `ReplacementOfNumber.sub` and
  `ReplacementOfString.sub`;
- the template steps of `setup`: income, bicycles, transit and fuel cost.
  Each one computes values from the experiment parameters, replaces the
  `__EMAT_PROVIDES_<name>__` markers of a template and writes the result into
  the model's `inputs` directory;
- the categorical drop-in steps, land use and vehicle travel cost. Each one
  copies the files of the chosen category directory into `inputs`;
- the mixture steps: technology mix, parking, demand management, vehicle
  characteristics and driving efficiency. Each one blends every table of
  scenario directory `1` with the same table of directory `2`. The weight is
  an experiment parameter;
- the default-filling loop at the start of `setup`, and the order in which
  `setup` calls its steps;
- the loop at the end of `run` that strips VisionEval's timestamps from the
  output file names.

Modules:

| module | file | contents |
|---|---|---|
| `Chars` | chars.dfy | Python `re` character classes, and where a greedy `k*` stops |
| `Outcomes` | outcomes.dfy | the exceptions the steps raise, `Option`, `Result` |
| `Patterns` | patterns.dfy | the five patterns, each tried at the start of a string (`pattern.match`) |
| `Rewrite` | rewrite.dfy | `pattern.subn`. It is a leftmost, non-overlapping scan. A scan is defined as a decomposition, and the computed scan is proved to be the only one |
| `Replacement` | replacement.dfy | the substitutions of the program; `ReplacementExamples` works them out on concrete texts |
| `Params` | params.dfy | parameter values, and the `ParamDict` class whose `FillDefaults` is the default loop |
| `Markers` | markers.dfy | marker tokens, the marker loop, and the marker values each template step computes |
| `Tables` | tables.dfy | the blend of two tables |
| `Workspace` | workspace.dfy | the scenario tree, and each step as a function of the state before it |
| `Verspm` | model.dfy | the `Model` class. Its methods change `inputs` and `outputs` step by step. Each method is proved equal to its `Workspace` specification |

How the model treats the world around the core:

- Files are strings.
- The scenario tree is a finite map from paths below `scenario_inputs` to
  files and directories. A directory lists its entries in `os.scandir` order.
- `inputs` and `output` map file names and paths to their text.
- Three pieces of the outside world are parameters of the model (`Env`):
  - `:.3f` float formatting;
  - `pandas.read_csv`;
  - `DataFrame.to_csv`.
- The list that `glob` returns is a parameter of `RenameOutputs`.
- The exceptions the source raises while it reads parameters, lists
  directories, reads files and blends tables are `Error` values. Writing
  always succeeds in the model.
- Two tables are blended row by row in order. This is how pandas aligns two
  tables that `read_csv` gave its default row index.
- A step that raises leaves the files that earlier steps, and earlier loop
  iterations, have already written.

## Model

| member | source | states |
|---|---|---|
| Chars.Skip | emat_verspm.py:62 | a greedy character-class run stops at the first character outside the class, and covers only class characters |
| Chars.SkipAt | emat_verspm.py:62 | any run of class characters that ends at a non-class character is where the greedy run stops |
| Patterns.OpSplitSpec | emat_verspm.py:62 | with the operator taken literally, `\s*` before it backtracks: the split chosen is the last position where the operator follows; there is no match exactly when no position does |
| Patterns.AssignHeadSpec | emat_verspm.py:62 | with the name and the operator taken literally, group 1 `varname\s*op\s*` is the name, whitespace, the operator and all the whitespace after it; there is no match exactly when the name is absent or no split is followed by the operator |
| Patterns.AssignHeadAt | emat_verspm.py:62 | for an operator that does not start with whitespace, a name, whitespace, the operator and a maximal whitespace run are exactly group 1 |
| Patterns.NumeralEndAt | emat_verspm.py:51 | the number group as written ends where an optional sign, a maximal digit run, an optional point, a maximal digit run, an optional exponent letter, an optional sign and a maximal digit run end |
| Patterns.NumberAssignAt | emat_verspm.py:51-62 | where group 1 ends at n and those numeral pieces end at g, the number pattern keeps the text before n and replaces exactly the text from n to g, with nothing after it |
| Patterns.FractionEnds | emat_verspm.py:51 | on `a/b` the number group as written stops after the numerator, while the alternatives swapped take the whole fraction |
| Patterns.TextMatchSpec | emat_verspm.py:95 | the string pattern matches exactly where group 1 does; the replaced value holds no `#` and no newline; the kept tail is empty or a `#` comment up to the end of the line; the match ends at a newline or at the end |
| Patterns.InlineMatchInLine | emat_verspm.py:95 | with horizontal whitespace after the operator, a match of the string pattern stays on the line it starts on |
| Patterns.StampSplitSpec | emat_verspm.py:633 | the greedy `(.*)` backtracks to the last position on the first line where a stamp followed by `.csv` starts |
| Patterns.TimestampMatchAt | emat_verspm.py:633 | a one-line name ending in `_202<d>-<digits>-<digits>_<digits>.csv` matches as a whole, with everything before the stamp as group 1 |
| Rewrite.ScanIsScan | emat_verspm.py:80 | the computed left-to-right scan rejoins to the string, and each piece agrees with the pattern tried where it starts |
| Rewrite.ScanUnique | emat_verspm.py:80 | a string has only one such scan |
| Rewrite.SubOfScan | emat_verspm.py:80 | any scan of the string gives the substitution |
| Rewrite.SubKeptPrefix | emat_verspm.py:80 | a prefix where the pattern matches at no position is kept as it is |
| Rewrite.SubNoMatch | emat_verspm.py:80 | where the pattern matches nowhere the substitution changes nothing |
| Rewrite.SubHitStep | emat_verspm.py:80 | a match at the start is replaced, and the scan resumes after it (matches do not overlap) |
| Rewrite.SubOneHit | emat_verspm.py:80 | a single match at n gives the text before n, the replacement, and the text after the match |
| Rewrite.SpliceNoHits | emat_verspm.py:80 | with no match the text comes back unchanged |
| Rewrite.SpliceShrinks | emat_verspm.py:638 | a replacement no longer than every replaced part never lengthens the string |
| Replacement.SubAssignAt | emat_verspm.py:64-82 | for `SubNumber` (`ReplacementOfNumber.sub`), `SubText` and the other rewriters: when the name occurs only in the assignment at n, that assignment alone is rewritten to group 1, the value and the kept tail; the text on both sides stays unchanged |
| Replacement.NameAbsent | emat_verspm.py:97-117 | a text without the variable name is left unchanged by `SubNumber`, by `SubText` (`ReplacementOfString.sub`) and by `SubNumberFractionFirst`, the number rewriter with its alternatives swapped |
| Replacement.SubInlineTextAt | emat_verspm.py:95 | for `SubInlineText`, the string rewriter with horizontal whitespace after the operator: a lone assignment is rewritten on its own line only; the rewritten stretch holds no newline and the following lines are kept |
| Replacement.ReplaceAllIsSub | emat_verspm.py:355-359 | `ReplaceAll` (`str.replace`) is the substitution of the token taken as a literal pattern |
| Replacement.ReplaceAllAbsent | emat_verspm.py:355-359 | `str.replace` with a token that does not occur changes nothing |
| Replacement.ReplaceAllFirst | emat_verspm.py:355-359 | the first occurrence of the token is replaced, and the replacing resumes after it |
| Replacement.ReplaceAllOnce | emat_verspm.py:355-359 | a token that occurs once is replaced there, and the text on both sides is kept |
| Replacement.StripTimestampShape | emat_verspm.py:633-640 | a one-line name ending in a VisionEval stamp is `Stamped`, and `StripTimestamp` keeps what precedes the stamp followed by `.csv` |
| Replacement.StripTimestampShorter | emat_verspm.py:637-640 | a matched name always gets a strictly shorter new name, so it never renames a file onto itself |
| ReplacementExamples.SubNumberDecimal | emat_verspm.py:80 | `x: 1.5` with value 7 becomes `x: 7` |
| ReplacementExamples.SubNumberEmptyNumeral | emat_verspm.py:51 | `x: abc` becomes `x: 7abc`: the empty numeral matches, so the value is inserted |
| ReplacementExamples.SubNumberFraction | emat_verspm.py:51 | `x: 3/4` becomes `x: 7/4` as written |
| ReplacementExamples.SubNumberFractionFirstFraction | emat_verspm.py:51 | with the alternatives swapped, `x: 3/4` becomes `x: 7` |
| ReplacementExamples.SubNumberNextLine | emat_verspm.py:62 | `x:` then a newline and `abc` becomes `x:`, a newline and `7abc`: the `\s*` after the operator crosses the newline |
| ReplacementExamples.SubTextComment | emat_verspm.py:114 | `v: a #c` then a newline and `w`, with value `b`, becomes `v: b  #c` then the newline and `w`: two spaces follow the value, and the comment and the next line are kept |
| ReplacementExamples.SubTextNextLine | emat_verspm.py:95 | as written, `v:` then a newline and `w: 1`, with value `b`, becomes `v:`, a newline and `b  `: the next line is taken as the value |
| ReplacementExamples.SubInlineTextNextLine | emat_verspm.py:95 | with horizontal whitespace after the operator the same text becomes `v:b  `, a newline and `w: 1` |
| ReplacementExamples.StripHousehold | emat_verspm.py:633-640 | `Household_2024-05-06_1.csv` is renamed `Household.csv` |
| Params.WithDefaultsKeys | emat_verspm.py:255-258 | after `WithDefaults`, the parameters hold the given keys and every scope parameter's name, nothing else |
| Params.WithDefaultsKeeps | emat_verspm.py:255-258 | a value the caller gave is never overwritten |
| Params.WithDefaultsFirst | emat_verspm.py:255-258 | a parameter the caller did not give gets the default of its first occurrence in the scope |
| Params.ParamDict.FillDefaults | emat_verspm.py:255-258 | the loop leaves the dict equal to `WithDefaults`, updating it in place |
| Markers.Token | emat_verspm.py:357 | a marker token is never empty |
| Markers.TokenInjective | emat_verspm.py:357 | different marker names give different tokens |
| Markers.ApplyMarkers | emat_verspm.py:355-359 | the replacement loop computes `FillMarkers`, the markers filled in order |
| Markers.FillMarkersAbsent | emat_verspm.py:355-359 | a template without any of the markers comes out unchanged |
| Markers.FillOne | emat_verspm.py:355-359 | a marker that occurs only at n is replaced by its value there, and the text on both sides is kept |
| Markers.FillTwo | emat_verspm.py:355-359 | two markers that occur once each, in order, are each replaced by their value where they stood, when the first value is a written number and the second name holds no number character |
| Markers.Digits | emat_verspm.py:358 | `str` of a non-negative int is non-empty decimal digits without a leading zero |
| Markers.DigitsValueOf | emat_verspm.py:358 | the digits written for n read back as n |
| Markers.ParseStr | emat_verspm.py:358 | the text `str` writes for any int reads back as that int |
| Markers.StrNumeric | emat_verspm.py:358 | `str` of an int writes only digits and a minus sign |
| Markers.Trunc | emat_verspm.py:349-350 | `int` of a float truncates toward zero |
| Markers.IncomeMarkers | emat_verspm.py:348-358 | a missing Income raises KeyError and text raises ValueError or TypeError, all before the template is read; otherwise the two markers are `str(int(Income))` and `str(int(Income*3/13))`, which read back as those ints |
| Tables.BlendSpec | emat_verspm.py:539 | `a*(1-w) + b*w` is a at weight 0, b at weight 1, and lies between them for weights in between |
| Tables.RoundHalfEven | emat_verspm.py:550 | `np.round` gives an integer within a half, the even one at a tie |
| Tables.RoundHalfEvenUnique | emat_verspm.py:550 | the rounding is the only integer within a half that is even at a tie |
| Tables.RoundWhole | emat_verspm.py:550 | a whole number rounds to itself |
| Tables.MixColumn | emat_verspm.py:536-550 | a column blended with a counterpart that fits keeps its name, its length and its dtype |
| Tables.GroupError | emat_verspm.py:536-549 | a group blends without error exactly when each of its columns has a numeric counterpart, which for an int column has as many rows and no NaN; a ValueError comes only from the int group |
| Tables.FloatMixKeeps | emat_verspm.py:531-541 | blending the floats leaves every name, dtype and length, so the int group selected afterwards is the original one |
| Tables.MixTableOk | emat_verspm.py:531-550 | `MixTable` (float group by `MixGroup`, then int group, each through `MixColumns`) succeeds exactly when every blended column has a numeric counterpart, which for an int column has as many rows and no NaN |
| Tables.MixTableLayout | emat_verspm.py:531-550 | the result has the first table's columns, in order, with their names, dtypes and lengths |
| Tables.MixTablePassThrough | emat_verspm.py:532-545 | `Year`, `Geo` and columns that are neither float nor int are copied from the first table |
| Tables.MixTableColumn | emat_verspm.py:536-550 | every other column is blended with the same-named column of the second table |
| Tables.MixTableNaN | emat_verspm.py:536-539 | a blended float cell is NaN exactly when the first table's cell is NaN, or the second table's column is NaN in that row or lacks the row |
| Tables.MixTableIntRows | emat_verspm.py:541-550 | an int column whose counterpart has another number of rows makes the blend fail |
| Tables.MixColumnAtZero | emat_verspm.py:539-550 | at weight 0 a blended column, float or int, is the column itself when its counterpart has a number in each of its rows |
| Tables.MixTableAtZero | emat_verspm.py:539-550 | at weight 0 the result is the first table when the second has a number in each row of every blended column |
| Tables.MixColumnAtOne | emat_verspm.py:539-550 | at weight 1 a float cell takes its counterpart's value wherever both rows exist, and an int column its counterpart's values rounded |
| Tables.MixTableAtOne | emat_verspm.py:539-550 | at weight 1 each blended column holds the second table's values, rounded in an int column, so an int column of the second table comes through unchanged |
| Tables.MixTableBetween | emat_verspm.py:539 | for a weight in [0, 1] each blended float cell of two numbers lies between them |
| Tables.MixTableMissingFloat | emat_verspm.py:538 | a float column the second table lacks makes the blend raise KeyError |
| Workspace.TemplateWrites | emat_verspm.py:338-366 | `TemplateSpec` succeeds exactly when the parameters are usable and the template is a file; it then writes only its output, the template with its markers filled; on failure nothing is written |
| Workspace.TemplateFillsOne | emat_verspm.py:338-366 | a template holding its one marker once is written with the value in the marker's place and the rest kept |
| Workspace.TemplateFillsTwo | emat_verspm.py:338-366 | a template holding two markers once each, in order, is written with each value in its marker's place and the rest kept |
| Workspace.IncomeStep | emat_verspm.py:338-366 | on an income template holding each marker once, the step succeeds and writes `azone_per_cap_inc.csv` as the template with `str(int(Income))` and `str(int(Income*3/13))` in the markers' places |
| Workspace.IncomeReadsBack | emat_verspm.py:349-358 | each value written into the income file reads back, at its place, as the truncated income it stands for |
| Workspace.BikeStep | emat_verspm.py:368-395 | on a bicycle template holding its marker once, the step writes the template with `Bicycles` formatted in the marker's place |
| Workspace.TransitStep | emat_verspm.py:437-465 | on a transit template holding each marker once, the step writes `Transit` times 2381994.664 and times 3580237.203, formatted, in the markers' places |
| Workspace.FuelStep | emat_verspm.py:467-495 | on a fuel template holding each marker once, the step writes `FuelCost` and `ElectricCost`, formatted, in the markers' places |
| Workspace.CopyFilesCopied | emat_verspm.py:397-412 | `CopyFiles` copies every regular file of the category directory in under its own name |
| Workspace.CopyFilesOthers | emat_verspm.py:407-412 | every other input file is left as it was, and nothing else is added |
| Workspace.DropInOutcome | emat_verspm.py:397-412 | `DropInSpec` succeeds exactly when the parameter names a mapped category whose directory exists; a missing parameter raises KeyError; on failure nothing is copied |
| Workspace.RegularFilesMembers | emat_verspm.py:520-525 | a name is among the regular files of `<dir>/1` exactly when it is listed and is a file |
| Workspace.RegularFilesAll | emat_verspm.py:520-525 | a listing of files only is kept whole, in its order |
| Workspace.CheckCounterpartsSpec | emat_verspm.py:519-525 | the first loop succeeds exactly when every regular file of `<dir>/1` has a counterpart in `<dir>/2`, and then returns exactly those files in listing order; otherwise it raises FileNotFoundError for the first file without one |
| Workspace.CheckCounterpartsFails | emat_verspm.py:519-525 | once a file without counterpart is met, later entries do not matter |
| Workspace.WriteMixedFrame | emat_verspm.py:527-555 | an input file not among the blended files is never written |
| Workspace.WriteMixedWritten | emat_verspm.py:527-555 | every file before the first that fails holds its blend, `MixFile` of it |
| Workspace.WriteMixedKeeps | emat_verspm.py:527-555 | writing a file again writes the same blend |
| Workspace.WriteMixedStops | emat_verspm.py:527-555 | the loop stops at, and raises the exception of, the first file that fails to blend |
| Workspace.WriteMixedOutcome | emat_verspm.py:527-555 | the second loop completes exactly when every file blends |
| Workspace.MixtureUnmatched | emat_verspm.py:512-525 | a file of `<dir>/1` without counterpart makes the mixture raise FileNotFoundError for the first such file, before any file is written |
| Workspace.MixtureOutcome | emat_verspm.py:512-555 | once the weight and `<dir>/1` are found, `MixtureSpec` completes exactly when every regular file there has a counterpart and blends, and then every one of them is in `inputs` with its blend |
| Workspace.SetupNeedsIncome | emat_verspm.py:305 | without Income the steps after the model parameters file raise KeyError at the income step and write nothing further |
| Workspace.RunStepsStops | emat_verspm.py:304-315 | `RunSteps` over `SetupSteps`, each step by `StepSpec`: the first step that raises ends `setup` with its exception, whatever the later steps would do |
| Workspace.RenameAllMoves | emat_verspm.py:633-640 | `RenameAll` never adds a file and never produces contents that were not already there |
| Workspace.RenameOne | emat_verspm.py:637-640 | a stamped file moves to its name without the stamp, which differs from its old name |
| Workspace.RenameAllOthers | emat_verspm.py:635-640 | a file that is not listed, and that no listed name strips to, keeps its contents |
| Verspm.Model.FillTemplate | emat_verspm.py:338-366 | the template step changes `inputs` as its specification says; `outputs` is unchanged |
| Verspm.Model.DropIn | emat_verspm.py:397-412 | the drop-in loop changes `inputs` as its specification says; `outputs` is unchanged |
| Verspm.Model.Mixture | emat_verspm.py:512-555 | both mixture loops change `inputs` as their specification says; `outputs` is unchanged |
| Verspm.Model.Perform | emat_verspm.py:304-315 | one step of `setup` as its specification says |
| Verspm.Model.RunAll | emat_verspm.py:305-315 | the steps run in order until one raises |
| Verspm.Model.Setup | emat_verspm.py:255-315 | the defaults are filled, then the eleven steps run in the source's order |
| Verspm.Model.RenameOutputs | emat_verspm.py:633-640 | the renaming loop changes `outputs` as its specification says; `inputs` is unchanged |

## Left out

- `_manipulate_model_parameters_json` is not modelled. It is the first step
  of `setup` and rewrites a JSON file through the `json` module. The model
  starts `setup` with the income step.
- `super().setup(params)` is base-class code outside this file. The
  distributed-worker copy (`dask`, `copy_tree`) is also left out.
- `__init__`, the R script and `subprocess` call in `run`, `post_process`,
  `archive` and `last_run_logs` are not modelled: they are I/O with R,
  pandas and the file system.
- Logging is left out. So is the substitution count that `subn` returns,
  which the source only logs.
- Regular-expression metacharacters in a variable name or an assignment
  operator are left out: both are put into the patterns unescaped, and the
  model matches both as literals. An operator such as `.` or `*=` would
  match differently or not compile in Python; the operators `:`, `=` and
  `<-` that the source names hold no metacharacter. Backslashes and group references in a
  replacement value are left out: the value is inserted as it is.
- Chars.IsDigit: `\d` is ASCII digits only, while Python's `\d` on a str
  pattern also accepts other Unicode decimal digits.
- Replacement.SubNumber: the variable name must not be empty, so that the
  pattern cannot match the empty string. The same holds for SubText.
- Tables.Find: duplicate column names are not modelled; a lookup takes the
  first column of that name.
- Markers.IncomeMarkers: parameter values are reals, not IEEE floats.
  `int()` of text is modelled as an optional minus sign and decimal digits.
  Python's `int()` also accepts surrounding whitespace, a plus sign and
  underscores.
- Markers.BikeMarkers: `:.3f` formatting is the parameter `fmt3`, so the
  digits written are not modelled. The same holds for TransitMarkers and
  FuelMarkers.
- Workspace.TransitStep: assumes that `:.3f` writes only digits, a point and
  a minus sign (`WritesNumbers`), so that the first value cannot complete
  the second marker. The same holds for FuelStep.
- Workspace.IncomeStep: the step lemmas take templates that hold each
  marker exactly once, the first before the second. A template with a
  repeated marker is covered by TemplateWrites and FillMarkers only. The
  same holds for BikeStep, TransitStep and FuelStep.
- Tables.GroupError: reports the first offending column, not the whole
  list pandas names in a KeyError.
- Tables.GroupError: a bool column counts as neither float nor int.
- Reading and writing a table as text (`read_csv`, `to_csv` with `%.5f`) are
  the parameters `parse` and `render`, so an unreadable file is a ParseError.
- Workspace.RenameAll: `os.rename` overwrites an existing target, as it does
  on POSIX systems. On Windows it would raise FileExistsError instead.
- Verspm.Model.RenameOutputs: the order of the `glob` listing is not
  modelled. The listing is a parameter, and names it lists that are absent
  raise FileNotFoundError.
- Verspm.Model.Setup: the KeyError that `setup` documents for an
  experiment variable the core model does not support would come from
  `super().setup(params)`, which is base-class code and is not modelled.
- Writing is not modelled as something that can fail. `open(..., 'wt')`,
  `shutil.copyfile` onto a directory and `to_csv` always succeed in the
  model, while in the source they can raise.
- Replacement.SubNumber: the `\s*` after the operator crosses a newline, as
  in the string pattern (SubNumberNextLine shows it). The model has no
  corrected number pattern; the corrected string pattern is SubInlineText.

## Findings

| source | as written | input that shows it | evidently intended | confidence | as-written member | corrected member |
|---|---|---|---|---|---|---|
| emat_verspm.py:51 | the number group is `([-+]?\d*\.?\d*[eE]?[-+]?\d*\|\d+\/\d+)`. Its first alternative can match the empty string, so it always succeeds, and the fraction alternative is never tried | `x: 3/4` with value 7 becomes `x: 7/4`: only the numerator is replaced | the comment "matches any number representation" means a fraction should be replaced whole, which needs the fraction alternative first; `x: 3/4` then becomes `x: 7` | not executed | ReplacementExamples.SubNumberFraction | ReplacementExamples.SubNumberFractionFirstFraction |
| emat_verspm.py:95 | the string pattern is `(varname\s*op\s*)([^#\n]*)(#.*)?`. The `\s*` after the operator also matches a newline, and MULTILINE has no effect on a pattern without `^` or `$` | `v:` then a newline and `w: 1`, with value `b`, becomes `v:`, a newline and `b  `: the whole next line is taken as the value and lost | the value group `[^#\n]*` and the MULTILINE flag show that the pattern is meant to act on the assignment's own line; with horizontal whitespace `[^\S\n]*` after the operator the text becomes `v:b  `, a newline and `w: 1` | not executed | ReplacementExamples.SubTextNextLine | Replacement.SubInlineTextAt |
