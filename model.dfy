/**
 * The VERSPM core model object: the scenario tree it reads, and the
 * `inputs` and `output` directories of its working copy, which `setup`
 * and `run` change file by file.
 */
module Verspm {
  import opened Outcomes
  import opened Params
  import opened Markers
  import opened Workspace
  import opened Replacement

  class Model {
    /** The `scenario_inputs` tree; the model never writes it. */
    const scenarios: Store
    /** The files of the working copy's `inputs` directory, by name. */
    var inputs: map<string, string>
    /** The files of the working copy's `output` directory, by path. */
    var outputs: map<string, string>

    constructor(scenarios: Store, inputs: map<string, string>, outputs: map<string, string>)
      ensures this.scenarios == scenarios && this.inputs == inputs && this.outputs == outputs
    {
      this.scenarios := scenarios;
      this.inputs := inputs;
      this.outputs := outputs;
    }

    /** Read a template, fill in its markers and write it into `inputs`. */
    method FillTemplate(template: Path, outName: string, prep: Prepared) returns (o: Outcome)
      modifies this
      ensures (inputs, o) == TemplateSpec(old(inputs), scenarios, template, outName, prep)
      ensures outputs == old(outputs)
    {
      if prep.Before? {
        return Failure(prep.error);
      }
      var text := ReadFile(scenarios, template);
      if text.Err? {
        return Failure(text.error);
      }
      if prep.markers.Err? {
        return Failure(prep.markers.error);
      }
      var y := ApplyMarkers(text.value, prep.markers.value);
      inputs := inputs[outName := y];
      return Success;
    }

    /** `_manipulate_by_categorical_drop_in`. */
    method DropIn(params: map<string, Value>, catParam: string, mapping: map<string, string>, dir: string)
      returns (o: Outcome)
      modifies this
      ensures (inputs, o) == DropInSpec(old(inputs), scenarios, params, catParam, mapping, dir)
      ensures outputs == old(outputs)
    {
      if catParam !in params {
        return Failure(KeyError(catParam));
      }
      var v := params[catParam];
      if !(v.Text? && v.s in mapping) {
        return Failure(TypeError(catParam));
      }
      var d := [dir, mapping[v.s]];
      var listed := ListDir(scenarios, d);
      if listed.Err? {
        return Failure(listed.error);
      }
      var names := listed.value;
      for i := 0 to |names|
        invariant inputs == CopyFiles(old(inputs), scenarios, d, names[..i])
        invariant outputs == old(outputs)
      {
        assert names[..i + 1][..i] == names[..i];
        if IsFile(scenarios, d + [names[i]]) {
          inputs := inputs[names[i] := scenarios[d + [names[i]]].text];
        }
      }
      assert names[..|names|] == names;
      assert DropInSpec(old(inputs), scenarios, params, catParam, mapping, dir) == (inputs, Success);
      return Success;
    }

    /** `_manipulate_by_mixture`: check every counterpart first, then blend the files one by one. */
    method Mixture(params: map<string, Value>, weightParam: string, dir: string, env: Env) returns (o: Outcome)
      modifies this
      ensures (inputs, o) == MixtureSpec(old(inputs), scenarios, params, weightParam, dir, env)
      ensures outputs == old(outputs)
    {
      if weightParam !in params {
        return Failure(KeyError(weightParam));
      }
      if !params[weightParam].Num? {
        return Failure(TypeError(weightParam));
      }
      var w := params[weightParam].x;
      var listed := ListDir(scenarios, [dir, "1"]);
      if listed.Err? {
        return Failure(listed.error);
      }
      var names := listed.value;
      var files: seq<string> := [];
      for i := 0 to |names|
        invariant CheckCounterparts(scenarios, dir, names[..i]) == Ok(files)
      {
        assert names[..i + 1][..i] == names[..i];
        var name := names[i];
        if IsFile(scenarios, [dir, "1", name]) {
          files := files + [name];
          if [dir, "2", name] !in scenarios {
            CheckCounterpartsFails(scenarios, dir, names, i + 1);
            return Failure(FileNotFound([dir, "2", name]));
          }
        }
      }
      assert names[..|names|] == names;
      for i := 0 to |files|
        invariant WriteMixed(old(inputs), scenarios, dir, files, w, env) == WriteMixed(inputs, scenarios, dir, files[i..], w, env)
        invariant outputs == old(outputs)
      {
        assert files[i..][0] == files[i] && files[i..][1..] == files[i + 1..];
        var mixed := MixFile(scenarios, dir, files[i], w, env);
        if mixed.Err? {
          return Failure(mixed.error);
        }
        inputs := inputs[files[i] := mixed.value];
      }
      return Success;
    }

    /** One `_manipulate_*` call of `setup`. */
    method Perform(params: map<string, Value>, step: Step, env: Env) returns (o: Outcome)
      modifies this
      ensures (inputs, o) == StepSpec(old(inputs), scenarios, params, step, env)
      ensures outputs == old(outputs)
    {
      match step
      case Template(dir, template, outName, ms) =>
        o := FillTemplate([dir, template], outName, Prepare(ms, params, env));
      case DropIn(catParam, mapping, scenarioDir) =>
        o := DropIn(params, catParam, mapping, scenarioDir);
      case Mixture(weightParam, mixDir) =>
        o := Mixture(params, weightParam, mixDir, env);
    }

    /**
     * `setup`: the scope's defaults are added to the caller's parameters,
     * then the steps run in order until one raises.
     */
    method Setup(params: ParamDict, scope: seq<Parameter>, env: Env) returns (o: Outcome)
      modifies this, params
      ensures params.entries == WithDefaults(old(params.entries), scope)
      ensures (inputs, o) == RunSteps(old(inputs), scenarios, params.entries, SetupSteps, env)
      ensures outputs == old(outputs)
    {
      params.FillDefaults(scope);
      o := RunAll(params.entries, SetupSteps, env);
    }

    /** The steps run in order until one raises. */
    method RunAll(params: map<string, Value>, steps: seq<Step>, env: Env) returns (o: Outcome)
      modifies this
      ensures (inputs, o) == RunSteps(old(inputs), scenarios, params, steps, env)
      ensures outputs == old(outputs)
    {
      for i := 0 to |steps|
        invariant RunSteps(old(inputs), scenarios, params, steps, env) == RunSteps(inputs, scenarios, params, steps[i..], env)
        invariant outputs == old(outputs)
      {
        RunStepsFirst(inputs, scenarios, params, steps[i..], env);
        assert steps[i..][0] == steps[i] && steps[i..][1..] == steps[i + 1..];
        o := Perform(params, steps[i], env);
        if o.Failure? {
          return;
        }
      }
      return Success;
    }

    /** The renaming loop of `run` over the paths `glob` listed, in its order. */
    method RenameOutputs(listing: seq<string>) returns (o: Outcome)
      modifies this
      ensures (outputs, o) == RenameAll(old(outputs), listing)
      ensures inputs == old(inputs)
    {
      for i := 0 to |listing|
        invariant RenameAll(old(outputs), listing) == RenameAll(outputs, listing[i..])
        invariant inputs == old(inputs)
      {
        assert listing[i..][0] == listing[i] && listing[i..][1..] == listing[i + 1..];
        var f := listing[i];
        if Stamped(f) {
          if f !in outputs {
            return Failure(FileNotFound([f]));
          }
          var g := StripTimestamp(f);
          outputs := (outputs - {f})[g := outputs[f]];
        }
      }
      return Success;
    }
  }
}
