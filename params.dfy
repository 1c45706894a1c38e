/**
 * Experiment parameters and the default-filling loop at the start of
 * `VERSPModel.setup`: every parameter of the scope the caller did not give
 * is added to the caller's own `params` dict with its default value.
 */
module Params {

  /** A parameter value: a number (int or float) or a category name. */
  datatype Value = Num(x: real) | Text(s: string)

  /** A parameter of the exploratory scope, with its default value. */
  datatype Parameter = Parameter(name: string, default: Value)

  /** The names of the scope's parameters. */
  function Names(scope: seq<Parameter>): set<string> {
    set i | 0 <= i < |scope| :: scope[i].name
  }

  /** `params` after the loop has visited the scope's parameters in order. */
  function WithDefaults(m: map<string, Value>, scope: seq<Parameter>): map<string, Value>
    decreases |scope|
  {
    if scope == [] then m
    else
      var r := WithDefaults(m, scope[..|scope| - 1]);
      var p := scope[|scope| - 1];
      if p.name in r then r else r[p.name := p.default]
  }

  /** Afterwards `params` holds the keys it held and one for every scope parameter, and no others. */
  lemma {:induction false} WithDefaultsKeys(m: map<string, Value>, scope: seq<Parameter>)
    ensures WithDefaults(m, scope).Keys == m.Keys + Names(scope)
    decreases |scope|
  {
    if scope != [] {
      var init := scope[..|scope| - 1];
      WithDefaultsKeys(m, init);
      assert Names(scope) == Names(init) + {scope[|scope| - 1].name} by {
        forall i | 0 <= i < |init| ensures init[i] == scope[i] { }
      }
    }
  }

  /** A value the caller gave is never overwritten. */
  lemma {:induction false} WithDefaultsKeeps(m: map<string, Value>, scope: seq<Parameter>, k: string)
    requires k in m
    ensures k in WithDefaults(m, scope) && WithDefaults(m, scope)[k] == m[k]
    decreases |scope|
  {
    if scope != [] {
      WithDefaultsKeeps(m, scope[..|scope| - 1], k);
    }
  }

  /**
   * A parameter the caller did not give gets the default of its first
   * occurrence in the scope.
   */
  lemma {:induction false} WithDefaultsFirst(m: map<string, Value>, scope: seq<Parameter>, i: nat)
    requires i < |scope| && scope[i].name !in m
    requires forall j :: 0 <= j < i ==> scope[j].name != scope[i].name
    ensures scope[i].name in WithDefaults(m, scope)
    ensures WithDefaults(m, scope)[scope[i].name] == scope[i].default
    decreases |scope|
  {
    var init := scope[..|scope| - 1];
    if i < |scope| - 1 {
      WithDefaultsFirst(m, init, i);
    } else {
      WithDefaultsKeys(m, init);
      assert scope[i].name !in Names(init);
    }
  }

  /** The caller's `params` dict, which `setup` updates in place. */
  class ParamDict {
    var entries: map<string, Value>

    constructor(entries: map<string, Value>)
      ensures this.entries == entries
    {
      this.entries := entries;
    }

    /** The default-filling loop: each scope parameter missing from the dict is added with its default. */
    method FillDefaults(scope: seq<Parameter>)
      modifies this
      ensures entries == WithDefaults(old(entries), scope)
    {
      for i := 0 to |scope|
        invariant entries == WithDefaults(old(entries), scope[..i])
      {
        assert scope[..i + 1][..i] == scope[..i];
        var p := scope[i];
        if p.name !in entries {
          entries := entries[p.name := p.default];
        }
      }
      assert scope[..|scope|] == scope;
    }
  }
}
