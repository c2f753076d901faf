/** OverridesImpl (io/subutai/guicyfig/OverridesImpl.java): a named override
    set built in code, its options keyed by method name. */
module OverridesImpls {
  import opened Lang
  import opened Envs
  import opened RuleOptions
  import opened Collections

  class OverridesImpl {
    var environments: set<Env>
    var options: map<string, OptionImpl>
    const name: string

    /** Every option is filed under its own method name. */
    ghost predicate Valid()
      reads this
    {
      forall k :: k in options ==> options[k].methodName == k
    }

    /** An empty set with the given name. */
    constructor (name: string)
      ensures Valid()
      ensures this.name == name && environments == {} && options == map[]
    {
      this.name := name;
      environments := {};
      options := map[];
    }

    /** The copy constructor: the name and the environments are copied, and the
        options are put one by one, so the last entry for a method wins. */
    constructor Copy(overrides: OverridesSet)
      ensures Valid()
      ensures name == overrides.name
      ensures environments == Scope(overrides.environments)
      ensures options == KeyByMethod(overrides.options)
    {
      name := overrides.name;
      environments := Scope(overrides.environments);
      var opts := overrides.options;
      var m := map[];
      for i := 0 to |opts|
        invariant m == KeyByMethod(opts[..i])
      {
        assert opts[..i + 1][..i] == opts[..i];
        m := m[opts[i].methodName := opts[i]];
      }
      assert opts[..|opts|] == opts;
      options := m;
    }

    /** Files an option under its method, replacing any earlier one, and returns it. */
    method AddOption(option: OptionImpl) returns (r: OptionImpl)
      requires Valid()
      modifies this`options
      ensures Valid()
      ensures r == option
      ensures options == old(options)[option.methodName := option]
    {
      options := options[option.methodName := option];
      r := option;
    }

    /** addOption(method, override): builds the option, files it, returns it. */
    method AddNewOption(methodName: string, override: Option<string>) returns (r: OptionImpl)
      requires Valid()
      modifies this`options
      ensures Valid()
      ensures r == OptionImpl(methodName, override)
      ensures options == old(options)[methodName := r]
    {
      var option := OptionImpl(methodName, override);
      var stored := AddOption(option);
      r := option;
    }

    /** options(): one entry per method name, each exactly what is filed under it. */
    method Options() returns (r: seq<OptionImpl>)
      requires Valid()
      ensures |r| == |options|
      ensures forall i :: 0 <= i < |r| ==> r[i].methodName in options && options[r[i].methodName] == r[i]
      ensures forall i, j :: 0 <= i < j < |r| ==> r[i].methodName != r[j].methodName
      ensures forall k :: k in options ==> options[k] in r
    {
      var methods := Elements(options.Keys);
      r := [];
      var ii := 0;
      while ii < |methods|
        invariant 0 <= ii <= |methods|
        invariant |r| == ii
        invariant forall j :: 0 <= j < ii ==> r[j] == options[methods[j]]
      {
        r := r + [options[methods[ii]]];
        ii := ii + 1;
      }
      forall k | k in options
        ensures options[k] in r
      {
        var j :| 0 <= j < |methods| && methods[j] == k;
        assert r[j] == options[k];
      }
    }

    /** environments(): every environment of the set exactly once. */
    method Environments() returns (r: seq<Env>)
      ensures |r| == |environments|
      ensures forall e :: e in r <==> e in environments
      ensures Distinct(r)
    {
      r := Elements(environments);
    }

    /** removeOption(m): unfiles and returns the option for m, or null; the rest stay. */
    method RemoveOption(key: string) returns (r: Option<OptionImpl>)
      requires Valid()
      modifies this`options
      ensures Valid()
      ensures r == (if key in old(options) then Some(old(options)[key]) else None)
      ensures options == old(options) - {key}
    {
      r := if key in options then Some(options[key]) else None;
      options := options - {key};
    }
  }
}
