/** BypassImpl (org/safehaus/guicyfig/BypassImpl.java): a bypass set built in
    code, its options keyed by method name. */
module BypassImpls {
  import opened Lang
  import opened Envs
  import opened RuleOptions
  import opened Collections

  class BypassImpl {
    var environments: set<Env>
    var options: map<string, OptionImpl>

    /** Every option is filed under its own method name. */
    ghost predicate Valid()
      reads this
    {
      forall k :: k in options ==> options[k].methodName == k
    }

    /** The copy constructor: environments copied, options put one by one. */
    constructor Copy(bypass: BypassSet)
      ensures Valid()
      ensures environments == Scope(bypass.environments)
      ensures options == KeyByMethod(bypass.options)
    {
      environments := Scope(bypass.environments);
      var opts := bypass.options;
      var m := map[];
      for i := 0 to |opts|
        invariant m == KeyByMethod(opts[..i])
      {
        assert opts[..i + 1][..i] == opts[..i];
        m := m[opts[i].methodName := opts[i]];
      }
      assert opts[..|opts|] == opts;
      options := m;
    }

    /** The no-argument constructor: no environments and no options. */
    constructor ()
      ensures Valid()
      ensures environments == {} && options == map[]
    {
      environments := {};
      options := map[];
    }

    /** Files an option under its method, replacing any earlier one, and returns it. */
    method AddOption(option: OptionImpl) returns (r: OptionImpl)
      requires Valid()
      modifies this`options
      ensures Valid()
      ensures r == option
      ensures options == old(options)[option.methodName := option]
    {
      options := options[option.methodName := option];
      r := option;
    }

    /** addOption(method, override): builds the option and returns what addOption stored. */
    method AddNewOption(methodName: string, override: Option<string>) returns (r: OptionImpl)
      requires Valid()
      modifies this`options
      ensures Valid()
      ensures r == OptionImpl(methodName, override)
      ensures options == old(options)[methodName := r]
    {
      var option := OptionImpl(methodName, override);
      r := AddOption(option);
    }

    /** options(): one entry per method name, each exactly what is filed under it. */
    method Options() returns (r: seq<OptionImpl>)
      requires Valid()
      ensures |r| == |options|
      ensures forall i :: 0 <= i < |r| ==> r[i].methodName in options && options[r[i].methodName] == r[i]
      ensures forall i, j :: 0 <= i < j < |r| ==> r[i].methodName != r[j].methodName
      ensures forall k :: k in options ==> options[k] in r
    {
      var methods := Elements(options.Keys);
      r := [];
      var ii := 0;
      while ii < |methods|
        invariant 0 <= ii <= |methods|
        invariant |r| == ii
        invariant forall j :: 0 <= j < ii ==> r[j] == options[methods[j]]
      {
        r := r + [options[methods[ii]]];
        ii := ii + 1;
      }
      forall k | k in options
        ensures options[k] in r
      {
        var j :| 0 <= j < |methods| && methods[j] == k;
        assert r[j] == options[k];
      }
    }

    /** environments(): every environment of the set exactly once. */
    method Environments() returns (r: seq<Env>)
      ensures |r| == |environments|
      ensures forall e :: e in r <==> e in environments
      ensures Distinct(r)
    {
      r := Elements(environments);
    }
  }
}
