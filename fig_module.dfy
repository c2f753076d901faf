/** The parts of GuicyFigModule (org/safehaus/guicyfig/GuicyFigModule.java)
    that decide values: how a read picks between bypass, override and live
    value, how an accessor's key and default are derived, how a registry is
    built for an interface, and the cache of singleton instances. */
module FigModule {
  import opened Lang
  import opened Conversion
  import opened RuleOptions
  import opened Schema
  import opened InternalOptionStates
  import opened InternalOptions
  import opened Registry

  /** The value an entry of a bypass or override set reads as: null for a
      null text, otherwise the text converted to the option's kind. */
  function EntryValue(kind: PropertyKind, entry: OptionImpl): (r: Result<Value>)
    ensures entry.override.None? ==> r == Ok(Null)
    ensures r.Thrown? ==> kind != StringProperty && r.exception != NullPointerException
    ensures kind == StringProperty && entry.override.Some? ==> r == Ok(StrVal(entry.override.value))
  {
    if entry.override.None? then Ok(Null) else ConvertValue(kind, entry.override)
  }

  /** The layering of a read: a bypass entry if there is one, else an
      override entry if there is one, else the live value. */
  function Resolve(kind: PropertyKind, bypass: Option<OptionImpl>, override: Option<OptionImpl>, live: Value): (r: Result<Value>)
    ensures bypass.None? && override.None? ==> r == Ok(live)
    ensures r.Thrown? ==> (bypass.Some? || override.Some?) && r.exception != NullPointerException
    ensures bypass.Some? ==> r == EntryValue(kind, bypass.value)
    ensures bypass.None? && override.Some? ==> r == EntryValue(kind, override.value)
  {
    match bypass
    case Some(b) => EntryValue(kind, b)
    case None =>
      match override
      case Some(o) => EntryValue(kind, o)
      case None => Ok(live)
  }

  /** The precedence branch of the interceptor, as it asks the option state:
      isBypassed, then isOverridden, else getValue. */
  function Read(option: InternalOptionState): (r: Result<Value>)
    reads option
    ensures r == Resolve(option.kind, option.bypass, option.override, option.property)
  {
    if option.IsBypassed() then option.GetBypassedValue()
    else if option.IsOverridden() then option.GetOverriddenValue()
    else Ok(option.GetValue())
  }

  /** A bypassed option reads its bypass value whatever its override and live value. */
  lemma BypassWins(kind: PropertyKind, b: OptionImpl, o1: Option<OptionImpl>, o2: Option<OptionImpl>, live1: Value, live2: Value)
    ensures Resolve(kind, Some(b), o1, live1) == Resolve(kind, Some(b), o2, live2) == EntryValue(kind, b)
  {
  }

  /** Without a bypass, an overridden option reads its override value whatever its live value. */
  lemma OverrideBeatsLive(kind: PropertyKind, o: OptionImpl, live1: Value, live2: Value)
    ensures Resolve(kind, None, Some(o), live1) == Resolve(kind, None, Some(o), live2) == EntryValue(kind, o)
  {
  }

  /** With neither entry, a read is the live value, unconverted. */
  lemma LiveWhenNoEntries(kind: PropertyKind, live: Value)
    ensures Resolve(kind, None, None, live) == Ok(live)
  {
  }

  /** The key of an accessor: its @Key value, or else the interface's
      canonical name, a dot, and the method name. */
  function DeriveKey(iface: FigInterface, m: Method): (k: string)
    ensures m.keyAnnotation.Some? ==> k == m.keyAnnotation.value
    ensures m.keyAnnotation.None? ==> |k| > |m.name| && k[|k| - |m.name| - 1..] == "." + m.name
  {
    match m.keyAnnotation
    case Some(k) => k
    case None => iface.canonicalName + "." + m.name
  }

  /** The default text of an accessor: its @Default value, or else the entry
      for its key in the defaults properties file, or else null. */
  function DeriveDefault(defaults: map<string, string>, key: string, m: Method): (d: Option<string>)
    ensures d.None? <==> m.defaultAnnotation.None? && key !in defaults
    ensures d.Some? && d != m.defaultAnnotation ==> key in defaults && d == Some(defaults[key])
  {
    if m.defaultAnnotation.Some? then m.defaultAnnotation
    else if key in defaults then Some(defaults[key])
    else None
  }

  /** A conventional key is the canonical name, a dot and the method name, in that order. */
  lemma ConventionalKeyShape(iface: FigInterface, m: Method)
    requires m.keyAnnotation.None?
    ensures var key := DeriveKey(iface, m);
            var n := |iface.canonicalName|;
            |key| == n + 1 + |m.name| && key[..n] == iface.canonicalName && key[n] == '.' && key[n + 1..] == m.name
  {
  }

  /** Within one interface, two accessors without @Key share a key exactly
      when they share a name. */
  lemma ConventionalKeysDistinct(iface: FigInterface, m1: Method, m2: Method)
    requires m1.keyAnnotation.None? && m2.keyAnnotation.None?
    ensures DeriveKey(iface, m1) == DeriveKey(iface, m2) <==> m1.name == m2.name
  {
    var n := |iface.canonicalName|;
    if DeriveKey(iface, m1) == DeriveKey(iface, m2) {
      ConventionalKeyShape(iface, m1);
      ConventionalKeyShape(iface, m2);
      assert m1.name == DeriveKey(iface, m1)[n + 1..];
    }
  }

  /** An @Key value is the key whatever the interface is called. */
  lemma KeyAnnotationWins(iface1: FigInterface, iface2: FigInterface, m: Method)
    requires m.keyAnnotation.Some?
    ensures DeriveKey(iface1, m) == DeriveKey(iface2, m) == m.keyAnnotation.value
  {
  }

  /** An @Default value is the default whatever the properties file says. */
  lemma DefaultAnnotationWins(defaults1: map<string, string>, defaults2: map<string, string>, key: string, m: Method)
    requires m.defaultAnnotation.Some?
    ensures DeriveDefault(defaults1, key, m) == DeriveDefault(defaults2, key, m) == m.defaultAnnotation
  {
  }

  /** Without @Default, the properties file supplies the default, if it has one. */
  lemma DefaultsFileOtherwise(defaults: map<string, string>, key: string, m: Method)
    requires m.defaultAnnotation.None?
    ensures DeriveDefault(defaults, key, m) == if key in defaults then Some(defaults[key]) else None
  {
  }

  /** The value the configuration holds for a key, if any. */
  function ConfiguredFor(configured: map<string, Value>, key: string): Option<Value> {
    if key in configured then Some(configured[key]) else None
  }

  /** The property add() obtains for the i-th accessor of the interface. */
  function PropertyOf(iface: FigInterface, configured: map<string, Value>, m: Method): Result<Option<Property>> {
    var key := DeriveKey(iface, m);
    PropertyFor(m.returnType, DeriveDefault(iface.defaults, key, m), ConfiguredFor(configured, key))
  }

  /** Whether every accessor's default parses, so that building completes. */
  predicate Buildable(iface: FigInterface, configured: map<string, Value>) {
    forall i :: 0 <= i < |iface.methods| ==> PropertyOf(iface, configured, iface.methods[i]).Ok?
  }

  /** Whether add() registers an option for the accessor's return type. */
  predicate Supported(m: Method) {
    KindOf(m.returnType).Some?
  }

  /** Option `o` is the one add() files for accessor `m`: its derived key, the
      kind of its return type, and the property obtained from its derived
      default and the configured value, with no override or bypass yet. */
  predicate FiledFor(o: InternalOption, iface: FigInterface, configured: map<string, Value>, m: Method)
    reads o
  {
    o.key == DeriveKey(iface, m) && Some(o.kind) == KindOf(m.returnType) &&
    PropertyOf(iface, configured, m) == Ok(Some(Property(o.kind, o.property))) &&
    o.currentValue == o.property && o.overrideValue == None && o.bypass == None
  }

  /** No supported accessor after the j-th, up to the n-th, has its key. */
  predicate KeyLast(iface: FigInterface, j: nat, n: nat)
    requires j < n <= |iface.methods|
  {
    forall l :: j < l < n && Supported(iface.methods[l]) ==>
      DeriveKey(iface, iface.methods[l]) != DeriveKey(iface, iface.methods[j])
  }

  /** No supported accessor after the j-th, up to the n-th, has its name. */
  predicate NameLast(iface: FigInterface, j: nat, n: nat)
    requires j < n <= |iface.methods|
  {
    forall l :: j < l < n && Supported(iface.methods[l]) ==> iface.methods[l].name != iface.methods[j].name
  }

  /** Among the first n accessors, every supported one that no later one
      displaces has its option under its derived key in `options`. */
  predicate KeysFiled(iface: FigInterface, options: map<string, InternalOption>, byMethod: map<Method, InternalOption>, n: nat)
    requires n <= |iface.methods|
  {
    forall j :: (0 <= j < n && Supported(iface.methods[j]) && KeyLast(iface, j, n)) ==>
      DeriveKey(iface, iface.methods[j]) in options && iface.methods[j] in byMethod &&
      options[DeriveKey(iface, iface.methods[j])] == byMethod[iface.methods[j]]
  }

  /** The same for the method-name table. */
  predicate NamesFiled(iface: FigInterface, byName: map<string, InternalOption>, byMethod: map<Method, InternalOption>, n: nat)
    requires n <= |iface.methods|
  {
    forall j :: (0 <= j < n && Supported(iface.methods[j]) && NameLast(iface, j, n)) ==>
      iface.methods[j].name in byName && iface.methods[j] in byMethod &&
      byName[iface.methods[j].name] == byMethod[iface.methods[j]]
  }

  /** Filing the n-th accessor's option under its key and its method keeps KeysFiled. */
  lemma KeysFiledStep(iface: FigInterface, options: map<string, InternalOption>, byMethod: map<Method, InternalOption>, n: nat, o: InternalOption)
    requires n < |iface.methods| && Supported(iface.methods[n])
    requires KeysFiled(iface, options, byMethod, n)
    ensures KeysFiled(iface, options[DeriveKey(iface, iface.methods[n]) := o], byMethod[iface.methods[n] := o], n + 1)
  {
    var m := iface.methods[n];
    forall j | 0 <= j < n + 1 && Supported(iface.methods[j]) && KeyLast(iface, j, n + 1)
      ensures DeriveKey(iface, iface.methods[j]) in options[DeriveKey(iface, m) := o]
      ensures iface.methods[j] in byMethod[m := o]
      ensures options[DeriveKey(iface, m) := o][DeriveKey(iface, iface.methods[j])] == byMethod[m := o][iface.methods[j]]
    {
      if j < n {
        assert KeyLast(iface, j, n);
        assert DeriveKey(iface, m) != DeriveKey(iface, iface.methods[j]);
      }
    }
  }

  /** Skipping an unsupported n-th accessor keeps KeysFiled. */
  lemma KeysFiledSkip(iface: FigInterface, options: map<string, InternalOption>, byMethod: map<Method, InternalOption>, n: nat)
    requires n < |iface.methods| && !Supported(iface.methods[n])
    requires KeysFiled(iface, options, byMethod, n)
    ensures KeysFiled(iface, options, byMethod, n + 1)
  {
    forall j | 0 <= j < n + 1 && Supported(iface.methods[j]) && KeyLast(iface, j, n + 1)
      ensures KeyLast(iface, j, n)
    {
    }
  }

  /** Filing the n-th accessor's option under its name and its method keeps NamesFiled. */
  lemma NamesFiledStep(iface: FigInterface, byName: map<string, InternalOption>, byMethod: map<Method, InternalOption>, n: nat, o: InternalOption)
    requires n < |iface.methods| && Supported(iface.methods[n])
    requires NamesFiled(iface, byName, byMethod, n)
    ensures NamesFiled(iface, byName[iface.methods[n].name := o], byMethod[iface.methods[n] := o], n + 1)
  {
    var m := iface.methods[n];
    forall j | 0 <= j < n + 1 && Supported(iface.methods[j]) && NameLast(iface, j, n + 1)
      ensures iface.methods[j].name in byName[m.name := o]
      ensures iface.methods[j] in byMethod[m := o]
      ensures byName[m.name := o][iface.methods[j].name] == byMethod[m := o][iface.methods[j]]
    {
      if j < n {
        assert NameLast(iface, j, n);
        assert m.name != iface.methods[j].name;
      }
    }
  }

  /** Skipping an unsupported n-th accessor keeps NamesFiled. */
  lemma NamesFiledSkip(iface: FigInterface, byName: map<string, InternalOption>, byMethod: map<Method, InternalOption>, n: nat)
    requires n < |iface.methods| && !Supported(iface.methods[n])
    requires NamesFiled(iface, byName, byMethod, n)
    ensures NamesFiled(iface, byName, byMethod, n + 1)
  {
    forall j | 0 <= j < n + 1 && Supported(iface.methods[j]) && NameLast(iface, j, n + 1)
      ensures NameLast(iface, j, n)
    {
    }
  }

  /** The defaults of the first n accessors all parse. */
  predicate Parsed(iface: FigInterface, configured: map<string, Value>, n: nat)
    requires n <= |iface.methods|
  {
    forall j :: 0 <= j < n ==> PropertyOf(iface, configured, iface.methods[j]).Ok?
  }

  /** Each supported one of the first n accessors has the option FiledFor it under its method. */
  predicate FiledAll(iface: FigInterface, configured: map<string, Value>, byMethod: map<Method, InternalOption>, n: nat)
    requires n <= |iface.methods|
    reads byMethod.Values
  {
    forall j :: 0 <= j < n && Supported(iface.methods[j]) ==>
      iface.methods[j] in byMethod && FiledFor(byMethod[iface.methods[j]], iface, configured, iface.methods[j])
  }

  /** Each supported one of the first n accessors has its key and its name filed. */
  predicate Indexed(iface: FigInterface, keys: set<string>, names: set<string>, n: nat)
    requires n <= |iface.methods|
  {
    forall j :: 0 <= j < n && Supported(iface.methods[j]) ==>
      iface.methods[j].name in names && DeriveKey(iface, iface.methods[j]) in keys
  }

  /** The keys, methods and method names add() files for the first n
      accessors: those of the supported ones. */
  function FiledKeys(iface: FigInterface, n: nat): set<string>
    requires n <= |iface.methods|
  {
    if n == 0 then {}
    else FiledKeys(iface, n - 1) + (if Supported(iface.methods[n - 1]) then {DeriveKey(iface, iface.methods[n - 1])} else {})
  }

  function FiledMethods(iface: FigInterface, n: nat): set<Method>
    requires n <= |iface.methods|
  {
    if n == 0 then {}
    else FiledMethods(iface, n - 1) + (if Supported(iface.methods[n - 1]) then {iface.methods[n - 1]} else {})
  }

  function FiledNames(iface: FigInterface, n: nat): set<string>
    requires n <= |iface.methods|
  {
    if n == 0 then {}
    else FiledNames(iface, n - 1) + (if Supported(iface.methods[n - 1]) then {iface.methods[n - 1].name} else {})
  }

  /** A key, method or name is among those filed for the first n accessors
      exactly when a supported one of them has it. */
  lemma {:induction false} FiledMembers(iface: FigInterface, n: nat, k: string, m: Method, s: string)
    requires n <= |iface.methods|
    ensures k in FiledKeys(iface, n) <==> exists j :: 0 <= j < n && Supported(iface.methods[j]) && DeriveKey(iface, iface.methods[j]) == k
    ensures m in FiledMethods(iface, n) <==> exists j :: 0 <= j < n && Supported(iface.methods[j]) && iface.methods[j] == m
    ensures s in FiledNames(iface, n) <==> exists j :: 0 <= j < n && Supported(iface.methods[j]) && iface.methods[j].name == s
  {
    if n > 0 {
      FiledMembers(iface, n - 1, k, m, s);
      if k in FiledKeys(iface, n) && k !in FiledKeys(iface, n - 1) {
        assert DeriveKey(iface, iface.methods[n - 1]) == k;
      }
      if m in FiledMethods(iface, n) && m !in FiledMethods(iface, n - 1) {
        assert iface.methods[n - 1] == m;
      }
      if s in FiledNames(iface, n) && s !in FiledNames(iface, n - 1) {
        assert iface.methods[n - 1].name == s;
      }
    }
  }

  /** Parsing the n-th default keeps Parsed. */
  lemma ParsedStep(iface: FigInterface, configured: map<string, Value>, n: nat)
    requires n < |iface.methods| && Parsed(iface, configured, n)
    requires PropertyOf(iface, configured, iface.methods[n]).Ok?
    ensures Parsed(iface, configured, n + 1)
  {
  }

  /** Filing the option FiledFor the n-th accessor under its method keeps FiledAll. */
  lemma FiledAllStep(iface: FigInterface, configured: map<string, Value>, byMethod: map<Method, InternalOption>, n: nat, o: InternalOption)
    requires n < |iface.methods| && FiledAll(iface, configured, byMethod, n)
    requires FiledFor(o, iface, configured, iface.methods[n])
    ensures FiledAll(iface, configured, byMethod[iface.methods[n] := o], n + 1)
  {
  }

  /** Skipping an unsupported n-th accessor keeps FiledAll. */
  lemma FiledAllSkip(iface: FigInterface, configured: map<string, Value>, byMethod: map<Method, InternalOption>, n: nat)
    requires n < |iface.methods| && !Supported(iface.methods[n])
    requires FiledAll(iface, configured, byMethod, n)
    ensures FiledAll(iface, configured, byMethod, n + 1)
  {
  }

  /** Filing the n-th accessor's key and name keeps Indexed. */
  lemma IndexedStep(iface: FigInterface, keys: set<string>, names: set<string>, n: nat)
    requires n < |iface.methods| && Indexed(iface, keys, names, n)
    ensures Indexed(iface, keys + {DeriveKey(iface, iface.methods[n])}, names + {iface.methods[n].name}, n + 1)
  {
  }

  /** Skipping an unsupported n-th accessor keeps Indexed. */
  lemma IndexedSkip(iface: FigInterface, keys: set<string>, names: set<string>, n: nat)
    requires n < |iface.methods| && !Supported(iface.methods[n]) && Indexed(iface, keys, names, n)
    ensures Indexed(iface, keys, names, n + 1)
  {
  }

  /** The registry holds what buildBaseObject has filed for the first n
      accessors: every default so far parsed, each supported accessor has the
      option FiledFor it under its method, the key and name tables agree with
      that option unless a later accessor took the key or name, and every
      key, method and name filed is a supported accessor's. */
  ghost predicate Built(config: BaseGuicyFig, iface: FigInterface, configured: map<string, Value>, n: nat)
    requires n <= |iface.methods|
    reads config, config.Repr
  {
    config.Valid() && Parsed(iface, configured, n) &&
    FiledAll(iface, configured, config.methodOptionMap, n) &&
    Indexed(iface, config.options.Keys, config.methodNameOptionMap.Keys, n) &&
    KeysFiled(iface, config.options, config.methodOptionMap, n) &&
    NamesFiled(iface, config.methodNameOptionMap, config.methodOptionMap, n) &&
    config.options.Keys <= FiledKeys(iface, n) && config.methodOptionMap.Keys <= FiledMethods(iface, n) &&
    config.methodNameOptionMap.Keys <= FiledNames(iface, n)
  }

  /** One turn of buildBaseObject's loop: add() for the i-th accessor with
      its derived key and default. A malformed default throws; otherwise the
      registry has been built for one more accessor. */
  method FileAccessor(config: BaseGuicyFig, iface: FigInterface, configured: map<string, Value>, i: nat)
    returns (thrown: Option<Exception>)
    requires i < |iface.methods| && Built(config, iface, configured, i)
    modifies config`options, config`methodOptionMap, config`methodNameOptionMap, config`Repr
    ensures thrown.None? <==> PropertyOf(iface, configured, iface.methods[i]).Ok?
    ensures thrown.Some? ==> thrown.value == NumberFormatException
    ensures thrown.None? ==> Built(config, iface, configured, i + 1)
  {
    var m := iface.methods[i];
    // the precedence of @Key and @Default: KeyAnnotationWins, DefaultAnnotationWins
    var key := DeriveKey(iface, m);
    var defval := DeriveDefault(iface.defaults, key, m);
    ghost var options0, byMethod0, byName0 := config.options, config.methodOptionMap, config.methodNameOptionMap;
    assert FiledAll(iface, configured, byMethod0, i);
    var added := config.Add(Some(key), defval, Some(m), ConfiguredFor(configured, key));
    if added.Thrown? {
      return Some(added.exception);
    }
    thrown := None;
    ParsedStep(iface, configured, i);
    if Supported(m) {
      ghost var o := config.options[key];
      assert FiledFor(o, iface, configured, m);
      FiledAllStep(iface, configured, byMethod0, i, o);
      IndexedStep(iface, options0.Keys, byName0.Keys, i);
      assert config.options.Keys == options0.Keys + {key};
      assert config.methodOptionMap.Keys == byMethod0.Keys + {m};
      assert config.methodNameOptionMap.Keys == byName0.Keys + {m.name};
      KeysFiledStep(iface, options0, byMethod0, i, o);
      NamesFiledStep(iface, byName0, byMethod0, i, o);
    } else {
      FiledAllSkip(iface, configured, byMethod0, i);
      IndexedSkip(iface, options0.Keys, byName0.Keys, i);
      KeysFiledSkip(iface, options0, byMethod0, i);
      NamesFiledSkip(iface, byName0, byMethod0, i);
    }
  }

  /** What a registry freshly built for `iface` holds: the interface
      recorded, no override or bypass set, every accessor of a supported
      return type with the option FiledFor it under its method and its key
      and name filed, the key table and the method-name table holding that
      same option unless a later accessor took the key or the name, and no
      key, method or name filed but a supported accessor's. */
  ghost predicate BuiltRegistry(config: BaseGuicyFig, iface: FigInterface, configured: map<string, Value>)
    reads config, config.Repr
  {
    config.Valid() && config.figInterface == Some(iface) && config.overrides == None && config.bypass == None &&
    (forall m :: m in iface.methods && Supported(m) ==>
       m in config.methodOptionMap && FiledFor(config.methodOptionMap[m], iface, configured, m) &&
       m.name in config.methodNameOptionMap && DeriveKey(iface, m) in config.options) &&
    KeysFiled(iface, config.options, config.methodOptionMap, |iface.methods|) &&
    NamesFiled(iface, config.methodNameOptionMap, config.methodOptionMap, |iface.methods|) &&
    config.options.Keys <= FiledKeys(iface, |iface.methods|) &&
    config.methodOptionMap.Keys <= FiledMethods(iface, |iface.methods|) &&
    config.methodNameOptionMap.Keys <= FiledNames(iface, |iface.methods|)
  }

  /** buildBaseObject, with the defaults file in the interface and
      `configured` the values the configuration holds: a fresh registry for
      the interface in which every accessor of a supported return type has
      the option FiledFor it under its method, and no other key is filed. The
      key table and the method-name table hold that same option unless a later
      accessor took the key or the name. A malformed default aborts the build
      with its exception. */
  method BuildBaseObject(iface: FigInterface, configured: map<string, Value>) returns (r: Result<BaseGuicyFig>)
    ensures r.Ok? <==> Buildable(iface, configured)
    ensures r.Thrown? ==> r.exception == NumberFormatException
    ensures r.Ok? ==> fresh(r.value) && !r.value.singleton && BuiltRegistry(r.value, iface, configured)
  {
    var config := new BaseGuicyFig();
    var recorded := config.SetFigInterface(Some(iface));
    for i := 0 to |iface.methods|
      invariant fresh(config) && config.figInterface == Some(iface)
      invariant !config.singleton && config.overrides == None && config.bypass == None
      invariant Built(config, iface, configured, i)
    {
      var thrown := FileAccessor(config, iface, configured, i);
      if thrown.Some? {
        return Thrown(thrown.value);
      }
    }
    r := Ok(config);
  }

  /** getConcreteObject: a built registry marked singleton or not. The proxy
      around it is not modelled; reads through it are Read. */
  method GetConcreteObject(singleton: bool, iface: FigInterface, configured: map<string, Value>)
    returns (r: Result<BaseGuicyFig>)
    ensures r.Ok? <==> Buildable(iface, configured)
    ensures r.Ok? ==> fresh(r.value) && r.value.singleton == singleton && BuiltRegistry(r.value, iface, configured)
  {
    r := BuildBaseObject(iface, configured);
    if r.Ok? {
      r.value.SetSingleton(singleton);
    }
  }

  /** The provider bound for each interface, with the static singletons map
      it shares with every other provider. */
  class FigProvider {
    var singletons: map<FigInterface, BaseGuicyFig>

    constructor ()
      ensures singletons == map[]
    {
      singletons := map[];
    }

    /** get(): a @FigSingleton interface is built once and cached, and every
        later request returns the cached instance; any other interface gets
        a fresh instance on every request. */
    method Get(iface: FigInterface, configured: map<string, Value>) returns (r: Result<BaseGuicyFig>)
      modifies this
      ensures iface.figSingleton && iface in old(singletons) ==>
                r == Ok(old(singletons)[iface]) && singletons == old(singletons)
      ensures iface.figSingleton && iface !in old(singletons) ==>
                (r.Ok? <==> Buildable(iface, configured)) &&
                (r.Ok? ==> fresh(r.value) && r.value.singleton && BuiltRegistry(r.value, iface, configured) &&
                           singletons == old(singletons)[iface := r.value]) &&
                (r.Thrown? ==> singletons == old(singletons))
      ensures !iface.figSingleton ==>
                singletons == old(singletons) &&
                (r.Ok? <==> Buildable(iface, configured)) &&
                (r.Ok? ==> fresh(r.value) && !r.value.singleton && BuiltRegistry(r.value, iface, configured))
    {
      if iface.figSingleton {
        if iface !in singletons {
          r := GetConcreteObject(true, iface, configured);
          if r.Ok? {
            singletons := singletons[iface := r.value];
          }
        } else {
          r := Ok(singletons[iface]);
        }
      } else {
        r := GetConcreteObject(false, iface, configured);
      }
    }
  }

  /** Two requests for a singleton interface yield one instance. */
  method SingletonRequestsShareInstance(p: FigProvider, iface: FigInterface, configured: map<string, Value>)
    returns (first: Result<BaseGuicyFig>, second: Result<BaseGuicyFig>)
    requires iface.figSingleton
    modifies p
    ensures first.Ok? ==> second == first
  {
    first := p.Get(iface, configured);
    second := p.Get(iface, configured);
  }

  /** Two requests for any other interface yield two distinct instances. */
  method PlainRequestsGetFreshInstances(p: FigProvider, iface: FigInterface, configured: map<string, Value>)
    returns (first: Result<BaseGuicyFig>, second: Result<BaseGuicyFig>)
    requires !iface.figSingleton
    modifies p
    ensures first.Ok? && second.Ok? ==> first.value != second.value
  {
    first := p.Get(iface, configured);
    second := p.Get(iface, configured);
  }
}
