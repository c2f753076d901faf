/** BaseGuicyFig (org/safehaus/guicyfig/BaseGuicyFig.java): the registry of a
    configuration object's options and the application of bypass and
    override sets to them. */
module Registry {
  import opened Lang
  import opened Text
  import opened Envs
  import opened Conversion
  import opened RuleOptions
  import opened Schema
  import opened InternalOptions
  import opened Collections

  /** A property change event as PropertyChangeSupport fires it. */
  datatype ChangeEvent = ChangeEvent(key: string, oldValue: Value, newValue: Value)

  /** The wrapper class add() asks the property factory for, by return type;
      None for a return type add() does not support. */
  function KindOf(rt: ReturnType): Option<PropertyKind> {
    match rt
    case IntType => Some(IntProperty)
    case IntegerType => Some(IntProperty)
    case StringType => Some(StringProperty)
    case LongType => Some(LongProperty)
    case LongBoxedType => Some(LongProperty)
    case BooleanType => Some(BooleanProperty)
    case _ => None
  }

  /** The property add() obtains for a key: the default is parsed from
      `defval` (0 or false when it is null) before the factory is called, so
      a malformed numeric default throws NumberFormatException even when the
      key is configured; `configured` is the value the configuration holds
      for the key, if any, and it beats the default. Ok(None) is the
      unsupported return type. */
  function PropertyFor(rt: ReturnType, defval: Option<string>, configured: Option<Value>): (r: Result<Option<Property>>)
    ensures r.Thrown? ==> r.exception == NumberFormatException && defval.Some?
    ensures r.Thrown? ==> KindOf(rt) == Some(IntProperty) || KindOf(rt) == Some(LongProperty)
    ensures r.Ok? ==> (r.value.Some? <==> KindOf(rt).Some?)
    ensures r.Ok? && r.value.Some? ==> r.value.value.kind == KindOf(rt).value
    ensures r.Ok? && r.value.Some? && configured.Some? ==> r.value.value.value == configured.value
  {
    match rt
    case IntType => IntPropertyFor(defval, configured)
    case IntegerType => IntPropertyFor(defval, configured)
    case StringType =>
      Ok(Some(Property(StringProperty, configured.GetOr(if defval.None? then Null else StrVal(defval.value)))))
    case LongType => LongPropertyFor(defval, configured)
    case LongBoxedType => LongPropertyFor(defval, configured)
    case BooleanType => Ok(Some(Property(BooleanProperty, configured.GetOr(BoolVal(ParseBoolean(defval))))))
    case _ => Ok(None)
  }

  function IntPropertyFor(defval: Option<string>, configured: Option<Value>): Result<Option<Property>> {
    if defval.None? then Ok(Some(Property(IntProperty, configured.GetOr(IntVal(0)))))
    else match ParseInt(defval.value)
      case Some(n) => Ok(Some(Property(IntProperty, configured.GetOr(IntVal(n)))))
      case None => Thrown(NumberFormatException)
  }

  function LongPropertyFor(defval: Option<string>, configured: Option<Value>): Result<Option<Property>> {
    if defval.None? then Ok(Some(Property(LongProperty, configured.GetOr(LongVal(0)))))
    else match ParseLong(defval.value)
      case Some(n) => Ok(Some(Property(LongProperty, configured.GetOr(LongVal(n)))))
      case None => Thrown(NumberFormatException)
  }

  /** An unconfigured key takes its default: the parsed default text, and
      0, false or null when there is no default text. */
  lemma UnconfiguredPropertyTakesDefault(rt: ReturnType, n: int)
    ensures rt == IntType && INT_MIN <= n <= INT_MAX ==>
              PropertyFor(rt, Some(FormatDecimal(n)), None) == Ok(Some(Property(IntProperty, IntVal(n))))
    ensures rt == LongType && LONG_MIN <= n <= LONG_MAX ==>
              PropertyFor(rt, Some(FormatDecimal(n)), None) == Ok(Some(Property(LongProperty, LongVal(n))))
    ensures rt == IntType ==> PropertyFor(rt, None, None) == Ok(Some(Property(IntProperty, IntVal(0))))
    ensures rt == LongType ==> PropertyFor(rt, None, None) == Ok(Some(Property(LongProperty, LongVal(0))))
    ensures rt == BooleanType ==> PropertyFor(rt, None, None) == Ok(Some(Property(BooleanProperty, BoolVal(false))))
    ensures rt == StringType ==> PropertyFor(rt, None, None) == Ok(Some(Property(StringProperty, Null)))
  {
    if rt == IntType && INT_MIN <= n <= INT_MAX {
      IntRoundTrip(n);
    }
    if rt == LongType && LONG_MIN <= n <= LONG_MAX {
      LongRoundTrip(n);
    }
  }

  /** Whether add() gets as far as registering an option. */
  predicate Registers(key: Option<string>, m: Option<Method>, defval: Option<string>, configured: Option<Value>) {
    key.Some? && m.Some? &&
    var p := PropertyFor(m.value.returnType, defval, configured);
    p.Ok? && p.value.Some?
  }

  /** The position of the last entry of `opts` whose method name the table
      maps to option `o`; None when no entry reaches `o`. */
  function LastFor(opts: seq<OptionImpl>, table: map<string, InternalOption>, o: InternalOption): (r: Option<nat>)
    ensures r.Some? ==> r.value < |opts| && opts[r.value].methodName in table && table[opts[r.value].methodName] == o
    ensures r.Some? ==> forall j :: r.value < j < |opts| && opts[j].methodName in table ==> table[opts[j].methodName] != o
    ensures r.None? ==> forall j :: 0 <= j < |opts| && opts[j].methodName in table ==> table[opts[j].methodName] != o
  {
    if opts == [] then None
    else
      var last := opts[|opts| - 1];
      if last.methodName in table && table[last.methodName] == o then Some(|opts| - 1)
      else
        var prefix := opts[..|opts| - 1];
        assert forall j :: 0 <= j < |prefix| ==> prefix[j] == opts[j];
        LastFor(prefix, table, o)
  }

  /** The position of the first entry whose method name is not registered. */
  function FirstUnregistered(opts: seq<OptionImpl>, table: map<string, InternalOption>): (r: Option<nat>)
    ensures r.Some? ==> r.value < |opts| && opts[r.value].methodName !in table
    ensures r.Some? ==> forall i :: 0 <= i < r.value ==> opts[i].methodName in table
    ensures r.None? ==> forall i :: 0 <= i < |opts| ==> opts[i].methodName in table
  {
    if opts == [] then None
    else if opts[0].methodName !in table then Some(0)
    else
      match FirstUnregistered(opts[1..], table)
      case Some(i) => Some(i + 1)
      case None => None
  }

  /** FirstUnregistered is pinned down by where a left-to-right scan stops. */
  lemma {:induction false} FirstUnregisteredAt(opts: seq<OptionImpl>, table: map<string, InternalOption>, i: nat)
    requires i <= |opts|
    requires forall j :: 0 <= j < i ==> opts[j].methodName in table
    requires i < |opts| ==> opts[i].methodName !in table
    ensures FirstUnregistered(opts, table) == if i < |opts| then Some(i) else None
  {
    if opts != [] && i > 0 {
      FirstUnregisteredAt(opts[1..], table, i - 1);
    }
  }

  /** The bypass text option `o` holds after the entries of `opts` were applied
      in order to a slot that held `before`. */
  function Bypassed(opts: seq<OptionImpl>, table: map<string, InternalOption>, o: InternalOption, before: Option<string>): Option<string> {
    match LastFor(opts, table, o)
    case Some(i) => opts[i].override
    case None => before
  }

  /** The bypass text option `o` holds after the entries of `opts` were cleared. */
  function Cleared(opts: seq<OptionImpl>, table: map<string, InternalOption>, o: InternalOption, before: Option<string>): Option<string> {
    if LastFor(opts, table, o).Some? then None else before
  }

  /** setCurrentValue(annotation.override()) stores the override String
      itself, whatever the option's kind. */
  function TextValue(text: Option<string>): Value {
    if text.None? then Null else StrVal(text.value)
  }

  /** The current value option `o` holds after the entries of `opts` were applied. */
  function Overridden(opts: seq<OptionImpl>, table: map<string, InternalOption>, o: InternalOption, before: Value): Value {
    match LastFor(opts, table, o)
    case Some(i) => TextValue(opts[i].override)
    case None => before
  }

  /** The override layer after setOverrideProperty(key, text) for each
      registered entry, in order. */
  function StoreAfter(opts: seq<OptionImpl>, table: map<string, InternalOption>, store: map<string, Option<string>>): map<string, Option<string>> {
    if opts == [] then store
    else
      var s := StoreAfter(opts[..|opts| - 1], table, store);
      var a := opts[|opts| - 1];
      if a.methodName in table then s[table[a.methodName].key := a.override] else s
  }

  /** The override layer after clearOverrideProperty(getKeyByMethod(m)) for
      each entry; an unregistered method clears nothing. */
  function StoreCleared(opts: seq<OptionImpl>, table: map<string, InternalOption>, store: map<string, Option<string>>): map<string, Option<string>> {
    if opts == [] then store
    else
      var s := StoreCleared(opts[..|opts| - 1], table, store);
      var a := opts[|opts| - 1];
      if a.methodName in table then s - {table[a.methodName].key} else s
  }

  /** Applying a set writes, for every registered entry, the text of the last
      entry that reaches the same option. */
  lemma {:induction false} BypassedByLastEntry(opts: seq<OptionImpl>, table: map<string, InternalOption>, o: InternalOption, before: Option<string>, i: nat)
    requires i < |opts| && opts[i].methodName in table && table[opts[i].methodName] == o
    requires forall j :: i < j < |opts| && opts[j].methodName in table ==> table[opts[j].methodName] != o
    ensures Bypassed(opts, table, o, before) == opts[i].override
    ensures Overridden(opts, table, o, TextValue(before)) == TextValue(opts[i].override)
    ensures Cleared(opts, table, o, before) == None
  {
    var r := LastFor(opts, table, o);
    assert r.Some?;
    if r.value < i {
      assert false;
    } else if r.value > i {
      assert false;
    }
  }

  /** An option no entry reaches keeps its slot through application and clearing. */
  lemma UnreachedOptionKeepsSlots(opts: seq<OptionImpl>, table: map<string, InternalOption>, o: InternalOption, before: Option<string>, current: Value)
    requires forall j :: 0 <= j < |opts| && opts[j].methodName in table ==> table[opts[j].methodName] != o
    ensures Bypassed(opts, table, o, before) == before
    ensures Cleared(opts, table, o, before) == before
    ensures Overridden(opts, table, o, current) == current
  {
  }

  /** After applying, the override layer maps the key of a reached option to
      the text of the last entry that reaches an option with that key. */
  lemma {:induction false} StoreAfterHoldsLast(opts: seq<OptionImpl>, table: map<string, InternalOption>, store: map<string, Option<string>>, i: nat)
    requires i < |opts| && opts[i].methodName in table
    requires forall j :: i < j < |opts| && opts[j].methodName in table ==>
               table[opts[j].methodName].key != table[opts[i].methodName].key
    ensures var k := table[opts[i].methodName].key;
            k in StoreAfter(opts, table, store) && StoreAfter(opts, table, store)[k] == opts[i].override
  {
    if i < |opts| - 1 {
      var prefix := opts[..|opts| - 1];
      assert forall j :: 0 <= j < |prefix| ==> prefix[j] == opts[j];
      StoreAfterHoldsLast(prefix, table, store, i);
    }
  }

  /** A key no registered entry maps to is left as it was by applying. */
  lemma {:induction false} StoreAfterKeepsOthers(opts: seq<OptionImpl>, table: map<string, InternalOption>, store: map<string, Option<string>>, k: string)
    requires forall j :: 0 <= j < |opts| && opts[j].methodName in table ==> table[opts[j].methodName].key != k
    ensures (k in StoreAfter(opts, table, store)) == (k in store)
    ensures k in store ==> StoreAfter(opts, table, store)[k] == store[k]
  {
    if opts != [] {
      var prefix := opts[..|opts| - 1];
      assert forall j :: 0 <= j < |prefix| ==> prefix[j] == opts[j];
      StoreAfterKeepsOthers(prefix, table, store, k);
    }
  }

  /** Clearing removes the key of every registered entry. */
  lemma {:induction false} StoreClearedRemoves(opts: seq<OptionImpl>, table: map<string, InternalOption>, store: map<string, Option<string>>, i: nat)
    requires i < |opts| && opts[i].methodName in table
    ensures table[opts[i].methodName].key !in StoreCleared(opts, table, store)
  {
    if i < |opts| - 1 {
      var prefix := opts[..|opts| - 1];
      assert prefix[i] == opts[i];
      StoreClearedRemoves(prefix, table, store, i);
    }
  }

  /** Clearing leaves a key that no registered entry maps to as it was. */
  lemma {:induction false} StoreClearedKeepsOthers(opts: seq<OptionImpl>, table: map<string, InternalOption>, store: map<string, Option<string>>, k: string)
    requires forall j :: 0 <= j < |opts| && opts[j].methodName in table ==> table[opts[j].methodName].key != k
    ensures (k in StoreCleared(opts, table, store)) == (k in store)
    ensures k in store ==> StoreCleared(opts, table, store)[k] == store[k]
  {
    if opts != [] {
      var prefix := opts[..|opts| - 1];
      assert forall j :: 0 <= j < |prefix| ==> prefix[j] == opts[j];
      StoreClearedKeepsOthers(prefix, table, store, k);
    }
  }

  class BaseGuicyFig {
    var options: map<string, InternalOption>
    var methodOptionMap: map<Method, InternalOption>
    var methodNameOptionMap: map<string, InternalOption>
    var overrides: Option<OverridesSet>
    var singleton: bool
    var figInterface: Option<FigInterface>
    var bypass: Option<BypassSet>
    /** The events fired through PropertyChangeSupport, oldest first. */
    var events: seq<ChangeEvent>
    /** The override layer of the ConcurrentCompositeConfiguration, by key. */
    var overrideStore: map<string, Option<string>>
    /** The options registered so far. */
    ghost var Repr: set<InternalOption>

    /** Every table holds registered options, and each option is filed in the
        key table under its own key. */
    ghost predicate Valid()
      reads this
    {
      options.Values <= Repr && methodOptionMap.Values <= Repr && methodNameOptionMap.Values <= Repr &&
      forall k :: k in options ==> options[k].key == k
    }

    /** A fresh registry: no options, no sets recorded, no events. */
    constructor ()
      ensures Valid() && Repr == {}
      ensures options == map[] && methodOptionMap == map[] && methodNameOptionMap == map[]
      ensures overrides == None && bypass == None && !singleton && figInterface == None
      ensures events == [] && overrideStore == map[]
    {
      options := map[];
      methodOptionMap := map[];
      methodNameOptionMap := map[];
      overrides := None;
      singleton := false;
      figInterface := None;
      bypass := None;
      events := [];
      overrideStore := map[];
      Repr := {};
    }

    /** add(key, defval, method), with `configured` the value the configuration
        holds for the key. A null key or method is a NullPointerException, a
        malformed numeric default a NumberFormatException, and an unsupported
        return type yields null; none of these changes a table. Otherwise the
        new option is filed in all three tables and the option previously
        filed under the key is returned. */
    method Add(key: Option<string>, defval: Option<string>, m: Option<Method>, configured: Option<Value>)
      returns (r: Result<Option<InternalOption>>)
      requires Valid()
      modifies this`options, this`methodOptionMap, this`methodNameOptionMap, this`Repr
      ensures Valid()
      ensures key.None? || m.None? ==> r == Thrown(NullPointerException)
      ensures key.Some? && m.Some? && PropertyFor(m.value.returnType, defval, configured).Thrown? ==>
                r == Thrown(NumberFormatException)
      ensures key.Some? && m.Some? && PropertyFor(m.value.returnType, defval, configured) == Ok(None) ==>
                r == Ok(None)
      ensures !Registers(key, m, defval, configured) ==>
                options == old(options) && methodOptionMap == old(methodOptionMap) &&
                methodNameOptionMap == old(methodNameOptionMap) && Repr == old(Repr)
      ensures Registers(key, m, defval, configured) ==>
                var p := PropertyFor(m.value.returnType, defval, configured).value.value;
                key.value in options &&
                var o := options[key.value];
                r == Ok(if key.value in old(options) then Some(old(options)[key.value]) else None) &&
                fresh(o) && Repr == old(Repr) + {o} &&
                o.key == key.value && o.kind == p.kind && o.property == p.value && o.currentValue == p.value &&
                o.overrideValue == None && o.bypass == None &&
                options == old(options)[key.value := o] &&
                methodOptionMap == old(methodOptionMap)[m.value := o] &&
                methodNameOptionMap == old(methodNameOptionMap)[m.value.name := o] &&
                GetKeyByMethod(m.value.name) == key && GetValueByMethod(m.value.name) == p.value
    {
      if key.None? || m.None? {
        return Thrown(NullPointerException);
      }
      var p := PropertyFor(m.value.returnType, defval, configured);
      if p.Thrown? {
        return Thrown(p.exception);
      }
      if p.value.None? {
        return Ok(None);
      }
      var option := new InternalOption(key.value, p.value.value);
      methodOptionMap := methodOptionMap[m.value := option];
      methodNameOptionMap := methodNameOptionMap[m.value.name := option];
      r := Ok(if option.key in options then Some(options[option.key]) else None);
      options := options[option.key := option];
      Repr := Repr + {option};
    }

    /** PropertyChangeRunner.run, the callback Archaius runs for an option's
        property: when the cached value differs from the live one it fires
        one event (key, cached, live) and then caches the live value. A null
        cached value is a NullPointerException. */
    method Run(option: InternalOption) returns (r: Result<()>)
      modifies this`events, option`currentValue
      ensures old(option.currentValue) == Null ==>
                r == Thrown(NullPointerException) && events == old(events) && option.currentValue == Null
      ensures old(option.currentValue) != Null && old(option.currentValue) != option.property ==>
                r == Ok(()) && option.currentValue == option.property &&
                events == old(events) + [ChangeEvent(option.key, old(option.currentValue), option.property)]
      ensures old(option.currentValue) != Null && old(option.currentValue) == option.property ==>
                r == Ok(()) && events == old(events) && option.currentValue == old(option.currentValue)
    {
      if option.CurrentValue() == Null {
        return Thrown(NullPointerException);
      }
      if option.CurrentValue() != option.GetNewPropertyValue() {
        events := events + [ChangeEvent(option.key, option.CurrentValue(), option.GetNewPropertyValue())];
        option.SetCurrentValue(option.GetNewPropertyValue());
      }
      r := Ok(());
    }

    /** getOption(Method). */
    function GetOption(m: Method): (r: Option<InternalOption>)
      reads this
      ensures Valid() && r.Some? ==> r.value in Repr
    {
      if m in methodOptionMap then Some(methodOptionMap[m]) else None
    }

    /** getOption(String key). */
    function GetOptionByKey(key: string): (r: Option<InternalOption>)
      reads this
      ensures Valid() && r.Some? ==> r.value.key == key && r.value in Repr
    {
      if key in options then Some(options[key]) else None
    }

    /** getKeyByMethod: the key of the option registered under the method
        name, null for an unknown name. */
    function GetKeyByMethod(methodName: string): (r: Option<string>)
      reads this
      ensures r.Some? <==> methodName in methodNameOptionMap
      ensures r.Some? ==> r.value == methodNameOptionMap[methodName].key
    {
      if methodName in methodNameOptionMap then Some(methodNameOptionMap[methodName].key) else None
    }

    /** getValueByMethod: the value() of the option registered under the
        method name, which is its cached current value; null for an unknown
        name. */
    function GetValueByMethod(methodName: string): (r: Value)
      reads this, methodNameOptionMap.Values
      ensures methodName !in methodNameOptionMap ==> r == Null
      ensures methodName in methodNameOptionMap ==> r == methodNameOptionMap[methodName].CurrentValue()
    {
      if methodName in methodNameOptionMap then methodNameOptionMap[methodName].CurrentValue() else Null
    }

    /** setFigInterface: a null interface is a NullPointerException. */
    method SetFigInterface(iface: Option<FigInterface>) returns (r: Result<()>)
      modifies this`figInterface
      ensures iface.None? ==> r == Thrown(NullPointerException) && figInterface == old(figInterface)
      ensures iface.Some? ==> r == Ok(()) && figInterface == iface
    {
      if iface.None? {
        return Thrown(NullPointerException);
      }
      figInterface := iface;
      r := Ok(());
    }

    method SetSingleton(singleton: bool)
      modifies this`singleton
      ensures this.singleton == singleton
    {
      this.singleton := singleton;
    }

    /** getOptions(): every registered option once, each filed under its own key. */
    method GetOptions() returns (r: seq<InternalOption>)
      requires Valid()
      ensures |r| == |options|
      ensures forall i :: 0 <= i < |r| ==> GetOptionByKey(r[i].key) == Some(r[i])
      ensures forall k :: k in options ==> options[k] in r
    {
      var keys := Elements(options.Keys);
      r := seq(|keys|, i requires 0 <= i < |keys| && keys[i] in options reads this => options[keys[i]]);
      forall k | k in options
        ensures options[k] in r
      {
        var j :| 0 <= j < |keys| && keys[j] == k;
        assert r[j] == options[k];
      }
    }

    /** filterOptions, for both overloads (a Properties object is a map of
        string values): the entries of the input whose key is a registered
        option key. The input is a value and is left as it was; a null input
        is a NullPointerException. */
    method FilterOptions<V>(properties: Option<map<string, V>>) returns (r: Result<map<string, V>>)
      requires Valid()
      ensures properties.None? <==> r.Thrown?
      ensures r.Thrown? ==> r.exception == NullPointerException
      ensures r.Ok? ==> forall k :: k in r.value <==> k in options && k in properties.value
      ensures r.Ok? ==> forall k :: k in r.value ==> r.value[k] == properties.value[k]
    {
      if properties.None? {
        return Thrown(NullPointerException);
      }
      var props := properties.value;
      var filtered: map<string, V> := map[];
      var remaining := options.Keys;
      while remaining != {}
        invariant remaining <= options.Keys
        invariant forall k :: k in filtered <==> k in options && k !in remaining && k in props
        invariant forall k :: k in filtered ==> filtered[k] == props[k]
        decreases |remaining|
      {
        var k :| k in remaining;
        var option := options[k];
        if option.key in props {
          filtered := filtered[option.key := props[option.key]];
        }
        remaining := remaining - {k};
      }
      r := Ok(filtered);
    }

    /** applyBypass: each entry whose method name is registered sets that
        option's bypass text; entries for unknown methods are skipped. */
    method ApplyBypass(b: BypassSet)
      requires Valid()
      modifies Repr`bypass
      ensures forall o :: o in Repr ==> o.bypass == Bypassed(b.options, methodNameOptionMap, o, old(o.bypass))
    {
      var opts := b.options;
      for i := 0 to |opts|
        invariant forall o :: o in Repr ==> o.bypass == Bypassed(opts[..i], methodNameOptionMap, o, old(o.bypass))
      {
        assert opts[..i + 1][..i] == opts[..i];
        var annotation := opts[i];
        if annotation.methodName in methodNameOptionMap {
          var option := methodNameOptionMap[annotation.methodName];
          option.SetBypass(annotation.override);
        }
      }
      assert opts[..|opts|] == opts;
    }

    /** The clearing loop of setBypass(null): each entry's option has its
        bypass set to null. An entry for an unknown method dereferences
        null: the loop stops there with a NullPointerException, the options
        before it already cleared. */
    method ClearBypass(opts: seq<OptionImpl>) returns (r: Result<()>)
      requires Valid()
      modifies Repr`bypass
      ensures var bad := FirstUnregistered(opts, methodNameOptionMap);
              (bad.None? ==> (r == Ok(()) &&
                 forall o :: o in Repr ==> o.bypass == Cleared(opts, methodNameOptionMap, o, old(o.bypass)))) &&
              (bad.Some? ==> (r == Thrown(NullPointerException) &&
                 forall o :: o in Repr ==> o.bypass == Cleared(opts[..bad.value], methodNameOptionMap, o, old(o.bypass))))
    {
      for i := 0 to |opts|
        invariant forall j :: 0 <= j < i ==> opts[j].methodName in methodNameOptionMap
        invariant forall o :: o in Repr ==> o.bypass == Cleared(opts[..i], methodNameOptionMap, o, old(o.bypass))
      {
        assert opts[..i + 1][..i] == opts[..i];
        var annotation := opts[i];
        if annotation.methodName !in methodNameOptionMap {
          FirstUnregisteredAt(opts, methodNameOptionMap, i);
          return Thrown(NullPointerException);
        }
        var option := methodNameOptionMap[annotation.methodName];
        option.SetBypass(None);
      }
      assert opts[..|opts|] == opts;
      FirstUnregisteredAt(opts, methodNameOptionMap, |opts|);
      r := Ok(());
    }

    /** setBypass(b), with `current` the deployment environment. A null b
        clears the options the recorded set names and then forgets the set
        (with no set recorded this is a NullPointerException). Otherwise b is
        applied when it is in force; a set in force through ALL returns
        before it is recorded, and any other set, applied or not, is
        recorded. The result says whether b was applied. */
    method SetBypass(b: Option<BypassSet>, current: Env) returns (r: Result<bool>)
      requires Valid()
      modifies this`bypass, Repr`bypass
      ensures Valid()
      ensures b.None? && old(bypass).None? ==>
                r == Thrown(NullPointerException) && bypass == None &&
                forall o :: o in Repr ==> o.bypass == old(o.bypass)
      ensures b.None? && old(bypass).Some? ==>
                var opts := old(bypass).value.options;
                var bad := FirstUnregistered(opts, methodNameOptionMap);
                (bad.None? ==> (r == Ok(false) && bypass == None &&
                   forall o :: o in Repr ==> o.bypass == Cleared(opts, methodNameOptionMap, o, old(o.bypass)))) &&
                (bad.Some? ==> (r == Thrown(NullPointerException) && bypass == old(bypass) &&
                   forall o :: o in Repr ==> o.bypass == Cleared(opts[..bad.value], methodNameOptionMap, o, old(o.bypass))))
      ensures b.Some? ==>
                var environs := Scope(b.value.environments);
                r == Ok(InForce(current, environs)) &&
                bypass == (if ALL in environs || current == ALL then old(bypass) else b) &&
                forall o :: o in Repr ==>
                  o.bypass == (if InForce(current, environs) then Bypassed(b.value.options, methodNameOptionMap, o, old(o.bypass))
                               else old(o.bypass))
    {
      if b.None? {
        if bypass.None? {
          return Thrown(NullPointerException);
        }
        var cleared := ClearBypass(bypass.value.options);
        if cleared.Thrown? {
          return Thrown(cleared.exception);
        }
        bypass := None;
        return Ok(false);
      }
      var environs := Scope(b.value.environments);
      var ctxEnv := current;
      if ALL in environs || ctxEnv == ALL {
        ApplyBypass(b.value);
        return Ok(true);
      }
      r := Ok(false);
      if ctxEnv in environs {
        ApplyBypass(b.value);
        r := Ok(true);
      }
      bypass := b;
    }

    /** The override loop of setOverrides: each entry's option gets the
        override text as its current value, and the override layer maps the
        option's key to the text. An entry for an unknown method dereferences
        null and stops the loop with a NullPointerException. */
    method ApplyOverrides(opts: seq<OptionImpl>) returns (r: Result<()>)
      requires Valid()
      modifies this`overrideStore, Repr`currentValue
      ensures var bad := FirstUnregistered(opts, methodNameOptionMap);
              (bad.None? ==> (r == Ok(()) &&
                 overrideStore == StoreAfter(opts, methodNameOptionMap, old(overrideStore)) &&
                 forall o :: o in Repr ==> o.currentValue == Overridden(opts, methodNameOptionMap, o, old(o.currentValue)))) &&
              (bad.Some? ==> (r == Thrown(NullPointerException) &&
                 overrideStore == StoreAfter(opts[..bad.value], methodNameOptionMap, old(overrideStore)) &&
                 forall o :: o in Repr ==> o.currentValue == Overridden(opts[..bad.value], methodNameOptionMap, o, old(o.currentValue))))
    {
      for i := 0 to |opts|
        invariant forall j :: 0 <= j < i ==> opts[j].methodName in methodNameOptionMap
        invariant overrideStore == StoreAfter(opts[..i], methodNameOptionMap, old(overrideStore))
        invariant forall o :: o in Repr ==> o.currentValue == Overridden(opts[..i], methodNameOptionMap, o, old(o.currentValue))
      {
        assert opts[..i + 1][..i] == opts[..i];
        var annotation := opts[i];
        if annotation.methodName !in methodNameOptionMap {
          FirstUnregisteredAt(opts, methodNameOptionMap, i);
          return Thrown(NullPointerException);
        }
        var option := methodNameOptionMap[annotation.methodName];
        option.SetCurrentValue(TextValue(annotation.override));
        overrideStore := overrideStore[option.key := annotation.override];
      }
      assert opts[..|opts|] == opts;
      FirstUnregisteredAt(opts, methodNameOptionMap, |opts|);
      r := Ok(());
    }

    /** The clearing loop of setOverrides(null): the override layer forgets
        the key of each entry's method. */
    method ClearOverrides(opts: seq<OptionImpl>)
      requires Valid()
      modifies this`overrideStore
      ensures overrideStore == StoreCleared(opts, methodNameOptionMap, old(overrideStore))
    {
      for i := 0 to |opts|
        invariant overrideStore == StoreCleared(opts[..i], methodNameOptionMap, old(overrideStore))
      {
        assert opts[..i + 1][..i] == opts[..i];
        var key := GetKeyByMethod(opts[i].methodName);
        if key.Some? {
          overrideStore := overrideStore - {key.value};
        }
      }
      assert opts[..|opts|] == opts;
    }

    /** setOverrides(o), with `current` the deployment environment and
        `composite` whether the installed configuration is a
        ConcurrentCompositeConfiguration. A null o clears the override layer
        for the recorded set (composite case only) and forgets the set. A set
        not in force changes nothing. A set in force is applied to the options
        and the override layer in the composite case only, and is recorded.
        The result says whether the set was applied. */
    method SetOverrides(o: Option<OverridesSet>, current: Env, composite: bool) returns (r: Result<bool>)
      requires Valid()
      modifies this`overrides, this`overrideStore, Repr`currentValue
      ensures Valid()
      ensures o.None? ==>
                r == Ok(false) && overrides == None &&
                overrideStore == (if composite && old(overrides).Some?
                                  then StoreCleared(old(overrides).value.options, methodNameOptionMap, old(overrideStore))
                                  else old(overrideStore)) &&
                forall x :: x in Repr ==> x.currentValue == old(x.currentValue)
      ensures o.Some? && !(InForce(current, Scope(o.value.environments)) && composite) ==>
                r == Ok(false) &&
                overrides == (if InForce(current, Scope(o.value.environments)) then o else old(overrides)) &&
                overrideStore == old(overrideStore) &&
                forall x :: x in Repr ==> x.currentValue == old(x.currentValue)
      ensures o.Some? && InForce(current, Scope(o.value.environments)) && composite ==>
                var opts := o.value.options;
                var bad := FirstUnregistered(opts, methodNameOptionMap);
                (bad.None? ==> (r == Ok(true) && overrides == o &&
                   overrideStore == StoreAfter(opts, methodNameOptionMap, old(overrideStore)) &&
                   forall x :: x in Repr ==> x.currentValue == Overridden(opts, methodNameOptionMap, x, old(x.currentValue)))) &&
                (bad.Some? ==> (r == Thrown(NullPointerException) && overrides == old(overrides) &&
                   overrideStore == StoreAfter(opts[..bad.value], methodNameOptionMap, old(overrideStore)) &&
                   forall x :: x in Repr ==> x.currentValue == Overridden(opts[..bad.value], methodNameOptionMap, x, old(x.currentValue))))
    {
      if o.None? {
        if composite && overrides.Some? {
          ClearOverrides(overrides.value.options);
        }
        overrides := None;
        return Ok(false);
      }
      var ctxEnv := current;
      var environs := Scope(o.value.environments);
      if ctxEnv != ALL && ALL !in environs && ctxEnv !in environs {
        return Ok(false);
      }
      r := Ok(false);
      if composite {
        var applied := ApplyOverrides(o.value.options);
        if applied.Thrown? {
          return Thrown(applied.exception);
        }
        r := Ok(true);
      }
      overrides := o;
    }
  }

  /** Under UNIT, a bypass set scoped to CHOP alone is not applied, and one
      scoped to CHOP and UNIT is. */
  method ScopedBypassScenario(config: BaseGuicyFig, opts: seq<OptionImpl>) returns (first: Result<bool>, second: Result<bool>)
    requires config.Valid()
    modifies config`bypass, config.Repr`bypass
    ensures first == Ok(false) && second == Ok(true)
  {
    assert Scope([CHOP]) == {CHOP};
    first := config.SetBypass(Some(BypassSet(opts, [CHOP])), UNIT);
    assert UNIT in Scope([CHOP, UNIT]);
    second := config.SetBypass(Some(BypassSet(opts, [CHOP, UNIT])), UNIT);
  }
}
