/** InternalOptionState (org/safehaus/guicyfig/InternalOptionState.java): an
    option's live value, its oldValue snapshot, and optional bypass and
    override entries. */
module InternalOptionStates {
  import opened Lang
  import opened Conversion
  import opened RuleOptions
  import opened Schema

  class InternalOptionState {
    const key: string
    const kind: PropertyKind
    const accessor: Option<Method>
    /** The live value of the Archaius property (see SetProperty). */
    var property: Value
    var oldValue: Value
    var bypass: Option<OptionImpl>
    var override: Option<OptionImpl>

    /** The constructor once its null checks have passed: oldValue starts as
        the property's value and both entries are empty. */
    constructor (key: string, property: Property, accessorMethod: Option<Method>)
      ensures this.key == key && kind == property.kind && accessor == accessorMethod
      ensures this.property == property.value && oldValue == property.value
      ensures bypass == None && override == None
    {
      this.key := key;
      kind := property.kind;
      accessor := accessorMethod;
      this.property := property.value;
      oldValue := property.value;
      bypass := None;
      override := None;
    }

    /** The constructor with its checkNotNull calls on key and property (the
        method may be null). */
    static method Create(key: Option<string>, property: Option<Property>, accessorMethod: Option<Method>)
      returns (r: Result<InternalOptionState>)
      ensures key.None? || property.None? <==> r.Thrown?
      ensures r.Thrown? ==> r.exception == NullPointerException
      ensures r.Ok? ==> fresh(r.value) && r.value.key == key.value && r.value.kind == property.value.kind
      ensures r.Ok? ==> r.value.accessor == accessorMethod
      ensures r.Ok? ==> r.value.property == property.value.value && r.value.oldValue == property.value.value
      ensures r.Ok? ==> r.value.bypass == None && r.value.override == None
    {
      if key.None? || property.None? {
        return Thrown(NullPointerException);
      }
      var option := new InternalOptionState(key.value, property.value, accessorMethod);
      r := Ok(option);
    }

    /** The configuration source pushes a new value into the property. */
    method SetProperty(v: Value)
      modifies this`property
      ensures property == v && GetValue() == v
    {
      property := v;
    }

    /** update(): hands back the previous snapshot and takes a new one. */
    method Update() returns (previous: Value)
      modifies this`oldValue
      ensures previous == old(oldValue)
      ensures oldValue == GetValue()
    {
      previous := oldValue;
      oldValue := property;
    }

    /** getValue(): the live value. */
    function GetValue(): Value
      reads this
    {
      property
    }

    /** getOverriddenValue(): null when there is no override or its text is
        null; otherwise the converted text. */
    function GetOverriddenValue(): (r: Result<Value>)
      reads this
      ensures override.None? || override.value.override.None? ==> r == Ok(Null)
      ensures override.Some? && override.value.override.Some? ==> r == ConvertValue(kind, override.value.override)
      ensures r.Thrown? ==> r.exception != NullPointerException
    {
      if override.None? || override.value.override.None? then Ok(Null)
      else ConvertValue(kind, override.value.override)
    }

    /** getBypassedValue(): the same rule over the bypass entry. */
    function GetBypassedValue(): (r: Result<Value>)
      reads this
      ensures bypass.None? || bypass.value.override.None? ==> r == Ok(Null)
      ensures bypass.Some? && bypass.value.override.Some? ==> r == ConvertValue(kind, bypass.value.override)
      ensures r.Thrown? ==> r.exception != NullPointerException
    {
      if bypass.None? || bypass.value.override.None? then Ok(Null)
      else ConvertValue(kind, bypass.value.override)
    }

    /** isBypassed: exactly when a bypass entry is held, even one with null
        text; without one the bypassed value reads null. */
    predicate IsBypassed(): (b: bool)
      reads this
      ensures b <==> bypass.Some?
      ensures !b ==> GetBypassedValue() == Ok(Null)
    {
      bypass.Some?
    }

    /** isOverridden: exactly when an override entry is held, even one with
        null text; without one the overridden value reads null. */
    predicate IsOverridden(): (b: bool)
      reads this
      ensures b <==> override.Some?
      ensures !b ==> GetOverriddenValue() == Ok(Null)
    {
      override.Some?
    }

    /** setBypass: replaces the bypass entry and nothing else. */
    method SetBypass(value: Option<OptionImpl>)
      modifies this`bypass
      ensures bypass == value && (IsBypassed() <==> value.Some?)
      ensures property == old(property) && oldValue == old(oldValue) && override == old(override)
    {
      bypass := value;
    }

    /** setOverride: replaces the override entry and nothing else. */
    method SetOverride(value: Option<OptionImpl>)
      modifies this`override
      ensures override == value && (IsOverridden() <==> value.Some?)
      ensures property == old(property) && oldValue == old(oldValue) && bypass == old(bypass)
    {
      override := value;
    }
  }

  /** The hash of an option state is a hash of its key alone. */
  function HashCode(o: InternalOptionState, hashOfKey: string -> int): int {
    hashOfKey(o.key)
  }

  /** Two option states with the same key hash equally, whatever their
      values and entries, and whatever the string hash. */
  lemma SameKeySameHash(o1: InternalOptionState, o2: InternalOptionState, hashOfKey: string -> int)
    requires o1.key == o2.key
    ensures HashCode(o1, hashOfKey) == HashCode(o2, hashOfKey)
  {
  }
}
