/** InternalOption (org/safehaus/guicyfig/InternalOption.java): the option
    object BaseGuicyFig registers. It caches the value last seen in
    `currentValue` and carries one override text. */
module InternalOptions {
  import opened Lang
  import opened Conversion

  class InternalOption {
    const key: string
    const kind: PropertyKind
    /** The live value of the Archaius property, which the configuration
        source may change at any time (see SetProperty). */
    var property: Value
    var currentValue: Value
    var overrideValue: Option<string>
    /** The bypass slot BaseGuicyFig reads and writes on its options; the
        class as written declares none, so it has the shape of
        InternalOptionState's slot, reduced to the text BaseGuicyFig stores. */
    var bypass: Option<string>

    /** The constructor once its null checks have passed: currentValue starts
        as the property's value. */
    constructor (key: string, property: Property)
      ensures this.key == key && kind == property.kind
      ensures this.property == property.value && currentValue == property.value
      ensures overrideValue == None && bypass == None
    {
      this.key := key;
      kind := property.kind;
      this.property := property.value;
      currentValue := property.value;
      overrideValue := None;
      bypass := None;
    }

    /** The constructor with its checkNotNull calls: a null key or property
        is a NullPointerException and builds nothing. */
    static method Create(key: Option<string>, property: Option<Property>) returns (r: Result<InternalOption>)
      ensures key.None? || property.None? <==> r.Thrown?
      ensures r.Thrown? ==> r.exception == NullPointerException
      ensures r.Ok? ==> fresh(r.value) && r.value.key == key.value && r.value.kind == property.value.kind
      ensures r.Ok? ==> r.value.property == property.value.value && r.value.currentValue == property.value.value
      ensures r.Ok? ==> r.value.overrideValue == None && r.value.bypass == None
    {
      if key.None? || property.None? {
        return Thrown(NullPointerException);
      }
      var option := new InternalOption(key.value, property.value);
      r := Ok(option);
    }

    /** The configuration source pushes a new value into the property. The
        option's own value() keeps the cached value until the change runner
        copies the new one over. */
    method SetProperty(v: Value)
      modifies this`property
      ensures property == v && GetNewPropertyValue() == v
      ensures CurrentValue() == old(CurrentValue())
    {
      property := v;
    }

    /** setCurrentValue: afterwards getCurrentValue() and value() yield v. */
    method SetCurrentValue(v: Value)
      modifies this`currentValue
      ensures currentValue == v && CurrentValue() == v
    {
      currentValue := v;
    }

    /** getNewPropertyValue: the live value, which may differ from value(). */
    function GetNewPropertyValue(): Value
      reads this
    {
      property
    }

    /** value(): the cached currentValue, not the live property value. */
    function CurrentValue(): Value
      reads this
    {
      currentValue
    }

    method SetOverrideValue(v: Option<string>)
      modifies this`overrideValue
      ensures overrideValue == v && (IsOverridden() <==> v.Some?)
    {
      overrideValue := v;
    }

    /** isOverridden: exactly when override text is held. */
    predicate IsOverridden()
      reads this
    {
      overrideValue.Some?
    }

    /** getOverrideValue: the override text converted for this option's kind.
        Without an override a string option reads null and any other kind
        throws, since convertValue rejects the null text. */
    function GetOverrideValue(): (r: Result<Value>)
      reads this
      ensures r == ConvertValue(kind, overrideValue)
      ensures !IsOverridden() ==> r == (if kind == StringProperty then Ok(Null) else Thrown(NullPointerException))
      ensures IsOverridden() && kind == StringProperty ==> r == Ok(StrVal(overrideValue.value))
    {
      ConvertValue(kind, overrideValue)
    }

    /** The bypass slot's setter, as BaseGuicyFig uses it. */
    method SetBypass(v: Option<string>)
      modifies this`bypass
      ensures bypass == v
    {
      bypass := v;
    }
  }

  /** The hash of an option is a hash of its key alone; the string hash is a
      parameter of the model. */
  function HashCode(o: InternalOption, hashOfKey: string -> int): int {
    hashOfKey(o.key)
  }

  /** Two options with the same key hash equally, whatever their values,
      overrides and bypass slots, and whatever the string hash. */
  lemma SameKeySameHash(o1: InternalOption, o2: InternalOption, hashOfKey: string -> int)
    requires o1.key == o2.key
    ensures HashCode(o1, hashOfKey) == HashCode(o2, hashOfKey)
  {
  }
}
