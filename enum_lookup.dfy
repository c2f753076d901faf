/** EnumUtils.getEnumInstance (io/subutai/guicyfig/EnumUtils.java and its twin in
    org/safehaus/guicyfig): case-sensitive lookup of an enum constant by name. */
module EnumLookup {
  import opened Lang
  import opened Text
  import opened Envs

  /** The position of the first constant whose name() equals the text exactly;
      None when no constant's does (always so for a null text). */
  function FirstNamed<T>(value: Option<string>, constants: seq<T>, name: T -> string): (r: Option<nat>)
    ensures r.Some? ==> r.value < |constants| && value == Some(name(constants[r.value]))
    ensures r.Some? ==> forall j :: 0 <= j < r.value ==> value != Some(name(constants[j]))
    ensures r.None? ==> forall j :: 0 <= j < |constants| ==> value != Some(name(constants[j]))
  {
    if constants == [] then None
    else if value == Some(name(constants[0])) then Some(0)
    else
      match FirstNamed(value, constants[1..], name)
      case Some(i) => Some(i + 1)
      case None => None
  }

  /** getEnumInstance(value, enumClass): `constants` is getEnumConstants(), which
      is null for a class that is not an enum. The loop stops at the first
      constant whose name equals `value`; none matching is a RuntimeException. */
  method GetEnumInstance<T>(value: Option<string>, constants: Option<seq<T>>, name: T -> string)
    returns (r: Result<T>)
    ensures constants.None? ==> r == Thrown(NullPointerException)
    ensures constants.Some? ==>
              match FirstNamed(value, constants.value, name)
              case Some(i) => r == Ok(constants.value[i])
              case None => r == Thrown(RuntimeException)
  {
    if constants.None? {
      return Thrown(NullPointerException);
    }
    var cs := constants.value;
    var configuredInstance: Option<T> := None;
    var i := 0;
    while i < |cs|
      invariant 0 <= i <= |cs|
      invariant configuredInstance.None?
      invariant forall j :: 0 <= j < i ==> value != Some(name(cs[j]))
    {
      var constantName := name(cs[i]);
      if Some(constantName) == value {
        configuredInstance := Some(cs[i]);
        break;
      }
      i := i + 1;
    }
    FirstNamedIsFirst(value, cs, name, i);
    if configuredInstance.None? {
      return Thrown(RuntimeException);
    }
    r := Ok(configuredInstance.value);
  }

  /** Characterises FirstNamed by its answer: no match before position i, and
      either a match at i or i past the end. */
  lemma {:induction false} FirstNamedIsFirst<T>(value: Option<string>, constants: seq<T>, name: T -> string, i: nat)
    requires i <= |constants|
    requires forall j :: 0 <= j < i ==> value != Some(name(constants[j]))
    requires i < |constants| ==> value == Some(name(constants[i]))
    ensures FirstNamed(value, constants, name) == if i < |constants| then Some(i) else None
  {
    if constants != [] && i > 0 {
      FirstNamedIsFirst(value, constants[1..], name, i - 1);
    }
  }

  /** Each Env constant is found by its exact name. */
  lemma EnvByExactName(e: Env)
    ensures var r := FirstNamed(Some(Name(e)), Values, Name);
            r.Some? && Values[r.value] == e
  {
    var r := FirstNamed(Some(Name(e)), Values, Name);
    assert e in Values;
    var f := Values[r.value];
    assert |Name(e)| != |Name(f)| || Name(e)[0] != Name(f)[0] || e == f;
  }

  /** A lower-case name finds no Env constant, so getEnumInstance throws for it. */
  lemma ExactLookupIsCaseSensitive()
    ensures FirstNamed(Some("unit"), Values, Name).None?
  {
    forall j | 0 <= j < |Values|
      ensures Some("unit") != Some(Name(Values[j]))
    {
      assert Name(Values[j])[0] != 'u';
    }
  }

  /** Env.getEnvironment, by contrast, folds case and finds UNIT. */
  lemma GetEnvironmentFoldsCase()
    ensures GetEnvironment(Some("unit")) == UNIT
  {
    assert EqualsIgnoreCase("unit", Name(UNIT));
    ParseName(UNIT);
    GetEnvironmentIgnoresCase("unit", Name(UNIT));
  }
}
