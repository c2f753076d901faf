/** The deployment environments (io/subutai/guicyfig/Env.java) and the rule
    that decides whether an environment-scoped set is in force. */
module Envs {
  import opened Lang
  import opened Text

  /** ALL is the wildcard environment. */
  datatype Env = ALL | UNIT | TEST | CHOP | DEV | INTEG | ACCEPT | PROD

  /** The constants in declaration order, as Env.values() lists them. */
  const Values: seq<Env> := [ALL, UNIT, TEST, CHOP, DEV, INTEG, ACCEPT, PROD]

  /** The constant's name(), which is also its toString(). */
  function Name(e: Env): string {
    match e
    case ALL => "ALL"
    case UNIT => "UNIT"
    case TEST => "TEST"
    case CHOP => "CHOP"
    case DEV => "DEV"
    case INTEG => "INTEG"
    case ACCEPT => "ACCEPT"
    case PROD => "PROD"
  }

  /** Env.getEnvironment(String): the first constant whose name matches the
      text ignoring case; ALL for null and for any text that names none. */
  function GetEnvironment(environment: Option<string>): (r: Env)
    ensures r != ALL ==> environment.Some? && EqualsIgnoreCase(environment.value, Name(r))
    ensures (environment.Some? && exists e :: EqualsIgnoreCase(environment.value, Name(e))) ==>
              EqualsIgnoreCase(environment.value, Name(r))
  {
    if environment.None? then ALL
    else
      var s := environment.value;
      if EqualsIgnoreCase(s, Name(ALL)) then ALL
      else if EqualsIgnoreCase(s, Name(UNIT)) then UNIT
      else if EqualsIgnoreCase(s, Name(TEST)) then TEST
      else if EqualsIgnoreCase(s, Name(CHOP)) then CHOP
      else if EqualsIgnoreCase(s, Name(DEV)) then DEV
      else if EqualsIgnoreCase(s, Name(INTEG)) then INTEG
      else if EqualsIgnoreCase(s, Name(ACCEPT)) then ACCEPT
      else if EqualsIgnoreCase(s, Name(PROD)) then PROD
      else ALL
  }

  /** Every constant's name parses back to that constant. */
  lemma ParseName(e: Env)
    ensures GetEnvironment(Some(Name(e))) == e
  {
    forall f | f != e
      ensures !EqualsIgnoreCase(Name(e), Name(f))
    {
      assert |Name(e)| != |Name(f)| || ToUpper(Name(e)[0]) != ToUpper(Name(f)[0]);
    }
  }

  /** Two texts that differ only in the case of letters name the same environment. */
  lemma GetEnvironmentIgnoresCase(s: string, t: string)
    requires EqualsIgnoreCase(s, t)
    ensures GetEnvironment(Some(s)) == GetEnvironment(Some(t))
  {
    forall e | true
      ensures EqualsIgnoreCase(s, Name(e)) <==> EqualsIgnoreCase(t, Name(e))
    {
      EqualsIgnoreCaseIsEquivalence(s, t, Name(e));
      EqualsIgnoreCaseIsEquivalence(t, s, Name(e));
    }
  }

  /** The parser is total and fails open: null and unknown names give ALL. */
  lemma GetEnvironmentFallsBackToAll(environment: Option<string>)
    requires environment.None? || forall e :: !EqualsIgnoreCase(environment.value, Name(e))
    ensures GetEnvironment(environment) == ALL
  {
  }

  /** The three-way rule, shared by BaseGuicyFig and EnvironResource: a set
      scoped to `environs` is in force when the current environment is ALL,
      when ALL is among `environs`, or when the current environment is. */
  predicate InForce(current: Env, environs: set<Env>): (b: bool)
    ensures current == ALL ==> b
    ensures environs != {} && (forall e :: e in environs ==> e == current) ==> b
    ensures !b ==> current !in environs
  {
    current == ALL || ALL in environs || current in environs
  }

  /** Only the wildcard current environment activates an empty scope; a scope
      holding ALL is in force everywhere; otherwise membership decides. */
  lemma InForceCases(current: Env, environs: set<Env>)
    ensures environs == {} ==> (InForce(current, environs) <==> current == ALL)
    ensures ALL in environs ==> InForce(current, environs)
    ensures current != ALL && ALL !in environs ==> (InForce(current, environs) <==> current in environs)
  {
  }
}
