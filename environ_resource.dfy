/** EnvironResource (io/subutai/guicyfig/EnvironResource.java): a test rule whose
    before() and after() run only in the environments it is scoped to. */
module EnvironResources {
  import opened Lang
  import opened Envs

  /** The hooks and the test body the rule's statement runs. */
  datatype Step = Before | Base | After

  class EnvironResource {
    var environs: set<Env>

    /** EnvironResource(Env...): scoped to the given environments. */
    constructor (environs: seq<Env>)
      ensures this.environs == set e | e in environs
    {
      this.environs := set e | e in environs;
    }

    /** EnvironResource(): scoped to no environment yet. */
    constructor Empty()
      ensures environs == {}
    {
      environs := {};
    }

    /** addEnvironment: true exactly when the environment was not yet a scope. */
    method AddEnvironment(env: Env) returns (added: bool)
      modifies this
      ensures added == (env !in old(environs))
      ensures environs == old(environs) + {env}
    {
      added := env !in environs;
      environs := environs + {env};
    }

    /** Whether before() and after() run under the current environment. */
    predicate Active(current: Env): (b: bool)
      reads this
      ensures current == ALL || ALL in environs ==> b
      ensures b <==> current == ALL || ALL in environs || current in environs
    {
      InForce(current, environs)
    }

    /** The statement's evaluate(), with `current` the value of Env.getEnvironment()
        and the three flags saying which of before(), the test body and after()
        throw. Returns the steps that ran, in order, and the step whose
        exception escapes, if any. A throwing before() stops everything; the
        body runs in a try whose finally runs after(), so an exception from
        after() replaces the body's. */
    method Evaluate(current: Env, beforeThrows: bool, baseThrows: bool, afterThrows: bool)
      returns (steps: seq<Step>, thrown: Option<Step>)
      ensures (Before in steps) <==> Active(current)
      ensures (Base in steps) <==> !(Active(current) && beforeThrows)
      ensures (After in steps) <==> Active(current) && !beforeThrows
      ensures forall i, j :: 0 <= i < j < |steps| ==> Order(steps[i]) < Order(steps[j])
      ensures thrown.Some? ==> thrown.value in steps
      ensures thrown == Some(Before) <==> Active(current) && beforeThrows
      ensures thrown == Some(After) <==> Active(current) && !beforeThrows && afterThrows
      ensures thrown == Some(Base) <==> baseThrows && !(Active(current) && (beforeThrows || afterThrows))
    {
      steps := [];
      thrown := None;
      var active := environs;
      if current == ALL || ALL in active || current in active {
        steps := steps + [Before];
        if beforeThrows {
          thrown := Some(Before);
          return;
        }
      }
      steps := steps + [Base];
      if baseThrows {
        thrown := Some(Base);
      }
      if current == ALL || ALL in active || current in active {
        steps := steps + [After];
        if afterThrows {
          thrown := Some(After);
        }
      }
    }
  }

  /** The position of a step in the statement. */
  function Order(s: Step): nat {
    match s
    case Before => 0
    case Base => 1
    case After => 2
  }

  /** Whether the step ran, as a count. */
  function Ran(step: Step, steps: seq<Step>): nat {
    if step in steps then 1 else 0
  }

  /** The rule test: under UNIT, three resources scoped ALL, PROD and UNIT
      wrap a body that throws nothing. before() runs for two of them, every
      body runs, after() runs for the same two, and nothing escapes. */
  method UnitScenario() returns (befores: nat, bodies: nat, afters: nat, escaped: bool)
    ensures befores == 2 && bodies == 3 && afters == 2 && !escaped
  {
    var all := new EnvironResource([ALL]);
    var prod := new EnvironResource([PROD]);
    var unit := new EnvironResource([UNIT]);
    assert ALL !in prod.environs && UNIT !in prod.environs;
    var s1, t1 := all.Evaluate(UNIT, false, false, false);
    var s2, t2 := prod.Evaluate(UNIT, false, false, false);
    var s3, t3 := unit.Evaluate(UNIT, false, false, false);
    befores := Ran(Before, s1) + Ran(Before, s2) + Ran(Before, s3);
    bodies := Ran(Base, s1) + Ran(Base, s2) + Ran(Base, s3);
    afters := Ran(After, s1) + Ran(After, s2) + Ran(After, s3);
    escaped := t1.Some? || t2.Some? || t3.Some?;
  }
}
