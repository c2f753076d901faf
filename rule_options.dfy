/** The entries of override and bypass sets (OptionImpl.java, and the Option,
    Bypass and Overrides annotation shapes the containers copy from). */
module RuleOptions {
  import opened Lang
  import opened Envs

  /** An Option: the accessor method an entry targets and the raw text it
      supplies (the text may be null). OptionImpl's two final fields. */
  datatype OptionImpl = OptionImpl(methodName: string, override: Option<string>)

  /** What OptionImpl.equals can be handed: an Option, or any other object. */
  datatype Object = AnOption(option: OptionImpl) | OtherObject

  /** OptionImpl.equals: another Option equals this one exactly when it targets
      the same method; the override text takes no part. The identity shortcut
      of the source is subsumed, since an option has its own method. */
  predicate Equals(a: OptionImpl, o: Object): (b: bool)
    ensures b ==> o.AnOption? && o.option.methodName == a.methodName
    ensures o == AnOption(a) ==> b
  {
    match o
    case AnOption(b) => b.methodName == a.methodName
    case OtherObject => false
  }

  /** OptionImpl.hashCode: a hash of the method name alone. The string hash
      itself (Guava's HashCode) is a parameter of the model. */
  function HashCode(a: OptionImpl, hashOfName: string -> int): int {
    hashOfName(a.methodName)
  }

  /** The accessors return what the constructor was given. */
  lemma OptionAccessors(methodName: string, override: Option<string>)
    ensures OptionImpl(methodName, override).methodName == methodName
    ensures OptionImpl(methodName, override).override == override
  {
  }

  /** Equality ignores the override text, is reflexive, and never holds for a non-option. */
  lemma EqualsByMethodOnly(a: OptionImpl, b: OptionImpl)
    ensures Equals(a, AnOption(b)) <==> a.methodName == b.methodName
    ensures Equals(a, AnOption(a))
    ensures !Equals(a, OtherObject)
    ensures Equals(a, AnOption(b)) <==> Equals(b, AnOption(a))
  {
  }

  /** Equal options hash equally, whatever the string hash. */
  lemma EqualOptionsHashEqually(a: OptionImpl, b: OptionImpl, hashOfName: string -> int)
    requires Equals(a, AnOption(b))
    ensures HashCode(a, hashOfName) == HashCode(b, hashOfName)
  {
  }

  /** A Bypass as its two accessors present it. */
  datatype BypassSet = BypassSet(options: seq<OptionImpl>, environments: seq<Env>)

  /** An Overrides as its three accessors present it. */
  datatype OverridesSet = OverridesSet(name: string, options: seq<OptionImpl>, environments: seq<Env>)

  /** The environment scope of a set: its environment array as a HashSet. */
  function Scope(environments: seq<Env>): set<Env> {
    set e | e in environments
  }

  /** The options map both containers keep: entry by entry `put(method, option)`,
      so the later of two entries for one method replaces the earlier. */
  function KeyByMethod(opts: seq<OptionImpl>): (m: map<string, OptionImpl>)
    ensures forall k :: k in m ==> m[k].methodName == k
    ensures forall k :: k in m <==> exists i :: 0 <= i < |opts| && opts[i].methodName == k
  {
    if opts == [] then map[]
    else
      var prefix := opts[..|opts| - 1];
      var last := opts[|opts| - 1];
      assert forall i :: 0 <= i < |prefix| ==> prefix[i] == opts[i];
      KeyByMethod(prefix)[last.methodName := last]
  }

  /** Last write wins: an entry that no later entry shadows is the one kept. */
  lemma {:induction false} KeyByMethodKeepsLast(opts: seq<OptionImpl>, i: nat)
    requires i < |opts|
    requires forall j :: i < j < |opts| ==> opts[j].methodName != opts[i].methodName
    ensures KeyByMethod(opts)[opts[i].methodName] == opts[i]
  {
    if i < |opts| - 1 {
      var prefix := opts[..|opts| - 1];
      KeyByMethodKeepsLast(prefix, i);
    }
  }
}
