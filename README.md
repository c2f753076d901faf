# GuicyFig core, modelled in Dafny

GuicyFig binds Java configuration interfaces to dynamic Archaius properties.
Each accessor method of a configuration interface is registered as an option
in a `BaseGuicyFig` registry. Its key is `@Key`, or the canonical interface
name, a dot and the method name. Its default is `@Default`, or the entry in the
interface's defaults file. A read through the generated proxy returns the
bypass value if the option is bypassed, else the override value if it is
overridden, else the live property value. Bypass sets and override sets are
collections of (method name, raw text) entries. Each set names the deployment
environments (`Env`) in which it is in force. A set is in force when the current
environment is `ALL`, when the set names `ALL`, or when it names the current
environment. `EnvironResource` applies the same test to decide whether a JUnit
rule's `before()`/`after()` hooks run.

The model is split into one module per source class:

| module | file | models |
|---|---|---|
| `Lang` | lang.dfy | Java null (`Option`) and thrown exceptions (`Result`) |
| `Text` | text.dfy | `Integer.parseInt`, `Long.parseLong`, `Boolean.parseBoolean`, `equalsIgnoreCase` |
| `Collections` | collections.dfy | the iteration order of a `HashSet`/`HashMap` key set, as an arbitrary distinct enumeration |
| `Envs` | env.dfy | `Env`, `Env.getEnvironment(String)`, and the in-force test |
| `RuleOptions` | rule_options.dfy | `OptionImpl`; bypass and override sets as values |
| `OverridesImpls` | overrides_impl.dfy | `OverridesImpl` (a class: its maps are mutated) |
| `BypassImpls` | bypass_impl.dfy | `BypassImpl` (a class) |
| `EnumLookup` | enum_lookup.dfy | `EnumUtils.getEnumInstance` (both copies) |
| `EnvironResources` | environ_resource.dfy | `EnvironResource` and its statement |
| `Conversion` | conversion.dfy | `convertValue` of `InternalOption` and `InternalOptionState` |
| `Schema` | schema.dfy | what reflection reports about an interface |
| `InternalOptions` | internal_option.dfy | `InternalOption` (a class) |
| `InternalOptionStates` | internal_option_state.dfy | `InternalOptionState` (a class) |
| `Registry` | registry.dfy | `BaseGuicyFig` (a class) and its change runner |
| `FigModule` | fig_module.dfy | `GuicyFigModule`: read precedence, key and default derivation, `buildBaseObject`, the provider |

Java's `null` is `None`, and an exception a method lets escape is
`Thrown(e)`. Values a property can hold are `Conversion.Value`. The
environment that `Env.getEnvironment()` reads from the Archaius deployment
context is a `current` parameter. Whether the installed configuration is a
`ConcurrentCompositeConfiguration` is a `composite` parameter. The override
layer of that configuration is the registry's `overrideStore` field. The value
Archaius holds for a key is a `configured` parameter. A property change
arrives as `SetProperty` on the option followed by an explicit call to
`BaseGuicyFig.Run`, which is the registered callback.

Where the source and the design description differ, the model follows the
source:
- **No rollback.** Applying a set is not atomic. An entry naming an
  unregistered method makes `setBypass(null)` and `setOverrides` throw
  `NullPointerException` part-way, and the entries applied so far stay
  applied.
- **Merge, not replace.** A new bypass set is merged entry by entry into the
  options' bypass slots. Entries of the previous set are not cleared.
- **Text overrides.** `setOverrides` stores the raw override text as the
  option's current value. It does not convert the text to the option's type.
- **Unknown methods in `applyBypass`.** Entries for unregistered methods are
  skipped, not rejected.
- **Unrecorded `ALL` bypass.** A bypass set in force through `ALL` is applied
  but never recorded as the active set.

## Model

| member | source | states |
|---|---|---|
| Text.ParseInt | src/main/java/org/safehaus/guicyfig/InternalOptionState.java:143-145 | a parsed int lies within the 32-bit range |
| Text.ParseLong | src/main/java/org/safehaus/guicyfig/InternalOptionState.java:151-153 | a parsed long lies within the 64-bit range |
| Text.ParseBoolean | src/main/java/org/safehaus/guicyfig/InternalOptionState.java:147-149 | null text is false; "true" in lower, upper or title case is true; anything true is four letters starting with t |
| Text.IntOutOfRangeRejected | src/main/java/org/safehaus/guicyfig/InternalOptionState.java:143-145 | the decimal text of a number outside the 32-bit range does not parse as an int |
| Text.LongOutOfRangeRejected | src/main/java/org/safehaus/guicyfig/InternalOptionState.java:151-153 | the decimal text of a number outside the 64-bit range does not parse as a long |
| Text.IntRoundTrip | src/main/java/org/safehaus/guicyfig/BaseGuicyFig.java:51 | parsing the decimal text of any 32-bit int gives that int back |
| Text.LongRoundTrip | src/main/java/org/safehaus/guicyfig/BaseGuicyFig.java:57 | parsing the decimal text of any 64-bit long gives that long back |
| Text.ParseDecimalRejects | src/main/java/org/safehaus/guicyfig/InternalOptionState.java:143-153 | empty text, a bare sign, or any non-digit after the first character is rejected |
| Text.EqualsIgnoreCaseIsEquivalence | src/main/java/io/subutai/guicyfig/Env.java:29-52 | case-insensitive equality is reflexive, symmetric and transitive |
| Collections.Elements | src/main/java/io/subutai/guicyfig/OverridesImpl.java:61 | enumerating a key set yields each element exactly once and nothing else |
| Envs.GetEnvironment | src/main/java/io/subutai/guicyfig/Env.java:24-55 | a result other than ALL equals the text up to case; text matching some constant's name up to case yields that constant |
| Envs.ParseName | src/main/java/io/subutai/guicyfig/Env.java:29-52 | each constant's own name maps back to that constant (no two names are equal up to case) |
| Envs.GetEnvironmentIgnoresCase | src/main/java/io/subutai/guicyfig/Env.java:29-52 | two texts equal up to case map to the same environment |
| Envs.GetEnvironmentFallsBackToAll | src/main/java/io/subutai/guicyfig/Env.java:24-55 | null text, or text matching no name, maps to ALL |
| Envs.InForce | src/main/java/org/safehaus/guicyfig/BaseGuicyFig.java:181 | a set is in force under ALL, and when every environment it names is the current one; a set not in force does not name the current environment; the same test is at BaseGuicyFig.java lines 192 and 222 and at EnvironResource.java lines 79 and 92 |
| Envs.InForceCases | src/main/java/org/safehaus/guicyfig/BaseGuicyFig.java:181-194 | an empty scope is in force only under ALL; a scope naming ALL is always in force; otherwise a scope is in force exactly when it names the current environment |
| RuleOptions.Equals | src/main/java/org/safehaus/guicyfig/OptionImpl.java:49-61 | equal only to an option with the same method name, and always to itself |
| RuleOptions.HashCode | src/main/java/org/safehaus/guicyfig/OptionImpl.java:43-45 | a hash of the method name; no contract of its own, EqualOptionsHashEqually states what it promises |
| RuleOptions.OptionAccessors | src/main/java/org/safehaus/guicyfig/OptionImpl.java:18-33 | method() and override() return what the constructor was given |
| RuleOptions.EqualsByMethodOnly | src/main/java/org/safehaus/guicyfig/OptionImpl.java:49-61 | two options are equal exactly when their method names are, whatever their texts; a non-option is never equal; equality is reflexive and symmetric |
| RuleOptions.EqualOptionsHashEqually | src/main/java/org/safehaus/guicyfig/OptionImpl.java:43-45 | equal options have equal hash codes |
| RuleOptions.KeyByMethod | src/main/java/io/subutai/guicyfig/OverridesImpl.java:31-33 | putting entries one by one files each entry under its method name, and the keys are exactly the methods named |
| RuleOptions.KeyByMethodKeepsLast | src/main/java/io/subutai/guicyfig/OverridesImpl.java:31-33 | of several entries for one method, the last one is kept |
| OverridesImpls.OverridesImpl.constructor | src/main/java/io/subutai/guicyfig/OverridesImpl.java:22-24 | a named set with no environments and no options |
| OverridesImpls.OverridesImpl.Copy | src/main/java/io/subutai/guicyfig/OverridesImpl.java:27-34 | copies the name and the environments; the options map is the entries keyed by method, the last entry winning |
| OverridesImpls.OverridesImpl.AddOption | src/main/java/io/subutai/guicyfig/OverridesImpl.java:37-40 | files the option under its method, replacing any earlier one, and returns it |
| OverridesImpls.OverridesImpl.AddNewOption | src/main/java/io/subutai/guicyfig/OverridesImpl.java:43-47 | builds the option from method and text, files it, and returns it |
| OverridesImpls.OverridesImpl.Options | src/main/java/io/subutai/guicyfig/OverridesImpl.java:57-67 | an array with one entry per filed method, each the option filed under it, with no duplicates and none missing |
| OverridesImpls.OverridesImpl.Environments | src/main/java/io/subutai/guicyfig/OverridesImpl.java:71-73 | each environment of the set exactly once |
| OverridesImpls.OverridesImpl.RemoveOption | src/main/java/io/subutai/guicyfig/OverridesImpl.java:82-84 | removes the key and returns what was filed under it, or null |
| BypassImpls.BypassImpl.Copy | src/main/java/org/safehaus/guicyfig/BypassImpl.java:19-25 | copies the environments; the options map is the entries keyed by method, the last entry winning |
| BypassImpls.BypassImpl.constructor | src/main/java/org/safehaus/guicyfig/BypassImpl.java:28-29 | no environments and no options |
| BypassImpls.BypassImpl.AddOption | src/main/java/org/safehaus/guicyfig/BypassImpl.java:32-35 | files the option under its method, replacing any earlier one, and returns it |
| BypassImpls.BypassImpl.AddNewOption | src/main/java/org/safehaus/guicyfig/BypassImpl.java:38-41 | builds the option, files it, and returns what addOption returned |
| BypassImpls.BypassImpl.Options | src/main/java/org/safehaus/guicyfig/BypassImpl.java:45-55 | one entry per filed method, each the option filed under it, with no duplicates and none missing |
| BypassImpls.BypassImpl.Environments | src/main/java/org/safehaus/guicyfig/BypassImpl.java:59-61 | each environment of the set exactly once |
| EnumLookup.FirstNamed | src/main/java/io/subutai/guicyfig/EnumUtils.java:19-28 | the scan stops at the first constant whose name equals the text exactly; no match means no constant has that name |
| EnumLookup.FirstNamedIsFirst | src/main/java/io/subutai/guicyfig/EnumUtils.java:19-28 | the scan's result is pinned down by where it stops |
| EnumLookup.GetEnumInstance | src/main/java/io/subutai/guicyfig/EnumUtils.java:14-35 | a null constants array throws NullPointerException; otherwise the first constant named by the text is returned, and RuntimeException is thrown when none is; the org.safehaus copy of EnumUtils.java (lines 8-29) is the same code |
| EnumLookup.EnvByExactName | src/main/java/io/subutai/guicyfig/EnumUtils.java:24-27 | looking up an environment's own name finds that environment |
| EnumLookup.ExactLookupIsCaseSensitive | src/main/java/io/subutai/guicyfig/EnumUtils.java:24 | "unit" names no environment for the exact lookup |
| EnumLookup.GetEnvironmentFoldsCase | src/main/java/io/subutai/guicyfig/Env.java:32-34 | Env.getEnvironment maps "unit" to UNIT, unlike the exact lookup |
| EnvironResources.EnvironResource.constructor | src/main/java/io/subutai/guicyfig/EnvironResource.java:31-35 | the valid environments are those given |
| EnvironResources.EnvironResource.Empty | src/main/java/io/subutai/guicyfig/EnvironResource.java:43-45 | no valid environments |
| EnvironResources.EnvironResource.AddEnvironment | src/main/java/io/subutai/guicyfig/EnvironResource.java:54-57 | adds the environment and reports whether it was new |
| EnvironResources.EnvironResource.Evaluate | src/main/java/io/subutai/guicyfig/EnvironResource.java:71-103 | before() runs only when the rule is in force; the test body runs unless before() threw; after() runs in the finally block when the rule is in force and before() did not throw; the steps run in order; the exception that escapes is after()'s over the body's, and before()'s ends the statement |
| EnvironResources.EnvironResource.Active | src/main/java/io/subutai/guicyfig/EnvironResource.java:79 | the hooks run under ALL, for a rule scoped to ALL, and otherwise exactly when the rule names the current environment (the same test guards after() at line 92) |
| EnvironResources.UnitScenario | src/test/java/org/safehaus/guicyfig/TestEnvironResource.java:23-58 | under UNIT, evaluating the rules scoped ALL, PROD and UNIT runs before() twice, every body, after() twice, and lets no exception escape |
| Conversion.ConvertValue | src/main/java/org/safehaus/guicyfig/InternalOptionState.java:136-164 | a converted value fits the property's kind; only non-string kinds throw; null text throws NullPointerException, bad numeric text NumberFormatException, an unknown kind IllegalArgumentException; `convertValue` in InternalOption.java (lines 71-99) is the same code |
| Conversion.ConvertStringVerbatim | src/main/java/org/safehaus/guicyfig/InternalOptionState.java:137-139 | a string property takes the text as it is, null included |
| Conversion.ConvertRejectsNull | src/main/java/org/safehaus/guicyfig/InternalOptionState.java:141 | every non-string kind rejects null text with NullPointerException |
| Conversion.ConvertUnknownThrows | src/main/java/org/safehaus/guicyfig/InternalOptionState.java:163 | an unknown property kind throws IllegalArgumentException for any text |
| Conversion.ConvertIntRoundTrip | src/main/java/org/safehaus/guicyfig/InternalOptionState.java:143-145 | the decimal text of a 32-bit int converts back to that int |
| Conversion.ConvertLongRoundTrip | src/main/java/org/safehaus/guicyfig/InternalOptionState.java:151-153 | the decimal text of a 64-bit long converts back to that long |
| Conversion.ConvertIntExactly | src/main/java/org/safehaus/guicyfig/InternalOptionState.java:143-145 | int conversion succeeds exactly when an ASCII-decimal parseInt accepts the text, and yields its value |
| Conversion.ConvertIntOutOfRange | src/main/java/org/safehaus/guicyfig/InternalOptionState.java:143-145 | the decimal text of a number outside the 32-bit range makes int conversion throw NumberFormatException |
| Conversion.ConvertLongOutOfRange | src/main/java/org/safehaus/guicyfig/InternalOptionState.java:151-153 | the decimal text of a number outside the 64-bit range makes long conversion throw NumberFormatException |
| Conversion.ConvertBoolean | src/main/java/org/safehaus/guicyfig/InternalOptionState.java:147-149 | boolean conversion never throws; it is true exactly for "true" up to case |
| InternalOptions.InternalOption.constructor | src/main/java/org/safehaus/guicyfig/InternalOption.java:25-32 | the current value starts as the property's value, with no override |
| InternalOptions.InternalOption.Create | src/main/java/org/safehaus/guicyfig/InternalOption.java:25-32 | a null key or property throws NullPointerException and nothing is built |
| InternalOptions.InternalOption.SetProperty | src/main/java/org/safehaus/guicyfig/InternalOption.java:102-105 | a change of the live property leaves value() as it was |
| InternalOptions.InternalOption.CurrentValue | src/main/java/org/safehaus/guicyfig/InternalOption.java:46-48 | a field read of the cached current value, which value() also returns (lines 103-105); SetProperty and SetCurrentValue state the caching rule through it |
| InternalOptions.InternalOption.GetNewPropertyValue | src/main/java/org/safehaus/guicyfig/InternalOption.java:51-53 | a field read of the live property value; SetProperty states through it that a change reaches the live value and not the cached one |
| InternalOptions.InternalOption.IsOverridden | src/main/java/org/safehaus/guicyfig/InternalOption.java:61-63 | a field read: override text is held; SetOverrideValue and GetOverrideValue state their contracts through it |
| InternalOptions.HashCode | src/main/java/org/safehaus/guicyfig/InternalOption.java:109-111 | a hash of the key; no contract of its own, SameKeySameHash states what it promises |
| InternalOptions.SameKeySameHash | src/main/java/org/safehaus/guicyfig/InternalOption.java:109-111 | two options with the same key hash equally, whatever their values and slots |
| InternalOptions.InternalOption.SetCurrentValue | src/main/java/org/safehaus/guicyfig/InternalOption.java:41-48 | afterwards getCurrentValue() and value() return the new value |
| InternalOptions.InternalOption.SetOverrideValue | src/main/java/org/safehaus/guicyfig/InternalOption.java:56-63 | the option is overridden exactly when the override text is non-null |
| InternalOptions.InternalOption.GetOverrideValue | src/main/java/org/safehaus/guicyfig/InternalOption.java:66-68 | the override text converted for the option's kind; without an override a string option reads null and any other kind throws NullPointerException |
| InternalOptions.InternalOption.SetBypass | src/main/java/org/safehaus/guicyfig/BaseGuicyFig.java:151 | the bypass slot holds the text it was given |
| InternalOptionStates.InternalOptionState.constructor | src/main/java/org/safehaus/guicyfig/InternalOptionState.java:29-37 | oldValue starts as the property's value, with no bypass and no override |
| InternalOptionStates.InternalOptionState.Create | src/main/java/org/safehaus/guicyfig/InternalOptionState.java:29-37 | a null key or property throws NullPointerException; a null method is accepted |
| InternalOptionStates.InternalOptionState.SetProperty | src/main/java/org/safehaus/guicyfig/InternalOptionState.java:59-61 | the live value that getValue() returns is the property's new value |
| InternalOptionStates.InternalOptionState.Update | src/main/java/org/safehaus/guicyfig/InternalOptionState.java:45-49 | returns the previous snapshot, and the new snapshot is the live value |
| InternalOptionStates.InternalOptionState.GetValue | src/main/java/org/safehaus/guicyfig/InternalOptionState.java:59-61 | a field read of the live property value; SetProperty and Update state through it what the live value and the snapshot become |
| InternalOptionStates.InternalOptionState.IsBypassed | src/main/java/org/safehaus/guicyfig/InternalOptionState.java:115-117 | bypassed exactly when a bypass entry is held, null text included; without one the bypassed value is null |
| InternalOptionStates.InternalOptionState.IsOverridden | src/main/java/org/safehaus/guicyfig/InternalOptionState.java:121-123 | overridden exactly when an override entry is held, null text included; without one the overridden value is null |
| InternalOptionStates.HashCode | src/main/java/org/safehaus/guicyfig/InternalOptionState.java:99-101 | a hash of the key; no contract of its own, SameKeySameHash states what it promises |
| InternalOptionStates.SameKeySameHash | src/main/java/org/safehaus/guicyfig/InternalOptionState.java:99-101 | two option states with the same key hash equally, whatever their values and entries |
| InternalOptionStates.InternalOptionState.GetOverriddenValue | src/main/java/org/safehaus/guicyfig/InternalOptionState.java:71-78 | null without an override or with null text, otherwise the converted text; it never throws NullPointerException |
| InternalOptionStates.InternalOptionState.GetBypassedValue | src/main/java/org/safehaus/guicyfig/InternalOptionState.java:82-89 | the same rule over the bypass entry |
| InternalOptionStates.InternalOptionState.SetBypass | src/main/java/org/safehaus/guicyfig/InternalOptionState.java:109-117 | the state is bypassed exactly when the entry is non-null; nothing else changes |
| InternalOptionStates.InternalOptionState.SetOverride | src/main/java/org/safehaus/guicyfig/InternalOptionState.java:121-133 | the state is overridden exactly when the entry is non-null; nothing else changes |
| Registry.PropertyFor | src/main/java/org/safehaus/guicyfig/BaseGuicyFig.java:50-73 | only int and long kinds throw, and only NumberFormatException for default text that does not parse; a property exists exactly for a supported return type and has its kind; a configured value beats the default |
| Registry.UnconfiguredPropertyTakesDefault | src/main/java/org/safehaus/guicyfig/BaseGuicyFig.java:50-67 | an unconfigured key takes its parsed default, or 0, false or null without default text |
| Registry.LastFor | src/main/java/org/safehaus/guicyfig/BaseGuicyFig.java:148-151 | finds the last entry whose method maps to the option; none means no entry reaches it |
| Registry.FirstUnregistered | src/main/java/org/safehaus/guicyfig/BaseGuicyFig.java:168-171 | finds the first entry whose method is not registered, where a loop that looks the method up dereferences null |
| Registry.BypassedByLastEntry | src/main/java/org/safehaus/guicyfig/BaseGuicyFig.java:148-151 | after a set is applied, an option holds the text of the last entry for its method; clearing leaves it empty |
| Registry.UnreachedOptionKeepsSlots | src/main/java/org/safehaus/guicyfig/BaseGuicyFig.java:148-151 | an option no entry reaches keeps its bypass slot and its current value |
| Registry.StoreAfterHoldsLast | src/main/java/org/safehaus/guicyfig/BaseGuicyFig.java:231-234 | after the override loop, the override layer holds the last text written for each key |
| Registry.StoreAfterKeepsOthers | src/main/java/org/safehaus/guicyfig/BaseGuicyFig.java:231-234 | the override loop leaves keys the set does not reach as they were |
| Registry.StoreClearedRemoves | src/main/java/org/safehaus/guicyfig/BaseGuicyFig.java:207-210 | clearing removes the key of every entry whose method is registered |
| Registry.StoreClearedKeepsOthers | src/main/java/org/safehaus/guicyfig/BaseGuicyFig.java:207-210 | clearing leaves other keys as they were |
| Registry.BaseGuicyFig.constructor | src/main/java/org/safehaus/guicyfig/BaseGuicyFig.java:28-40 | empty tables, no sets recorded, not singleton, no interface |
| Registry.BaseGuicyFig.Add | src/main/java/org/safehaus/guicyfig/BaseGuicyFig.java:43-82 | a null key or method throws NullPointerException; a bad numeric default throws NumberFormatException; an unsupported type returns null; in none of these cases does a table change. Otherwise a fresh option is filed under its key, its method and its method name, and the option previously filed under the key is returned; getKeyByMethod and getValueByMethod then find it |
| Registry.BaseGuicyFig.Run | src/main/java/org/safehaus/guicyfig/BaseGuicyFig.java:94-107 | when the cached value differs from the live one, one event (key, old, new) is fired and the live value is cached; otherwise nothing changes; a null cached value throws NullPointerException |
| Registry.BaseGuicyFig.GetOption | src/main/java/org/safehaus/guicyfig/BaseGuicyFig.java:111-113 | a read of the method table; under the registry invariant the option found belongs to the registry |
| Registry.BaseGuicyFig.GetOptionByKey | src/main/java/org/safehaus/guicyfig/BaseGuicyFig.java:274-276 | a read of the key table; under the registry invariant the option found carries the key asked for, which GetOptions relies on |
| Registry.BaseGuicyFig.GetKeyByMethod | src/main/java/org/safehaus/guicyfig/BaseGuicyFig.java:280-286 | non-null exactly for a registered method name, and then the key of its option |
| Registry.BaseGuicyFig.GetValueByMethod | src/main/java/org/safehaus/guicyfig/BaseGuicyFig.java:290-296 | the option's cached value for a registered method name, otherwise null |
| Registry.BaseGuicyFig.SetFigInterface | src/main/java/org/safehaus/guicyfig/BaseGuicyFig.java:116-120 | null throws NullPointerException and keeps the interface; otherwise the interface is recorded |
| Registry.BaseGuicyFig.SetSingleton | src/main/java/org/safehaus/guicyfig/BaseGuicyFig.java:129-131 | records the flag |
| Registry.BaseGuicyFig.GetOptions | src/main/java/org/safehaus/guicyfig/BaseGuicyFig.java:268-270 | one element per registered key, each findable by its key, none missing |
| Registry.BaseGuicyFig.FilterOptions | src/main/java/org/safehaus/guicyfig/BaseGuicyFig.java:315-326 | null throws NullPointerException; otherwise the entries whose key is both a registered option key and present in the input, with the input's values; the Properties overload (lines 300-311) is the same loop |
| Registry.BaseGuicyFig.ApplyBypass | src/main/java/org/safehaus/guicyfig/BaseGuicyFig.java:146-161 | every option's bypass slot holds the text of the last entry naming its method; unknown methods are skipped |
| Registry.BaseGuicyFig.ClearBypass | src/main/java/org/safehaus/guicyfig/BaseGuicyFig.java:167-171 | empties the slots of the options named; an unknown method throws NullPointerException after the entries before it were cleared |
| Registry.BaseGuicyFig.SetBypass | src/main/java/org/safehaus/guicyfig/BaseGuicyFig.java:165-197 | null clears the recorded set's options and forgets the set, or throws NullPointerException if none is recorded; applies a set exactly when it is in force and reports that; a set in force through ALL is not recorded, and any other set is |
| Registry.BaseGuicyFig.ApplyOverrides | src/main/java/org/safehaus/guicyfig/BaseGuicyFig.java:231-242 | each reached option caches the override text and the override layer maps its key to the text; an unknown method throws NullPointerException after the entries before it were applied |
| Registry.BaseGuicyFig.ClearOverrides | src/main/java/org/safehaus/guicyfig/BaseGuicyFig.java:207-211 | the override layer forgets the key of every registered method the set names |
| Registry.BaseGuicyFig.SetOverrides | src/main/java/org/safehaus/guicyfig/BaseGuicyFig.java:201-246 | null clears the recorded set from the override layer (composite configuration only) and forgets it; a set not in force changes nothing; a set in force is applied only to a composite configuration and is then recorded |
| Registry.ScopedBypassScenario | src/test/java/io/subutai/guicyfig/BaseGuicyFigTest.java:131-145 | under UNIT, a bypass scoped to CHOP is not applied and one scoped to CHOP and UNIT is |
| FigModule.EntryValue | src/main/java/org/safehaus/guicyfig/InternalOptionState.java:71-89 | an entry with null text reads null; a string option reads the text as it is; an entry never throws NullPointerException |
| FigModule.Resolve | src/main/java/org/safehaus/guicyfig/GuicyFigModule.java:323-331 | a bypass entry decides the read; without one an override entry does; without either the live value is read; an exception needs an entry and is never NullPointerException |
| FigModule.Read | src/main/java/org/safehaus/guicyfig/GuicyFigModule.java:323-331 | a read is the bypass value, else the override value, else the live value |
| FigModule.BypassWins | src/main/java/org/safehaus/guicyfig/GuicyFigModule.java:323-325 | a bypassed option reads its bypass value whatever its override and live value |
| FigModule.OverrideBeatsLive | src/main/java/org/safehaus/guicyfig/GuicyFigModule.java:326-328 | without a bypass, an override hides the live value |
| FigModule.LiveWhenNoEntries | src/main/java/org/safehaus/guicyfig/GuicyFigModule.java:329-331 | without either entry, the live value is read unconverted |
| FigModule.DeriveKey | src/main/java/org/safehaus/guicyfig/GuicyFigModule.java:379-389 | the @Key value when there is one, otherwise a key that ends in a dot and the method name |
| FigModule.DeriveDefault | src/main/java/org/safehaus/guicyfig/GuicyFigModule.java:391-395 | null exactly without @Default and without a defaults-file entry for the key; a default other than @Default's is the file's entry |
| FigModule.ConventionalKeyShape | src/main/java/org/safehaus/guicyfig/GuicyFigModule.java:383-389 | without @Key the key is the canonical name, a dot and the method name |
| FigModule.ConventionalKeysDistinct | src/main/java/org/safehaus/guicyfig/GuicyFigModule.java:379-389 | two accessors without @Key share a key exactly when they share a name |
| FigModule.KeyAnnotationWins | src/main/java/org/safehaus/guicyfig/GuicyFigModule.java:380-382 | @Key gives the key whatever the interface is called |
| FigModule.DefaultAnnotationWins | src/main/java/org/safehaus/guicyfig/GuicyFigModule.java:391-395 | @Default gives the default whatever the defaults file says |
| FigModule.DefaultsFileOtherwise | src/main/java/org/safehaus/guicyfig/GuicyFigModule.java:392 | without @Default the defaults file's entry, or null, is the default |
| FigModule.FileAccessor | src/main/java/org/safehaus/guicyfig/GuicyFigModule.java:377-397 | one accessor's add(): it throws NumberFormatException exactly when its default does not parse, and otherwise extends what has been filed by that accessor |
| FigModule.BuildBaseObject | src/main/java/org/safehaus/guicyfig/GuicyFigModule.java:370-401 | succeeds exactly when every default parses, otherwise throws NumberFormatException. The registry is fresh and not singleton, and BuiltRegistry holds of it: it records the interface and no set. Every accessor of a supported type has under its method an option with its derived key, the kind of its return type, and the property add() obtains from its derived default and configured value, with no override or bypass. The key table and the method-name table hold that same option unless a later accessor takes the key or name. Every key, method and name filed belongs to an accessor of a supported type, so no other key is filed |
| FigModule.FiledMembers | src/main/java/org/safehaus/guicyfig/BaseGuicyFig.java:69-82 | a key, method or name is among those filed for the first n accessors exactly when one of them of a supported type has it |
| FigModule.GetConcreteObject | src/main/java/org/safehaus/guicyfig/GuicyFigModule.java:204-206 | succeeds exactly when every default parses; the registry is fresh, carries the singleton flag asked for, and holds everything buildBaseObject files (BuiltRegistry) |
| FigModule.FigProvider.constructor | src/main/java/org/safehaus/guicyfig/GuicyFigModule.java:47-48 | the singletons cache starts empty |
| FigModule.FigProvider.Get | src/main/java/org/safehaus/guicyfig/GuicyFigModule.java:91-108 | a @FigSingleton interface is built once and then served from the cache; any other interface gets a fresh instance on each request; every instance built holds what buildBaseObject files (BuiltRegistry) |
| FigModule.SingletonRequestsShareInstance | src/main/java/org/safehaus/guicyfig/GuicyFigModule.java:92-103 | two requests for a singleton interface yield the same instance |
| FigModule.PlainRequestsGetFreshInstances | src/main/java/org/safehaus/guicyfig/GuicyFigModule.java:105-108 | two requests for any other interface yield distinct instances |

## Left out

- Registry.PropertyFor: `float`, `Float` and `double` return types and their properties are not modelled. No floating point is modelled, so `add` treats them like any other unsupported type.
- FigModule.BuildBaseObject: a `float` or `double` accessor counts as unsupported, so it is not filed. In Java it is filed, and a malformed float or double default makes `Float.parseFloat` or `Double.parseDouble` throw `NumberFormatException` and aborts the build. The model promises neither.
- Conversion.ConvertValue: the float and double branches of `convertValue` are left out because no floating point is modelled. A property of another kind is `UnknownProperty`, which throws `IllegalArgumentException`, as the code's last line does.
- Text.EqualsIgnoreCase: case folding covers the ASCII letters only, not the full Unicode rules of `String.equalsIgnoreCase`.
- Envs.GetEnvironment: the environment names are ASCII, but the text compared with them need not be. Java folds some non-ASCII letters onto them: "ınteg", with a dotless i, is INTEG in Java and ALL in the model.
- Text.ParseInt, Text.ParseLong: only ASCII digits are accepted. `Integer.parseInt` and `Long.parseLong` also accept other Unicode decimal digits, such as fullwidth "１２", which the model rejects.
- Conversion.ConvertIntExactly: it is exact for ASCII-decimal text only, as `Text.ParseInt` is. Text with other Unicode digits, which `Integer.parseInt` accepts, throws in the model.
- RuleOptions.HashCode, InternalOptions.HashCode, InternalOptionStates.HashCode: Guava's `HashCode.fromString` is a parameter of the model. Its own rules are not modelled, including that it rejects text that is not hexadecimal.
- RuleOptions.Equals: method names are non-null strings. The `NullPointerException` that `equals` throws on an option with a null method is not modelled.
- Registry.BaseGuicyFig.FilterOptions: both overloads are modelled on a map with one value type. The defaults chain of `java.util.Properties` and its non-string entries are left out.
- Registry.BaseGuicyFig.SetBypass: the source declares `void`. The model returns whether the set was applied, as the `GuicyFig` interface and its tests use it. Clearing returns false.
- Registry.BaseGuicyFig.SetOverrides: the same return value as `SetBypass`. A set in force on a non-composite configuration is recorded but reports false. The override layer belongs to the registry in the model; in Archaius it is global.
- Registry.BaseGuicyFig.ClearOverrides: `clearOverrideProperty(null)`, for an entry whose method is not registered, is modelled as removing nothing.
- Registry.BaseGuicyFig.ApplyOverrides: the override text is cached as a string value. A later `Run` on an int option then sees a string that differs from the live int, as the Java `equals` would.
- InternalOptions.InternalOption.SetBypass: `InternalOption.java` declares no bypass slot, though `BaseGuicyFig` calls `setBypass` on it. The model adds one slot holding text.
- FigModule.Read: the interceptor casts the registry's `InternalOption` to `InternalOptionState` and calls `getBypassValue`/`getOverrideValue`, which that class names `getBypassedValue`/`getOverriddenValue`. The model reads an `InternalOptionState` with the methods it declares.
- FigModule.FigProvider.Get: the cache is one provider's field, while in the source it is a static map shared by all module instances.
- Bypass and override sets are passed as value snapshots of `options()` and `environments()`. `Overrides.contexts()` in the interface differs from `environments()`, which `BaseGuicyFig` calls; the model uses the `OverridesImpl` shape.
- The interceptor's forwarding of `GuicyFig` methods (`getOptions`, `filterOptions`, listener calls, `equals`, `toString`, `hashCode`) is Java dispatch glue and is left out. So are the per-key `override(key, value)` and `bypass(key, value)` calls, which the classes shown do not implement.
- The Guice binding, the `TypeListener` that applies `@Overrides`/`@Bypass` to injected fields, and the cglib proxy are reflection and code generation, so they are left out.
- `loadProperties` is file I/O. The defaults file is the `defaults` map of `Schema.FigInterface`.
- `Env.getEnvironment()` reads the Archaius deployment context. It is the `current` parameter.
- EnvironResources.EnvironResource.Evaluate: the hooks and the body cannot change the rule's own environments. `before()` and `after()` are fixed steps. In Java each in-force test reads the `environs` field afresh, so a `before()` or a body that calls `addEnvironment` can change whether `after()` runs.
- The environment `EnvironResource` itself reads is an input to `Evaluate`. JUnit's `Statement`/`TestRule` plumbing and logging are left out.
- Property change listener registration (`addPropertyChangeListener`, `removePropertyChangeListener`) is left out. Fired events are recorded in `events`.
- Archaius' own conversion of configuration text into typed values is left out. `configured` is already typed, but the model does not require its values to fit the option's kind. A numeric key may be configured with `Null` or a string, which a `DynamicIntProperty` or `DynamicLongProperty` never holds. So `Registry.BaseGuicyFig.Run`'s NullPointerException branch is reachable for numeric options in the model, though not in Java.
- The cast `(Enum<?>) current` in `EnumUtils` cannot fail for an enum's constants. The constants and their names are parameters.
- `src/main/java/org/safehaus/guicyfig/EnvironResource.java` is not part of this model. The `io.subutai` class and the `org.safehaus` test stand for it.
- Trivial getters are read as fields: `key`, `getKey`, `getOldValue`, `getOverride`, `getBypass`, `getMethod`, `getProperty`, `name`, `getOverrides`, `getFigInterface`, `isSingleton`.
- All operations run on one thread. Archaius callbacks that run concurrently are not modelled.
