/**
 * The parameter handling shared by every client factory of the toolkit
 * (`AbstractClientFactory`): the display name derived from the factory's class
 * name, forcing a default `identifier` entry into a parameter map, and the
 * `canProcess` validation of a parameter value group.
 */
module ClientFactory {
  import opened JavaLang

  /** The code of the mandatory `identifier` parameter. */
  const IDENTIFIER: string := "identifier"

  /** The suffix the naming convention puts on factory class names. */
  const FACTORY_SUFFIX: string := "Factory"

  /** The message of the exception thrown by `checkCanProcessWithError`. */
  const NOT_SUPPORTED: string := "Parameter values not supported by this factory."

  // ---------------------------------------------------------------------------
  // Display name
  // ---------------------------------------------------------------------------

  /** `s.lastIndexOf(c)`: the index of the last occurrence of `c`, or -1. */
  function LastIndexOf(s: string, c: char): (i: int)
    ensures -1 <= i < |s|
    ensures i >= 0 ==> s[i] == c
    ensures forall j :: i < j < |s| ==> s[j] != c
  {
    if |s| == 0 then -1
    else if s[|s| - 1] == c then |s| - 1
    else LastIndexOf(s[..|s| - 1], c)
  }

  /** The class name without its package: the part after the last '.'. */
  function SimpleName(className: string): (r: string)
    ensures '.' !in r
    ensures |r| <= |className| && className[|className| - |r|..] == r
    ensures |r| < |className| ==> className[|className| - |r| - 1] == '.'
  {
    className[LastIndexOf(className, '.') + 1..]
  }

  predicate EndsWith(s: string, suffix: string) {
    |suffix| <= |s| && s[|s| - |suffix|..] == suffix
  }

  /**
   * `getDisplayName()` for a factory whose class has the fully qualified name
   * `className`: the simple name, with one trailing "Factory" removed.
   */
  function DisplayName(className: string): string {
    var name := SimpleName(className);
    if EndsWith(name, FACTORY_SUFFIX) then name[..|name| - |FACTORY_SUFFIX|] else name
  }

  /** `getDescription()` returns the display name. */
  function Description(className: string): (r: string)
    ensures r == DisplayName(className)
    ensures '.' !in r
  {
    DisplayName(className)
  }

  /** The display name is taken from the part of the class name after the last '.': it holds no '.'. */
  lemma DisplayNameHasNoDot(className: string)
    ensures '.' !in DisplayName(className)
  {
    var name := SimpleName(className);
    if EndsWith(name, FACTORY_SUFFIX) {
      PrefixKeepsAbsence(name, |name| - |FACTORY_SUFFIX|, '.');
    }
  }

  /** Putting back what `getDisplayName` stripped gives the simple class name. */
  lemma DisplayNameRestoresSimpleName(className: string)
    ensures DisplayName(className) == SimpleName(className) ||
            DisplayName(className) + FACTORY_SUFFIX == SimpleName(className)
  {
    var name := SimpleName(className);
    if EndsWith(name, FACTORY_SUFFIX) {
      assert name[..|name| - |FACTORY_SUFFIX|] + FACTORY_SUFFIX == name;
    }
  }

  /** A character absent from `s` is absent from every prefix of `s`. */
  lemma PrefixKeepsAbsence(s: string, n: nat, c: char)
    requires n <= |s| && c !in s
    ensures c !in s[..n]
  {
  }

  /** A simple name ending in "Factory" loses exactly that suffix, once. */
  lemma {:induction false} DisplayNameStripsSuffixOnce(packageName: string, stem: string)
    requires '.' !in stem
    ensures DisplayName(packageName + "." + stem + FACTORY_SUFFIX) == stem
  {
    var tail := stem + FACTORY_SUFFIX;
    var className := packageName + "." + tail;
    assert packageName + "." + stem + FACTORY_SUFFIX == className;
    assert '.' !in tail;
    var k := |packageName|;
    assert LastIndexOf(className, '.') == k by {
      assert className[k] == '.';
      forall j | k < j < |className|
        ensures className[j] != '.'
      {
        assert className[j] == tail[j - k - 1];
      }
    }
    assert SimpleName(className) == tail;
    assert EndsWith(tail, FACTORY_SUFFIX);
    assert tail[..|stem|] == stem;
  }

  /** A class of the default package named `stem` + "Factory" has display name `stem`. */
  lemma DisplayNameInDefaultPackage(stem: string)
    requires '.' !in stem
    ensures DisplayName(stem + FACTORY_SUFFIX) == stem
  {
    var className := stem + FACTORY_SUFFIX;
    assert '.' !in className;
    assert SimpleName(className) == className;
    assert className[..|stem|] == stem;
  }

  /** Whatever the package, a simple name ending in "Factory" loses exactly those seven characters. */
  lemma DisplayNameStripsSuffix(className: string)
    requires EndsWith(SimpleName(className), FACTORY_SUFFIX)
    ensures DisplayName(className) + FACTORY_SUFFIX == SimpleName(className)
    ensures |DisplayName(className)| == |SimpleName(className)| - |FACTORY_SUFFIX|
  {
    PrefixAndSuffix(SimpleName(className), FACTORY_SUFFIX);
  }

  /** A string ending in `suffix` is its prefix without `suffix`, followed by `suffix`. */
  lemma PrefixAndSuffix(s: string, suffix: string)
    requires EndsWith(s, suffix)
    ensures s[..|s| - |suffix|] + suffix == s
  {
    assert s == s[..|s| - |suffix|] + s[|s| - |suffix|..];
  }

  /** A simple name that does not end in "Factory" is the display name unchanged. */
  lemma DisplayNameWithoutSuffix(className: string)
    requires !EndsWith(SimpleName(className), FACTORY_SUFFIX)
    ensures DisplayName(className) == SimpleName(className)
  {
  }

  // ---------------------------------------------------------------------------
  // Parameters
  // ---------------------------------------------------------------------------

  /** A parameter value: `null`, a `String`, or any other serializable object. */
  datatype Value = Null | Text(text: string) | Other(code: int)

  /**
   * What the factory's parameter descriptor group says about `identifier`: no such
   * descriptor, or a `String` descriptor with a default value (possibly `null`).
   */
  datatype IdentifierDescriptor = Absent | Declared(defaultValue: Option<string>)

  /** The factory's parameter descriptor group: its name and its identifier descriptor. */
  datatype DescriptorGroup = DescriptorGroup(name: string, identifier: IdentifierDescriptor)

  /** One value of a parameter group: the code of its descriptor's name and its value. */
  datatype ParameterValue = ParameterValue(name: string, value: Value)

  /** A `ParameterValueGroup`: the code of its descriptor's name and its values in order. */
  datatype ParameterValueGroup = ParameterValueGroup(name: string, values: seq<ParameterValue>)

  /** A `ConformanceResult`: `pass()` is a `Boolean` that may be `null`. */
  datatype Conformance = Conformance(pass: Option<bool>)

  /** The value stored in a map for a `String` default. */
  function ValueOf(s: Option<string>): (v: Value)
    ensures s.None? <==> v.Null?
    ensures s.Some? ==> v == Text(s.value)
  {
    match s
    case None => Null
    case Some(t) => Text(t)
  }

  /** The value of the first parameter named `name`, if any (the spec of the search loop). */
  function FirstNamed(values: seq<ParameterValue>, name: string): (r: Option<Value>)
    ensures r.None? <==> forall i :: 0 <= i < |values| ==> values[i].name != name
    ensures r.Some? ==> exists i :: 0 <= i < |values| && values[i].name == name && values[i].value == r.value &&
                                    forall j :: 0 <= j < i ==> values[j].name != name
  {
    if |values| == 0 then None
    else if values[0].name == name then Some(values[0].value)
    else
      var r := FirstNamed(values[1..], name);
      assert forall i :: 1 <= i < |values| ==> values[i] == values[1..][i - 1];
      r
  }

  /**
   * What `checkIdentifier` computes: the expected identifier is the descriptor's
   * default (looking it up fails when there is no identifier descriptor); no
   * identifier parameter is accepted; otherwise the first one must hold a `String`
   * equal to the expected one, and a `null` expected value throws.
   */
  function IdentifierCheck(desc: DescriptorGroup, group: ParameterValueGroup): Result<bool> {
    match desc.identifier
    case Absent => Thrown(ParameterNotFoundException(IDENTIFIER))
    case Declared(expected) =>
      match FirstNamed(group.values, IDENTIFIER)
      case None => Ok(true)
      case Some(candidate) =>
        if expected.None? then Thrown(NullPointerException) else Ok(candidate == Text(expected.value))
  }

  /** `checkIdentifier(params)`: scans the values and returns at the first `identifier`. */
  method CheckIdentifier(desc: DescriptorGroup, group: ParameterValueGroup) returns (r: Result<bool>)
    ensures r == IdentifierCheck(desc, group)
  {
    if desc.identifier.Absent? {
      return Thrown(ParameterNotFoundException(IDENTIFIER));
    }
    var expected := desc.identifier.defaultValue;
    var i := 0;
    while i < |group.values|
      invariant 0 <= i <= |group.values|
      invariant forall j :: 0 <= j < i ==> group.values[j].name != IDENTIFIER
    {
      var v := group.values[i];
      if v.name == IDENTIFIER {
        assert FirstNamed(group.values, IDENTIFIER) == Some(v.value);
        if expected.None? {
          return Thrown(NullPointerException);
        }
        return Ok(v.value == Text(expected.value));
      }
      i := i + 1;
    }
    return Ok(true);
  }

  /** The value of the first parameter named `name` is the one `FirstNamed` finds. */
  lemma FirstNamedAt(values: seq<ParameterValue>, name: string, i: int)
    requires 0 <= i < |values| && values[i].name == name
    requires forall j :: 0 <= j < i ==> values[j].name != name
    ensures FirstNamed(values, name) == Some(values[i].value)
  {
    var r := FirstNamed(values, name);
    var k :| 0 <= k < |values| && values[k].name == name && values[k].value == r.value &&
             forall j :: 0 <= j < k ==> values[j].name != name;
    assert !(i < k) && !(k < i);
  }

  /** `checkIdentifier` accepts exactly when the first identifier value, if any, is the expected `String`. */
  lemma IdentifierCheckAccepts(desc: DescriptorGroup, group: ParameterValueGroup)
    ensures IdentifierCheck(desc, group) == Ok(true) <==>
      (desc.identifier.Declared? &&
       forall i :: 0 <= i < |group.values| ==> group.values[i].name != IDENTIFIER) ||
      (desc.identifier.Declared? && desc.identifier.defaultValue.Some? &&
       exists i :: 0 <= i < |group.values| && group.values[i].name == IDENTIFIER &&
                   group.values[i].value == Text(desc.identifier.defaultValue.value) &&
                   forall j :: 0 <= j < i ==> group.values[j].name != IDENTIFIER)
  {
    var vs := group.values;
    var r := FirstNamed(vs, IDENTIFIER);
    if desc.identifier.Declared? && desc.identifier.defaultValue.Some? && r.Some? {
      var k :| 0 <= k < |vs| && vs[k].name == IDENTIFIER && vs[k].value == r.value &&
               forall j :: 0 <= j < k ==> vs[j].name != IDENTIFIER;
      forall i | 0 <= i < |vs| && vs[i].name == IDENTIFIER && forall j :: 0 <= j < i ==> vs[j].name != IDENTIFIER
        ensures vs[i].value == r.value
      {
        FirstNamedAt(vs, IDENTIFIER, i);
      }
    }
  }

  /**
   * What `canProcess(ParameterValueGroup)` computes, given the outcome
   * `conformance` of `Parameters.isValid(params, descriptor)`: a `null` group is
   * rejected; the identifier check comes first and its exceptions escape; then the
   * group's name must equal the descriptor's ignoring case, and the conformance
   * result must be non-null with `pass() == TRUE`.
   */
  function CanProcessOutcome(desc: DescriptorGroup, group: Option<ParameterValueGroup>,
                             conformance: Option<Conformance>): Result<bool> {
    if group.None? then Ok(false)
    else match IdentifierCheck(desc, group.value)
      case Thrown(e) => Thrown(e)
      case Ok(valid) =>
        Ok(valid && EqualsIgnoreCase(desc.name, group.value.name) &&
           conformance == Some(Conformance(Some(true))))
  }

  /** `canProcess(params)`. */
  method CanProcess(desc: DescriptorGroup, group: Option<ParameterValueGroup>,
                    conformance: Option<Conformance>) returns (r: Result<bool>)
    ensures r == CanProcessOutcome(desc, group, conformance)
  {
    if group.None? {
      return Ok(false);
    }
    var validId := CheckIdentifier(desc, group.value);
    if validId.Thrown? {
      return Thrown(validId.exception);
    }
    if !validId.value {
      return Ok(false);
    }
    if !EqualsIgnoreCase(desc.name, group.value.name) {
      return Ok(false);
    }
    return Ok(conformance.Some? && conformance.value.pass == Some(true));
  }

  /**
   * `canProcess` accepts exactly a non-null group whose identifier check passes,
   * whose name matches the descriptor's ignoring case and that is valid with
   * `pass() == TRUE`; it throws only what the identifier check throws.
   */
  lemma CanProcessAcceptsIff(desc: DescriptorGroup, group: Option<ParameterValueGroup>,
                             conformance: Option<Conformance>)
    ensures CanProcessOutcome(desc, group, conformance) == Ok(true) <==>
      group.Some? && IdentifierCheck(desc, group.value) == Ok(true) &&
      EqualsIgnoreCase(desc.name, group.value.name) &&
      conformance.Some? && conformance.value.pass == Some(true)
    ensures CanProcessOutcome(desc, group, conformance).Thrown? <==>
      group.Some? && IdentifierCheck(desc, group.value).Thrown?
    ensures group.None? ==> CanProcessOutcome(desc, group, conformance) == Ok(false)
  {
  }

  /** The group name is compared ignoring case: renaming the group to a case variant changes nothing. */
  lemma CanProcessIgnoresNameCase(desc: DescriptorGroup, group: ParameterValueGroup, other: string,
                                  conformance: Option<Conformance>)
    requires EqualsIgnoreCase(group.name, other)
    ensures CanProcessOutcome(desc, Some(group), conformance) ==
            CanProcessOutcome(desc, Some(ParameterValueGroup(other, group.values)), conformance)
  {
    EqualsIgnoreCaseIsEquivalence(desc.name, group.name, other);
    EqualsIgnoreCaseIsEquivalence(desc.name, other, group.name);
    EqualsIgnoreCaseIsEquivalence(group.name, other, desc.name);
    assert IdentifierCheck(desc, group) == IdentifierCheck(desc, ParameterValueGroup(other, group.values));
  }

  /** `availability()`: a conformance result that passes. */
  function Availability(): (r: Conformance)
    ensures r.pass == Some(true)
  {
    Conformance(Some(true))
  }

  /** `checkCanProcessWithError(params)`: throws a `DataStoreException` when `canProcess` is false. */
  method CheckCanProcessWithError(desc: DescriptorGroup, group: Option<ParameterValueGroup>,
                                  conformance: Option<Conformance>) returns (r: Result<()>)
    ensures CanProcessOutcome(desc, group, conformance) == Ok(true) <==> r == Ok(())
    ensures CanProcessOutcome(desc, group, conformance) == Ok(false) <==>
            r == Thrown(DataStoreException(NOT_SUPPORTED))
    ensures CanProcessOutcome(desc, group, conformance).Thrown? ==>
            r == Thrown(CanProcessOutcome(desc, group, conformance).exception)
  {
    var valid := CanProcess(desc, group, conformance);
    if valid.Thrown? {
      IdentifierExceptionIsNotDataStore(desc, group, conformance);
      return Thrown(valid.exception);
    }
    if !valid.value {
      return Thrown(DataStoreException(NOT_SUPPORTED));
    }
    return Ok(());
  }

  /** The only exceptions `canProcess` lets escape come from the identifier lookup, never a `DataStoreException`. */
  lemma IdentifierExceptionIsNotDataStore(desc: DescriptorGroup, group: Option<ParameterValueGroup>,
                                          conformance: Option<Conformance>)
    requires CanProcessOutcome(desc, group, conformance).Thrown?
    ensures !CanProcessOutcome(desc, group, conformance).exception.DataStoreException?
  {
  }

  // ---------------------------------------------------------------------------
  // Forcing the identifier into a parameter map
  // ---------------------------------------------------------------------------

  /** A `Map<String, Serializable>` of parameters, shared by reference. */
  class ParameterMap {
    var entries: map<string, Value>

    constructor(entries: map<string, Value>)
      ensures this.entries == entries
    {
      this.entries := entries;
    }
  }

  /**
   * The entries `forceIdentifier` returns: unchanged when `identifier` is present,
   * otherwise the entries plus `identifier` mapped to the descriptor's default.
   */
  function Forced(entries: map<string, Value>, defaultValue: Option<string>): (r: map<string, Value>)
    ensures IDENTIFIER in r
    ensures IDENTIFIER in entries ==> r == entries
    ensures IDENTIFIER !in entries ==> r[IDENTIFIER] == ValueOf(defaultValue)
    ensures forall k :: k in entries ==> k in r && r[k] == entries[k]
    ensures forall k :: k in r && k != IDENTIFIER ==> k in entries
  {
    if IDENTIFIER in entries then entries else entries[IDENTIFIER := ValueOf(defaultValue)]
  }

  /** Forcing twice is forcing once. */
  lemma ForcedIdempotent(entries: map<string, Value>, d1: Option<string>, d2: Option<string>)
    ensures Forced(Forced(entries, d1), d2) == Forced(entries, d1)
  {
  }

  /**
   * `forceIdentifier(params)`: the map itself when it holds `identifier`; otherwise a
   * new map copying it with `identifier` set to the default, the caller's map left
   * untouched. Looking up the default throws when the group declares no identifier.
   */
  method ForceIdentifier(desc: DescriptorGroup, params: ParameterMap) returns (r: Result<ParameterMap>)
    ensures IDENTIFIER in params.entries ==> r == Ok(params)
    ensures IDENTIFIER !in params.entries && desc.identifier.Absent? ==>
            r == Thrown(ParameterNotFoundException(IDENTIFIER))
    ensures IDENTIFIER !in params.entries && desc.identifier.Declared? ==>
            r.Ok? && fresh(r.value) &&
            r.value.entries == Forced(params.entries, desc.identifier.defaultValue)
    ensures params.entries == old(params.entries)
  {
    if IDENTIFIER !in params.entries {
      var copy := new ParameterMap(params.entries);
      if desc.identifier.Absent? {
        return Thrown(ParameterNotFoundException(IDENTIFIER));
      }
      copy.entries := copy.entries[IDENTIFIER := ValueOf(desc.identifier.defaultValue)];
      return Ok(copy);
    }
    return Ok(params);
  }
}
