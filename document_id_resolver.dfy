/**
 * The identifier resolver used while unmarshalling a feature catalogue: a table
 * from XML identifiers to the `Referenceable` objects bound so far in the current
 * document, looked up lazily when a reference is resolved.
 */
module DocumentIdResolver {
  import opened JavaLang

  /** The fully qualified name of the `Referenceable` interface. */
  const REFERENCEABLE: string := "org.geotoolkit.feature.catalog.Referenceable"

  /** A Java class or interface: its name, the interfaces it declares directly, and its superclass. */
  datatype JavaClass = JavaClass(name: string, interfaces: seq<JavaClass>, superclass: Option<JavaClass>)

  /** An object: its class, and an identity telling apart distinct objects of one class. */
  datatype JavaObject = JavaObject(cls: JavaClass, identity: int)

  /** `obj instanceof Referenceable`: the class, one of its superclasses or one of their interfaces is `Referenceable`. */
  predicate IsSubtypeOfReferenceable(c: JavaClass)
    decreases c
  {
    c.name == REFERENCEABLE ||
    (exists i :: 0 <= i < |c.interfaces| && IsSubtypeOfReferenceable(c.interfaces[i])) ||
    (c.superclass.Some? && IsSubtypeOfReferenceable(c.superclass.value))
  }

  /** `targetType.getInterfaces()` holds `Referenceable`: only the directly declared interfaces count. */
  predicate DeclaresReferenceable(c: JavaClass) {
    exists i :: 0 <= i < |c.interfaces| && c.interfaces[i].name == REFERENCEABLE
  }

  /** What a lookup finds in `table`: the object bound to `id`, when the target type declares `Referenceable`. */
  function Lookup(table: map<string, JavaObject>, id: string, targetType: JavaClass): (r: Option<JavaObject>)
    ensures r.Some? <==> DeclaresReferenceable(targetType) && id in table
    ensures r.Some? ==> r.value == table[id]
  {
    if DeclaresReferenceable(targetType) && id in table then Some(table[id]) else None
  }

  class DocumentIDResolver {
    /** The `Referenceable` objects bound in the current document, by identifier. */
    var referenceables: map<string, JavaObject>

    constructor()
      ensures referenceables == map[]
    {
      referenceables := map[];
    }

    /** `startDocument()`: forgets every binding. */
    method StartDocument()
      modifies this
      ensures referenceables == map[]
    {
      referenceables := map[];
    }

    /**
     * `bind(id, obj)`: a `Referenceable` is stored under `id`, replacing the previous
     * binding; anything else is only logged, with its class name, which throws for
     * a `null` object.
     */
    method Bind(id: string, obj: Option<JavaObject>) returns (r: Result<()>)
      modifies this
      ensures obj.Some? && IsSubtypeOfReferenceable(obj.value.cls) ==>
        r == Ok(()) && referenceables == old(referenceables)[id := obj.value]
      ensures obj.Some? && !IsSubtypeOfReferenceable(obj.value.cls) ==>
        r == Ok(()) && referenceables == old(referenceables)
      ensures obj.None? ==> r == Thrown(NullPointerException) && referenceables == old(referenceables)
    {
      if obj.Some? && IsSubtypeOfReferenceable(obj.value.cls) {
        referenceables := referenceables[id := obj.value];
        return Ok(());
      }
      if obj.None? {
        return Thrown(NullPointerException);
      }
      return Ok(());
    }

    /** `resolve(id, targetType)`: a `Callable` that looks `id` up in this resolver when called. */
    method Resolve(id: string, targetType: JavaClass) returns (c: PendingLookup)
      ensures c == PendingLookup(this, id, targetType)
    {
      c := PendingLookup(this, id, targetType);
    }
  }

  /** The `Callable` returned by `resolve`: the resolver it reads, the identifier and the target type. */
  datatype PendingLookup = PendingLookup(resolver: DocumentIDResolver, id: string, targetType: JavaClass)

  /**
   * `call()`: scans the target type's declared interfaces for `Referenceable`, then
   * looks the identifier up in the resolver's table as it is now; `null` otherwise.
   */
  method Call(c: PendingLookup) returns (result: Option<JavaObject>)
    ensures result == Lookup(c.resolver.referenceables, c.id, c.targetType)
  {
    var interfaces := c.targetType.interfaces;
    var referenceable := false;
    var i := 0;
    while i < |interfaces|
      invariant 0 <= i <= |interfaces|
      invariant referenceable <==> exists j :: 0 <= j < i && interfaces[j].name == REFERENCEABLE
    {
      if interfaces[i].name == REFERENCEABLE {
        referenceable := true;
      }
      i := i + 1;
    }
    if referenceable && c.id in c.resolver.referenceables {
      result := Some(c.resolver.referenceables[c.id]);
    } else {
      result := None;
    }
  }

  /**
   * The lookup is deferred: an object bound after `resolve` but before `call` is
   * found, for a target type declaring `Referenceable`.
   */
  method BindAfterResolve(resolver: DocumentIDResolver, id: string, targetType: JavaClass, obj: JavaObject)
    returns (result: Option<JavaObject>)
    requires DeclaresReferenceable(targetType) && IsSubtypeOfReferenceable(obj.cls)
    modifies resolver
    ensures result == Some(obj)
  {
    var pending := resolver.Resolve(id, targetType);
    var _ := resolver.Bind(id, Some(obj));
    result := Call(pending);
  }

  /** A later binding for the same identifier replaces the earlier one; other identifiers are unaffected. */
  lemma RebindReplaces(table: map<string, JavaObject>, id: string, other: string, a: JavaObject, b: JavaObject,
                       targetType: JavaClass)
    requires DeclaresReferenceable(targetType) && other != id
    ensures Lookup(table[id := a][id := b], id, targetType) == Some(b)
    ensures Lookup(table[id := a], other, targetType) == Lookup(table, other, targetType)
  {
  }

  /** After `startDocument`, nothing resolves; an identifier never bound resolves to `null`. */
  lemma UnboundIsNull(table: map<string, JavaObject>, id: string, targetType: JavaClass)
    requires id !in table
    ensures Lookup(table, id, targetType) == None
    ensures Lookup(map[], id, targetType) == None
  {
  }

  /**
   * A target type that is `Referenceable` only through its superclass resolves to
   * `null` whatever is bound: `getInterfaces()` lists the directly declared
   * interfaces only.
   */
  lemma InheritedReferenceableIgnored(table: map<string, JavaObject>, id: string, base: JavaClass, name: string)
    requires DeclaresReferenceable(base)
    ensures var sub := JavaClass(name, [], Some(base));
      IsSubtypeOfReferenceable(sub) && Lookup(table, id, sub) == None
  {
    var i :| 0 <= i < |base.interfaces| && base.interfaces[i].name == REFERENCEABLE;
    assert IsSubtypeOfReferenceable(base.interfaces[i]);
    assert IsSubtypeOfReferenceable(base);
  }
}
