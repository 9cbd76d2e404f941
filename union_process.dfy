/**
 * The bookkeeping of the vector `UnionProcess`: merging two feature types into
 * the type of the union, naming the features it creates, and the pass that drops
 * features whose identifier an earlier call already produced.
 *
 * Geometries are an opaque type `G`; the geometry library's intersection,
 * difference and emptiness test are parameters.
 */
module UnionProcess {
  import opened JavaLang

  // ---------------------------------------------------------------------------
  // mergeType
  // ---------------------------------------------------------------------------

  /** A coordinate reference system: the normalized WGS 84 default, or any other. */
  datatype Crs = NormalizedWgs84 | OtherCrs(code: string)

  /** A property descriptor: a plain attribute, or a `GeometryDescriptor`. */
  datatype Descriptor =
    | Attribute(name: string, binding: string)
    | GeometryAttribute(name: string, crs: Crs)

  /** A feature type: its name (the name's tip), its descriptors in order, and its default geometry. */
  datatype FeatureType = FeatureType(name: string, descriptors: seq<Descriptor>, defaultGeometry: Option<string>)

  /** The non-geometry descriptors of `ds`, in order. */
  function Attributes(ds: seq<Descriptor>): seq<Descriptor> {
    if |ds| == 0 then []
    else Attributes(ds[..|ds| - 1]) + (if ds[|ds| - 1].Attribute? then [ds[|ds| - 1]] else [])
  }

  /** Some non-geometry descriptor of `ds` is named `name`. */
  predicate HasAttributeNamed(ds: seq<Descriptor>, name: string) {
    exists i :: 0 <= i < |ds| && ds[i].Attribute? && ds[i].name == name
  }

  /** The non-geometry descriptors of `ds2` whose name no non-geometry descriptor of `ds1` has, in order. */
  function NewAttributes(ds1: seq<Descriptor>, ds2: seq<Descriptor>): seq<Descriptor> {
    if |ds2| == 0 then []
    else
      var d := ds2[|ds2| - 1];
      NewAttributes(ds1, ds2[..|ds2| - 1]) + (if d.Attribute? && !HasAttributeNamed(ds1, d.name) then [d] else [])
  }

  /** The geometry CRS used: the given one, or normalized WGS 84 when it is `null`. */
  function CrsOrDefault(crs: Option<Crs>): (r: Crs)
    ensures crs.None? ==> r == NormalizedWgs84
    ensures crs.Some? ==> r == crs.value
  {
    if crs.None? then NormalizedWgs84 else crs.value
  }

  /**
   * The type `mergeType` builds: named "<type1>-<type2>", the non-geometry
   * descriptors of type1, then those of type2 with a new name, then one geometry
   * attribute, which is the default geometry.
   */
  function MergedType(type1: FeatureType, type2: FeatureType, geometryName: string,
                      geometryCrs: Option<Crs>): FeatureType {
    FeatureType(type1.name + "-" + type2.name,
                Attributes(type1.descriptors) + NewAttributes(type1.descriptors, type2.descriptors) +
                [GeometryAttribute(geometryName, CrsOrDefault(geometryCrs))],
                Some(geometryName))
  }

  /** `mergeType(type1, type2, geometryName, geometryCRS)`; the builder's `add` appends. */
  method MergeType(type1: FeatureType, type2: FeatureType, geometryName: string,
                   geometryCrs: Option<Crs>) returns (r: FeatureType)
    ensures r == MergedType(type1, type2, geometryName, geometryCrs)
  {
    var crs := if geometryCrs.None? then NormalizedWgs84 else geometryCrs.value;
    var name := type1.name + "-" + type2.name;
    var source := type1.descriptors;
    var target := type2.descriptors;

    var added: seq<Descriptor> := [];
    var i := 0;
    while i < |source|
      invariant 0 <= i <= |source|
      invariant added == Attributes(source[..i])
    {
      assert source[..i + 1][..i] == source[..i];
      if source[i].Attribute? {
        added := added + [source[i]];
      }
      i := i + 1;
    }
    assert source[..|source|] == source;

    var j := 0;
    while j < |target|
      invariant 0 <= j <= |target|
      invariant added == Attributes(source) + NewAttributes(source, target[..j])
    {
      assert target[..j + 1][..j] == target[..j];
      var targetDesc := target[j];
      assert NewAttributes(source, target[..j + 1]) == NewAttributes(source, target[..j]) +
        (if targetDesc.Attribute? && !HasAttributeNamed(source, targetDesc.name) then [targetDesc] else []);
      if targetDesc.Attribute? {
        var isExistDesc := SourceHasName(source, targetDesc.name);
        if !isExistDesc {
          added := added + [targetDesc];
        }
      }
      j := j + 1;
    }
    assert target[..|target|] == target;

    added := added + [GeometryAttribute(geometryName, crs)];
    return FeatureType(name, added, Some(geometryName));
  }

  /** The attributes of `ds` are exactly its non-geometry descriptors. */
  lemma {:induction false} AttributesMembers(ds: seq<Descriptor>)
    ensures forall d :: d in Attributes(ds) <==> d in ds && d.Attribute?
  {
    if |ds| > 0 {
      var init := ds[..|ds| - 1];
      AttributesMembers(init);
      assert ds == init + [ds[|ds| - 1]];
    }
  }

  /** The new attributes are exactly type2's non-geometry descriptors whose name type1's attributes lack. */
  lemma {:induction false} NewAttributesMembers(ds1: seq<Descriptor>, ds2: seq<Descriptor>)
    ensures forall d :: d in NewAttributes(ds1, ds2) <==> d in ds2 && d.Attribute? && !HasAttributeNamed(ds1, d.name)
  {
    if |ds2| > 0 {
      var init := ds2[..|ds2| - 1];
      NewAttributesMembers(ds1, init);
      assert ds2 == init + [ds2[|ds2| - 1]];
    }
  }

  /** The inner loop of `mergeType`: whether some non-geometry source descriptor has the target's name. */
  method SourceHasName(source: seq<Descriptor>, name: string) returns (isExistDesc: bool)
    ensures isExistDesc <==> HasAttributeNamed(source, name)
  {
    isExistDesc := false;
    var k := 0;
    while k < |source|
      invariant 0 <= k <= |source|
      invariant forall m :: 0 <= m < k ==> !(source[m].Attribute? && source[m].name == name)
    {
      if source[k].Attribute? && source[k].name == name {
        isExistDesc := true;
        break;
      }
      k := k + 1;
    }
  }

  /** Filtering the attributes of a concatenation filters each part: the order of `ds` is kept. */
  lemma {:induction false} AttributesConcat(a: seq<Descriptor>, b: seq<Descriptor>)
    ensures Attributes(a + b) == Attributes(a) + Attributes(b)
    decreases |b|
  {
    if |b| > 0 {
      var b' := b[..|b| - 1];
      assert (a + b)[..|a + b| - 1] == a + b';
      AttributesConcat(a, b');
    } else {
      assert a + b == a;
    }
  }

  /** The new attributes of a concatenation of type2 descriptors are those of each part: type2's order is kept. */
  lemma {:induction false} NewAttributesConcat(ds1: seq<Descriptor>, a: seq<Descriptor>, b: seq<Descriptor>)
    ensures NewAttributes(ds1, a + b) == NewAttributes(ds1, a) + NewAttributes(ds1, b)
    decreases |b|
  {
    if |b| > 0 {
      var b' := b[..|b| - 1];
      assert (a + b)[..|a + b| - 1] == a + b';
      NewAttributesConcat(ds1, a, b');
    } else {
      assert a + b == a;
    }
  }

  /**
   * The merged type is named "<type1>-<type2>", holds exactly one geometry
   * descriptor, placed last, named `geometryName` with the given CRS (WGS 84 when
   * none), and that is its default geometry.
   */
  lemma MergedTypeHasOneGeometry(type1: FeatureType, type2: FeatureType, geometryName: string,
                                 geometryCrs: Option<Crs>)
    ensures var t := MergedType(type1, type2, geometryName, geometryCrs);
      t.name == type1.name + "-" + type2.name &&
      |t.descriptors| >= 1 &&
      t.descriptors[|t.descriptors| - 1] == GeometryAttribute(geometryName, CrsOrDefault(geometryCrs)) &&
      (forall i :: 0 <= i < |t.descriptors| - 1 ==> t.descriptors[i].Attribute?) &&
      t.defaultGeometry == Some(geometryName)
  {
    var t := MergedType(type1, type2, geometryName, geometryCrs);
    var front := Attributes(type1.descriptors) + NewAttributes(type1.descriptors, type2.descriptors);
    AttributesMembers(type1.descriptors);
    NewAttributesMembers(type1.descriptors, type2.descriptors);
    assert t.descriptors == front + [GeometryAttribute(geometryName, CrsOrDefault(geometryCrs))];
    forall i | 0 <= i < |t.descriptors| - 1
      ensures t.descriptors[i].Attribute?
    {
      assert t.descriptors[i] == front[i];
      assert front[i] in front;
    }
  }

  /**
   * Every non-geometry descriptor of type1 is in the merged type; a non-geometry
   * descriptor of type2 is added after them exactly when no non-geometry descriptor
   * of type1 has its name; no input geometry descriptor survives.
   */
  lemma MergedTypeDescriptors(type1: FeatureType, type2: FeatureType, geometryName: string,
                              geometryCrs: Option<Crs>, d: Descriptor)
    ensures var t := MergedType(type1, type2, geometryName, geometryCrs);
      var kept := |Attributes(type1.descriptors)|;
      (d in type1.descriptors && d.Attribute? ==> d in t.descriptors[..kept]) &&
      (d in type2.descriptors && d.Attribute? ==>
         (d in t.descriptors[kept..|t.descriptors| - 1] <==> !HasAttributeNamed(type1.descriptors, d.name))) &&
      (d.GeometryAttribute? && d in t.descriptors ==> d == GeometryAttribute(geometryName, CrsOrDefault(geometryCrs)))
  {
    var t := MergedType(type1, type2, geometryName, geometryCrs);
    var a := Attributes(type1.descriptors);
    var n := NewAttributes(type1.descriptors, type2.descriptors);
    var g := GeometryAttribute(geometryName, CrsOrDefault(geometryCrs));
    AttributesMembers(type1.descriptors);
    NewAttributesMembers(type1.descriptors, type2.descriptors);
    assert t.descriptors == a + n + [g];
    assert t.descriptors[..|a|] == a;
    assert t.descriptors[|a|..|t.descriptors| - 1] == n;
  }

  // ---------------------------------------------------------------------------
  // unionFeatureToFC
  // ---------------------------------------------------------------------------

  /** A property of an input feature: a plain attribute, or a geometry property with its value. */
  datatype Property<G> = PlainProperty(name: string) | GeometryProperty(name: string, value: G)

  /** An input feature: its identifier and its properties in order. */
  datatype InputFeature<G> = InputFeature(id: string, properties: seq<Property<G>>)

  /** A created feature: its identifier, the geometry attribute that was set, and its geometry. */
  datatype Feature<G> = Feature(id: string, geometryAttribute: string, geometry: G)

  /**
   * One call of `unionFeatureToFC`: the input feature, the geometry attribute names,
   * the pass, and the geometry library: the intersection of the input feature with
   * a union feature, the difference of two geometries, emptiness, and the empty
   * geometry collection.
   */
  datatype UnionCall<!G> = UnionCall(
    input: InputFeature<G>, inputGeomName: string, unionGeomName: string, firstPass: bool,
    intersectionWith: InputFeature<G> -> G, difference: (G, G) -> G, isEmpty: G -> bool,
    emptyGeometry: G)

  /**
   * The identifier of a feature made from the input and a union feature:
   * "inputID-unionID" on the first pass, "unionID-inputID" on the second.
   */
  function FeatureId(inputId: string, unionId: string, firstPass: bool): (r: string)
    ensures |r| == |inputId| + |unionId| + 1
  {
    if firstPass then inputId + "-" + unionId else unionId + "-" + inputId
  }

  /**
   * The first pass joins the input's identifier and the union feature's by '-';
   * the second pass swaps the two identifiers.
   */
  lemma FeatureIdPassesSwap(inputId: string, unionId: string)
    ensures FeatureId(inputId, unionId, false) == FeatureId(unionId, inputId, true)
    ensures FeatureId(inputId, unionId, true)[..|inputId|] == inputId
    ensures FeatureId(inputId, unionId, true)[|inputId|] == '-'
    ensures FeatureId(inputId, unionId, true)[|inputId| + 1..] == unionId
  {
    assert FeatureId(inputId, unionId, true) == inputId + "-" + unionId;
  }

  /** Property `i` is a geometry property named `name`. */
  predicate GeometryNamedAt<G>(props: seq<Property<G>>, i: int, name: string)
    requires 0 <= i < |props|
  {
    props[i].GeometryProperty? && props[i].name == name
  }

  /** The value of the last geometry property named `name`, or `empty` when there is none. */
  function LastGeometryNamed<G>(props: seq<Property<G>>, name: string, empty: G): (g: G)
    ensures (forall i :: 0 <= i < |props| ==> !GeometryNamedAt(props, i, name)) ==> g == empty
    ensures (exists i :: 0 <= i < |props| && GeometryNamedAt(props, i, name)) ==>
      exists i :: 0 <= i < |props| && GeometryNamedAt(props, i, name) && g == props[i].value &&
                  forall j :: i < j < |props| ==> !GeometryNamedAt(props, j, name)
  {
    if |props| == 0 then empty
    else
      var init := props[..|props| - 1];
      assert forall i :: 0 <= i < |init| ==> (GeometryNamedAt(init, i, name) <==> GeometryNamedAt(props, i, name));
      if GeometryNamedAt(props, |props| - 1, name) then props[|props| - 1].value
      else LastGeometryNamed(init, name, empty)
  }

  /** The geometry attribute a created feature sets: the input's on the first pass, the union's otherwise. */
  function GeometryAttributeOf<G>(call: UnionCall<G>): string {
    if call.firstPass then call.inputGeomName else call.unionGeomName
  }

  /** The features made from the union features that intersect the input, in order. */
  function Intersected<G>(call: UnionCall<G>, unionFC: seq<InputFeature<G>>): (r: seq<Feature<G>>)
    ensures forall f :: f in r ==> f.id != call.input.id
  {
    if |unionFC| == 0 then []
    else
      var u := unionFC[|unionFC| - 1];
      var g := call.intersectionWith(u);
      Intersected(call, unionFC[..|unionFC| - 1]) +
      (if !call.isEmpty(g) then [Feature(FeatureId(call.input.id, u.id, call.firstPass), GeometryAttributeOf(call), g)]
       else [])
  }

  /** The input geometry minus every non-empty intersection, in order. */
  function RemainingAfter<G>(call: UnionCall<G>, start: G, unionFC: seq<InputFeature<G>>): G {
    if |unionFC| == 0 then start
    else
      var g := call.intersectionWith(unionFC[|unionFC| - 1]);
      var r := RemainingAfter(call, start, unionFC[..|unionFC| - 1]);
      if !call.isEmpty(g) then call.difference(r, g) else r
  }

  /** The geometry `unionFeatureToFC` takes from the input feature. */
  function InputGeometry<G>(call: UnionCall<G>): G {
    LastGeometryNamed(call.input.properties, call.inputGeomName, call.emptyGeometry)
  }

  /**
   * The features with the input's own identifier: one with the input geometry when
   * nothing intersected and nothing remains, one with the remaining geometry when
   * something remains.
   */
  function RemainingFeatures<G>(call: UnionCall<G>, unionFC: seq<InputFeature<G>>): seq<Feature<G>> {
    var remaining := RemainingAfter(call, InputGeometry(call), unionFC);
    var isIntersected := |Intersected(call, unionFC)| > 0;
    var attribute := GeometryAttributeOf(call);
    (if call.isEmpty(remaining) && !isIntersected then [Feature(call.input.id, attribute, InputGeometry(call))] else []) +
    (if !call.isEmpty(remaining) then [Feature(call.input.id, attribute, remaining)] else [])
  }

  /** Every feature the call creates, in the order it adds them. */
  function Created<G>(call: UnionCall<G>, unionFC: seq<InputFeature<G>>): seq<Feature<G>> {
    Intersected(call, unionFC) + RemainingFeatures(call, unionFC)
  }

  /**
   * At most one feature carries the input's own identifier: the two conditions for
   * a remaining feature exclude each other, and there is one exactly when
   * something remains or nothing intersected.
   */
  lemma AtMostOneRemainingFeature<G>(call: UnionCall<G>, unionFC: seq<InputFeature<G>>)
    ensures |RemainingFeatures(call, unionFC)| <= 1
    ensures |RemainingFeatures(call, unionFC)| == 1 <==>
      !call.isEmpty(RemainingAfter(call, InputGeometry(call), unionFC)) || |Intersected(call, unionFC)| == 0
    ensures forall f :: f in RemainingFeatures(call, unionFC) ==> f.id == call.input.id
    ensures forall i, j :: (0 <= i < j < |Created(call, unionFC)| && Created(call, unionFC)[i].id == call.input.id
      ==> Created(call, unionFC)[j].id != call.input.id)
  {
    var a := Intersected(call, unionFC);
    var c := Created(call, unionFC);
    assert forall k :: 0 <= k < |a| ==> c[k] == a[k];
    assert |c| <= |a| + 1;
  }

  /** The identifiers of `fs`. */
  function Ids<G>(fs: seq<Feature<G>>): set<string> {
    if |fs| == 0 then {} else Ids(fs[..|fs| - 1]) + {fs[|fs| - 1].id}
  }

  /** `Ids(fs)` holds exactly the identifiers of the features of `fs`. */
  lemma {:induction false} IdsMembers<G>(fs: seq<Feature<G>>)
    ensures forall id :: id in Ids(fs) <==> exists i :: 0 <= i < |fs| && fs[i].id == id
  {
    if |fs| > 0 {
      var init := fs[..|fs| - 1];
      IdsMembers(init);
      assert forall i :: 0 <= i < |init| ==> init[i] == fs[i];
    }
  }

  /** The created features kept by the duplicate pass when `seen` holds the identifiers already in the shared set. */
  function Kept<G>(fs: seq<Feature<G>>, seen: set<string>): seq<Feature<G>> {
    if |fs| == 0 then []
    else
      var init := fs[..|fs| - 1];
      var f := fs[|fs| - 1];
      Kept(init, seen) + (if f.id in seen + Ids(init) then [] else [f])
  }

  /** The kept features are created features whose identifiers were not in the shared set. */
  lemma {:induction false} KeptAreNew<G>(fs: seq<Feature<G>>, seen: set<string>)
    ensures forall f :: f in Kept(fs, seen) ==> f in fs && f.id !in seen
  {
    if |fs| > 0 {
      var init := fs[..|fs| - 1];
      KeptAreNew(init, seen);
      assert forall g :: g in init ==> g in fs;
    }
  }

  /** The identifiers of the kept features are created identifiers, and they are pairwise distinct. */
  lemma {:induction false} KeptIdsDistinct<G>(fs: seq<Feature<G>>, seen: set<string>)
    ensures Ids(Kept(fs, seen)) <= Ids(fs)
    ensures forall i, j :: 0 <= i < j < |Kept(fs, seen)| ==> Kept(fs, seen)[i].id != Kept(fs, seen)[j].id
  {
    if |fs| > 0 {
      var init := fs[..|fs| - 1];
      var f := fs[|fs| - 1];
      KeptIdsDistinct(init, seen);
      var k := Kept(init, seen);
      assert Ids(fs) == Ids(init) + {f.id};
      if f.id in seen + Ids(init) {
        assert Kept(fs, seen) == k;
      } else {
        var k' := k + [f];
        assert Kept(fs, seen) == k';
        IdsAppend(k, f);
        IdsMembers(k);
        forall i, j | 0 <= i < j < |k'|
          ensures k'[i].id != k'[j].id
        {
          assert k'[i] == k[i];
          if j < |k| {
            assert k'[j] == k[j];
          } else {
            assert k[i].id in Ids(init);
          }
        }
      }
    }
  }

  /** Appending a feature adds its identifier. */
  lemma IdsAppend<G>(fs: seq<Feature<G>>, f: Feature<G>)
    ensures Ids(fs + [f]) == Ids(fs) + {f.id}
  {
    assert (fs + [f])[..|fs|] == fs;
  }

  /** No created identifier is lost: each one was already known or is carried by a kept feature. */
  lemma {:induction false} KeptCoverCreated<G>(fs: seq<Feature<G>>, seen: set<string>)
    ensures seen + Ids(fs) == seen + Ids(Kept(fs, seen))
  {
    if |fs| > 0 {
      var init := fs[..|fs| - 1];
      var f := fs[|fs| - 1];
      KeptCoverCreated(init, seen);
      var k := Kept(init, seen);
      assert Ids(fs) == Ids(init) + {f.id};
      if f.id in seen + Ids(init) {
        assert Kept(fs, seen) == k;
      } else {
        assert Kept(fs, seen) == k + [f];
        IdsAppend(k, f);
      }
    }
  }

  /** The `Set<String>` of identifiers shared by every call of a union run. */
  class FeatureIdSet {
    var ids: set<string>

    constructor(ids: set<string>)
      ensures this.ids == ids
    {
      this.ids := ids;
    }
  }

  /** The geometry of the input feature: the value of the last geometry property named `inputGeomName`. */
  method ReadInputGeometry<G>(call: UnionCall<G>) returns (g: G)
    ensures g == InputGeometry(call)
  {
    var props := call.input.properties;
    g := call.emptyGeometry;
    var i := 0;
    while i < |props|
      invariant 0 <= i <= |props|
      invariant g == LastGeometryNamed(props[..i], call.inputGeomName, call.emptyGeometry)
    {
      assert props[..i + 1][..i] == props[..i];
      if props[i].GeometryProperty? && props[i].name == call.inputGeomName {
        g := props[i].value;
      }
      i := i + 1;
    }
    assert props[..|props|] == props;
  }

  /**
   * `unionFeatureToFC(...)`: creates the features, then drops those whose identifier
   * is already in `featureList`, adding the others' identifiers to it as it goes.
   */
  method UnionFeatureToFC<G>(call: UnionCall<G>, unionFC: seq<InputFeature<G>>, featureList: FeatureIdSet)
    returns (result: seq<Feature<G>>)
    modifies featureList
    ensures result == Kept(Created(call, unionFC), old(featureList.ids))
    ensures featureList.ids == old(featureList.ids) + Ids(Created(call, unionFC))
  {
    var inputGeometry := ReadInputGeometry(call);
    var attribute := if call.firstPass then call.inputGeomName else call.unionGeomName;
    var resultFeatureList, remainingGeometry, isIntersected := IntersectAll(call, unionFC, inputGeometry);

    if call.isEmpty(remainingGeometry) && !isIntersected {
      resultFeatureList := resultFeatureList + [Feature(call.input.id, attribute, inputGeometry)];
    }
    if !call.isEmpty(remainingGeometry) {
      resultFeatureList := resultFeatureList + [Feature(call.input.id, attribute, remainingGeometry)];
    }
    assert resultFeatureList == Created(call, unionFC);

    result := RemoveKnown(resultFeatureList, featureList);
  }

  /**
   * The loop of `unionFeatureToFC` over the union features: a feature for each
   * non-empty intersection with the input, and the input geometry minus those
   * intersections.
   */
  method IntersectAll<G>(call: UnionCall<G>, unionFC: seq<InputFeature<G>>, inputGeometry: G)
    returns (resultFeatureList: seq<Feature<G>>, remainingGeometry: G, isIntersected: bool)
    ensures resultFeatureList == Intersected(call, unionFC)
    ensures remainingGeometry == RemainingAfter(call, inputGeometry, unionFC)
    ensures isIntersected <==> |resultFeatureList| > 0
  {
    var attribute := if call.firstPass then call.inputGeomName else call.unionGeomName;
    remainingGeometry := inputGeometry;
    isIntersected := false;
    resultFeatureList := [];
    var i := 0;
    while i < |unionFC|
      invariant 0 <= i <= |unionFC|
      invariant resultFeatureList == Intersected(call, unionFC[..i])
      invariant remainingGeometry == RemainingAfter(call, inputGeometry, unionFC[..i])
      invariant isIntersected <==> |resultFeatureList| > 0
    {
      assert unionFC[..i + 1][..i] == unionFC[..i];
      var unionFeature := unionFC[i];
      var featureID := if call.firstPass then call.input.id + "-" + unionFeature.id
                       else unionFeature.id + "-" + call.input.id;
      var intersectGeometry := call.intersectionWith(unionFeature);
      if !call.isEmpty(intersectGeometry) {
        isIntersected := true;
        resultFeatureList := resultFeatureList + [Feature(featureID, attribute, intersectGeometry)];
        remainingGeometry := call.difference(remainingGeometry, intersectGeometry);
      }
      i := i + 1;
    }
    assert unionFC[..|unionFC|] == unionFC;
  }

  /** The duplicate pass of `unionFeatureToFC`: keeps the features whose identifier is new, recording it. */
  method RemoveKnown<G>(created: seq<Feature<G>>, featureList: FeatureIdSet) returns (kept: seq<Feature<G>>)
    modifies featureList
    ensures kept == Kept(created, old(featureList.ids))
    ensures featureList.ids == old(featureList.ids) + Ids(created)
  {
    ghost var seen := featureList.ids;
    kept := [];
    var i := 0;
    while i < |created|
      invariant 0 <= i <= |created|
      invariant featureList.ids == seen + Ids(created[..i])
      invariant kept == Kept(created[..i], seen)
    {
      var prefix := created[..i + 1];
      assert prefix[..i] == created[..i];
      var createdFeatureID := created[i].id;
      if createdFeatureID !in featureList.ids {
        featureList.ids := featureList.ids + {createdFeatureID};
        kept := kept + [created[i]];
      }
      i := i + 1;
    }
    assert created[..|created|] == created;
  }
}
