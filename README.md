# A verified model of six Geotoolkit classes

This project models six Java classes of the Geotoolkit geospatial library in Dafny and proves properties of the model.

- **`DefaultRenderedImageIterator`** walks every sample of a tiled `RenderedImage`. Band varies fastest, then pixel column, then pixel row, then tile column, then tile row. It can be limited to a sub-area and restarted with `rewind()`.
  - The modules are `ImageGeometry` (image, tile and raster values), `TileTraversal` (the step of `next()` as a pure function, and the iteration order it follows) and `RenderedImageIterator`.
  - `RenderedImageIterator` holds the iterator as a class whose fields `next()` and `rewind()` update in place.
- **`AbstractClientFactory`** is the base of the client factories (module `ClientFactory`). It covers:
  - the display name derived from the class name;
  - forcing a default `identifier` into a parameter map;
  - the `canProcess` check of a parameter value group;
  - `checkCanProcessWithError`.
- **`UnionProcess`** is the vector union process (module `UnionProcess`). It covers:
  - merging two feature types into the union's type;
  - naming the features that `unionFeatureToFC` creates;
  - the geometry left over after the intersections;
  - the pass that drops features whose identifier an earlier call already produced.
- **`LayerEntry`** is a coverage layer (module `LayerEntry`). It covers:
  - `getCoverageCount()`, summed in 32-bit arithmetic;
  - `getSampleValueRanges()`, which unions the sample value range arrays of the layer's series. It adopts the first array by reference, merges later ones in place or into a grown copy, and caches the result.
- **`DocumentIDResolver`** resolves identifiers while a feature catalogue is unmarshalled (module `DocumentIdResolver`). `resolve` defers the lookup to the callable's `call()`.
- **`DefaultTemporalOperator`** is a filter capability with a non-empty operand list (module `TemporalOperator`). Its `equals` and `hashCode` depend on the class and the operands only.

Module `JavaLang` holds the Java semantics the others share:
- `Option` and a `Result` that carries a thrown exception;
- 32-bit `int` wrap-around;
- division truncating toward zero;
- ASCII case-insensitive comparison.

Each method that changes state is proved against a pure function of its inputs or old state. Lemmas then prove what the source promises about that function.

Two behaviours of the sub-area constructor differ from what its documentation leads one to expect. The model follows the code.
- The javadoc of the sub-area constructor (modules/coverage/geotk-coverage/src/main/java/org/geotoolkit/image/iterator/DefaultRenderedImageIterator.java:183) says it throws when the sub-area does not intersect the image. The code rejects only a clipped minimum *greater* than the clipped maximum, so a sub-area that merely touches the image is accepted.
- The tile range is computed by truncating division with an exclusive upper tile index, so a sub-area whose clipped right or bottom edge ends inside a tile loses that tile column or row. For a 100 x 100 image in 32 x 32 tiles and the sub-area (10,10)-(50,50), only pixel columns and rows 10 to 31 are reported, not the 40 x 40 pixels of the intersection (see Findings).

## Model

| member | source | states |
|---|---|---|
| JavaLang.TruncDivRoundsTowardZero | modules/coverage/geotk-coverage/src/main/java/org/geotoolkit/image/iterator/DefaultRenderedImageIterator.java:207-210 | Java `int` division rounds toward zero: the quotient times the divisor lies between 0 and the dividend, within one divisor of it, and negating the dividend negates the quotient |
| ImageGeometry.GetTile | modules/coverage/geotk-coverage/src/main/java/org/geotoolkit/image/iterator/DefaultRenderedImageIterator.java:301-309 | the raster of tile (tx, ty) covers that tile's grid bounds and has the tile's band count |
| TileTraversal.TileWindow | modules/coverage/geotk-coverage/src/main/java/org/geotoolkit/image/iterator/DefaultRenderedImageIterator.java:302-308 | the window iterated in a tile is the tile's raster bounds clipped to the sub-area, on each of the four edges |
| TileTraversal.LoadTile | modules/coverage/geotk-coverage/src/main/java/org/geotoolkit/image/iterator/DefaultRenderedImageIterator.java:300-309 | after moving to tile (tx, ty) the current raster is that tile, the position is the upper-left pixel of its clipped window at band 0, and the band count is the tile's |
| TileTraversal.InitialCursor | modules/coverage/geotk-coverage/src/main/java/org/geotoolkit/image/iterator/DefaultRenderedImageIterator.java:171-175 | the definition of the state both constructors leave (counters 1, band, x and y 0, tX = tMinX - 1, tY = tMinY); `InitialCursorInRun` states that it starts the whole visiting order |
| TileTraversal.InitialCursorInRun | modules/coverage/geotk-coverage/src/main/java/org/geotoolkit/image/iterator/DefaultRenderedImageIterator.java:173-175 | the state both constructors leave is at the start of the run: everything the iteration order holds is still to be visited |
| TileTraversal.Rewound | modules/coverage/geotk-coverage/src/main/java/org/geotoolkit/image/iterator/DefaultRenderedImageIterator.java:359-368 | the definition of the fields `rewind()` resets on the image path, with `minX` and the raster kept; `RewindRestarts` and `RewindThenVisit` state that it restarts the run |
| TileTraversal.RewindRestarts | modules/coverage/geotk-coverage/src/main/java/org/geotoolkit/image/iterator/DefaultRenderedImageIterator.java:359-368 | after `rewind()` exactly the samples of a new iterator remain, in the same order |
| TileTraversal.Step | modules/coverage/geotk-coverage/src/main/java/org/geotoolkit/image/iterator/DefaultRenderedImageIterator.java:289-313 | the definition of one `next()`: next band, next column, next row, next tile column, next tile row, or false past the last tile; `StepFollowsOrder` and `VisitsRemaining` tie it to the visiting order |
| TileTraversal.StepFollowsOrder | modules/coverage/geotk-coverage/src/main/java/org/geotoolkit/image/iterator/DefaultRenderedImageIterator.java:289-313 | one `next()` returns true exactly when samples remain, and then designates the first of them and leaves the rest; returning false leaves nothing |
| TileTraversal.VisitsRemaining | modules/coverage/geotk-coverage/src/main/java/org/geotoolkit/image/iterator/DefaultRenderedImageIterator.java:28-35 | repeated `next()` calls report exactly the remaining samples, in order (band fastest, then column, row, tile column, tile row), then return false |
| TileTraversal.TileRunSamples | modules/coverage/geotk-coverage/src/main/java/org/geotoolkit/image/iterator/DefaultRenderedImageIterator.java:28-35 | the samples of one tile are each pixel of its clipped window once per band of the tile, and all lie in that tile |
| TileTraversal.TilesFromSamples | modules/coverage/geotk-coverage/src/main/java/org/geotoolkit/image/iterator/DefaultRenderedImageIterator.java:28-35 | the tiles from (tx, ty) on yield each of their samples once and no other sample |
| TileTraversal.BeyondRangeNotVisited | modules/coverage/geotk-coverage/src/main/java/org/geotoolkit/image/iterator/DefaultRenderedImageIterator.java:289-313 | a pixel whose tile column is at or beyond `tMaxX` is never reported |
| TileTraversal.TraversalOverRunnable | modules/coverage/geotk-coverage/src/main/java/org/geotoolkit/image/iterator/DefaultRenderedImageIterator.java:158-176 | every tile in the tile range of a non-empty rectangle has a non-empty clipped window |
| TileTraversal.TraversalOverVisitsRectangle | modules/coverage/geotk-coverage/src/main/java/org/geotoolkit/image/iterator/DefaultRenderedImageIterator.java:28-35 | iterating the tiles covering a non-empty rectangle reports each of its pixels once in every band of its tile, and nothing else |
| RenderedImageIterator.FullImageTraversal | modules/coverage/geotk-coverage/src/main/java/org/geotoolkit/image/iterator/DefaultRenderedImageIterator.java:158-176 | the full-image constructor iterates the image bounds over `numXTiles` x `numYTiles` tiles starting at the first tile index, which for a consistent image is the tile range covering its bounds |
| RenderedImageIterator.Intersection | modules/coverage/geotk-coverage/src/main/java/org/geotoolkit/image/iterator/DefaultRenderedImageIterator.java:195-198 | the clipped bounds hold exactly the pixels lying both in the image and in the sub-area |
| RenderedImageIterator.SubAreaTraversal | modules/coverage/geotk-coverage/src/main/java/org/geotoolkit/image/iterator/DefaultRenderedImageIterator.java:185-215 | the sub-area constructor throws `IllegalArgumentException` exactly when the clipped minimum exceeds the clipped maximum on an axis, and otherwise keeps the unclipped sub-area bounds |
| RenderedImageIterator.SubAreaTraversalCorrected | modules/coverage/geotk-coverage/src/main/java/org/geotoolkit/image/iterator/DefaultRenderedImageIterator.java:195-210 | the corrected sub-area constructor throws exactly when the intersection of image and sub-area is empty |
| RenderedImageIterator.DefaultRenderedImageIterator.constructor | modules/coverage/geotk-coverage/src/main/java/org/geotoolkit/image/iterator/DefaultRenderedImageIterator.java:158-176 | a new full-image iterator holds the image, the full-image range and the state before the first tile |
| RenderedImageIterator.DefaultRenderedImageIterator.WithSubArea | modules/coverage/geotk-coverage/src/main/java/org/geotoolkit/image/iterator/DefaultRenderedImageIterator.java:185-215 | a new sub-area iterator holds the image, the range the sub-area constructor computes and the state before the first tile |
| RenderedImageIterator.DefaultRenderedImageIterator.WithSubAreaCorrected | modules/coverage/geotk-coverage/src/main/java/org/geotoolkit/image/iterator/DefaultRenderedImageIterator.java:185-215 | a new iterator with the corrected sub-area constructor holds the image, the intersection as its clip bounds, the tiles covering it as its range, and the state before the first tile |
| RenderedImageIterator.ReadSubArea | modules/coverage/geotk-coverage/src/main/java/org/geotoolkit/image/iterator/DefaultRenderedImageIterator.java:185-215 | draining a corrected sub-area iterator rejects an empty intersection and otherwise reports each pixel of the intersection once in each band of its tile, and nothing else |
| RenderedImageIterator.DefaultRenderedImageIterator.Next | modules/coverage/geotk-coverage/src/main/java/org/geotoolkit/image/iterator/DefaultRenderedImageIterator.java:289-313 | `next()` returns and leaves exactly what one step of the iteration gives from the old fields |
| RenderedImageIterator.DefaultRenderedImageIterator.LoadCurrentTile | modules/coverage/geotk-coverage/src/main/java/org/geotoolkit/image/iterator/DefaultRenderedImageIterator.java:300-309 | loading tile (tX, tY) sets the raster, clipped window, position and band count of that tile and keeps the tile indices |
| RenderedImageIterator.DefaultRenderedImageIterator.Rewind | modules/coverage/geotk-coverage/src/main/java/org/geotoolkit/image/iterator/DefaultRenderedImageIterator.java:359-368 | `rewind()` resets position, window, band count and tile indices to the state before the first tile, keeping `minX` and the raster |
| RenderedImageIterator.DrainSamples | modules/coverage/geotk-coverage/src/main/java/org/geotoolkit/image/iterator/DefaultRenderedImageIterator.java:37-42 | the documented `while (it.next())` loop records exactly the samples remaining from the iterator's state, in order |
| RenderedImageIterator.ReadImage | modules/coverage/geotk-coverage/src/main/java/org/geotoolkit/image/iterator/DefaultRenderedImageIterator.java:37-42 | draining a new full-image iterator reports every pixel of the image once in each band of its tile, and nothing else |
| RenderedImageIterator.FullImageVisitsEveryPixel | modules/coverage/geotk-coverage/src/main/java/org/geotoolkit/image/iterator/DefaultRenderedImageIterator.java:158-176 | from the full-image state, the run of `next()` calls lists every pixel once per band, without repetition, then returns false |
| RenderedImageIterator.RewindThenVisit | modules/coverage/geotk-coverage/src/main/java/org/geotoolkit/image/iterator/DefaultRenderedImageIterator.java:359-368 | after `rewind()` the iteration reports the same samples in the same order as a new iterator |
| RenderedImageIterator.CorrectedSubAreaVisitsIntersection | modules/coverage/geotk-coverage/src/main/java/org/geotoolkit/image/iterator/DefaultRenderedImageIterator.java:185-215 | with the corrected tile range, the iteration reports each pixel of the image-sub-area intersection once per band, and nothing else |
| RenderedImageIterator.SubAreaInsideOneTileRange | modules/coverage/geotk-coverage/src/main/java/org/geotoolkit/image/iterator/DefaultRenderedImageIterator.java:207-210 | a sub-area strictly inside the first tile of a grid at the origin gets the empty tile range [0, 0) on both axes |
| RenderedImageIterator.SubAreaInsideOneTileLeavesIt | modules/coverage/geotk-coverage/src/main/java/org/geotoolkit/image/iterator/DefaultRenderedImageIterator.java:207-210 | for such a sub-area the first `next()` returns true on tile (0, 1), at row `tileHeight`, outside the sub-area |
| RenderedImageIterator.SubAreaEndingInsideTileMissesPixels | modules/coverage/geotk-coverage/src/main/java/org/geotoolkit/image/iterator/DefaultRenderedImageIterator.java:207-210 | when the clipped right edge is not a multiple of the tile width, no sample of the intersection in its last, partly covered tile column is ever reported, in any band |
| RenderedImageIterator.SubAreaAlignedAgrees | modules/coverage/geotk-coverage/src/main/java/org/geotoolkit/image/iterator/DefaultRenderedImageIterator.java:207-210 | when the clipped bounds start at non-negative pixels and end on tile boundaries of a grid at the origin, the as-written range is the range of tiles covering the intersection |
| ClientFactory.LastIndexOf | modules/clients/geotk-client-store/src/main/java/org/geotoolkit/client/AbstractClientFactory.java:168 | `lastIndexOf` gives -1 or an index holding the character, with no occurrence after it |
| ClientFactory.SimpleName | modules/clients/geotk-client-store/src/main/java/org/geotoolkit/client/AbstractClientFactory.java:166-168 | the simple class name is a suffix of the class name without '.', preceded by '.' when shorter |
| ClientFactory.DisplayName | modules/clients/geotk-client-store/src/main/java/org/geotoolkit/client/AbstractClientFactory.java:164-173 | the definition of `getDisplayName()`: the simple name with one trailing "Factory" removed; the `DisplayName*` lemmas below state its properties |
| ClientFactory.DisplayNameHasNoDot | modules/clients/geotk-client-store/src/main/java/org/geotoolkit/client/AbstractClientFactory.java:164-173 | the display name holds no '.' |
| ClientFactory.DisplayNameRestoresSimpleName | modules/clients/geotk-client-store/src/main/java/org/geotoolkit/client/AbstractClientFactory.java:164-173 | the display name is the simple name or the simple name minus one trailing "Factory" |
| ClientFactory.DisplayNameStripsSuffixOnce | modules/clients/geotk-client-store/src/main/java/org/geotoolkit/client/AbstractClientFactory.java:156-173 | `pkg.FooFactory` has display name `Foo` (one suffix removed, any package) |
| ClientFactory.DisplayNameInDefaultPackage | modules/clients/geotk-client-store/src/main/java/org/geotoolkit/client/AbstractClientFactory.java:164-173 | a class of the default package named `FooFactory` has display name `Foo` |
| ClientFactory.DisplayNameStripsSuffix | modules/clients/geotk-client-store/src/main/java/org/geotoolkit/client/AbstractClientFactory.java:164-173 | whatever the class name, a simple name ending in "Factory" gives the display name followed by "Factory", seven characters shorter |
| ClientFactory.DisplayNameWithoutSuffix | modules/clients/geotk-client-store/src/main/java/org/geotoolkit/client/AbstractClientFactory.java:169-172 | a simple name not ending in "Factory" is the display name |
| ClientFactory.Description | modules/clients/geotk-client-store/src/main/java/org/geotoolkit/client/AbstractClientFactory.java:179-182 | the description is the display name |
| ClientFactory.ValueOf | modules/clients/geotk-client-store/src/main/java/org/geotoolkit/client/AbstractClientFactory.java:263-264 | a `null` default becomes a `null` map value, a `String` default that string |
| ClientFactory.FirstNamed | modules/clients/geotk-client-store/src/main/java/org/geotoolkit/client/AbstractClientFactory.java:279-284 | no value is found exactly when no parameter has the name; a found value belongs to the first parameter with it |
| ClientFactory.IdentifierCheck | modules/clients/geotk-client-store/src/main/java/org/geotoolkit/client/AbstractClientFactory.java:275-287 | the definition of what `checkIdentifier` returns or throws; `CheckIdentifier` computes it and `IdentifierCheckAccepts` characterises acceptance |
| ClientFactory.CheckIdentifier | modules/clients/geotk-client-store/src/main/java/org/geotoolkit/client/AbstractClientFactory.java:275-287 | `checkIdentifier` returns what the identifier rule gives: lookup failure without an identifier descriptor, true with no identifier value, a `NullPointerException` for a `null` expected value, else equality of the first value with the expected string |
| ClientFactory.IdentifierCheckAccepts | modules/clients/geotk-client-store/src/main/java/org/geotoolkit/client/AbstractClientFactory.java:269-287 | the identifier check accepts exactly when there is no identifier value, or the first one equals the declared non-null default |
| ClientFactory.CanProcessOutcome | modules/clients/geotk-client-store/src/main/java/org/geotoolkit/client/AbstractClientFactory.java:224-242 | the definition of `canProcess(ParameterValueGroup)` given the validity outcome; `CanProcess` computes it and `CanProcessAcceptsIff` characterises it |
| ClientFactory.CanProcess | modules/clients/geotk-client-store/src/main/java/org/geotoolkit/client/AbstractClientFactory.java:224-242 | `canProcess` returns what the validation rule gives for the group and the conformance outcome |
| ClientFactory.CanProcessAcceptsIff | modules/clients/geotk-client-store/src/main/java/org/geotoolkit/client/AbstractClientFactory.java:224-242 | `canProcess` is true exactly for a non-null group passing the identifier check, named like the descriptor ignoring case, with a non-null result passing; it throws exactly when the identifier check throws; a null group gives false |
| ClientFactory.CanProcessIgnoresNameCase | modules/clients/geotk-client-store/src/main/java/org/geotoolkit/client/AbstractClientFactory.java:236 | renaming the group to a case variant of its name does not change the outcome |
| ClientFactory.Availability | modules/clients/geotk-client-store/src/main/java/org/geotoolkit/client/AbstractClientFactory.java:248-252 | the availability result passes |
| ClientFactory.CheckCanProcessWithError | modules/clients/geotk-client-store/src/main/java/org/geotoolkit/client/AbstractClientFactory.java:293-298 | returns normally exactly when `canProcess` is true, throws the "not supported" `DataStoreException` exactly when it is false, and lets its exceptions through |
| ClientFactory.IdentifierExceptionIsNotDataStore | modules/clients/geotk-client-store/src/main/java/org/geotoolkit/client/AbstractClientFactory.java:275-298 | an exception escaping `canProcess` is never the `DataStoreException` thrown for a false result |
| ClientFactory.Forced | modules/clients/geotk-client-store/src/main/java/org/geotoolkit/client/AbstractClientFactory.java:257-267 | the forced entries always hold `identifier`; present, the map is unchanged; missing, it maps to the default and every other entry is kept, none added |
| ClientFactory.ForcedIdempotent | modules/clients/geotk-client-store/src/main/java/org/geotoolkit/client/AbstractClientFactory.java:257-267 | forcing the identifier twice is forcing it once |
| ClientFactory.ForceIdentifier | modules/clients/geotk-client-store/src/main/java/org/geotoolkit/client/AbstractClientFactory.java:257-267 | a map holding `identifier` is returned itself; otherwise a new map with the forced entries, or the lookup failure without an identifier descriptor; the caller's map is untouched |
| UnionProcess.CrsOrDefault | modules/processing/geotk-processing/src/main/java/org/geotoolkit/processing/vector/union/UnionProcess.java:277-280 | a `null` CRS becomes normalized WGS 84; any other is kept |
| UnionProcess.MergedType | modules/processing/geotk-processing/src/main/java/org/geotoolkit/processing/vector/union/UnionProcess.java:274-329 | the definition of the type `mergeType` builds; `MergedTypeHasOneGeometry` and `MergedTypeDescriptors` state its shape |
| UnionProcess.MergeType | modules/processing/geotk-processing/src/main/java/org/geotoolkit/processing/vector/union/UnionProcess.java:274-329 | `mergeType` builds the merged type: named "<type1>-<type2>", type1's non-geometry descriptors, type2's new ones, and the one geometry attribute as default geometry |
| UnionProcess.SourceHasName | modules/processing/geotk-processing/src/main/java/org/geotoolkit/processing/vector/union/UnionProcess.java:305-318 | the inner search finds a name exactly when some non-geometry descriptor of type1 has it |
| UnionProcess.AttributesMembers | modules/processing/geotk-processing/src/main/java/org/geotoolkit/processing/vector/union/UnionProcess.java:288-296 | the descriptors copied from type1 are exactly its non-geometry descriptors |
| UnionProcess.AttributesConcat | modules/processing/geotk-processing/src/main/java/org/geotoolkit/processing/vector/union/UnionProcess.java:288-296 | the copy keeps type1's order |
| UnionProcess.NewAttributesMembers | modules/processing/geotk-processing/src/main/java/org/geotoolkit/processing/vector/union/UnionProcess.java:299-323 | the descriptors copied from type2 are exactly its non-geometry descriptors whose name no non-geometry descriptor of type1 has |
| UnionProcess.NewAttributesConcat | modules/processing/geotk-processing/src/main/java/org/geotoolkit/processing/vector/union/UnionProcess.java:299-323 | the copy keeps type2's order |
| UnionProcess.MergedTypeHasOneGeometry | modules/processing/geotk-processing/src/main/java/org/geotoolkit/processing/vector/union/UnionProcess.java:285-326 | the merged type is named "<type1>-<type2>", its only geometry descriptor is the last one, with the given name and CRS (WGS 84 when none), and it is the default geometry |
| UnionProcess.MergedTypeDescriptors | modules/processing/geotk-processing/src/main/java/org/geotoolkit/processing/vector/union/UnionProcess.java:288-326 | each non-geometry descriptor of type1 is in the first part; one of type2 is in the second part exactly when type1 has no attribute of its name; no input geometry descriptor survives |
| UnionProcess.FeatureId | modules/processing/geotk-processing/src/main/java/org/geotoolkit/processing/vector/union/UnionProcess.java:131-135 | a created identifier is the two identifiers joined by '-' |
| UnionProcess.FeatureIdPassesSwap | modules/processing/geotk-processing/src/main/java/org/geotoolkit/processing/vector/union/UnionProcess.java:130-135 | the first pass gives "inputID-unionID" (the input identifier, then '-', then the union identifier) and the second swaps the two identifiers |
| UnionProcess.LastGeometryNamed | modules/processing/geotk-processing/src/main/java/org/geotoolkit/processing/vector/union/UnionProcess.java:111-118 | the input geometry is the value of the last geometry property with the name, or the empty geometry when none |
| UnionProcess.ReadInputGeometry | modules/processing/geotk-processing/src/main/java/org/geotoolkit/processing/vector/union/UnionProcess.java:111-118 | the loop reads the input geometry |
| UnionProcess.Intersected | modules/processing/geotk-processing/src/main/java/org/geotoolkit/processing/vector/union/UnionProcess.java:125-150 | no feature made from a union feature carries the input's own identifier (each joins two identifiers with '-') |
| UnionProcess.AtMostOneRemainingFeature | modules/processing/geotk-processing/src/main/java/org/geotoolkit/processing/vector/union/UnionProcess.java:156-191 | at most one created feature has the input's identifier; there is one exactly when some geometry remains or nothing intersected |
| UnionProcess.IdsMembers | modules/processing/geotk-processing/src/main/java/org/geotoolkit/processing/vector/union/UnionProcess.java:199-206 | the identifier set of a feature list holds exactly its features' identifiers |
| UnionProcess.KeptAreNew | modules/processing/geotk-processing/src/main/java/org/geotoolkit/processing/vector/union/UnionProcess.java:194-211 | every feature kept was created and its identifier was not already in the shared set |
| UnionProcess.KeptIdsDistinct | modules/processing/geotk-processing/src/main/java/org/geotoolkit/processing/vector/union/UnionProcess.java:194-211 | the kept features have pairwise distinct identifiers, all of created features |
| UnionProcess.KeptCoverCreated | modules/processing/geotk-processing/src/main/java/org/geotoolkit/processing/vector/union/UnionProcess.java:199-206 | every created identifier was already known or is carried by a kept feature |
| UnionProcess.RemoveKnown | modules/processing/geotk-processing/src/main/java/org/geotoolkit/processing/vector/union/UnionProcess.java:194-211 | the duplicate pass keeps exactly the features with a new identifier and adds every created identifier to the shared set |
| UnionProcess.UnionFeatureToFC | modules/processing/geotk-processing/src/main/java/org/geotoolkit/processing/vector/union/UnionProcess.java:99-212 | `unionFeatureToFC` returns the created features whose identifiers are new, in creation order, and adds all created identifiers to the shared set |
| UnionProcess.IntersectAll | modules/processing/geotk-processing/src/main/java/org/geotoolkit/processing/vector/union/UnionProcess.java:125-150 | the loop over the union features yields one feature per non-empty intersection, in order, and the input geometry minus every intersection; the flag is set exactly when some feature was made |
| LayerEntry.Sum | modules/coverage/geotk-coverage-sql/src/main/java/org/geotoolkit/coverage/sql/LayerEntry.java:355-367 | the definition of the exact sum of the coverage counts; `SumBounds` bounds it and `CoverageCount` wraps it to `int` |
| LayerEntry.SumBounds | modules/coverage/geotk-coverage-sql/src/main/java/org/geotoolkit/coverage/sql/LayerEntry.java:362-366 | the exact total of non-negative counts is non-negative and at least each count |
| LayerEntry.CoverageCount | modules/coverage/geotk-coverage-sql/src/main/java/org/geotoolkit/coverage/sql/LayerEntry.java:355-367 | `getCoverageCount` is the exact sum of the frequencies wrapped to a 32-bit `int` |
| LayerEntry.CoverageCountExact | modules/coverage/geotk-coverage-sql/src/main/java/org/geotoolkit/coverage/sql/LayerEntry.java:362-366 | when the sum fits in an `int`, the count is the exact sum |
| LayerEntry.MergeRanges | modules/coverage/geotk-coverage-sql/src/main/java/org/geotoolkit/coverage/sql/LayerEntry.java:510-521 | the definition of one merge of two range lists; `MergeRangesShape` and `MergeRangesCommutes` state its properties |
| LayerEntry.MergeRangesShape | modules/coverage/geotk-coverage-sql/src/main/java/org/geotoolkit/coverage/sql/LayerEntry.java:510-521 | a merge gives the longer length, the unions below the shorter length (nothing for equal arrays), and the longer array's ranges beyond it |
| LayerEntry.MergeRangesCommutes | modules/coverage/geotk-coverage-sql/src/main/java/org/geotoolkit/coverage/sql/LayerEntry.java:510-521 | with a commutative `union`, merging a into b equals merging b into a |
| LayerEntry.MergeInto | modules/coverage/geotk-coverage-sql/src/main/java/org/geotoolkit/coverage/sql/LayerEntry.java:510-521 | one merge on arrays gives the merged contents; an equal or shorter candidate leaves the accumulated array object in place, a longer one makes a new array and leaves the old one unchanged |
| LayerEntry.Absorb | modules/coverage/geotk-coverage-sql/src/main/java/org/geotoolkit/coverage/sql/LayerEntry.java:504-522 | one step of the loop: a series without candidates leaves the accumulated array as it was, the first candidate array is adopted itself, a later one is merged with the accumulated ranges, in place when it is no longer, otherwise into a new array, leaving the accumulated one unchanged |
| LayerEntry.Accumulate | modules/coverage/geotk-coverage-sql/src/main/java/org/geotoolkit/coverage/sql/LayerEntry.java:502-525 | the definition of the merge loop as a fold over the series' candidates; `AccumulateLength` and `MissingCandidatesIgnored` state its properties and `MergeSeries` computes it on arrays |
| LayerEntry.AccumulateLength | modules/coverage/geotk-coverage-sql/src/main/java/org/geotoolkit/coverage/sql/LayerEntry.java:502-525 | there are accumulated ranges exactly when some series gave a candidate array, and they are as long as the longest one |
| LayerEntry.MissingCandidatesIgnored | modules/coverage/geotk-coverage-sql/src/main/java/org/geotoolkit/coverage/sql/LayerEntry.java:503-507 | series without a format or without ranges do not change the result |
| LayerEntry.SampleValueRanges | modules/coverage/geotk-coverage-sql/src/main/java/org/geotoolkit/coverage/sql/LayerEntry.java:526-530 | with no candidate array at all the result is the empty list |
| LayerEntry.MergeSeries | modules/coverage/geotk-coverage-sql/src/main/java/org/geotoolkit/coverage/sql/LayerEntry.java:502-525 | the loop yields the accumulated ranges of the series' candidate arrays; the result is the first array itself exactly when no candidate was longer, otherwise a new array; other series' arrays are unchanged |
| LayerEntry.Layer.GetSampleValueRanges | modules/coverage/geotk-coverage-sql/src/main/java/org/geotoolkit/coverage/sql/LayerEntry.java:499-536 | a cached list is returned and nothing changes; otherwise the union of the series' ranges is returned and cached, every candidate array other than the first is left as it was, and the first one holds the result when no later candidate was longer |
| DocumentIdResolver.Lookup | modules/jaxb-xml-binding/geotk-xml-feature-catalogue/src/main/java/org/geotoolkit/resources/jaxb/feature/catalog/DocumentIDResolver.java:64-69 | a lookup finds an object exactly when the target type declares `Referenceable` and the identifier is bound, and then the bound object |
| DocumentIdResolver.DocumentIDResolver.constructor | modules/jaxb-xml-binding/geotk-xml-feature-catalogue/src/main/java/org/geotoolkit/resources/jaxb/feature/catalog/DocumentIDResolver.java:35 | a new resolver has no binding |
| DocumentIdResolver.DocumentIDResolver.StartDocument | modules/jaxb-xml-binding/geotk-xml-feature-catalogue/src/main/java/org/geotoolkit/resources/jaxb/feature/catalog/DocumentIDResolver.java:41-43 | `startDocument` forgets every binding |
| DocumentIdResolver.DocumentIDResolver.Bind | modules/jaxb-xml-binding/geotk-xml-feature-catalogue/src/main/java/org/geotoolkit/resources/jaxb/feature/catalog/DocumentIDResolver.java:45-50 | a `Referenceable` is bound under the identifier, replacing any earlier one; another object leaves the table unchanged; `null` throws a `NullPointerException` |
| DocumentIdResolver.DocumentIDResolver.Resolve | modules/jaxb-xml-binding/geotk-xml-feature-catalogue/src/main/java/org/geotoolkit/resources/jaxb/feature/catalog/DocumentIDResolver.java:52-53 | `resolve` captures the resolver, identifier and target type without reading the table |
| DocumentIdResolver.Call | modules/jaxb-xml-binding/geotk-xml-feature-catalogue/src/main/java/org/geotoolkit/resources/jaxb/feature/catalog/DocumentIDResolver.java:54-74 | `call()` returns the lookup in the resolver's table as it is at call time |
| DocumentIdResolver.BindAfterResolve | modules/jaxb-xml-binding/geotk-xml-feature-catalogue/src/main/java/org/geotoolkit/resources/jaxb/feature/catalog/DocumentIDResolver.java:52-76 | an object bound after `resolve` and before `call` is found |
| DocumentIdResolver.RebindReplaces | modules/jaxb-xml-binding/geotk-xml-feature-catalogue/src/main/java/org/geotoolkit/resources/jaxb/feature/catalog/DocumentIDResolver.java:45-47 | a later binding for an identifier replaces the earlier one and leaves other identifiers unchanged |
| DocumentIdResolver.UnboundIsNull | modules/jaxb-xml-binding/geotk-xml-feature-catalogue/src/main/java/org/geotoolkit/resources/jaxb/feature/catalog/DocumentIDResolver.java:41-43 | an unbound identifier, and any identifier after `startDocument`, resolves to `null` |
| DocumentIdResolver.InheritedReferenceableIgnored | modules/jaxb-xml-binding/geotk-xml-feature-catalogue/src/main/java/org/geotoolkit/resources/jaxb/feature/catalog/DocumentIDResolver.java:58-62 | a target type that is `Referenceable` only through its superclass resolves to `null` |
| TemporalOperator.NewTemporalOperator | modules/feature/geotk-filter/src/main/java/org/geotoolkit/filter/capability/DefaultTemporalOperator.java:35-44 | the constructor throws `IllegalArgumentException` with its message exactly for a `null` or empty operand array; otherwise the operator keeps its class, name and the operands in order |
| TemporalOperator.GetTemporalOperands | modules/feature/geotk-filter/src/main/java/org/geotoolkit/filter/capability/DefaultTemporalOperator.java:50-52 | the operands returned are those stored, never empty for a constructed operator |
| TemporalOperator.ConstructThenChangeArray | modules/feature/geotk-filter/src/main/java/org/geotoolkit/filter/capability/DefaultTemporalOperator.java:42-43 | changing the array after construction does not change the operator's operands; the clone itself is modelled by the operands being a sequence, a value |
| TemporalOperator.Equals | modules/feature/geotk-filter/src/main/java/org/geotoolkit/filter/capability/DefaultTemporalOperator.java:58-70 | the definition of `equals`: false for `null` and another runtime class, otherwise equality of the operand lists; `EqualsIsEquivalence` and `EqualsIgnoresName` state its properties |
| TemporalOperator.EqualsIsEquivalence | modules/feature/geotk-filter/src/main/java/org/geotoolkit/filter/capability/DefaultTemporalOperator.java:58-70 | `equals` is reflexive, symmetric and transitive, and false for `null` and unrelated objects |
| TemporalOperator.EqualsIgnoresName | modules/feature/geotk-filter/src/main/java/org/geotoolkit/filter/capability/DefaultTemporalOperator.java:58-80 | operators of one class built from the same operands under different names are equal and hash equally |
| TemporalOperator.ListHash | modules/feature/geotk-filter/src/main/java/org/geotoolkit/filter/capability/DefaultTemporalOperator.java:79 | the definition of `List.hashCode()` of the operands, in `int` arithmetic; `ListHashIsWrappedPolynomial` relates it to the exact polynomial |
| TemporalOperator.ListHashIsWrappedPolynomial | modules/feature/geotk-filter/src/main/java/org/geotoolkit/filter/capability/DefaultTemporalOperator.java:78 | the list hash computed step by step in `int` arithmetic is the exact polynomial 31-based hash wrapped to an `int` |
| TemporalOperator.HashCode | modules/feature/geotk-filter/src/main/java/org/geotoolkit/filter/capability/DefaultTemporalOperator.java:76-80 | the definition of `hashCode()`; `HashCodeIsWrappedPolynomial` and `EqualOperatorsHashEqually` state its properties |
| TemporalOperator.HashCodeIsWrappedPolynomial | modules/feature/geotk-filter/src/main/java/org/geotoolkit/filter/capability/DefaultTemporalOperator.java:76-80 | `hashCode` is 91 plus the exact polynomial hash of the operands, wrapped to an `int` |
| TemporalOperator.EqualOperatorsHashEqually | modules/feature/geotk-filter/src/main/java/org/geotoolkit/filter/capability/DefaultTemporalOperator.java:58-80 | equal operators have equal hash codes |
## Left out

- The raster-based constructors and the raster branches of `next()` and `rewind()` are not modelled. They delegate to `RasterBasedIterator`, which is not part of this model.
- The accessors `getX`, `getY` and `getSample*` are commented out in the iterator, so they are not modelled.
- The iterator's `int` overflow (`minX + width`, `++x` near `Integer.MAX_VALUE`) is not modelled. Coordinates are unbounded integers.
- A raster returned by `getTile(tx, ty)` is taken to cover exactly that tile's grid bounds.
- The fields that `super()` leaves are taken to start at Java's defaults (0 and `null`).
- `TileTraversal.VisitsRemaining`: the order is proved only for ranges whose every tile has a non-empty clipped window. On an empty window `next()` runs past it, and `SubAreaInsideOneTileLeavesIt` shows where it goes.
- `RenderedImageIterator`: a `null` image or sub-area, for which the constructors throw a `NullPointerException`, is not modelled; the model's types exclude `null`. The message of the sub-area constructor's `IllegalArgumentException` is modelled without the image and sub-area text the source appends to it.
- `RenderedImageIterator.DefaultRenderedImageIterator.WithSubArea` models only the case where the constructor does not throw. `SubAreaTraversal` models the throwing case.
- Several methods are separate members where the source has inline code in a larger method:
  - `LoadCurrentTile`, from `next()`;
  - `SourceHasName`, `ReadInputGeometry`, `IntersectAll` and `RemoveKnown`, from `mergeType` and `unionFeatureToFC`;
  - `MergeInto`, `Absorb` and `MergeSeries`, from `getSampleValueRanges`.
- `ClientFactory.ForceIdentifier`: a `null` parameter map is not modelled. The source throws a `NullPointerException` at `params.containsKey`; `Forced` and `ForceIdentifier` take a map that is always present.
- `ClientFactory`: the `ClassCastException` paths are not modelled. This covers a parameter value that is not a `ParameterValue`, and an identifier default that is not a `String`. The model's types exclude both.
- `ClientFactory`: `open` and `canProcess(Map)` depend on `FeatureUtilities.toParameter` and `Parameters.isValid`, which are not part of this model. The outcome of `isValid` is a parameter of `CanProcess`.
- `ClientFactory`: names are compared by code. Case folding is ASCII only.
- `UnionProcess`: JTS geometries are an opaque type. Intersection, difference, emptiness and the empty collection are parameters.
- `UnionProcess`: copying attribute values into the created features is not modelled. A created feature records its identifier, the geometry attribute set and its geometry.
- `UnionProcess`: `removeAll` is taken to remove exactly the flagged features. `Feature.equals` is not part of this model.
- `UnionProcess`: the feature type builder's `add` is taken to append. The source compares full `Name`s; the model compares their tip strings.
- `UnionProcess`: the default geometry property of a feature from `unionFeatureToFeature` is taken to hold the intersection that was set.
- `UnionProcess`: iterator closing and the `TransformException`/`FactoryException` paths are not modelled.
- `LayerEntry`: the database queries, `SQLException`/`CoverageStoreException` and `synchronized` are not modelled. The series and their frequencies are inputs.
- `LayerEntry.MergeSeries` and `LayerEntry.Layer.GetSampleValueRanges`: require the series' candidate arrays to be distinct objects. Two series sharing one array while the accumulated array aliases it are not modelled.
- `LayerEntry.Layer.GetSampleValueRanges`: the cached list is a sequence copy of the array. The source wraps the array in an unmodifiable view.
- `MeasurementRange` is an opaque type with `union` as a parameter.
- `DocumentIdResolver`: logging is not modelled. A `null` identifier or target type is not modelled.
- `DocumentIdResolver`: `instanceof Referenceable` is modelled over class and interface names.
- `TemporalOperator`: the runtime class is a string, and `getClass()` equality is string equality.
- `TemporalOperator`: the name handling of `DefaultOperator` is not part of this model. The operands' own `hashCode` is a parameter.

## Findings

| source | as written | input that shows it | evidently intended | confidence | as-written member | corrected member |
|---|---|---|---|---|---|---|
| modules/coverage/geotk-coverage/src/main/java/org/geotoolkit/image/iterator/DefaultRenderedImageIterator.java:207-210 | the sub-area tile range is `clippedMin / tileSize + minTile` to `clippedMax / tileSize + minTile` (exclusive), in truncating division, ignoring the tile grid offset | a 100 x 100 image in 32 x 32 tiles at the origin with sub-area (10,10,10,10): the tile range is empty and the first `next()` reports pixel (10, 32), outside the sub-area; with sub-area (10,10)-(50,50), pixel columns 32 to 49 are never reported | the tiles from the one holding the clipped minimum to the one holding the clipped maximum minus one, and an empty intersection rejected | high (proved on the model; not executed) | RenderedImageIterator.SubAreaInsideOneTileLeavesIt, RenderedImageIterator.SubAreaEndingInsideTileMissesPixels | RenderedImageIterator.SubAreaTraversalCorrected, RenderedImageIterator.CorrectedSubAreaVisitsIntersection |
