/**
 * `DefaultRenderedImageIterator` on the image path: its two `RenderedImage` constructors,
 * `next()` and `rewind()`, as a class whose fields the methods update in place. Each
 * method is proved against the pure step functions of `TileTraversal`, whose visiting
 * order is proved there.
 */
module RenderedImageIterator {
  import opened JavaLang
  import opened ImageGeometry
  import opened TileTraversal

  /** The sub-area and tile range the full-image constructor fixes. */
  function FullImageTraversal(img: RenderedImage): (t: Traversal)
    requires img.tileWidth > 0 && img.tileHeight > 0
    ensures t.tMaxX - t.tMinX == img.numXTiles && t.tMaxY - t.tMinY == img.numYTiles
    ensures Consistent(img) ==>
      t == TraversalOver(img, img.minX, img.minY, img.minX + img.width, img.minY + img.height)
  {
    Traversal(img.minX, img.minY, img.minX + img.width, img.minY + img.height,
              img.minTileX, img.minTileY, img.minTileX + img.numXTiles, img.minTileY + img.numYTiles)
  }

  /** The image bounds intersected with a sub-area: [minX, maxX) x [minY, maxY). */
  function Intersection(img: RenderedImage, area: Rectangle): (w: Window)
    ensures w.minX >= img.minX && w.minX >= area.x && w.minY >= img.minY && w.minY >= area.y
    ensures w.maxX <= img.minX + img.width && w.maxX <= area.x + area.width
    ensures w.maxY <= img.minY + img.height && w.maxY <= area.y + area.height
    ensures forall px, py :: InWindow(w, Sample(px, py, 0)) <==>
      InWindow(Window(img.minX, img.minY, img.minX + img.width, img.minY + img.height), Sample(px, py, 0)) &&
      InWindow(Window(area.x, area.y, area.x + area.width, area.y + area.height), Sample(px, py, 0))
  {
    Window(Max(img.minX, area.x), Max(img.minY, area.y),
           Min(img.minX + img.width, area.x + area.width), Min(img.minY + img.height, area.y + area.height))
  }

  /**
   * The sub-area constructor as written: the sub-area is kept unclipped, the constructor
   * throws when the clipped minimum exceeds the clipped maximum on an axis (an empty
   * intersection whose bounds are equal is accepted), and the tile range is the clipped
   * bounds divided by the tile size with `int` division, plus the image's first tile index.
   */
  function SubAreaTraversal(img: RenderedImage, area: Rectangle): (r: Result<Traversal>)
    requires img.tileWidth > 0 && img.tileHeight > 0
    ensures var ia := Intersection(img, area);
      r.Thrown? <==> ia.minX > ia.maxX || ia.minY > ia.maxY
    ensures r.Thrown? ==> r.exception.IllegalArgumentException?
    ensures r.Ok? ==> (r.value.subAreaMinX == area.x && r.value.subAreaMaxX == area.x + area.width
      && r.value.subAreaMinY == area.y && r.value.subAreaMaxY == area.y + area.height)
  {
    var ia := Intersection(img, area);
    if ia.minX > ia.maxX || ia.minY > ia.maxY then
      Thrown(IllegalArgumentException("invalid subArea coordinate no intersection between it and RenderedImage"))
    else
      Ok(Traversal(area.x, area.y, area.x + area.width, area.y + area.height,
                   TruncDiv(ia.minX, img.tileWidth) + img.minTileX, TruncDiv(ia.minY, img.tileHeight) + img.minTileY,
                   TruncDiv(ia.maxX, img.tileWidth) + img.minTileX, TruncDiv(ia.maxY, img.tileHeight) + img.minTileY))
  }

  /**
   * The sub-area constructor as evidently intended: an empty intersection is rejected,
   * and the iteration covers exactly the tiles holding a pixel of the intersection,
   * clipped to it.
   */
  function SubAreaTraversalCorrected(img: RenderedImage, area: Rectangle): (r: Result<Traversal>)
    requires img.tileWidth > 0 && img.tileHeight > 0
    ensures var ia := Intersection(img, area);
      r.Thrown? <==> !NonEmpty(ia)
    ensures r.Thrown? ==> r.exception.IllegalArgumentException?
  {
    var ia := Intersection(img, area);
    if ia.minX >= ia.maxX || ia.minY >= ia.maxY then
      Thrown(IllegalArgumentException("invalid subArea coordinate no intersection between it and RenderedImage"))
    else
      Ok(TraversalOver(img, ia.minX, ia.minY, ia.maxX, ia.maxY))
  }

  /** The iterator over a `RenderedImage` (the image path; the raster path is not modelled). */
  class DefaultRenderedImageIterator {
    const renderedImage: RenderedImage
    const subAreaMinX: int
    const subAreaMinY: int
    const subAreaMaxX: int
    const subAreaMaxY: int
    const tMinX: int
    const tMinY: int
    const tMaxX: int
    const tMaxY: int

    // Fields inherited from `RasterBasedIterator`.
    var band: int
    var numBand: int
    var x: int
    var y: int
    var minX: int
    var maxX: int
    var maxY: int
    var currentRaster: Option<Raster>

    var tX: int
    var tY: int

    /** The sub-area and tile range fixed at construction. */
    function Range(): Traversal {
      Traversal(subAreaMinX, subAreaMinY, subAreaMaxX, subAreaMaxY, tMinX, tMinY, tMaxX, tMaxY)
    }

    /** The fields `next()` and `rewind()` change. */
    function State(): Cursor
      reads this
    {
      Cursor(band, numBand, x, y, minX, maxX, maxY, tX, tY, currentRaster)
    }

    /** `new DefaultRenderedImageIterator(renderedImage)`: iterates the whole image. */
    constructor (img: RenderedImage)
      requires img.tileWidth > 0 && img.tileHeight > 0
      ensures renderedImage == img && Range() == FullImageTraversal(img)
      ensures State() == InitialCursor(Range())
    {
      renderedImage := img;
      subAreaMinX := img.minX;
      subAreaMinY := img.minY;
      subAreaMaxX := img.minX + img.width;
      subAreaMaxY := img.minY + img.height;
      tMinX := img.minTileX;
      tMinY := img.minTileY;
      tMaxX := img.minTileX + img.numXTiles;
      tMaxY := img.minTileY + img.numYTiles;
      band, x, y, minX := 0, 0, 0, 0;
      currentRaster := None;
      numBand, maxX, maxY := 1, 1, 1;
      tY := img.minTileY;
      tX := img.minTileX - 1;
    }

    /** `new DefaultRenderedImageIterator(renderedImage, subArea)` when it does not throw. */
    constructor WithSubArea(img: RenderedImage, area: Rectangle)
      requires img.tileWidth > 0 && img.tileHeight > 0
      requires SubAreaTraversal(img, area).Ok?
      ensures renderedImage == img && Range() == SubAreaTraversal(img, area).value
      ensures State() == InitialCursor(Range())
    {
      var ia := Intersection(img, area);
      renderedImage := img;
      subAreaMinX := area.x;
      subAreaMinY := area.y;
      subAreaMaxX := area.x + area.width;
      subAreaMaxY := area.y + area.height;
      var tileMinX := TruncDiv(ia.minX, img.tileWidth) + img.minTileX;
      var tileMinY := TruncDiv(ia.minY, img.tileHeight) + img.minTileY;
      tMinX, tMinY := tileMinX, tileMinY;
      tMaxX := TruncDiv(ia.maxX, img.tileWidth) + img.minTileX;
      tMaxY := TruncDiv(ia.maxY, img.tileHeight) + img.minTileY;
      band, x, y, minX := 0, 0, 0, 0;
      currentRaster := None;
      tY := tileMinY;
      numBand, maxX, maxY := 1, 1, 1;
      tX := tileMinX - 1;
    }

    /** The sub-area constructor with the corrected tile range, when it does not throw. */
    constructor WithSubAreaCorrected(img: RenderedImage, area: Rectangle)
      requires img.tileWidth > 0 && img.tileHeight > 0
      requires SubAreaTraversalCorrected(img, area).Ok?
      ensures renderedImage == img && Range() == SubAreaTraversalCorrected(img, area).value
      ensures State() == InitialCursor(Range())
    {
      var ia := Intersection(img, area);
      renderedImage := img;
      subAreaMinX, subAreaMinY, subAreaMaxX, subAreaMaxY := ia.minX, ia.minY, ia.maxX, ia.maxY;
      var tileMinX := TileIndexX(img, ia.minX);
      var tileMinY := TileIndexY(img, ia.minY);
      tMinX, tMinY := tileMinX, tileMinY;
      tMaxX := TileIndexX(img, ia.maxX - 1) + 1;
      tMaxY := TileIndexY(img, ia.maxY - 1) + 1;
      band, x, y, minX := 0, 0, 0, 0;
      currentRaster := None;
      tY := tileMinY;
      numBand, maxX, maxY := 1, 1, 1;
      tX := tileMinX - 1;
    }

    /** `next()`: moves to the next sample and returns whether there was one. */
    method Next() returns (more: bool)
      modifies this
      ensures more == Step(renderedImage, Range(), old(State())).0
      ensures State() == Step(renderedImage, Range(), old(State())).1
    {
      ghost var c := State();
      band := band + 1;
      if band == numBand {
        band := 0;
        x := x + 1;
        if x == maxX {
          x := minX;
          y := y + 1;
          if y == maxY {
            tX := tX + 1;
            if tX == tMaxX {
              tX := tMinX;
              tY := tY + 1;
              if tY == tMaxY {
                return false;
              }
            }
            LoadCurrentTile();
          }
        }
      }
      return true;
    }

    /** The end of `next()` that initialises the iteration from the new tile (tX, tY). */
    method LoadCurrentTile()
      requires band == 0
      modifies this
      ensures State() == LoadTile(renderedImage, Range(), tX, tY)
      ensures tX == old(tX) && tY == old(tY)
    {
      var tile := GetTile(renderedImage, tX, tY);
      currentRaster := Some(tile);
      minX := Max(subAreaMinX, tile.minX);
      x := minX;
      y := Max(subAreaMinY, tile.minY);
      maxX := Min(subAreaMaxX, tile.minX + tile.width);
      maxY := Min(subAreaMaxY, tile.minY + tile.height);
      numBand := tile.numBands;
    }

    /** `rewind()`: back to the state the constructors leave; `minX` and the raster are kept. */
    method Rewind()
      modifies this
      ensures State() == Rewound(Range(), old(State()))
    {
      x, y, band := 0, 0, 0;
      maxX, maxY, numBand := 1, 1, 1;
      tX := tMinX - 1;
      tY := tMinY;
    }
  }

  /**
   * The documented use, `while (it.next()) { ... }`, recording the designated sample
   * after each `next()` that returns true: the samples recorded are exactly those
   * remaining from the iterator's state, in order.
   */
  method DrainSamples(it: DefaultRenderedImageIterator) returns (samples: seq<Sample>)
    requires Runnable(it.renderedImage, it.Range()) && InRun(it.Range(), it.State())
    modifies it
    ensures samples == Remaining(it.renderedImage, it.Range(), old(it.State()))
  {
    var img, t := it.renderedImage, it.Range();
    ghost var all := Remaining(img, t, it.State());
    samples := [];
    while true
      invariant InRun(t, it.State()) && samples + Remaining(img, t, it.State()) == all
      decreases |Remaining(img, t, it.State())|
    {
      DrainStep(img, t, it.State(), samples, all);
      var more := it.Next();
      if !more {
        return;
      }
      samples := samples + [Position(it.State())];
    }
  }

  /** One round of `DrainSamples`: the step either ends the run or moves one sample from the remaining ones to the recorded ones. */
  lemma DrainStep(img: RenderedImage, t: Traversal, c: Cursor, samples: seq<Sample>, all: seq<Sample>)
    requires Runnable(img, t) && InRun(t, c) && samples + Remaining(img, t, c) == all
    ensures var (more, next) := Step(img, t, c);
      (!more ==> samples == all) &&
      (more ==> InRun(t, next) && (samples + [Position(next)]) + Remaining(img, t, next) == all &&
                |Remaining(img, t, next)| < |Remaining(img, t, c)|)
  {
    StepFollowsOrder(img, t, c);
    var (more, next) := Step(img, t, c);
    if !more {
      assert samples + [] == samples;
    } else {
      var rest := Remaining(img, t, next);
      assert samples + ([Position(next)] + rest) == (samples + [Position(next)]) + rest;
    }
  }

  /**
   * Iterating a sub-area with the corrected constructor: an empty intersection of the
   * image and the sub-area is rejected; otherwise every pixel of the intersection is
   * reported once in each band of its tile, and no other sample.
   */
  method ReadSubArea(img: RenderedImage, area: Rectangle) returns (r: Result<seq<Sample>>)
    requires WellFormed(img)
    ensures r.Thrown? <==> !NonEmpty(Intersection(img, area))
    ensures r.Ok? ==> Distinct(r.value)
    ensures r.Ok? ==> var ia := Intersection(img, area);
      forall s :: s in r.value <==> RectangleSample(img, ia.minX, ia.minY, ia.maxX, ia.maxY, s)
  {
    var checked := SubAreaTraversalCorrected(img, area);
    if checked.Thrown? {
      return Thrown(checked.exception);
    }
    var it := new DefaultRenderedImageIterator.WithSubAreaCorrected(img, area);
    var ia := Intersection(img, area);
    TraversalOverRunnable(img, ia.minX, ia.minY, ia.maxX, ia.maxY);
    CorrectedSubAreaVisitsIntersection(img, area);
    InitialCursorInRun(img, it.Range());
    var samples := DrainSamples(it);
    return Ok(samples);
  }

  /**
   * Iterating a whole image from a new iterator: every pixel is reported once in each
   * band of its tile, no other sample is reported, and then `next()` returns false.
   */
  method ReadImage(img: RenderedImage) returns (samples: seq<Sample>)
    requires Consistent(img)
    ensures Distinct(samples)
    ensures forall s :: s in samples <==>
      RectangleSample(img, img.minX, img.minY, img.minX + img.width, img.minY + img.height, s)
  {
    var it := new DefaultRenderedImageIterator(img);
    FullImageVisitsEveryPixel(img);
    InitialCursorInRun(img, it.Range());
    samples := DrainSamples(it);
  }

  /**
   * The full-image constructor's iteration: `next()` returns true once per pixel and band
   * (in tile order, each exactly once), then false.
   */
  lemma FullImageVisitsEveryPixel(img: RenderedImage)
    requires Consistent(img)
    ensures var t := FullImageTraversal(img);
      Runnable(img, t) &&
      Visit(img, t, InitialCursor(t), |AllSamples(img, t)| + 1) == AllSamples(img, t) &&
      Distinct(AllSamples(img, t)) &&
      forall s :: s in AllSamples(img, t) <==>
        RectangleSample(img, img.minX, img.minY, img.minX + img.width, img.minY + img.height, s)
  {
    TraversalOverRunnable(img, img.minX, img.minY, img.minX + img.width, img.minY + img.height);
    TraversalOverVisitsRectangle(img, img.minX, img.minY, img.minX + img.width, img.minY + img.height);
  }

  /** After `rewind()` the iteration order is the one of a new iterator. */
  lemma RewindThenVisit(img: RenderedImage, t: Traversal, c: Cursor)
    requires Runnable(img, t)
    ensures Visit(img, t, Rewound(t, c), |AllSamples(img, t)| + 1) == AllSamples(img, t)
  {
    RewindRestarts(img, t, c);
    VisitsRemaining(img, t, Rewound(t, c));
  }

  /**
   * The corrected sub-area constructor's iteration: each sample of the intersection of
   * the image and the sub-area is reported exactly once, then `next()` returns false.
   */
  lemma CorrectedSubAreaVisitsIntersection(img: RenderedImage, area: Rectangle)
    requires WellFormed(img) && SubAreaTraversalCorrected(img, area).Ok?
    ensures var t := SubAreaTraversalCorrected(img, area).value;
      var ia := Intersection(img, area);
      Visit(img, t, InitialCursor(t), |AllSamples(img, t)| + 1) == AllSamples(img, t) &&
      Distinct(AllSamples(img, t)) &&
      forall s :: s in AllSamples(img, t) <==> RectangleSample(img, ia.minX, ia.minY, ia.maxX, ia.maxY, s)
  {
    var ia := Intersection(img, area);
    TraversalOverVisitsRectangle(img, ia.minX, ia.minY, ia.maxX, ia.maxY);
  }

  // ---------------------------------------------------------------------------
  // The sub-area tile range as written
  // ---------------------------------------------------------------------------

  /**
   * A sub-area lying inside the first tile of a grid at the origin (for instance
   * [10, 20) x [10, 20) with 32 x 32 tiles) gets the empty tile range [0, 0): the first
   * `next()` then runs past it, loads tile (0, 1) and reports a pixel of row `tileHeight`,
   * below the sub-area.
   */
  lemma SubAreaInsideOneTileLeavesIt(img: RenderedImage, area: Rectangle)
    requires img.tileWidth > 0 && img.tileHeight > 0
    requires img.tileGridXOffset == 0 && img.tileGridYOffset == 0 && img.minTileX == 0 && img.minTileY == 0
    requires img.minX <= area.x && area.x + area.width <= img.minX + img.width
    requires img.minY <= area.y && area.y + area.height <= img.minY + img.height
    requires 0 <= area.x && 0 < area.width && area.x + area.width < img.tileWidth
    requires 0 <= area.y && 0 < area.height && area.y + area.height < img.tileHeight
    ensures var r := SubAreaTraversal(img, area);
      r.Ok? && r.value.tMinX == r.value.tMaxX && r.value.tMinY == r.value.tMaxY &&
      var (more, next) := Step(img, r.value, InitialCursor(r.value));
      more && next.tX == 0 && next.tY == 1 && Position(next).y == img.tileHeight &&
      !(area.y <= Position(next).y < area.y + area.height)
  {
    SubAreaInsideOneTileRange(img, area);
    var t := SubAreaTraversal(img, area).value;
    assert Step(img, t, InitialCursor(t)) == (true, LoadTile(img, t, 0, 1));
    assert TileBounds(img, 0, 1).y == img.tileHeight;
  }

  /** The tile range of a sub-area lying inside the first tile of a grid at the origin is [0, 0) on both axes. */
  lemma SubAreaInsideOneTileRange(img: RenderedImage, area: Rectangle)
    requires img.tileWidth > 0 && img.tileHeight > 0
    requires img.tileGridXOffset == 0 && img.tileGridYOffset == 0 && img.minTileX == 0 && img.minTileY == 0
    requires img.minX <= area.x && area.x + area.width <= img.minX + img.width
    requires img.minY <= area.y && area.y + area.height <= img.minY + img.height
    requires 0 <= area.x && 0 < area.width && area.x + area.width < img.tileWidth
    requires 0 <= area.y && 0 < area.height && area.y + area.height < img.tileHeight
    ensures var r := SubAreaTraversal(img, area);
      r.Ok? && r.value.tMinX == 0 && r.value.tMaxX == 0 && r.value.tMinY == 0 && r.value.tMaxY == 0
  {
    var ia := Intersection(img, area);
    assert ia == Window(area.x, area.y, area.x + area.width, area.y + area.height);
    DivUnique(ia.minX, img.tileWidth, 0);
    DivUnique(ia.maxX, img.tileWidth, 0);
    DivUnique(ia.minY, img.tileHeight, 0);
    DivUnique(ia.maxY, img.tileHeight, 0);
  }

  /**
   * A sub-area whose clipped right edge falls inside a tile of a grid at the origin (for
   * instance [10, 50) x [10, 50) with 32 x 32 tiles) loses that tile column: no pixel of
   * the intersection in its last, partly covered tile column (columns 32 to 49 in the
   * example) is ever reported, in any band.
   */
  lemma SubAreaEndingInsideTileMissesPixels(img: RenderedImage, area: Rectangle, s: Sample)
    requires WellFormed(img)
    requires img.tileGridXOffset == 0 && img.minTileX == 0
    requires var ia := Intersection(img, area);
      NonEmpty(ia) && ia.minX >= 0 && ia.maxX % img.tileWidth != 0
    requires SubAreaTraversal(img, area).Ok? && Runnable(img, SubAreaTraversal(img, area).value)
    requires var ia := Intersection(img, area); (ia.maxX / img.tileWidth) * img.tileWidth <= s.x < ia.maxX
    ensures var t := SubAreaTraversal(img, area).value;
      Visit(img, t, InitialCursor(t), |AllSamples(img, t)| + 1) == AllSamples(img, t) &&
      s !in AllSamples(img, t)
  {
    var ia := Intersection(img, area);
    var t := SubAreaTraversal(img, area).value;
    InitialCursorInRun(img, t);
    VisitsRemaining(img, t, InitialCursor(t));
    DivBrackets(ia.maxX, img.tileWidth);
    DivUnique(s.x, img.tileWidth, ia.maxX / img.tileWidth);
    assert TileIndexX(img, s.x) == ia.maxX / img.tileWidth == t.tMaxX;
    BeyondRangeNotVisited(img, t, s);
  }

  /**
   * Where the as-written range is the intended one: a grid at the origin whose first tile
   * is tile 0, a sub-area starting at a non-negative pixel and a clipped maximum that is a
   * multiple of the tile size.
   */
  lemma SubAreaAlignedAgrees(img: RenderedImage, area: Rectangle)
    requires img.tileWidth > 0 && img.tileHeight > 0
    requires img.tileGridXOffset == 0 && img.tileGridYOffset == 0 && img.minTileX == 0 && img.minTileY == 0
    requires var ia := Intersection(img, area);
      NonEmpty(ia) && ia.minX >= 0 && ia.minY >= 0 &&
      ia.maxX % img.tileWidth == 0 && ia.maxY % img.tileHeight == 0
    ensures var r := SubAreaTraversal(img, area);
      var ia := Intersection(img, area);
      r.Ok? && r.value.tMinX == TileIndexX(img, ia.minX) && r.value.tMaxX == TileIndexX(img, ia.maxX - 1) + 1 &&
      r.value.tMinY == TileIndexY(img, ia.minY) && r.value.tMaxY == TileIndexY(img, ia.maxY - 1) + 1
  {
    var ia := Intersection(img, area);
    var kx, ky := ia.maxX / img.tileWidth, ia.maxY / img.tileHeight;
    DivUnique(ia.maxX - 1, img.tileWidth, kx - 1);
    DivUnique(ia.maxY - 1, img.tileHeight, ky - 1);
  }
}
