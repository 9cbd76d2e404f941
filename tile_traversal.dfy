/**
 * The state machine inside `DefaultRenderedImageIterator.next()` for the image path,
 * as pure functions over two values: the `Traversal` fixed at construction (sub-area and
 * tile index range) and the `Cursor` that `next()` and `rewind()` change.
 *
 * The second half gives the order in which samples are visited (`Remaining`) and proves
 * that `Step` follows it, that a run visits every sample of that order exactly once and
 * then stops, and which samples the order holds.
 */
module TileTraversal {
  import opened JavaLang
  import opened ImageGeometry

  /** Sub-area bounds (exclusive maxima) and tile index range [tMin, tMax), fixed at construction. */
  datatype Traversal = Traversal(
    subAreaMinX: int, subAreaMinY: int, subAreaMaxX: int, subAreaMaxY: int,
    tMinX: int, tMinY: int, tMaxX: int, tMaxY: int)

  /**
   * The fields `next()` updates: the band, column and row inside the current tile, the
   * current tile's clipped window (`minX`, `maxX` and `maxY`, exclusive maxima), the
   * current tile indices and the current raster.
   */
  datatype Cursor = Cursor(
    band: int, numBand: int, x: int, y: int,
    minX: int, maxX: int, maxY: int,
    tX: int, tY: int,
    currentRaster: Option<Raster>)

  /** One visited sample: pixel column, pixel row and band. */
  datatype Sample = Sample(x: int, y: int, band: int)

  /** The sample the iterator designates after a `next()` that returned true. */
  function Position(c: Cursor): Sample {
    Sample(c.x, c.y, c.band)
  }

  function Max(a: int, b: int): int { if a >= b then a else b }
  function Min(a: int, b: int): int { if a <= b then a else b }

  /** A pixel window [minX, maxX) x [minY, maxY). */
  datatype Window = Window(minX: int, minY: int, maxX: int, maxY: int)

  predicate NonEmpty(w: Window) {
    w.minX < w.maxX && w.minY < w.maxY
  }

  /** The window `next()` iterates in tile (tx, ty): the tile's raster bounds clipped to the sub-area. */
  function TileWindow(img: RenderedImage, t: Traversal, tx: int, ty: int): (w: Window)
    ensures w.minX == Max(t.subAreaMinX, TileBounds(img, tx, ty).x)
    ensures w.maxX == Min(t.subAreaMaxX, TileBounds(img, tx, ty).x + img.tileWidth)
    ensures w.minY == Max(t.subAreaMinY, TileBounds(img, tx, ty).y)
    ensures w.maxY == Min(t.subAreaMaxY, TileBounds(img, tx, ty).y + img.tileHeight)
  {
    var r := GetTile(img, tx, ty);
    Window(Max(t.subAreaMinX, r.minX), Max(t.subAreaMinY, r.minY),
           Min(t.subAreaMaxX, r.minX + r.width), Min(t.subAreaMaxY, r.minY + r.height))
  }

  /**
   * The cursor after `next()` moves to tile (tx, ty): the current raster is that tile,
   * the window is the tile's clipped window, the position is its upper-left pixel at
   * band 0 and the band count is the tile's.
   */
  function LoadTile(img: RenderedImage, t: Traversal, tx: int, ty: int): (c: Cursor)
    ensures c.currentRaster == Some(GetTile(img, tx, ty)) && c.tX == tx && c.tY == ty
    ensures c.minX == TileWindow(img, t, tx, ty).minX && c.maxX == TileWindow(img, t, tx, ty).maxX
    ensures c.maxY == TileWindow(img, t, tx, ty).maxY
    ensures Position(c) == Sample(TileWindow(img, t, tx, ty).minX, TileWindow(img, t, tx, ty).minY, 0)
    ensures c.numBand == img.bands(tx, ty)
  {
    var r := GetTile(img, tx, ty);
    var minX := Max(t.subAreaMinX, r.minX);
    Cursor(0, r.numBands, minX, Max(t.subAreaMinY, r.minY),
           minX, Min(t.subAreaMaxX, r.minX + r.width), Min(t.subAreaMaxY, r.minY + r.height),
           tx, ty, Some(r))
  }

  /**
   * One call of `next()`: its result and the new cursor. Band varies fastest, then the
   * column, then the row; after the last row of a tile the next tile column is loaded,
   * wrapping to the first column of the next tile row; when the tile rows are exhausted
   * the call returns false.
   */
  function Step(img: RenderedImage, t: Traversal, c: Cursor): (bool, Cursor) {
    if c.band + 1 != c.numBand then
      (true, c.(band := c.band + 1))
    else if c.x + 1 != c.maxX then
      (true, c.(band := 0, x := c.x + 1))
    else if c.y + 1 != c.maxY then
      (true, c.(band := 0, x := c.minX, y := c.y + 1))
    else if c.tX + 1 != t.tMaxX then
      (true, LoadTile(img, t, c.tX + 1, c.tY))
    else if c.tY + 1 != t.tMaxY then
      (true, LoadTile(img, t, t.tMinX, c.tY + 1))
    else
      (false, c.(band := 0, x := c.minX, y := c.y + 1, tX := t.tMinX, tY := c.tY + 1))
  }

  /** The cursor both image constructors leave: the first `next()` loads tile (tMinX, tMinY). */
  function InitialCursor(t: Traversal): Cursor {
    Cursor(0, 1, 0, 0, 0, 1, 1, t.tMinX - 1, t.tMinY, None)
  }

  /** `rewind()` on the image path: `minX` and the current raster keep their values. */
  function Rewound(t: Traversal, c: Cursor): Cursor {
    c.(x := 0, y := 0, band := 0, maxX := 1, maxY := 1, numBand := 1, tX := t.tMinX - 1, tY := t.tMinY)
  }

  // ---------------------------------------------------------------------------
  // The visiting order
  // ---------------------------------------------------------------------------

  /** Bands from .. numBand - 1 of pixel (x, y). */
  function BandRun(x: int, y: int, from: int, numBand: int): seq<Sample>
    decreases numBand - from
  {
    if from >= numBand then [] else [Sample(x, y, from)] + BandRun(x, y, from + 1, numBand)
  }

  /** Pixels from .. to - 1 of row y, every band of each. */
  function RowRun(y: int, from: int, to: int, numBand: int): seq<Sample>
    decreases to - from
  {
    if from >= to then [] else BandRun(from, y, 0, numBand) + RowRun(y, from + 1, to, numBand)
  }

  /** Rows from .. to - 1 of the columns [minX, maxX). */
  function RowsRun(from: int, to: int, minX: int, maxX: int, numBand: int): seq<Sample>
    decreases to - from
  {
    if from >= to then [] else RowRun(from, minX, maxX, numBand) + RowsRun(from + 1, to, minX, maxX, numBand)
  }

  /** Every sample of tile (tx, ty)'s window. */
  function TileRun(img: RenderedImage, t: Traversal, tx: int, ty: int): seq<Sample> {
    var w := TileWindow(img, t, tx, ty);
    RowsRun(w.minY, w.maxY, w.minX, w.maxX, img.bands(tx, ty))
  }

  /** The tiles from (tx, ty) on, left to right and then top to bottom. */
  function TilesFrom(img: RenderedImage, t: Traversal, tx: int, ty: int): seq<Sample>
    decreases t.tMaxY - ty, t.tMaxX - tx
  {
    if ty >= t.tMaxY then []
    else if tx >= t.tMaxX then TilesFrom(img, t, t.tMinX, ty + 1)
    else TileRun(img, t, tx, ty) + TilesFrom(img, t, tx + 1, ty)
  }

  /** Every sample to be visited after the cursor's own, in the order `next()` visits them. */
  function Remaining(img: RenderedImage, t: Traversal, c: Cursor): seq<Sample> {
    BandRun(c.x, c.y, c.band + 1, c.numBand)
    + RowRun(c.y, c.x + 1, c.maxX, c.numBand)
    + RowsRun(c.y + 1, c.maxY, c.minX, c.maxX, c.numBand)
    + TilesFrom(img, t, c.tX + 1, c.tY)
  }

  /** Every sample the iterator starts with. */
  function AllSamples(img: RenderedImage, t: Traversal): seq<Sample> {
    TilesFrom(img, t, t.tMinX, t.tMinY)
  }

  /** The samples reported by up to `n` calls of `next()`, stopping at the first false. */
  function Visit(img: RenderedImage, t: Traversal, c: Cursor, n: nat): seq<Sample>
    decreases n
  {
    if n == 0 then []
    else
      var (more, next) := Step(img, t, c);
      if more then [Position(next)] + Visit(img, t, next, n - 1) else []
  }

  /**
   * The traversals the order is proved for: a non-empty tile range whose every tile
   * has a non-empty clipped window (on an empty window `next()` runs past it).
   */
  ghost predicate Runnable(img: RenderedImage, t: Traversal) {
    WellFormed(img) && t.tMinX < t.tMaxX && t.tMinY < t.tMaxY &&
    forall tx, ty :: t.tMinX <= tx < t.tMaxX && t.tMinY <= ty < t.tMaxY ==> NonEmpty(TileWindow(img, t, tx, ty))
  }

  /** A traversal of a single tile with a non-empty window can run. */
  lemma SingleTileRunnable(img: RenderedImage, t: Traversal)
    requires WellFormed(img) && t.tMaxX == t.tMinX + 1 && t.tMaxY == t.tMinY + 1
    requires NonEmpty(TileWindow(img, t, t.tMinX, t.tMinY))
    ensures Runnable(img, t)
  {
  }

  /** The cursors a run passes through: inside a window, inside the tile range. */
  ghost predicate InRun(t: Traversal, c: Cursor) {
    0 <= c.band < c.numBand && c.x < c.maxX && c.y < c.maxY && (c.y + 1 < c.maxY ==> c.minX < c.maxX) &&
    t.tMinX - 1 <= c.tX < t.tMaxX && t.tMinY <= c.tY < t.tMaxY
  }

  lemma InitialCursorInRun(img: RenderedImage, t: Traversal)
    requires Runnable(img, t)
    ensures InRun(t, InitialCursor(t))
    ensures Remaining(img, t, InitialCursor(t)) == AllSamples(img, t)
  {
  }

  /** After `rewind()` the iterator has exactly the samples of a fresh one left. */
  lemma RewindRestarts(img: RenderedImage, t: Traversal, c: Cursor)
    requires Runnable(img, t)
    ensures InRun(t, Rewound(t, c))
    ensures Remaining(img, t, Rewound(t, c)) == AllSamples(img, t)
  {
  }

  /** Regrouping a concatenation of four pieces whose first starts with `h`. */
  lemma Regroup(h: Sample, a: seq<Sample>, b: seq<Sample>, c: seq<Sample>, d: seq<Sample>)
    ensures (([h] + a) + b + c) + d == [h] + (a + b + c + d)
  {
  }

  /** A tile's run begins at its window's upper-left pixel, band 0. */
  lemma TileRunStarts(img: RenderedImage, t: Traversal, tx: int, ty: int)
    requires Runnable(img, t)
    requires t.tMinX <= tx < t.tMaxX && t.tMinY <= ty < t.tMaxY
    ensures var c := LoadTile(img, t, tx, ty);
      InRun(t, c) && TileRun(img, t, tx, ty) + TilesFrom(img, t, tx + 1, ty) == [Position(c)] + Remaining(img, t, c)
  {
    var w := TileWindow(img, t, tx, ty);
    var nb := img.bands(tx, ty);
    assert NonEmpty(w);
    var c := LoadTile(img, t, tx, ty);
    var a := BandRun(w.minX, w.minY, 1, nb);
    var b := RowRun(w.minY, w.minX + 1, w.maxX, nb);
    var rest := RowsRun(w.minY + 1, w.maxY, w.minX, w.maxX, nb);
    var d := TilesFrom(img, t, tx + 1, ty);
    assert Remaining(img, t, c) == a + b + rest + d;
    assert BandRun(w.minX, w.minY, 0, nb) == [Position(c)] + a;
    assert RowRun(w.minY, w.minX, w.maxX, nb) == BandRun(w.minX, w.minY, 0, nb) + b;
    assert TileRun(img, t, tx, ty) == RowRun(w.minY, w.minX, w.maxX, nb) + rest;
    Regroup(Position(c), a, b, rest, d);
  }

  /** What is left of the tile order once a tile is done. */
  lemma TilesFromHead(img: RenderedImage, t: Traversal, tx: int, ty: int)
    requires Runnable(img, t)
    requires t.tMinX <= tx <= t.tMaxX && t.tMinY <= ty < t.tMaxY
    ensures TilesFrom(img, t, tx, ty) == [] <==> tx == t.tMaxX && ty + 1 == t.tMaxY
  {
    if tx < t.tMaxX {
      TileRunStarts(img, t, tx, ty);
    } else if ty + 1 < t.tMaxY {
      TileRunStarts(img, t, t.tMinX, ty + 1);
    }
  }

  /** `next()` moving to the next band of the same pixel. */
  lemma NextBand(img: RenderedImage, t: Traversal, c: Cursor)
    requires InRun(t, c) && c.band + 1 != c.numBand
    ensures var next := c.(band := c.band + 1);
      InRun(t, next) && Remaining(img, t, c) == [Position(next)] + Remaining(img, t, next)
  {
    var next := c.(band := c.band + 1);
    var a := BandRun(c.x, c.y, c.band + 2, c.numBand);
    var b := RowRun(c.y, c.x + 1, c.maxX, c.numBand);
    var r := RowsRun(c.y + 1, c.maxY, c.minX, c.maxX, c.numBand);
    var d := TilesFrom(img, t, c.tX + 1, c.tY);
    var bands := BandRun(c.x, c.y, c.band + 1, c.numBand);
    assert Remaining(img, t, c) == bands + b + r + d;
    assert bands == [Position(next)] + a;
    assert Remaining(img, t, next) == a + b + r + d;
    Regroup(Position(next), a, b, r, d);
  }

  /** `next()` moving to the next pixel of the same row. */
  lemma NextColumn(img: RenderedImage, t: Traversal, c: Cursor)
    requires InRun(t, c) && c.band + 1 == c.numBand && c.x + 1 != c.maxX
    ensures var next := c.(band := 0, x := c.x + 1);
      InRun(t, next) && Remaining(img, t, c) == [Position(next)] + Remaining(img, t, next)
  {
    var next := c.(band := 0, x := c.x + 1);
    var a := BandRun(next.x, c.y, 1, c.numBand);
    var b := RowRun(c.y, c.x + 2, c.maxX, c.numBand);
    var r := RowsRun(c.y + 1, c.maxY, c.minX, c.maxX, c.numBand);
    var d := TilesFrom(img, t, c.tX + 1, c.tY);
    var row := RowRun(c.y, c.x + 1, c.maxX, c.numBand);
    assert BandRun(c.x, c.y, c.band + 1, c.numBand) == [];
    assert Remaining(img, t, c) == [] + row + r + d;
    assert [] + row + r + d == row + r + d;
    assert row == ([Position(next)] + a) + b;
    assert Remaining(img, t, next) == a + b + r + d;
    Regroup(Position(next), a, b, r, d);
  }

  /** `next()` moving to the first pixel of the next row of the same tile. */
  lemma NextRow(img: RenderedImage, t: Traversal, c: Cursor)
    requires InRun(t, c) && c.band + 1 == c.numBand && c.x + 1 == c.maxX && c.y + 1 != c.maxY
    ensures var next := c.(band := 0, x := c.minX, y := c.y + 1);
      InRun(t, next) && Remaining(img, t, c) == [Position(next)] + Remaining(img, t, next)
  {
    var next := c.(band := 0, x := c.minX, y := c.y + 1);
    var a := BandRun(c.minX, next.y, 1, c.numBand);
    var b := RowRun(next.y, c.minX + 1, c.maxX, c.numBand);
    var r := RowsRun(c.y + 2, c.maxY, c.minX, c.maxX, c.numBand);
    var d := TilesFrom(img, t, c.tX + 1, c.tY);
    var rows := RowsRun(c.y + 1, c.maxY, c.minX, c.maxX, c.numBand);
    assert BandRun(c.x, c.y, c.band + 1, c.numBand) == [];
    assert RowRun(c.y, c.x + 1, c.maxX, c.numBand) == [];
    assert Remaining(img, t, c) == [] + [] + rows + d;
    assert [] + [] + rows + d == rows + d;
    assert BandRun(c.minX, next.y, 0, c.numBand) == [Position(next)] + a;
    assert RowRun(next.y, c.minX, c.maxX, c.numBand) == ([Position(next)] + a) + b;
    assert rows == (([Position(next)] + a) + b) + r;
    assert Remaining(img, t, next) == a + b + r + d;
    Regroup(Position(next), a, b, r, d);
  }

  /** Once a tile's last sample is reached, only the later tiles remain. */
  lemma TileDone(img: RenderedImage, t: Traversal, c: Cursor)
    requires InRun(t, c) && c.band + 1 == c.numBand && c.x + 1 == c.maxX && c.y + 1 == c.maxY
    ensures Remaining(img, t, c) == TilesFrom(img, t, c.tX + 1, c.tY)
  {
    assert BandRun(c.x, c.y, c.band + 1, c.numBand) == [];
    assert RowRun(c.y, c.x + 1, c.maxX, c.numBand) == [];
    assert RowsRun(c.y + 1, c.maxY, c.minX, c.maxX, c.numBand) == [];
  }

  /** `next()` moving from a tile's last sample to the next tile of the same tile row. */
  lemma NextTile(img: RenderedImage, t: Traversal, c: Cursor)
    requires Runnable(img, t) && InRun(t, c)
    requires c.band + 1 == c.numBand && c.x + 1 == c.maxX && c.y + 1 == c.maxY && c.tX + 1 != t.tMaxX
    ensures var next := LoadTile(img, t, c.tX + 1, c.tY);
      InRun(t, next) && Remaining(img, t, c) == [Position(next)] + Remaining(img, t, next)
  {
    TileDone(img, t, c);
    assert TilesFrom(img, t, c.tX + 1, c.tY) == TileRun(img, t, c.tX + 1, c.tY) + TilesFrom(img, t, c.tX + 2, c.tY);
    TileRunStarts(img, t, c.tX + 1, c.tY);
  }

  /** `next()` moving from the last tile of a tile row to the first tile of the next one. */
  lemma NextTileRow(img: RenderedImage, t: Traversal, c: Cursor)
    requires Runnable(img, t) && InRun(t, c)
    requires c.band + 1 == c.numBand && c.x + 1 == c.maxX && c.y + 1 == c.maxY
    requires c.tX + 1 == t.tMaxX && c.tY + 1 != t.tMaxY
    ensures var next := LoadTile(img, t, t.tMinX, c.tY + 1);
      InRun(t, next) && Remaining(img, t, c) == [Position(next)] + Remaining(img, t, next)
  {
    TileDone(img, t, c);
    assert TilesFrom(img, t, c.tX + 1, c.tY) == TilesFrom(img, t, t.tMinX, c.tY + 1);
    assert TilesFrom(img, t, t.tMinX, c.tY + 1)
      == TileRun(img, t, t.tMinX, c.tY + 1) + TilesFrom(img, t, t.tMinX + 1, c.tY + 1);
    TileRunStarts(img, t, t.tMinX, c.tY + 1);
  }

  /** After the last sample of the last tile nothing remains. */
  lemma NothingAfterLast(img: RenderedImage, t: Traversal, c: Cursor)
    requires InRun(t, c)
    requires c.band + 1 == c.numBand && c.x + 1 == c.maxX && c.y + 1 == c.maxY
    requires c.tX + 1 == t.tMaxX && c.tY + 1 == t.tMaxY
    ensures Remaining(img, t, c) == []
  {
    TileDone(img, t, c);
    assert TilesFrom(img, t, c.tX + 1, c.tY) == TilesFrom(img, t, t.tMinX, c.tY + 1);
  }

  /**
   * One `next()` from a cursor of a run: it returns true exactly when samples remain,
   * and it then designates the first remaining sample and leaves the rest remaining.
   */
  lemma StepFollowsOrder(img: RenderedImage, t: Traversal, c: Cursor)
    requires Runnable(img, t) && InRun(t, c)
    ensures var (more, next) := Step(img, t, c);
      (more <==> Remaining(img, t, c) != []) &&
      (more ==> InRun(t, next) && Remaining(img, t, c) == [Position(next)] + Remaining(img, t, next))
  {
    var (more, next) := Step(img, t, c);
    if c.band + 1 != c.numBand {
      assert next == c.(band := c.band + 1);
      NextBand(img, t, c);
    } else if c.x + 1 != c.maxX {
      assert next == c.(band := 0, x := c.x + 1);
      NextColumn(img, t, c);
    } else if c.y + 1 != c.maxY {
      assert next == c.(band := 0, x := c.minX, y := c.y + 1);
      NextRow(img, t, c);
    } else if c.tX + 1 != t.tMaxX {
      assert next == LoadTile(img, t, c.tX + 1, c.tY);
      NextTile(img, t, c);
    } else if c.tY + 1 != t.tMaxY {
      assert next == LoadTile(img, t, t.tMinX, c.tY + 1);
      NextTileRow(img, t, c);
    } else {
      assert !more;
      NothingAfterLast(img, t, c);
    }
  }

  /**
   * From any cursor of a run, the next |Remaining| calls of `next()` return true and
   * report exactly the remaining samples in order, and the call after them returns false.
   */
  lemma {:induction false} VisitsRemaining(img: RenderedImage, t: Traversal, c: Cursor)
    requires Runnable(img, t) && InRun(t, c)
    decreases |Remaining(img, t, c)|
    ensures Visit(img, t, c, |Remaining(img, t, c)| + 1) == Remaining(img, t, c)
  {
    StepFollowsOrder(img, t, c);
    var (more, next) := Step(img, t, c);
    if more {
      VisitsRemaining(img, t, next);
    }
  }

  // ---------------------------------------------------------------------------
  // Which samples the order holds, and that it holds each once
  // ---------------------------------------------------------------------------

  ghost predicate Distinct(s: seq<Sample>) {
    forall i, j :: 0 <= i < j < |s| ==> s[i] != s[j]
  }

  lemma DistinctConcat(a: seq<Sample>, b: seq<Sample>)
    requires Distinct(a) && Distinct(b)
    requires forall s :: s in a ==> s !in b
    ensures Distinct(a + b)
  {
    forall i, j | 0 <= i < j < |a + b| ensures (a + b)[i] != (a + b)[j] {
      if j < |a| {
        assert (a + b)[i] == a[i] && (a + b)[j] == a[j];
      } else if |a| <= i {
        assert (a + b)[i] == b[i - |a|] && (a + b)[j] == b[j - |a|];
      } else {
        assert (a + b)[i] == a[i] && (a + b)[j] == b[j - |a|];
        assert a[i] in a;
      }
    }
  }

  lemma {:induction false} BandRunSamples(x: int, y: int, from: int, numBand: int)
    decreases numBand - from
    ensures Distinct(BandRun(x, y, from, numBand))
    ensures forall s :: s in BandRun(x, y, from, numBand) <==> (s.x == x && s.y == y && from <= s.band < numBand)
  {
    if from < numBand {
      BandRunSamples(x, y, from + 1, numBand);
      DistinctConcat([Sample(x, y, from)], BandRun(x, y, from + 1, numBand));
    }
  }

  lemma {:induction false} RowRunSamples(y: int, from: int, to: int, numBand: int)
    decreases to - from
    ensures Distinct(RowRun(y, from, to, numBand))
    ensures forall s :: s in RowRun(y, from, to, numBand) <==> (s.y == y && from <= s.x < to && 0 <= s.band < numBand)
  {
    if from < to {
      BandRunSamples(from, y, 0, numBand);
      RowRunSamples(y, from + 1, to, numBand);
      DistinctConcat(BandRun(from, y, 0, numBand), RowRun(y, from + 1, to, numBand));
    }
  }

  lemma {:induction false} RowsRunSamples(from: int, to: int, minX: int, maxX: int, numBand: int)
    decreases to - from
    ensures Distinct(RowsRun(from, to, minX, maxX, numBand))
    ensures forall s :: s in RowsRun(from, to, minX, maxX, numBand) <==>
      (from <= s.y < to && minX <= s.x < maxX && 0 <= s.band < numBand)
  {
    if from < to {
      RowRunSamples(from, minX, maxX, numBand);
      RowsRunSamples(from + 1, to, minX, maxX, numBand);
      DistinctConcat(RowRun(from, minX, maxX, numBand), RowsRun(from + 1, to, minX, maxX, numBand));
    }
  }

  /** A tile's run holds each sample of its window once, and those lie in the tile. */
  lemma TileRunSamples(img: RenderedImage, t: Traversal, tx: int, ty: int)
    requires WellFormed(img)
    ensures Distinct(TileRun(img, t, tx, ty))
    ensures forall s :: s in TileRun(img, t, tx, ty) <==> InWindow(TileWindow(img, t, tx, ty), s) && 0 <= s.band < img.bands(tx, ty)
    ensures forall s :: s in TileRun(img, t, tx, ty) ==> TileIndexX(img, s.x) == tx && TileIndexY(img, s.y) == ty
  {
    var w := TileWindow(img, t, tx, ty);
    RowsRunSamples(w.minY, w.maxY, w.minX, w.maxX, img.bands(tx, ty));
    forall s | s in TileRun(img, t, tx, ty) ensures TileIndexX(img, s.x) == tx && TileIndexY(img, s.y) == ty {
      TileIndexXOfBounds(img, tx, s.x);
      TileIndexYOfBounds(img, ty, s.y);
    }
  }

  predicate InWindow(w: Window, s: Sample) {
    w.minX <= s.x < w.maxX && w.minY <= s.y < w.maxY
  }

  /** The tile (column, row) a sample's pixel lies in. */
  ghost predicate InTilesFrom(img: RenderedImage, t: Traversal, tx: int, ty: int, s: Sample)
    requires WellFormed(img)
  {
    var sx, sy := TileIndexX(img, s.x), TileIndexY(img, s.y);
    ty <= sy < t.tMaxY && t.tMinX <= sx < t.tMaxX && (sy == ty ==> tx <= sx) &&
    s in TileRun(img, t, sx, sy)
  }

  /** The tiles from (tx, ty) on hold each of their samples once, and no others. */
  lemma {:induction false} TilesFromSamples(img: RenderedImage, t: Traversal, tx: int, ty: int)
    requires WellFormed(img) && t.tMinX <= tx
    decreases t.tMaxY - ty, t.tMaxX - tx
    ensures Distinct(TilesFrom(img, t, tx, ty))
    ensures forall s :: s in TilesFrom(img, t, tx, ty) <==> InTilesFrom(img, t, tx, ty, s)
  {
    if ty >= t.tMaxY {
    } else if tx >= t.tMaxX {
      TilesFromSamples(img, t, t.tMinX, ty + 1);
    } else {
      TileRunSamples(img, t, tx, ty);
      TilesFromSamples(img, t, tx + 1, ty);
      DistinctConcat(TileRun(img, t, tx, ty), TilesFrom(img, t, tx + 1, ty));
    }
  }

  /** A sample whose pixel lies right of the tile range is never among those to visit. */
  lemma BeyondRangeNotVisited(img: RenderedImage, t: Traversal, s: Sample)
    requires WellFormed(img) && TileIndexX(img, s.x) >= t.tMaxX
    ensures s !in AllSamples(img, t)
  {
    TilesFromSamples(img, t, t.tMinX, t.tMinY);
  }

  // ---------------------------------------------------------------------------
  // The tiles meeting a rectangle
  // ---------------------------------------------------------------------------

  /**
   * The traversal of the rectangle [x0, x1) x [y0, y1): the rectangle clips every tile,
   * and the tile range is every tile holding one of its pixels.
   */
  function TraversalOver(img: RenderedImage, x0: int, y0: int, x1: int, y1: int): (t: Traversal)
    requires img.tileWidth > 0 && img.tileHeight > 0
    ensures t.tMinX == TileIndexX(img, x0) && t.tMaxX == TileIndexX(img, x1 - 1) + 1
    ensures t.tMinY == TileIndexY(img, y0) && t.tMaxY == TileIndexY(img, y1 - 1) + 1
  {
    Traversal(x0, y0, x1, y1, TileIndexX(img, x0), TileIndexY(img, y0),
              TileIndexX(img, x1 - 1) + 1, TileIndexY(img, y1 - 1) + 1)
  }

  /** A sample of the rectangle, in a band its tile has. */
  ghost predicate RectangleSample(img: RenderedImage, x0: int, y0: int, x1: int, y1: int, s: Sample)
    requires WellFormed(img)
  {
    x0 <= s.x < x1 && y0 <= s.y < y1 && 0 <= s.band < img.bands(TileIndexX(img, s.x), TileIndexY(img, s.y))
  }

  /** A tile column between those of x0 and x1 - 1 meets the columns [x0, x1). */
  lemma TileColumnMeets(img: RenderedImage, x0: int, x1: int, tx: int)
    requires img.tileWidth > 0 && x0 < x1
    requires TileIndexX(img, x0) <= tx <= TileIndexX(img, x1 - 1)
    ensures Max(x0, TileBounds(img, tx, 0).x) < Min(x1, TileBounds(img, tx, 0).x + img.tileWidth)
  {
    TileIndexXBrackets(img, x0);
    TileIndexXBrackets(img, x1 - 1);
    MulMonotone(TileIndexX(img, x0) + 1, tx + 1, img.tileWidth);
    MulMonotone(tx, TileIndexX(img, x1 - 1), img.tileWidth);
  }

  /** A tile row between those of y0 and y1 - 1 meets the rows [y0, y1). */
  lemma TileRowMeets(img: RenderedImage, y0: int, y1: int, ty: int)
    requires img.tileHeight > 0 && y0 < y1
    requires TileIndexY(img, y0) <= ty <= TileIndexY(img, y1 - 1)
    ensures Max(y0, TileBounds(img, 0, ty).y) < Min(y1, TileBounds(img, 0, ty).y + img.tileHeight)
  {
    TileIndexYBrackets(img, y0);
    TileIndexYBrackets(img, y1 - 1);
    MulMonotone(TileIndexY(img, y0) + 1, ty + 1, img.tileHeight);
    MulMonotone(ty, TileIndexY(img, y1 - 1), img.tileHeight);
  }

  /** Every tile range of a non-empty rectangle's traversal has a non-empty window. */
  lemma TraversalOverRunnable(img: RenderedImage, x0: int, y0: int, x1: int, y1: int)
    requires WellFormed(img) && x0 < x1 && y0 < y1
    ensures Runnable(img, TraversalOver(img, x0, y0, x1, y1))
  {
    var t := TraversalOver(img, x0, y0, x1, y1);
    DivMonotone(x0 - img.tileGridXOffset, x1 - 1 - img.tileGridXOffset, img.tileWidth);
    DivMonotone(y0 - img.tileGridYOffset, y1 - 1 - img.tileGridYOffset, img.tileHeight);
    forall tx, ty | t.tMinX <= tx < t.tMaxX && t.tMinY <= ty < t.tMaxY
      ensures NonEmpty(TileWindow(img, t, tx, ty))
    {
      TileColumnMeets(img, x0, x1, tx);
      TileRowMeets(img, y0, y1, ty);
    }
  }

  /** A sample lies in the rectangle's tiles (and their windows) exactly when it is one of the rectangle's. */
  lemma RectangleSampleInTiles(img: RenderedImage, x0: int, y0: int, x1: int, y1: int, s: Sample)
    requires WellFormed(img) && x0 < x1 && y0 < y1
    ensures var t := TraversalOver(img, x0, y0, x1, y1);
      InTilesFrom(img, t, t.tMinX, t.tMinY, s) <==> RectangleSample(img, x0, y0, x1, y1, s)
  {
    var t := TraversalOver(img, x0, y0, x1, y1);
    var sx, sy := TileIndexX(img, s.x), TileIndexY(img, s.y);
    TileRunSamples(img, t, sx, sy);
    if RectangleSample(img, x0, y0, x1, y1, s) {
      DivMonotone(x0 - img.tileGridXOffset, s.x - img.tileGridXOffset, img.tileWidth);
      DivMonotone(s.x - img.tileGridXOffset, x1 - 1 - img.tileGridXOffset, img.tileWidth);
      DivMonotone(y0 - img.tileGridYOffset, s.y - img.tileGridYOffset, img.tileHeight);
      DivMonotone(s.y - img.tileGridYOffset, y1 - 1 - img.tileGridYOffset, img.tileHeight);
      TileIndexXBrackets(img, s.x);
      TileIndexYBrackets(img, s.y);
    }
  }

  /**
   * The traversal of a non-empty rectangle started from the initial cursor: `next()`
   * returns true once per sample of the rectangle (each pixel, each band of its tile),
   * visiting each exactly once in tile order, and then returns false.
   */
  lemma TraversalOverVisitsRectangle(img: RenderedImage, x0: int, y0: int, x1: int, y1: int)
    requires WellFormed(img) && x0 < x1 && y0 < y1
    ensures var t := TraversalOver(img, x0, y0, x1, y1);
      Visit(img, t, InitialCursor(t), |AllSamples(img, t)| + 1) == AllSamples(img, t)
    ensures var t := TraversalOver(img, x0, y0, x1, y1);
      Distinct(AllSamples(img, t)) &&
      forall s :: s in AllSamples(img, t) <==> RectangleSample(img, x0, y0, x1, y1, s)
  {
    var t := TraversalOver(img, x0, y0, x1, y1);
    TraversalOverRunnable(img, x0, y0, x1, y1);
    InitialCursorInRun(img, t);
    VisitsRemaining(img, t, InitialCursor(t));
    TilesFromSamples(img, t, t.tMinX, t.tMinY);
    forall s ensures s in AllSamples(img, t) <==> RectangleSample(img, x0, y0, x1, y1, s) {
      RectangleSampleInTiles(img, x0, y0, x1, y1, s);
    }
  }

}
