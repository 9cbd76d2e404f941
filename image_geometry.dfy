/**
 * The tiled image walked by `DefaultRenderedImageIterator`, reduced to the integers
 * the iterator reads from it: the pixel bounds, the tile size, the tile grid offset,
 * the tile index range and a band count per tile.
 */
module ImageGeometry {

  /** `java.awt.Rectangle`: upper-left corner and size. */
  datatype Rectangle = Rectangle(x: int, y: int, width: int, height: int)

  /** The part of a `Raster` (one tile) the iterator reads. */
  datatype Raster = Raster(minX: int, minY: int, width: int, height: int, numBands: int)

  /**
   * A `RenderedImage`. Tile (tx, ty) covers the pixels
   * [tileGridXOffset + tx * tileWidth, tileGridXOffset + (tx + 1) * tileWidth) horizontally,
   * and likewise vertically; `bands` gives the band count of each tile's raster.
   */
  datatype RenderedImage = RenderedImage(
    minX: int, minY: int, width: int, height: int,
    tileWidth: int, tileHeight: int,
    tileGridXOffset: int, tileGridYOffset: int,
    minTileX: int, minTileY: int, numXTiles: int, numYTiles: int,
    bands: (int, int) -> int)

  /** Positive tile sizes and at least one band in every tile. */
  ghost predicate WellFormed(img: RenderedImage) {
    img.tileWidth > 0 && img.tileHeight > 0 &&
    forall tx, ty :: img.bands(tx, ty) >= 1
  }

  /** Column of the tile holding pixel column `x` (floor division, as the tile grid is defined). */
  function TileIndexX(img: RenderedImage, x: int): int
    requires img.tileWidth > 0
  {
    (x - img.tileGridXOffset) / img.tileWidth
  }

  /** Row of the tile holding pixel row `y`. */
  function TileIndexY(img: RenderedImage, y: int): int
    requires img.tileHeight > 0
  {
    (y - img.tileGridYOffset) / img.tileHeight
  }

  /**
   * The `RenderedImage` contract: a non-empty image whose tile index range is exactly
   * the tiles holding its pixels.
   */
  ghost predicate Consistent(img: RenderedImage) {
    WellFormed(img) && img.width > 0 && img.height > 0 &&
    img.minTileX == TileIndexX(img, img.minX) &&
    img.minTileY == TileIndexY(img, img.minY) &&
    img.numXTiles == TileIndexX(img, img.minX + img.width - 1) - img.minTileX + 1 &&
    img.numYTiles == TileIndexY(img, img.minY + img.height - 1) - img.minTileY + 1
  }

  /** Pixel bounds of tile (tx, ty). */
  function TileBounds(img: RenderedImage, tx: int, ty: int): (r: Rectangle)
    ensures r.width == img.tileWidth && r.height == img.tileHeight
  {
    Rectangle(img.tileGridXOffset + tx * img.tileWidth, img.tileGridYOffset + ty * img.tileHeight,
              img.tileWidth, img.tileHeight)
  }

  /** `renderedImage.getTile(tx, ty)`: the raster covering the tile's bounds. */
  function GetTile(img: RenderedImage, tx: int, ty: int): (r: Raster)
    ensures r.numBands == img.bands(tx, ty)
    ensures r.minX == TileBounds(img, tx, ty).x && r.width == img.tileWidth
    ensures r.minY == TileBounds(img, tx, ty).y && r.height == img.tileHeight
  {
    var b := TileBounds(img, tx, ty);
    Raster(b.x, b.y, b.width, b.height, img.bands(tx, ty))
  }

  // ---------------------------------------------------------------------------
  // Floor division facts used for the tile grid
  // ---------------------------------------------------------------------------

  /** `a / d` (floor) brackets `a` between consecutive multiples of `d`. */
  lemma DivBrackets(a: int, d: int)
    requires d > 0
    ensures (a / d) * d <= a < (a / d) * d + d
  {
  }

  /** `k * d` grows with `k`. */
  lemma MulMonotone(k1: int, k2: int, d: int)
    requires d > 0 && k1 <= k2
    ensures k1 * d <= k2 * d
  {
    assert k2 * d - k1 * d == (k2 - k1) * d;
  }

  /** A value lying in [k * d, k * d + d) has quotient `k`. */
  lemma DivUnique(a: int, d: int, k: int)
    requires d > 0 && k * d <= a < k * d + d
    ensures a / d == k
  {
    DivBrackets(a, d);
    var q := a / d;
    if q < k {
      MulMonotone(q + 1, k, d);
      assert false;
    } else if q > k {
      MulMonotone(k + 1, q, d);
      assert false;
    }
  }

  /** Floor division by a positive divisor is monotone. */
  lemma DivMonotone(a: int, b: int, d: int)
    requires d > 0 && a <= b
    ensures a / d <= b / d
  {
    DivBrackets(a, d);
    DivBrackets(b, d);
    if a / d > b / d {
      MulMonotone(b / d + 1, a / d, d);
      assert false;
    }
  }

  /** Pixel column `x` lies inside the bounds of tile column `TileIndexX(img, x)`. */
  lemma TileIndexXBrackets(img: RenderedImage, x: int)
    requires img.tileWidth > 0
    ensures TileBounds(img, TileIndexX(img, x), 0).x <= x < TileBounds(img, TileIndexX(img, x), 0).x + img.tileWidth
  {
    DivBrackets(x - img.tileGridXOffset, img.tileWidth);
  }

  /** Pixel row `y` lies inside the bounds of tile row `TileIndexY(img, y)`. */
  lemma TileIndexYBrackets(img: RenderedImage, y: int)
    requires img.tileHeight > 0
    ensures TileBounds(img, 0, TileIndexY(img, y)).y <= y < TileBounds(img, 0, TileIndexY(img, y)).y + img.tileHeight
  {
    DivBrackets(y - img.tileGridYOffset, img.tileHeight);
  }

  /** A pixel column inside tile column `tx`'s bounds has tile index `tx`. */
  lemma TileIndexXOfBounds(img: RenderedImage, tx: int, x: int)
    requires img.tileWidth > 0
    requires TileBounds(img, tx, 0).x <= x < TileBounds(img, tx, 0).x + img.tileWidth
    ensures TileIndexX(img, x) == tx
  {
    DivUnique(x - img.tileGridXOffset, img.tileWidth, tx);
  }

  /** A pixel row inside tile row `ty`'s bounds has tile index `ty`. */
  lemma TileIndexYOfBounds(img: RenderedImage, ty: int, y: int)
    requires img.tileHeight > 0
    requires TileBounds(img, 0, ty).y <= y < TileBounds(img, 0, ty).y + img.tileHeight
    ensures TileIndexY(img, y) == ty
  {
    DivUnique(y - img.tileGridYOffset, img.tileHeight, ty);
  }
}
