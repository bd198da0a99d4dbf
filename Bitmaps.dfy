/**
 * An abstract in-memory bitmap: a rectangular grid of pixels stored row by
 * row. `rows[i][j]` is the pixel in row `i` (from the top) and column `j`
 * (from the left). The colour format and the decoder are not modelled.
 */
module Bitmaps {
  /** An ARGB colour value, as an Android bitmap stores it. */
  type Pixel = bv32

  datatype Bitmap = Bitmap(width: nat, height: nat, rows: seq<seq<Pixel>>)

  /** Every row has exactly `width` pixels and there are `height` rows. */
  predicate Rectangular(b: Bitmap) {
    |b.rows| == b.height && forall i | 0 <= i < |b.rows| :: |b.rows[i]| == b.width
  }

  /** The bitmaps the platform can hand out: always rectangular. */
  type Grid = b: Bitmap | Rectangular(b) witness Bitmap(0, 0, [])
}
