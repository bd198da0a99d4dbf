/**
 * Orientation correction of a decoded image from its Exif Orientation tag
 * (tag 0x0112, section 4.6.4 A of Exif 2.3, JEITA CP-3451): the dispatch from
 * tag value to geometric transform, and the right-angle rotations and the
 * mirrorings it uses, on the abstract pixel grid of module Bitmaps.
 */
module Orientation {
  import opened Bitmaps

  /** The values the Orientation field can take (Exif 2.3, section 4.6.4 A). */
  const ORIENTATION_NORMAL: int := 1
  const ORIENTATION_FLIP_HORIZONTAL: int := 2
  const ORIENTATION_ROTATE_180: int := 3
  const ORIENTATION_FLIP_VERTICAL: int := 4
  const ORIENTATION_TRANSPOSE: int := 5
  const ORIENTATION_ROTATE_90: int := 6
  const ORIENTATION_TRANSVERSE: int := 7
  const ORIENTATION_ROTATE_270: int := 8

  /**
   * The bitmap turned clockwise by `degrees`, a multiple of 90 (a
   * negative angle turns counter-clockwise). Quarter turns swap width and
   * height; half turns keep them.
   */
  function Rotate(g: Grid, degrees: int): (r: Grid)
    requires degrees % 90 == 0
    ensures (degrees / 90) % 2 == 1 ==> r.width == g.height && r.height == g.width
    ensures (degrees / 90) % 2 == 0 ==> r.width == g.width && r.height == g.height
  {
    var h, w := g.height, g.width;
    var quarter := (degrees / 90) % 4;
    if quarter == 1 then
      Bitmap(h, w, seq(w, i requires 0 <= i < w => seq(h, j requires 0 <= j < h => g.rows[h - 1 - j][i])))
    else if quarter == 2 then
      Bitmap(w, h, seq(h, i requires 0 <= i < h => seq(w, j requires 0 <= j < w => g.rows[h - 1 - i][w - 1 - j])))
    else if quarter == 3 then
      Bitmap(h, w, seq(w, i requires 0 <= i < w => seq(h, j requires 0 <= j < h => g.rows[j][w - 1 - i])))
    else
      g
  }

  /**
   * The bitmap mirrored left-to-right when `horizontal` holds and
   * top-to-bottom when `vertical` holds (a scale of -1 on that axis).
   * The dimensions are unchanged.
   */
  function Flip(g: Grid, horizontal: bool, vertical: bool): (r: Grid)
    ensures r.width == g.width && r.height == g.height
  {
    var h, w := g.height, g.width;
    Bitmap(w, h, seq(h, i requires 0 <= i < h => seq(w, j requires 0 <= j < w =>
      g.rows[Mirror(vertical, h, i)][Mirror(horizontal, w, j)])))
  }

  /** The index read for index `k` of an axis of length `n`, mirrored or not. */
  function Mirror(mirrored: bool, n: nat, k: nat): (m: nat)
    requires k < n
    ensures m < n
  {
    if mirrored then n - 1 - k else k
  }

  /** The tag values for which the image is transformed at all. */
  predicate Transforms(orientation: int) {
    orientation == ORIENTATION_ROTATE_90 || orientation == ORIENTATION_ROTATE_180 ||
    orientation == ORIENTATION_ROTATE_270 || orientation == ORIENTATION_FLIP_HORIZONTAL ||
    orientation == ORIENTATION_FLIP_VERTICAL
  }

  /**
   * The correction applied for an Orientation value: the three rotations
   * and the two single-axis flips; every other value, including NORMAL,
   * TRANSPOSE, TRANSVERSE and the undefined ones, leaves the image as it is.
   */
  function Orient(g: Grid, orientation: int): (r: Grid)
    ensures orientation == ORIENTATION_ROTATE_90 || orientation == ORIENTATION_ROTATE_270
      ==> r.width == g.height && r.height == g.width
    ensures orientation != ORIENTATION_ROTATE_90 && orientation != ORIENTATION_ROTATE_270
      ==> r.width == g.width && r.height == g.height
    ensures !Transforms(orientation) ==> r == g
  {
    if orientation == ORIENTATION_ROTATE_90 then Rotate(g, 90)
    else if orientation == ORIENTATION_ROTATE_180 then Rotate(g, 180)
    else if orientation == ORIENTATION_ROTATE_270 then Rotate(g, 270)
    else if orientation == ORIENTATION_FLIP_HORIZONTAL then Flip(g, true, false)
    else if orientation == ORIENTATION_FLIP_VERTICAL then Flip(g, false, true)
    else g
  }

  // ---------------------------------------------------------------------
  // Reference semantics of the tag, independent of the transforms above.
  // Exif describes each value by the side of the upright picture on which
  // the stored 0th row and the stored 0th column lie:
  //   1 row top / column left      2 row top / column right
  //   3 row bottom / column right  4 row bottom / column left
  //   5 row left / column top      6 row right / column top
  //   7 row right / column bottom  8 row left / column bottom
  // Values outside 1..8 are read as 1.
  // ---------------------------------------------------------------------

  /** Whether the upright picture is the stored one with its axes exchanged. */
  predicate AxesExchanged(orientation: int) {
    ORIENTATION_TRANSPOSE <= orientation <= ORIENTATION_ROTATE_270
  }

  /**
   * The (row, column) at which the stored pixel (i, j) of an h-by-w image
   * appears in the upright picture, read off the description above.
   */
  function Placement(orientation: int, h: nat, w: nat, i: nat, j: nat): (nat, nat)
    requires i < h && j < w
  {
    if orientation == ORIENTATION_FLIP_HORIZONTAL then (i, w - 1 - j)
    else if orientation == ORIENTATION_ROTATE_180 then (h - 1 - i, w - 1 - j)
    else if orientation == ORIENTATION_FLIP_VERTICAL then (h - 1 - i, j)
    else if orientation == ORIENTATION_TRANSPOSE then (j, i)
    else if orientation == ORIENTATION_ROTATE_90 then (j, h - 1 - i)
    else if orientation == ORIENTATION_TRANSVERSE then (w - 1 - j, h - 1 - i)
    else if orientation == ORIENTATION_ROTATE_270 then (w - 1 - j, i)
    else (i, j)
  }

  /** `shown` is the upright picture of `stored` under the Exif reading of `orientation`. */
  predicate ShowsUpright(orientation: int, stored: Grid, shown: Grid) {
    && (if AxesExchanged(orientation)
        then shown.height == stored.width && shown.width == stored.height
        else shown.height == stored.height && shown.width == stored.width)
    && forall i: nat, j: nat | i < stored.height && j < stored.width ::
         var p := Placement(orientation, stored.height, stored.width, i, j);
         p.0 < shown.height && p.1 < shown.width && shown.rows[p.0][p.1] == stored.rows[i][j]
  }

  // ---------------------------------------------------------------------
  // Properties of the transforms.
  // ---------------------------------------------------------------------

  /** Two grids with the same dimensions and the same pixels are equal. */
  lemma GridsEqual(a: Grid, b: Grid)
    requires a.width == b.width && a.height == b.height
    requires forall i, j | 0 <= i < a.height && 0 <= j < a.width :: a.rows[i][j] == b.rows[i][j]
    ensures a == b
  {
    forall i | 0 <= i < a.height ensures a.rows[i] == b.rows[i] {
      assert |a.rows[i]| == |b.rows[i]| == a.width;
    }
  }

  /**
   * For every value except TRANSPOSE and TRANSVERSE the correction yields
   * exactly the upright picture the Exif description asks for.
   */
  lemma {:induction false} OrientShowsUpright(g: Grid, orientation: int)
    requires orientation != ORIENTATION_TRANSPOSE && orientation != ORIENTATION_TRANSVERSE
    ensures ShowsUpright(orientation, g, Orient(g, orientation))
  {
    var r := Orient(g, orientation);
    var h, w := g.height, g.width;
    forall i: nat, j: nat | i < h && j < w
      ensures var p := Placement(orientation, h, w, i, j);
              p.0 < r.height && p.1 < r.width && r.rows[p.0][p.1] == g.rows[i][j]
    {
      if orientation == ORIENTATION_ROTATE_90 {
        assert r == Rotate(g, 90);
        assert r.rows[j][h - 1 - i] == g.rows[i][j];
      } else if orientation == ORIENTATION_ROTATE_180 {
        assert r == Rotate(g, 180);
        assert r.rows[h - 1 - i][w - 1 - j] == g.rows[i][j];
      } else if orientation == ORIENTATION_ROTATE_270 {
        assert r == Rotate(g, 270);
        assert r.rows[w - 1 - j][i] == g.rows[i][j];
      } else if orientation == ORIENTATION_FLIP_HORIZONTAL {
        assert r == Flip(g, true, false);
        assert r.rows[i][w - 1 - j] == g.rows[Mirror(false, h, i)][Mirror(true, w, w - 1 - j)];
      } else if orientation == ORIENTATION_FLIP_VERTICAL {
        assert r == Flip(g, false, true);
        assert r.rows[h - 1 - i][j] == g.rows[Mirror(true, h, h - 1 - i)][Mirror(false, w, j)];
      } else {
        assert r == g;
      }
    }
  }

  /**
   * TRANSPOSE and TRANSVERSE are not corrected: the image comes back as it
   * was, which is not its upright picture whenever it is not square.
   */
  lemma TransposedLeftUncorrected(g: Grid, orientation: int)
    requires orientation == ORIENTATION_TRANSPOSE || orientation == ORIENTATION_TRANSVERSE
    requires g.height != g.width
    ensures Orient(g, orientation) == g
    ensures !ShowsUpright(orientation, g, Orient(g, orientation))
  {
  }

  /** Two quarter turns make a half turn. */
  lemma QuarterTurnTwice(g: Grid)
    ensures Rotate(Rotate(g, 90), 90) == Rotate(g, 180)
  {
    var a, b := Rotate(Rotate(g, 90), 90), Rotate(g, 180);
    forall i, j | 0 <= i < a.height && 0 <= j < a.width ensures a.rows[i][j] == b.rows[i][j] {
    }
    GridsEqual(a, b);
  }

  /** A quarter turn clockwise and one counter-clockwise undo each other. */
  lemma QuarterTurnsCancel(g: Grid)
    ensures Rotate(Rotate(g, 90), 270) == g
    ensures Rotate(Rotate(g, 270), 90) == g
  {
    var a, b := Rotate(Rotate(g, 90), 270), Rotate(Rotate(g, 270), 90);
    forall i, j | 0 <= i < g.height && 0 <= j < g.width
      ensures a.rows[i][j] == g.rows[i][j] && b.rows[i][j] == g.rows[i][j]
    {
    }
    GridsEqual(a, g);
    GridsEqual(b, g);
  }

  /** Each flip, applied twice, gives back the original image. */
  lemma FlipInvolutive(g: Grid, horizontal: bool, vertical: bool)
    ensures Flip(Flip(g, horizontal, vertical), horizontal, vertical) == g
  {
    var once := Flip(g, horizontal, vertical);
    var a := Flip(once, horizontal, vertical);
    var h, w := g.height, g.width;
    forall i, j | 0 <= i < h && 0 <= j < w ensures a.rows[i][j] == g.rows[i][j] {
      var i', j' := Mirror(vertical, h, i), Mirror(horizontal, w, j);
      assert a.rows[i][j] == once.rows[i'][j'];
      assert once.rows[i'][j'] == g.rows[Mirror(vertical, h, i')][Mirror(horizontal, w, j')];
    }
    GridsEqual(a, g);
  }

  /** Mirroring on both axes is the half turn. */
  lemma FlipBothIsHalfTurn(g: Grid)
    ensures Flip(g, true, true) == Rotate(g, 180)
  {
    var a, b := Flip(g, true, true), Rotate(g, 180);
    forall i, j | 0 <= i < g.height && 0 <= j < g.width ensures a.rows[i][j] == b.rows[i][j] {
      assert a.rows[i][j] == g.rows[Mirror(true, g.height, i)][Mirror(true, g.width, j)];
    }
    GridsEqual(a, b);
  }
}
