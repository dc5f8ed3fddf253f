/**
 * Cursor compositing: before a captured frame is encoded, the pixels of the
 * current cursor image are painted over it in place.  A cursor pixel is
 * written only when its alpha byte (`pixel >> 24`) is non-zero and its
 * translated position lies inside the frame; the cursor's top-left corner is
 * the reported pointer position minus the cursor's hotspot.
 *
 * The frame is row-major, `frame[row, column]`, with `Length0` the height
 * and `Length1` the width of the captured image.
 */
module Cursor {

  /** A frame pixel of the 32-bits-per-pixel capture (read as 4-channel bytes by the encoder). */
  type Pixel = x: int | 0 <= x < 0x1_0000_0000

  /** A cursor pixel: an `unsigned long` holding an ARGB value. */
  type CursorPixel = x: int | 0 <= x < 0x1_0000_0000_0000_0000

  /**
   * The cursor image as the X server reports it: pointer position, hotspot,
   * size, and `width * height` pixels stored row after row.
   */
  datatype CursorImage = CursorImage(
    x: int, y: int,
    xhot: nat, yhot: nat,
    width: nat, height: nat,
    pixels: array<CursorPixel>)
  {
    /** The pixel buffer holds exactly one pixel per cursor position. */
    predicate WellFormed() {
      pixels.Length == width * height
    }

    /** Column of the frame under the cursor's left edge. */
    function Left(): int { x - xhot }

    /** Row of the frame under the cursor's top edge. */
    function Top(): int { y - yhot }
  }

  /** `pixel >> 24`: the alpha byte of an ARGB value (plus any higher bits). */
  function Alpha(p: CursorPixel): nat {
    p / 0x100_0000
  }

  /** Storing an `unsigned long` into a 32-bit image pixel keeps its low 32 bits. */
  function Store(p: CursorPixel): Pixel {
    p % 0x1_0000_0000
  }

  /** Row-major index of cursor position (cx, cy) lies inside the pixel buffer. */
  lemma IndexInBuffer(cx: int, cy: int, width: nat, height: nat)
    requires 0 <= cx < width && 0 <= cy < height
    ensures 0 <= cy * width + cx < width * height
  {
    assert cy * width + cx < cy * width + width == (cy + 1) * width;
    assert (cy + 1) * width <= height * width;
  }

  /**
   * The cursor pixel that lands on frame position (r, c), if the cursor
   * covers that position with a visible (non-zero alpha) pixel.
   */
  function Covering(cursor: CursorImage, pixels: seq<CursorPixel>, r: int, c: int): (p: CursorPixel)
    requires |pixels| == cursor.width * cursor.height
    requires Covers(cursor, pixels, r, c)
  {
    var cx, cy := c - cursor.Left(), r - cursor.Top();
    IndexInBuffer(cx, cy, cursor.width, cursor.height);
    pixels[cy * cursor.width + cx]
  }

  /** Frame position (r, c) lies under the cursor image and the pixel there is not transparent. */
  predicate Covers(cursor: CursorImage, pixels: seq<CursorPixel>, r: int, c: int)
    requires |pixels| == cursor.width * cursor.height
  {
    var cx, cy := c - cursor.Left(), r - cursor.Top();
    0 <= cx < cursor.width && 0 <= cy < cursor.height &&
    (IndexInBuffer(cx, cy, cursor.width, cursor.height);
     Alpha(pixels[cy * cursor.width + cx]) != 0)
  }

  /** What frame pixel (r, c) becomes once the cursor is composited over `under`. */
  function Overlay(under: Pixel, cursor: CursorImage, pixels: seq<CursorPixel>, r: int, c: int): Pixel
    requires |pixels| == cursor.width * cursor.height
  {
    if Covers(cursor, pixels, r, c) then Store(Covering(cursor, pixels, r, c)) else under
  }

  /** Cursor position (cx, cy) has been visited once the scan has passed row `i`, column `j`. */
  predicate Visited(cx: int, cy: int, i: int, j: int) {
    cy < i || (cy == i && cx < j)
  }

  /**
   * Paints the cursor onto the frame in place, scanning the cursor row by row.
   * Afterwards every frame pixel is the overlay of the cursor on its old value:
   * covered positions hold the cursor pixel, all others are unchanged.
   */
  method Composite(frame: array2<Pixel>, cursor: CursorImage)
    requires cursor.WellFormed()
    modifies frame
    ensures forall r, c :: 0 <= r < frame.Length0 && 0 <= c < frame.Length1 ==>
              frame[r, c] == Overlay(old(frame[r, c]), cursor, cursor.pixels[..], r, c)
  {
    ghost var pixels := cursor.pixels[..];
    var left, top := cursor.Left(), cursor.Top();
    var cy := 0;
    while cy < cursor.height
      invariant 0 <= cy <= cursor.height
      invariant forall r, c :: 0 <= r < frame.Length0 && 0 <= c < frame.Length1 ==>
                  frame[r, c] == (if Visited(c - left, r - top, cy, 0)
                                  then Overlay(old(frame[r, c]), cursor, pixels, r, c)
                                  else old(frame[r, c]))
    {
      var cx := 0;
      while cx < cursor.width
        invariant 0 <= cx <= cursor.width
        invariant forall r, c :: 0 <= r < frame.Length0 && 0 <= c < frame.Length1 ==>
                    frame[r, c] == (if Visited(c - left, r - top, cy, cx)
                                    then Overlay(old(frame[r, c]), cursor, pixels, r, c)
                                    else old(frame[r, c]))
      {
        var imgX, imgY := left + cx, top + cy;
        if 0 <= imgX < frame.Length1 && 0 <= imgY < frame.Length0 {
          IndexInBuffer(cx, cy, cursor.width, cursor.height);
          var pixel := cursor.pixels[cy * cursor.width + cx];
          if Alpha(pixel) != 0 {
            frame[imgY, imgX] := Store(pixel);
          }
        }
        cx := cx + 1;
      }
      cy := cy + 1;
    }
  }

  /**
   * Seen from the cursor: a visible cursor pixel whose translated position is
   * inside the frame bounds ends up in the frame.
   */
  lemma VisiblePixelShows(under: Pixel, cursor: CursorImage, pixels: seq<CursorPixel>, cx: nat, cy: nat)
    requires |pixels| == cursor.width * cursor.height
    requires cx < cursor.width && cy < cursor.height
    ensures 0 <= cy * cursor.width + cx < |pixels|
    ensures Alpha(pixels[cy * cursor.width + cx]) != 0 ==>
              Overlay(under, cursor, pixels, cursor.Top() + cy, cursor.Left() + cx)
                == Store(pixels[cy * cursor.width + cx])
    ensures Alpha(pixels[cy * cursor.width + cx]) == 0 ==>
              Overlay(under, cursor, pixels, cursor.Top() + cy, cursor.Left() + cx) == under
  {
    IndexInBuffer(cx, cy, cursor.width, cursor.height);
  }

  /** A fully transparent cursor never alters the frame. */
  lemma TransparentCursorIsInvisible(under: Pixel, cursor: CursorImage, pixels: seq<CursorPixel>, r: int, c: int)
    requires |pixels| == cursor.width * cursor.height
    requires forall k :: 0 <= k < |pixels| ==> Alpha(pixels[k]) == 0
    ensures Overlay(under, cursor, pixels, r, c) == under
  {
    var cx, cy := c - cursor.Left(), r - cursor.Top();
    if 0 <= cx < cursor.width && 0 <= cy < cursor.height {
      IndexInBuffer(cx, cy, cursor.width, cursor.height);
      assert Alpha(pixels[cy * cursor.width + cx]) == 0;
    }
  }

  /** Positions outside the rectangle the cursor spans are never touched. */
  lemma OutsideCursorUnchanged(under: Pixel, cursor: CursorImage, pixels: seq<CursorPixel>, r: int, c: int)
    requires |pixels| == cursor.width * cursor.height
    requires !(cursor.Left() <= c < cursor.Left() + cursor.width && cursor.Top() <= r < cursor.Top() + cursor.height)
    ensures Overlay(under, cursor, pixels, r, c) == under
  {
  }
}
