/**
 * The capture side of the server: the `ScreenShot` object that owns the
 * session parameters (size budget, target frame rate), the quality level of
 * the capture loop and the single-slot mailbox `buffer` holding the most
 * recently encoded frame.
 *
 * The X server (image and cursor capture) and the JPEG encoder are outside
 * the model: a capture cycle receives the captured frame and cursor as
 * arguments, and the encoder is a function parameter from image and quality
 * to bytes.
 */
module Capture {
  import opened Common
  import opened Quality
  import opened Cursor

  /** The composited frame as the encoder sees it: rows of pixels. */
  type Image = seq<seq<Pixel>>

  /** The JPEG encoder: an image and a quality level give the compressed bytes. */
  type Encoder = (Image, int) -> Bytes

  /** The current contents of a frame array, row by row. */
  function Rows(frame: array2<Pixel>): (img: Image)
    reads frame
    ensures |img| == frame.Length0
    ensures forall r :: 0 <= r < frame.Length0 ==> |img[r]| == frame.Length1
    ensures forall r, c :: 0 <= r < frame.Length0 && 0 <= c < frame.Length1 ==> img[r][c] == frame[r, c]
  {
    seq(frame.Length0, r requires 0 <= r < frame.Length0 reads frame =>
      seq(frame.Length1, c requires 0 <= c < frame.Length1 reads frame => frame[r, c]))
  }

  const DefaultMaxSize: int := 60 * 1024
  const DefaultFps: int := 60

  class ScreenShot {
    /** Size of the captured window, fixed for the session. */
    const width: int
    const height: int
    /** JPEG quality for the next encode (a local of the capture loop in the server). */
    var quality: int
    /** Size budget in bytes for one encoded frame. */
    var maxSize: int
    /** Target frame rate of the broadcast; the capture runs at a multiple of it. */
    var fps: int
    /** The most recently encoded frame, read by the broadcast loop. */
    var buffer: Bytes

    ghost predicate Valid()
      reads this
    {
      InRange(quality) && InInt32(maxSize) && InInt32(fps)
    }

    /** A fresh session: 60 KiB budget, 60 frames per second, full quality, nothing encoded yet. */
    constructor (width: int, height: int)
      ensures Valid()
      ensures this.width == width && this.height == height
      ensures quality == InitialQuality && maxSize == DefaultMaxSize && fps == DefaultFps
      ensures buffer == []
    {
      this.width, this.height := width, height;
      quality := InitialQuality;
      maxSize, fps := DefaultMaxSize, DefaultFps;
      buffer := [];
    }

    /**
     * `set_max_size`: the budget becomes exactly `kb * 1024` bytes.  The
     * product must fit an `int`; beyond that the source has undefined behaviour.
     */
    method SetMaxSize(kb: int)
      requires Valid() && InInt32(kb * 1024)
      modifies this`maxSize
      ensures Valid()
      ensures maxSize == kb * 1024
    {
      maxSize := kb * 1024;
    }

    /** `set_fps`: stores the frame rate as given, without validation. */
    method SetFps(n: int)
      requires Valid() && InInt32(n)
      modifies this`fps
      ensures Valid()
      ensures fps == n
    {
      fps := n;
    }

    /** The quality update after one encode: the budget rule applied to the encoded size. */
    method Step(encodedSize: nat)
      requires Valid() && BudgetComputable(maxSize)
      modifies this`quality
      ensures Valid()
      ensures quality == NextQuality(old(quality), encodedSize, maxSize)
    {
      if encodedSize > ToSizeT(maxSize) {
        quality := Max(MinQuality, quality - QualityStep);
      } else if encodedSize < ToSizeT(maxSize - Slack) {
        quality := Min(MaxQuality, quality + QualityStep);
      }
      NextQualityInRange(old(quality), encodedSize, maxSize);
    }

    /**
     * Encodes an image at the current quality, adjusts the quality from the
     * encoded size and publishes the bytes into the mailbox, replacing
     * whatever was there.
     */
    method Publish(image: Image, encode: Encoder)
      requires Valid() && BudgetComputable(maxSize)
      modifies this`quality, this`buffer
      ensures Valid()
      ensures buffer == encode(image, old(quality))
      ensures quality == NextQuality(old(quality), |buffer|, maxSize)
    {
      var encoded := encode(image, quality);
      Step(|encoded|);
      buffer := encoded;
    }

    /**
     * The body of one successful capture cycle: composite the cursor (if the
     * server reported one) onto the captured frame, encode it, update the
     * quality and publish.
     */
    method CaptureCycle(frame: array2<Pixel>, cursor: Option<CursorImage>, encode: Encoder)
      requires Valid() && BudgetComputable(maxSize)
      requires frame.Length0 == height && frame.Length1 == width
      requires cursor.Some? ==> cursor.value.WellFormed()
      modifies this`quality, this`buffer, frame
      ensures Valid()
      ensures forall r, c :: 0 <= r < height && 0 <= c < width ==>
                frame[r, c] == (if cursor.Some?
                                then Overlay(old(frame[r, c]), cursor.value, cursor.value.pixels[..], r, c)
                                else old(frame[r, c]))
      ensures buffer == encode(Rows(frame), old(quality))
      ensures quality == NextQuality(old(quality), |buffer|, maxSize)
    {
      if cursor.Some? {
        Composite(frame, cursor.value);
      }
      Publish(Rows(frame), encode);
    }
  }
}
