/**
 * `Roi`: a named region of interest, a width x height extent and the list of pixels that
 * belong to it. The constructor checks the pixels against the extent once; the name and
 * the extent never change afterwards.
 */
module RegionOfInterest {
  import opened Wrappers

  /** A C# `uint`. */
  newtype uint32 = x: int | 0 <= x < 0x1_0000_0000

  /**
   * A `RoiPixel`: its `XCoordinate` and `YCoordinate`. They are C# `int`s; unbounded
   * integers change no result here, because the only arithmetic on them is comparison,
   * and C# widens both sides of an `int`-`uint` comparison to `long`.
   */
  datatype RoiPixel = RoiPixel(x: int, y: int)

  datatype Roi = Roi(name: string, width: uint32, height: uint32, pixels: seq<RoiPixel>)

  /** The `ArgumentOutOfRangeException` the constructor throws. */
  datatype RoiError = PixelsExceedDimensions

  /** The constructor's test, as written: neither coordinate is greater than its bound. */
  predicate WithinDeclaredExtent(p: RoiPixel, width: uint32, height: uint32) {
    p.x <= width as int && p.y <= height as int
  }

  /** The pixel is one of the width x height pixels of an image of that extent. */
  predicate InExtent(p: RoiPixel, width: int, height: int) {
    0 <= p.x < width && 0 <= p.y < height
  }

  /**
   * The constructor as written. It throws when some pixel has X > width or Y > height;
   * otherwise the fields are the arguments, the pixel list in its order with its duplicates.
   */
  function NewRoi(name: string, width: uint32, height: uint32, pixels: seq<RoiPixel>): (r: Result<Roi, RoiError>)
    ensures r.Ok? <==> forall i :: 0 <= i < |pixels| ==> WithinDeclaredExtent(pixels[i], width, height)
    ensures r.Err? ==> r.error == PixelsExceedDimensions
    ensures r.Ok? ==> r.value.name == name && r.value.width == width && r.value.height == height
                      && r.value.pixels == pixels
  {
    if exists i :: 0 <= i < |pixels| && !WithinDeclaredExtent(pixels[i], width, height) then Err(PixelsExceedDimensions)
    else Ok(Roi(name, width, height, pixels))
  }

  /** The unit test's case: in a 10 x 10 region, (15, 6) and (1, 15) are rejected, together or alone. */
  lemma RejectsPixelsOutsideTenByTen()
    ensures NewRoi("randomname", 10, 10, [RoiPixel(15, 6), RoiPixel(1, 15)]) == Err(PixelsExceedDimensions)
    ensures NewRoi("randomname", 10, 10, [RoiPixel(15, 6)]).Err?
    ensures NewRoi("randomname", 10, 10, [RoiPixel(1, 15)]).Err?
  {
    assert !WithinDeclaredExtent([RoiPixel(15, 6), RoiPixel(1, 15)][0], 10, 10);
    assert !WithinDeclaredExtent([RoiPixel(15, 6)][0], 10, 10);
    assert !WithinDeclaredExtent([RoiPixel(1, 15)][0], 10, 10);
  }

  /**
   * The check as written admits a pixel on the far edge, x == width, and has no lower
   * bound: (10, 0) and (-1, -5) are accepted in a 10 x 10 region, though neither is a
   * pixel of a 10 x 10 image.
   */
  lemma AcceptsPixelsOutsideImage()
    ensures NewRoi("edge", 10, 10, [RoiPixel(10, 0)]).Ok? && !InExtent(RoiPixel(10, 0), 10, 10)
    ensures NewRoi("edge", 10, 10, [RoiPixel(9, 10)]).Ok? && !InExtent(RoiPixel(9, 10), 10, 10)
    ensures NewRoi("negative", 10, 10, [RoiPixel(-1, -5)]).Ok? && !InExtent(RoiPixel(-1, -5), 10, 10)
  {
  }

  /**
   * The evidently intended constructor: a pixel must lie in the width x height image,
   * 0 <= X < width and 0 <= Y < height.
   */
  function NewRoiWithinImage(name: string, width: uint32, height: uint32, pixels: seq<RoiPixel>): (r: Result<Roi, RoiError>)
    ensures r.Ok? <==> forall i :: 0 <= i < |pixels| ==> InExtent(pixels[i], width as int, height as int)
    ensures r.Err? ==> r.error == PixelsExceedDimensions
    ensures r.Ok? ==> r.value == Roi(name, width, height, pixels)
  {
    if exists i :: 0 <= i < |pixels| && !InExtent(pixels[i], width as int, height as int) then Err(PixelsExceedDimensions)
    else Ok(Roi(name, width, height, pixels))
  }

  /** The intended check is the written one tightened: it accepts less, and it accepts the empty list. */
  lemma WithinImageIsStricter(name: string, width: uint32, height: uint32, pixels: seq<RoiPixel>)
    ensures NewRoiWithinImage(name, width, height, pixels).Ok? ==> NewRoi(name, width, height, pixels) == NewRoiWithinImage(name, width, height, pixels)
    ensures NewRoiWithinImage(name, width, height, []) == NewRoi(name, width, height, []) == Ok(Roi(name, width, height, []))
  {
    if NewRoiWithinImage(name, width, height, pixels).Ok? {
      forall i | 0 <= i < |pixels|
        ensures WithinDeclaredExtent(pixels[i], width, height)
      {
        assert InExtent(pixels[i], width as int, height as int);
      }
    }
  }
}
