/**
 * Images and regions of interest. An image is a W x H array of colours indexed
 * `[x, y]`; a region is read off an image by scanning it column by column, and drawn by
 * clearing a canvas to white and painting every listed pixel black. The two ROI
 * converters differ only in which colours they take as foreground.
 */
module Raster {
  import opened Wrappers
  import opened RegionOfInterest

  newtype byte = x: int | 0 <= x < 0x100

  /** A colour, channel by channel. */
  datatype Rgba = Rgba(r: byte, g: byte, b: byte, a: byte)

  const Black: Rgba := Rgba(0, 0, 0, 255)
  const White: Rgba := Rgba(255, 255, 255, 255)

  /** An image as a value: column x, row y is `g[x][y]`. */
  type Grid = seq<seq<Rgba>>

  predicate IsGrid(g: Grid, width: nat, height: nat) {
    |g| == width && forall x :: 0 <= x < |g| ==> |g[x]| == height
  }

  /** The contents of an image. */
  function Snapshot(image: array2<Rgba>): (g: Grid)
    reads image
    ensures IsGrid(g, image.Length0, image.Length1)
  {
    seq(image.Length0, x requires 0 <= x < image.Length0 reads image =>
      seq(image.Length1, y requires 0 <= y < image.Length1 reads image => image[x, y]))
  }

  // ---------------------------------------------------------------------------
  // Reading a region off an image
  // ---------------------------------------------------------------------------

  /** The foreground pixels of column x with row below `y`, in increasing y. */
  function Column(g: Grid, fg: Rgba -> bool, x: nat, y: nat): seq<RoiPixel>
    requires x < |g| && y <= |g[x]|
  {
    if y == 0 then []
    else Column(g, fg, x, y - 1) + (if fg(g[x][y - 1]) then [RoiPixel(x, y - 1)] else [])
  }

  /** The foreground pixels of the columns left of `x`, column by column. */
  function Scan(g: Grid, height: nat, fg: Rgba -> bool, x: nat): seq<RoiPixel>
    requires IsGrid(g, |g|, height) && x <= |g|
  {
    if x == 0 then [] else Scan(g, height, fg, x - 1) + Column(g, fg, x - 1, height)
  }

  /** All the foreground pixels of the image, in x-major, y-minor order. */
  function Mask(g: Grid, height: nat, fg: Rgba -> bool): seq<RoiPixel>
    requires IsGrid(g, |g|, height)
  {
    Scan(g, height, fg, |g|)
  }

  /** `p` comes before `q` in x-major, y-minor order. */
  predicate Before(p: RoiPixel, q: RoiPixel) {
    p.x < q.x || (p.x == q.x && p.y < q.y)
  }

  /** Every pixel comes before all the pixels after it: sorted, hence no duplicates. */
  predicate StrictlyOrdered(ps: seq<RoiPixel>) {
    forall i, j :: 0 <= i < j < |ps| ==> Before(ps[i], ps[j])
  }

  lemma {:induction false} ColumnContents(g: Grid, fg: Rgba -> bool, x: nat, y: nat)
    requires x < |g| && y <= |g[x]|
    ensures forall p :: p in Column(g, fg, x, y) <==> p.x == x && 0 <= p.y < y && fg(g[x][p.y])
    ensures StrictlyOrdered(Column(g, fg, x, y))
    decreases y
  {
    if y > 0 {
      ColumnContents(g, fg, x, y - 1);
    }
  }

  lemma {:induction false} ScanContents(g: Grid, height: nat, fg: Rgba -> bool, x: nat)
    requires IsGrid(g, |g|, height) && x <= |g|
    ensures forall p :: p in Scan(g, height, fg, x) <==> 0 <= p.x < x && 0 <= p.y < height && fg(g[p.x][p.y])
    ensures StrictlyOrdered(Scan(g, height, fg, x))
    decreases x
  {
    if x > 0 {
      ScanContents(g, height, fg, x - 1);
      ColumnContents(g, fg, x - 1, height);
      var left, column := Scan(g, height, fg, x - 1), Column(g, fg, x - 1, height);
      forall i, j | 0 <= i < j < |left + column|
        ensures Before((left + column)[i], (left + column)[j])
      {
        if j >= |left| && i < |left| {
          assert left[i] in left && column[j - |left|] in column;
        }
      }
    }
  }

  /**
   * What `BitmapToRoi` collects: (x, y) is listed iff it is a pixel of the image with a
   * foreground colour; the list is in x-major order without duplicates, and every pixel
   * lies in the image.
   */
  lemma MaskContents(g: Grid, height: nat, fg: Rgba -> bool)
    requires IsGrid(g, |g|, height)
    ensures forall p :: p in Mask(g, height, fg) <==> InExtent(p, |g|, height) && fg(g[p.x][p.y])
    ensures StrictlyOrdered(Mask(g, height, fg))
    ensures forall i :: 0 <= i < |Mask(g, height, fg)| ==> InExtent(Mask(g, height, fg)[i], |g|, height)
  {
    ScanContents(g, height, fg, |g|);
    forall i | 0 <= i < |Mask(g, height, fg)|
      ensures InExtent(Mask(g, height, fg)[i], |g|, height)
    {
      assert Mask(g, height, fg)[i] in Mask(g, height, fg);
    }
  }

  /** A strictly ordered list holds no pixel twice. */
  lemma OrderedHasNoDuplicates(ps: seq<RoiPixel>)
    requires StrictlyOrdered(ps)
    ensures forall i, j :: 0 <= i < j < |ps| ==> ps[i] != ps[j]
  {
    forall i, j | 0 <= i < j < |ps|
      ensures ps[i] != ps[j]
    {
      assert Before(ps[i], ps[j]);
    }
  }

  // ---------------------------------------------------------------------------
  // Drawing a region
  // ---------------------------------------------------------------------------

  /** The width x height image with the listed pixels black and every other pixel white. */
  function Paint(width: nat, height: nat, pixels: seq<RoiPixel>): (g: Grid)
    ensures IsGrid(g, width, height)
  {
    seq(width, x requires 0 <= x < width =>
      seq(height, y requires 0 <= y < height => if RoiPixel(x, y) in pixels then Black else White))
  }

  /** The order and the repetitions of the pixel list do not change the image. */
  lemma PaintDependsOnPixelSet(width: nat, height: nat, pixels1: seq<RoiPixel>, pixels2: seq<RoiPixel>)
    requires forall p :: p in pixels1 <==> p in pixels2
    ensures Paint(width, height, pixels1) == Paint(width, height, pixels2)
  {
    assert forall x :: 0 <= x < width ==> Paint(width, height, pixels1)[x] == Paint(width, height, pixels2)[x];
  }

  /** The extents `RoiToBitmap` can create an image of: positive and within `int`. */
  predicate DrawableSize(roi: Roi) {
    0 < roi.width as int < 0x8000_0000 && 0 < roi.height as int < 0x8000_0000
  }

  /** The index of the first pixel outside the image, or the length of the list when there is none. */
  function FirstOutside(pixels: seq<RoiPixel>, width: int, height: int): (k: nat)
    ensures k <= |pixels|
    ensures forall j :: 0 <= j < k ==> InExtent(pixels[j], width, height)
    ensures k < |pixels| ==> !InExtent(pixels[k], width, height)
  {
    if pixels == [] || !InExtent(pixels[0], width, height) then 0
    else 1 + FirstOutside(pixels[1..], width, height)
  }

  /** Why `RoiToBitmap` fails: the image cannot be created, or a pixel is not in it. */
  datatype ImageError = InvalidSize | PixelOutOfRange(pixel: RoiPixel)

  /** The outcome `RoiToBitmap` has for a region, leaving out the image itself. */
  function DrawOutcome(roi: Roi): Option<ImageError> {
    if !DrawableSize(roi) then Some(InvalidSize)
    else
      var k := FirstOutside(roi.pixels, roi.width as int, roi.height as int);
      if k < |roi.pixels| then Some(PixelOutOfRange(roi.pixels[k])) else None
  }

  /** Drawing succeeds exactly when the extent is drawable and every pixel lies in the image. */
  lemma DrawOutcomeSucceeds(roi: Roi)
    ensures DrawOutcome(roi).None? <==>
              DrawableSize(roi) && forall i :: 0 <= i < |roi.pixels| ==> InExtent(roi.pixels[i], roi.width as int, roi.height as int)
  {
  }

  // ---------------------------------------------------------------------------
  // The round trips
  // ---------------------------------------------------------------------------

  /**
   * Drawing a region and reading it back gives its pixel set, when every pixel lies in
   * the image, black is foreground and white is not.
   */
  lemma MaskOfPaint(width: nat, height: nat, pixels: seq<RoiPixel>, fg: Rgba -> bool)
    requires fg(Black) && !fg(White)
    requires forall i :: 0 <= i < |pixels| ==> InExtent(pixels[i], width, height)
    ensures forall p :: p in Mask(Paint(width, height, pixels), height, fg) <==> p in pixels
  {
    var g := Paint(width, height, pixels);
    MaskContents(g, height, fg);
    forall p | p in pixels
      ensures InExtent(p, width, height)
    {
      var i :| 0 <= i < |pixels| && pixels[i] == p;
    }
  }

  /**
   * Reading a black-and-white image and drawing the result gives the image back, when
   * black is foreground and white is not.
   */
  lemma PaintOfMask(g: Grid, height: nat, fg: Rgba -> bool)
    requires IsGrid(g, |g|, height)
    requires forall x, y :: 0 <= x < |g| && 0 <= y < height ==> g[x][y] == Black || g[x][y] == White
    requires fg(Black) && !fg(White)
    ensures Paint(|g|, height, Mask(g, height, fg)) == g
  {
    var p := Paint(|g|, height, Mask(g, height, fg));
    MaskContents(g, height, fg);
    forall x | 0 <= x < |g|
      ensures p[x] == g[x]
    {
      forall y | 0 <= y < height
        ensures p[x][y] == g[x][y]
      {
        assert RoiPixel(x, y) in Mask(g, height, fg) <==> fg(g[x][y]);
      }
    }
  }

  // ---------------------------------------------------------------------------
  // The converters' loops
  // ---------------------------------------------------------------------------

  /**
   * `BitmapToRoi`: a region with the image's extent, then, column by column and row by
   * row, every pixel whose colour is foreground appended to its pixel list. The region is
   * built with an empty list, which every bounds check accepts.
   */
  method BitmapToRoi(bitmap: array2<Rgba>, name: string, fg: Rgba -> bool) returns (roi: Roi)
    requires bitmap.Length0 < 0x8000_0000 && bitmap.Length1 < 0x8000_0000
    ensures roi.name == name && roi.width as int == bitmap.Length0 && roi.height as int == bitmap.Length1
    ensures roi.pixels == Mask(Snapshot(bitmap), bitmap.Length1, fg)
  {
    ghost var g := Snapshot(bitmap);
    var width, height := bitmap.Length0, bitmap.Length1;
    roi := Roi(name, width as uint32, height as uint32, []);
    for x := 0 to width
      invariant roi == Roi(name, width as uint32, height as uint32, Scan(g, height, fg, x))
    {
      for y := 0 to height
        invariant roi == Roi(name, width as uint32, height as uint32, Scan(g, height, fg, x) + Column(g, fg, x, y))
      {
        var color := bitmap[x, y];
        assert color == g[x][y];
        if fg(color) {
          roi := roi.(pixels := roi.pixels + [RoiPixel(x, y)]);
        }
      }
    }
  }

  /**
   * `RoiToBitmap`: a fresh W x H image filled white, then every listed pixel painted
   * black. It fails when the image cannot be created or a pixel lies outside it.
   */
  method RoiToBitmap(roi: Roi) returns (r: Result<array2<Rgba>, ImageError>)
    ensures r.Err? <==> DrawOutcome(roi).Some?
    ensures r.Err? ==> r.error == DrawOutcome(roi).value
    ensures r.Ok? ==> fresh(r.value) && r.value.Length0 == roi.width as int && r.value.Length1 == roi.height as int
                      && Snapshot(r.value) == Paint(roi.width as int, roi.height as int, roi.pixels)
  {
    if !DrawableSize(roi) {
      return Err(InvalidSize);
    }
    var width, height := roi.width as int, roi.height as int;
    var bitmap := new Rgba[width, height];
    for x := 0 to width
      invariant forall x', y' :: 0 <= x' < x && 0 <= y' < height ==> bitmap[x', y'] == White
    {
      for y := 0 to height
        invariant forall x', y' :: 0 <= x' < x && 0 <= y' < height ==> bitmap[x', y'] == White
        invariant forall y' :: 0 <= y' < y ==> bitmap[x, y'] == White
      {
        bitmap[x, y] := White;
      }
    }
    var pixels := roi.pixels;
    for i := 0 to |pixels|
      invariant forall j :: 0 <= j < i ==> InExtent(pixels[j], width, height)
      invariant forall x, y :: 0 <= x < width && 0 <= y < height ==>
                  bitmap[x, y] == if RoiPixel(x, y) in pixels[..i] then Black else White
    {
      var pixel := pixels[i];
      if !(0 <= pixel.x < width && 0 <= pixel.y < height) {
        assert FirstOutside(pixels, width, height) == i;
        return Err(PixelOutOfRange(pixel));
      }
      assert pixels[..i + 1] == pixels[..i] + [pixel];
      bitmap[pixel.x, pixel.y] := Black;
    }
    assert pixels[..|pixels|] == pixels;
    assert FirstOutside(pixels, width, height) == |pixels|;
    ghost var painted := Paint(width, height, pixels);
    assert forall x :: 0 <= x < width ==> Snapshot(bitmap)[x] == painted[x];
    return Ok(bitmap);
  }
}
