/**
 * The current `RoiConverter`: a pixel belongs to the region iff its colour is exactly
 * black; a region is drawn black on white.
 */
module RoiConverter {
  import opened Wrappers
  import opened RegionOfInterest
  import Raster

  /** `color.Equals(RoiColor)`: the foreground test of the current converter. */
  predicate IsRoiColor(c: Raster.Rgba) {
    c == Raster.Black
  }

  /**
   * `BitmapToRoi`: the region has the image's extent and lists exactly the black pixels,
   * x-major, without duplicates, all inside the image, so the extent check still holds.
   */
  method BitmapToRoi(bitmap: array2<Raster.Rgba>, name: string) returns (roi: Roi)
    requires bitmap.Length0 < 0x8000_0000 && bitmap.Length1 < 0x8000_0000
    ensures roi.name == name && roi.width as int == bitmap.Length0 && roi.height as int == bitmap.Length1
    ensures forall p :: p in roi.pixels <==> InExtent(p, bitmap.Length0, bitmap.Length1) && bitmap[p.x, p.y] == Raster.Black
    ensures Raster.StrictlyOrdered(roi.pixels)
    ensures NewRoiWithinImage(name, roi.width, roi.height, roi.pixels) == Ok(roi)
  {
    roi := Raster.BitmapToRoi(bitmap, name, IsRoiColor);
    Raster.MaskContents(Raster.Snapshot(bitmap), bitmap.Length1, IsRoiColor);
  }

  /** `RoiToBitmap`: a W x H image, black exactly at the listed pixels and white elsewhere. */
  method RoiToBitmap(roi: Roi) returns (r: Result<array2<Raster.Rgba>, Raster.ImageError>)
    ensures r.Err? <==> Raster.DrawOutcome(roi).Some?
    ensures r.Err? ==> r.error == Raster.DrawOutcome(roi).value
    ensures r.Ok? ==> fresh(r.value) && r.value.Length0 == roi.width as int && r.value.Length1 == roi.height as int
    ensures r.Ok? ==> forall x, y :: 0 <= x < r.value.Length0 && 0 <= y < r.value.Length1 ==>
                        r.value[x, y] == if RoiPixel(x, y) in roi.pixels then Raster.Black else Raster.White
  {
    r := Raster.RoiToBitmap(roi);
    if r.Ok? {
      assert forall x, y :: 0 <= x < r.value.Length0 && 0 <= y < r.value.Length1 ==>
               r.value[x, y] == Raster.Snapshot(r.value)[x][y];
    }
  }

  /**
   * The constructor as written accepts a 10 x 10 region holding (10, 0), which
   * `RoiToBitmap` then cannot draw: the pixel lies outside the 10 x 10 image.
   */
  lemma EdgePixelCannotBeDrawn()
    ensures NewRoi("edge", 10, 10, [RoiPixel(10, 0)]).Ok?
    ensures Raster.DrawOutcome(NewRoi("edge", 10, 10, [RoiPixel(10, 0)]).value) == Some(Raster.PixelOutOfRange(RoiPixel(10, 0)))
  {
    assert Raster.FirstOutside([RoiPixel(10, 0)], 10, 10) == 0;
  }

  /** Every region the intended constructor accepts, with a drawable extent, can be drawn. */
  lemma IntendedRoisCanBeDrawn(name: string, width: uint32, height: uint32, pixels: seq<RoiPixel>)
    requires NewRoiWithinImage(name, width, height, pixels).Ok?
    requires 0 < width as int < 0x8000_0000 && 0 < height as int < 0x8000_0000
    ensures Raster.DrawOutcome(NewRoiWithinImage(name, width, height, pixels).value) == None
  {
    Raster.DrawOutcomeSucceeds(NewRoiWithinImage(name, width, height, pixels).value);
  }

  /** Drawing a region and reading the image back gives the region's pixel set. */
  lemma RoiRoundTrip(roi: Roi)
    requires Raster.DrawOutcome(roi).None?
    ensures var g := Raster.Paint(roi.width as int, roi.height as int, roi.pixels);
            forall p :: p in Raster.Mask(g, roi.height as int, IsRoiColor) <==> p in roi.pixels
  {
    Raster.DrawOutcomeSucceeds(roi);
    Raster.MaskOfPaint(roi.width as int, roi.height as int, roi.pixels, IsRoiColor);
  }

  /** Reading a black-and-white image and drawing the region gives the image back. */
  lemma ImageRoundTrip(g: Raster.Grid, height: nat)
    requires Raster.IsGrid(g, |g|, height)
    requires forall x, y :: 0 <= x < |g| && 0 <= y < height ==> g[x][y] == Raster.Black || g[x][y] == Raster.White
    ensures Raster.Paint(|g|, height, Raster.Mask(g, height, IsRoiColor)) == g
  {
    Raster.PaintOfMask(g, height, IsRoiColor);
  }
}
