/**
 * The deprecated `RoiConverter` over `System.Drawing` bitmaps: a pixel belongs to the
 * region iff its blue channel is 0, whatever the other channels; a region is drawn by
 * clearing the bitmap to white and setting every listed pixel black.
 */
module LegacyRoiConverter {
  import opened Wrappers
  import opened RegionOfInterest
  import Raster

  /** `color.B == roiColor` with `roiColor = 0`: the foreground test of the legacy converter. */
  predicate HasZeroBlue(c: Raster.Rgba) {
    c.b == 0
  }

  /** Any colour without blue is foreground, not only black: pure red is. */
  lemma RedIsForeground()
    ensures HasZeroBlue(Raster.Rgba(255, 0, 0, 255)) && Raster.Rgba(255, 0, 0, 255) != Raster.Black
    ensures HasZeroBlue(Raster.Black) && !HasZeroBlue(Raster.White)
  {
  }

  /**
   * `BitmapToRoi`: the region has the bitmap's extent and lists exactly the pixels with
   * zero blue, each coordinate visited once in x-major order, all inside the bitmap.
   */
  method BitmapToRoi(bitmap: array2<Raster.Rgba>, name: string) returns (roi: Roi)
    requires bitmap.Length0 < 0x8000_0000 && bitmap.Length1 < 0x8000_0000
    ensures roi.name == name && roi.width as int == bitmap.Length0 && roi.height as int == bitmap.Length1
    ensures forall p :: p in roi.pixels <==> InExtent(p, bitmap.Length0, bitmap.Length1) && bitmap[p.x, p.y].b == 0
    ensures Raster.StrictlyOrdered(roi.pixels)
    ensures forall i :: 0 <= i < |roi.pixels| ==> InExtent(roi.pixels[i], bitmap.Length0, bitmap.Length1)
  {
    roi := Raster.BitmapToRoi(bitmap, name, HasZeroBlue);
    Raster.MaskContents(Raster.Snapshot(bitmap), bitmap.Length1, HasZeroBlue);
  }

  /** `RoiToBitmap`: a W x H bitmap, black exactly at the listed pixels and white elsewhere. */
  method RoiToBitmap(roi: Roi) returns (r: Result<array2<Raster.Rgba>, Raster.ImageError>)
    ensures r.Err? <==> Raster.DrawOutcome(roi).Some?
    ensures r.Err? ==> r.error == Raster.DrawOutcome(roi).value
    ensures r.Ok? ==> fresh(r.value) && r.value.Length0 == roi.width as int && r.value.Length1 == roi.height as int
    ensures r.Ok? ==> forall x, y :: 0 <= x < r.value.Length0 && 0 <= y < r.value.Length1 ==>
                        r.value[x, y] == if RoiPixel(x, y) in roi.pixels then Raster.Black else Raster.White
  {
    r := Raster.RoiToBitmap(roi);
    if r.Ok? {
      assert forall x, y :: 0 <= x < r.value.Length0 && 0 <= y < r.value.Length1 ==>
               r.value[x, y] == Raster.Snapshot(r.value)[x][y];
    }
  }

  /** Drawing a region and reading it back recovers its pixel set: white has blue 255, black blue 0. */
  lemma RoiRoundTrip(roi: Roi)
    requires Raster.DrawOutcome(roi).None?
    ensures var g := Raster.Paint(roi.width as int, roi.height as int, roi.pixels);
            forall p :: p in Raster.Mask(g, roi.height as int, HasZeroBlue) <==> p in roi.pixels
  {
    Raster.DrawOutcomeSucceeds(roi);
    Raster.MaskOfPaint(roi.width as int, roi.height as int, roi.pixels, HasZeroBlue);
  }

  /** Reading a black-and-white bitmap and drawing the region gives the bitmap back. */
  lemma ImageRoundTrip(g: Raster.Grid, height: nat)
    requires Raster.IsGrid(g, |g|, height)
    requires forall x, y :: 0 <= x < |g| && 0 <= y < height ==> g[x][y] == Raster.Black || g[x][y] == Raster.White
    ensures Raster.Paint(|g|, height, Raster.Mask(g, height, HasZeroBlue)) == g
  {
    Raster.PaintOfMask(g, height, HasZeroBlue);
  }

  /** A red pixel is read as part of the region and drawn back black: the bitmap is not recovered. */
  lemma RedPixelDoesNotRoundTrip()
    ensures var g := [[Raster.Rgba(255, 0, 0, 255)]];
            Raster.IsGrid(g, 1, 1) && Raster.Paint(1, 1, Raster.Mask(g, 1, HasZeroBlue)) == [[Raster.Black]] != g
  {
    var g := [[Raster.Rgba(255, 0, 0, 255)]];
    Raster.MaskContents(g, 1, HasZeroBlue);
    assert RoiPixel(0, 0) in Raster.Mask(g, 1, HasZeroBlue);
    assert Raster.Paint(1, 1, Raster.Mask(g, 1, HasZeroBlue))[0] == [Raster.Black];
  }
}
