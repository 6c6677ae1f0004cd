/**
 * The reader and the writer together: reading back the text the writer produces gives
 * the same m/z axis, intensities and coordinates, provided every number the dataset holds
 * survives formatting and parsing, the description is a single line and there is at
 * least one spectrum.
 */
module TextCodec {
  import opened Wrappers
  import opened Text
  import opened Numbers
  import opened BasicTextDataset
  import opened FileSystem
  import opened TextDatasetReader
  import opened TextDatasetWriter

  /** Every value of `values` is written as one token that parses back to it. */
  predicate ValuesRoundTrip(nf: NumberFormat, values: seq<Double>) {
    forall i :: 0 <= i < |values| ==> DoubleRoundTrips(nf, values[i])
  }

  /** Every number in the dataset survives the number format. */
  predicate Representable(nf: NumberFormat, d: Dataset) {
    && ValuesRoundTrip(nf, d.mz)
    && (forall i :: 0 <= i < |d.intensities.cells| ==> ValuesRoundTrip(nf, d.intensities.cells[i]))
    && (forall i, j :: 0 <= i < |d.coordinates.cells| && 0 <= j < |d.coordinates.cells[i]| ==>
          IntRoundTrips(nf, d.coordinates.cells[i][j]))
  }

  /** Parsing a written line of numbers gives the numbers back. */
  lemma ParseFloatsOfValuesLine(nf: NumberFormat, values: seq<Double>)
    requires ValuesRoundTrip(nf, values)
    ensures ParseFloats(nf, ValuesLine(nf, values)) == values
    ensures IsLine(ValuesLine(nf, values))
  {
    ValuesLineShape(nf, values);
    var parsed := ParseFloats(nf, ValuesLine(nf, values));
    assert |parsed| == |values|;
    forall i | 0 <= i < |values|
      ensures parsed[i] == values[i]
    {
      assert DoubleRoundTrips(nf, values[i]);
    }
  }

  /** Parsing a written coordinate line gives the three coordinates back. */
  lemma ParseCoordinatesOfCoordinateLine(nf: NumberFormat, x: Int32, y: Int32, z: Int32)
    requires IntRoundTrips(nf, x) && IntRoundTrips(nf, y) && IntRoundTrips(nf, z)
    ensures ParseCoordinates(nf, CoordinateLine(nf, x, y, z)) == [x, y, z]
    ensures IsLine(CoordinateLine(nf, x, y, z))
  {
    CoordinateLineShape(nf, x, y, z);
  }

  /** Spectrum k's coordinate line and values line are lines that parse back to its rows. */
  lemma SampleReadsBack(nf: NumberFormat, d: Dataset, k: nat)
    requires Valid(d) && Representable(nf, d) && k < SpectrumCount(d)
    ensures var c := d.coordinates.cells[k];
            && IsLine(CoordinateLine(nf, c[0], c[1], c[2]))
            && ParseCoordinates(nf, CoordinateLine(nf, c[0], c[1], c[2])) == c
    ensures IsLine(ValuesLine(nf, d.intensities.cells[k]))
    ensures ParseFloats(nf, ValuesLine(nf, d.intensities.cells[k])) == d.intensities.cells[k]
  {
    var c := d.coordinates.cells[k];
    assert |c| == 3;
    assert IntRoundTrips(nf, c[0]) && IntRoundTrips(nf, c[1]) && IntRoundTrips(nf, c[2]);
    ParseCoordinatesOfCoordinateLine(nf, c[0], c[1], c[2]);
    assert [c[0], c[1], c[2]] == c;
    assert ValuesRoundTrip(nf, d.intensities.cells[k]);
    ParseFloatsOfValuesLine(nf, d.intensities.cells[k]);
  }

  /** No sample line from spectrum i on holds a line break. */
  lemma {:induction false} SampleLinesAreLines(nf: NumberFormat, d: Dataset, i: nat)
    requires Valid(d) && Representable(nf, d) && i <= SpectrumCount(d)
    ensures forall k :: 0 <= k < |SampleLines(nf, d.coordinates, d.intensities, i)| ==>
              IsLine(SampleLines(nf, d.coordinates, d.intensities, i)[k])
    decreases SpectrumCount(d) - i
  {
    if i < SpectrumCount(d) {
      var lines := SampleLines(nf, d.coordinates, d.intensities, i);
      var rest := SampleLines(nf, d.coordinates, d.intensities, i + 1);
      var c := d.coordinates.cells[i];
      assert lines == [CoordinateLine(nf, c[0], c[1], c[2]), ValuesLine(nf, d.intensities.cells[i])] + rest;
      SampleReadsBack(nf, d, i);
      SampleLinesAreLines(nf, d, i + 1);
      forall k | 2 <= k < |lines|
        ensures IsLine(lines[k])
      {
        assert lines[k] == rest[k - 2];
        assert IsLine(rest[k - 2]);
      }
    }
  }

  /** Sample q's two written lines parse back to its coordinate row and its intensity row. */
  lemma SampleLinesParse(nf: NumberFormat, d: Dataset)
    requires Valid(d) && Representable(nf, d)
    ensures var lines := SampleLines(nf, d.coordinates, d.intensities, 0);
            && |lines| == 2 * SpectrumCount(d)
            && forall q :: 0 <= q < SpectrumCount(d) ==>
                 && ParseCoordinates(nf, lines[2 * q]) == d.coordinates.cells[q]
                 && ParseFloats(nf, lines[2 * q + 1]) == d.intensities.cells[q]
  {
    var lines := SampleLines(nf, d.coordinates, d.intensities, 0);
    SampleLinesCount(nf, d.coordinates, d.intensities, 0);
    forall q | 0 <= q < SpectrumCount(d)
      ensures ParseCoordinates(nf, lines[2 * q]) == d.coordinates.cells[q]
      ensures ParseFloats(nf, lines[2 * q + 1]) == d.intensities.cells[q]
    {
      SampleLinesAt(nf, d.coordinates, d.intensities, 0, q);
      SampleReadsBack(nf, d, q);
    }
  }

  /** Reading the sample lines gives the coordinate rows and the intensity rows back, in order. */
  lemma ReadSamplesOfSampleLines(nf: NumberFormat, d: Dataset)
    requires Valid(d) && Representable(nf, d)
    ensures ReadSamples(nf, d.mz, SampleLines(nf, d.coordinates, d.intensities, 0))
            == Ok(Samples(d.coordinates.cells, d.intensities.cells))
  {
    var lines := SampleLines(nf, d.coordinates, d.intensities, 0);
    SampleLinesParse(nf, d);
    forall q | 0 <= q < SpectrumCount(d)
      ensures |Tokens(lines[2 * q + 1])| == |d.mz|
    {
      assert |ParseFloats(nf, lines[2 * q + 1])| == |d.intensities.cells[q]|;
    }
    ReadSamplesPairsLines(nf, d.mz, lines, SpectrumCount(d));
    var samples := ReadSamples(nf, d.mz, lines).value;
    assert samples.locations == d.coordinates.cells;
    assert samples.data == d.intensities.cells;
  }

  /** The lines of the written text are exactly the emitted lines. */
  lemma LinesOfRender(nf: NumberFormat, description: string, d: Dataset)
    requires Valid(d) && Representable(nf, d) && IsLine(description)
    ensures Lines(Render(nf, description, d)) == EmittedLines(nf, description, d)
  {
    var lines := EmittedLines(nf, description, d);
    ParseFloatsOfValuesLine(nf, d.mz);
    SampleLinesAreLines(nf, d, 0);
    var samples := lines[2..];
    assert samples == SampleLines(nf, d.coordinates, d.intensities, 0);
    assert forall k :: 2 <= k < |lines| ==> lines[k] == samples[k - 2];
    LinesOfJoinLines(lines);
  }

  /** Gathering the rows of a non-empty rectangular matrix rebuilds the matrix. */
  lemma GatheredRows<T>(m: Matrix<T>)
    requires m.rows > 0
    ensures Gathered(m.cells) == Ok(m)
  {
  }

  /**
   * Reading back what the writer wrote gives the same dataset: the same m/z axis, the same
   * intensities and the same coordinates, in the same order. Line 1 is the description,
   * which the reader skips.
   */
  lemma RoundTrip(nf: NumberFormat, path: Path, description: string, d: Dataset)
    requires Valid(d) && Representable(nf, d) && IsLine(description)
    requires SpectrumCount(d) >= 1
    ensures ParseText(nf, path, Render(nf, description, d)) == Ok(d)
  {
    var lines := Lines(Render(nf, description, d));
    LinesOfRender(nf, description, d);
    ParseFloatsOfValuesLine(nf, d.mz);
    assert lines[1] == ValuesLine(nf, d.mz);
    assert lines[2..] == SampleLines(nf, d.coordinates, d.intensities, 0);
    ReadSamplesOfSampleLines(nf, d);
    GatheredRows(d.coordinates);
    GatheredRows(d.intensities);
  }

  /**
   * A dataset without spectra does not survive: the text has only two lines, and the
   * reader's `Gather` fails on the empty list, which surfaces as "Streamer failed".
   */
  lemma EmptyDatasetDoesNotRoundTrip(nf: NumberFormat, path: Path, description: string, d: Dataset)
    requires Valid(d) && Representable(nf, d) && IsLine(description)
    requires SpectrumCount(d) == 0
    ensures ParseText(nf, path, Render(nf, description, d)) == Err(StreamerFailed(path, InvalidOperationException))
  {
    LinesOfRender(nf, description, d);
    NoSamples(nf, path, Render(nf, description, d));
  }

  /** `Save` followed by `Load` of the same path gives back the dataset. */
  lemma SaveThenLoad(fs: FileSystem, nf: NumberFormat, d: Dataset, description: string, path: Path)
    requires Valid(d) && Representable(nf, d) && IsLine(description) && SpectrumCount(d) >= 1
    requires CanCreateFile(fs, path)
    ensures SaveSpec(fs, nf, d, Some(description), path).1 == None
    ensures LoadSpec(SaveSpec(fs, nf, d, Some(description), path).0, nf, path) == Ok(d)
  {
    RoundTrip(nf, path, description, d);
  }
}
