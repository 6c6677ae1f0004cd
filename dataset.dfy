/**
 * `BasicTextDataset`: an m/z axis, an S x L intensity matrix and an S x 3 matrix of
 * spatial coordinates, checked against each other once, at construction.
 */
module BasicTextDataset {
  import opened Wrappers
  import opened Numbers

  /** A C# `T[,]` as a value: its two lengths and its cells, row by row. */
  datatype RawMatrix<T> = RawMatrix(rows: nat, cols: nat, cells: seq<seq<T>>)

  predicate IsRectangular<T>(m: RawMatrix<T>) {
    |m.cells| == m.rows && forall i :: 0 <= i < |m.cells| ==> |m.cells[i]| == m.cols
  }

  /** C# multi-dimensional arrays are rectangular by construction. */
  type Matrix<T> = m: RawMatrix<T> | IsRectangular(m) witness RawMatrix(0, 0, [])

  /** The messages of the `InvalidDataException`s the dataset code throws. */
  datatype InvalidData =
    | InputNull              // "The input data is null."
    | SampleCountMismatch    // "Amount of input spectra does not match the amount of spatial coordinates."
    | NotThreeDimensional    // "Coordinates must be 3D."
    | SpectrumLengthMismatch // "Length of the data must be equal to length of m/z values."
    | RaggedRows             // "Lengths mismatch in parsed data." (thrown by the reader's Gather)

  datatype Dataset = Dataset(mz: seq<Double>, intensities: Matrix<Double>, coordinates: Matrix<Int32>)

  /** The shape invariant every constructed dataset satisfies. */
  predicate Valid(d: Dataset) {
    && d.coordinates.rows == d.intensities.rows
    && d.coordinates.cols == 3
    && |d.mz| == d.intensities.cols
  }

  /**
   * The constructor, with the coordinate check as intended: it throws when the coordinates
   * are null or their row count differs from the intensity row count (`None` is null).
   */
  function Create(mz: Option<seq<Double>>, data: Option<Matrix<Double>>, coordinates: Option<Matrix<Int32>>)
    : (r: Result<Dataset, InvalidData>)
    ensures r.Ok? <==> mz.Some? && data.Some? && coordinates.Some?
                       && Valid(Dataset(mz.value, data.value, coordinates.value))
    ensures r.Ok? ==> r.value == Dataset(mz.value, data.value, coordinates.value)
    ensures mz.None? || data.None? ==> r == Err(InputNull)
  {
    if mz.None? || data.None? then Err(InputNull)
    else if coordinates.None? || coordinates.value.rows != data.value.rows then Err(SampleCountMismatch)
    else if coordinates.value.cols != 3 then Err(NotThreeDimensional)
    else if |mz.value| != data.value.cols then Err(SpectrumLengthMismatch)
    else Ok(Dataset(mz.value, data.value, coordinates.value))
  }

  /** Each shape violation is reported by its own exception, checked in source order. */
  lemma CreateReportsEachViolation(mz: seq<Double>, data: Matrix<Double>, coordinates: Option<Matrix<Int32>>)
    ensures coordinates.None? ==> Create(Some(mz), Some(data), coordinates) == Err(SampleCountMismatch)
    ensures coordinates.Some? && coordinates.value.rows != data.rows
            ==> Create(Some(mz), Some(data), coordinates) == Err(SampleCountMismatch)
    ensures coordinates.Some? && coordinates.value.rows == data.rows && coordinates.value.cols != 3
            ==> Create(Some(mz), Some(data), coordinates) == Err(NotThreeDimensional)
    ensures coordinates.Some? && coordinates.value.rows == data.rows && coordinates.value.cols == 3
            && |mz| != data.cols
            ==> Create(Some(mz), Some(data), coordinates) == Err(SpectrumLengthMismatch)
  {
  }

  /** The exceptions the constructor as written can end in. */
  datatype Fault = Invalid(reason: InvalidData) | NullReference

  /**
   * The constructor as written: `(coordinates != null) || (coordinates.GetLength(0) != ...)`
   * is true for every non-null `coordinates`, and dereferences a null one.
   */
  function CreateAsWritten(mz: Option<seq<Double>>, data: Option<Matrix<Double>>, coordinates: Option<Matrix<Int32>>)
    : (r: Result<Dataset, Fault>)
    ensures r.Err?
    ensures r == Err(NullReference) <==> mz.Some? && data.Some? && coordinates.None?
  {
    if mz.None? || data.None? then Err(Invalid(InputNull))
    else if coordinates.Some? then Err(Invalid(SampleCountMismatch))
    else Err(NullReference)
  }

  /** The constructor as written accepts nothing: no dataset can be built or loaded. */
  lemma CreateAsWrittenNeverSucceeds(mz: Option<seq<Double>>, data: Option<Matrix<Double>>, coordinates: Option<Matrix<Int32>>)
    ensures CreateAsWritten(mz, data, coordinates).Err?
    ensures mz.Some? && data.Some? && coordinates.Some?
            ==> CreateAsWritten(mz, data, coordinates) == Err(Invalid(SampleCountMismatch))
    ensures mz.Some? && data.Some? && coordinates.None?
            ==> CreateAsWritten(mz, data, coordinates) == Err(NullReference)
  {
  }

  /** One channel, one sample at the origin: accepted by the intended check, refused as written. */
  lemma AsWrittenRejectsSingleSample()
    ensures var mz := [Finite(100.0)];
            var data: Matrix<Double> := RawMatrix(1, 1, [[Finite(1.5)]]);
            var coordinates: Matrix<Int32> := RawMatrix(1, 3, [[0, 0, 0]]);
            && Create(Some(mz), Some(data), Some(coordinates)).Ok?
            && CreateAsWritten(Some(mz), Some(data), Some(coordinates)) == Err(Invalid(SampleCountMismatch))
  {
    var data: Matrix<Double> := RawMatrix(1, 1, [[Finite(1.5)]]);
    var coordinates: Matrix<Int32> := RawMatrix(1, 3, [[0, 0, 0]]);
    assert Valid(Dataset([Finite(100.0)], data, coordinates));
  }

  // ---------------------------------------------------------------------------
  // Properties and accessors
  // ---------------------------------------------------------------------------

  /** `SpectrumLength`: the number of channels. */
  function SpectrumLength(d: Dataset): (n: nat)
    ensures Valid(d) ==> n == d.intensities.cols
    ensures Valid(d) ==> forall i :: 0 <= i < |d.intensities.cells| ==> |d.intensities.cells[i]| == n
  {
    |d.mz|
  }

  /** `SpectrumCount`: the number of spectra. */
  function SpectrumCount(d: Dataset): (n: nat)
    ensures n == |d.intensities.cells|
    ensures Valid(d) ==> n == d.coordinates.rows == |d.coordinates.cells|
  {
    d.intensities.rows
  }

  /** `GetRawMzArray`, `GetRawIntensities`, `GetRawSpacialCoordinates`: the stored arrays. */
  function GetRawMzArray(d: Dataset): (m: seq<Double>)
    ensures |m| == SpectrumLength(d)
  {
    d.mz
  }

  function GetRawIntensities(d: Dataset): (m: Matrix<Double>)
    ensures m.rows == SpectrumCount(d)
    ensures Valid(d) ==> m.cols == SpectrumLength(d)
  {
    d.intensities
  }

  function GetRawSpacialCoordinates(d: Dataset): (m: Matrix<Int32>)
    ensures Valid(d) ==> m.rows == SpectrumCount(d) && m.cols == 3
  {
    d.coordinates
  }

  /** A built dataset reports the shapes it was given and hands the arrays back unchanged. */
  lemma CreateKeepsInputs(mz: seq<Double>, data: Matrix<Double>, coordinates: Matrix<Int32>, d: Dataset)
    requires Create(Some(mz), Some(data), Some(coordinates)) == Ok(d)
    ensures SpectrumLength(d) == |mz| == data.cols
    ensures SpectrumCount(d) == data.rows == coordinates.rows
    ensures GetRawMzArray(d) == mz && GetRawIntensities(d) == data && GetRawSpacialCoordinates(d) == coordinates
  {
  }

  /** `SpatialCoordinates` struct: one sample's (x, y, z). */
  datatype SpatialCoordinates = SpatialCoordinates(x: Int32, y: Int32, z: Int32)

  /** `GetSpatialCoordinates(i)`: row i of the coordinate matrix. */
  function GetSpatialCoordinates(d: Dataset, spectrumIdx: int): (c: SpatialCoordinates)
    requires Valid(d) && 0 <= spectrumIdx < SpectrumCount(d)
    ensures [c.x, c.y, c.z] == d.coordinates.cells[spectrumIdx]
  {
    var row := d.coordinates.cells[spectrumIdx];
    SpatialCoordinates(row[0], row[1], row[2])
  }

  /** The `SpatialCoordinates` property: every sample's coordinates, in sample order. */
  function SpatialCoordinateList(d: Dataset): (cs: seq<SpatialCoordinates>)
    requires Valid(d)
    ensures |cs| == SpectrumCount(d)
    ensures forall i :: 0 <= i < |cs| ==> cs[i] == GetSpatialCoordinates(d, i)
    ensures forall i :: 0 <= i < |cs| ==>
              [cs[i].x, cs[i].y, cs[i].z] == d.coordinates.cells[i]
  {
    seq(d.coordinates.rows, i requires 0 <= i < d.coordinates.rows => GetSpatialCoordinates(d, i))
  }

  /**
   * `GetRawIntensityArray(i)`: the spectrum of sample i. The projection never touches
   * the array when there are no channels, so any index is accepted then.
   */
  function GetRawIntensityArray(d: Dataset, spectrumIdx: int): (spectrum: seq<Double>)
    requires Valid(d)
    requires d.intensities.cols == 0 || 0 <= spectrumIdx < SpectrumCount(d)
    ensures |spectrum| == SpectrumLength(d)
    ensures forall j :: 0 <= j < |spectrum| ==> spectrum[j] == d.intensities.cells[spectrumIdx][j]
  {
    seq(d.intensities.cols, j requires 0 <= j < d.intensities.cols => d.intensities.cells[spectrumIdx][j])
  }

  /**
   * `GetRawIntensityRow(v)`: channel v across all samples (a heat-map). With no samples
   * the array is never touched, so any index is accepted then.
   */
  function GetRawIntensityRow(d: Dataset, valueIdx: int): (channel: seq<Double>)
    requires Valid(d)
    requires d.intensities.rows == 0 || 0 <= valueIdx < SpectrumLength(d)
    ensures |channel| == SpectrumCount(d)
    ensures forall i :: 0 <= i < |channel| ==> channel[i] == d.intensities.cells[i][valueIdx]
  {
    seq(d.intensities.rows, i requires 0 <= i < d.intensities.rows => d.intensities.cells[i][valueIdx])
  }

  /** The spectrum and channel views read the same cells. */
  lemma IntensityViewsAgree(d: Dataset, i: int, j: int)
    requires Valid(d) && 0 <= i < SpectrumCount(d) && 0 <= j < SpectrumLength(d)
    ensures GetRawIntensityArray(d, i)[j] == GetRawIntensityRow(d, j)[i]
  {
  }
}
