/**
 * `TextDatasetWriter`: the text the writer builds for a dataset and the file it writes.
 * The description line comes first, then the m/z line, then one coordinate line and one
 * intensity line per spectrum. Every m/z and intensity value is followed by one space; the
 * coordinate line is `x y z`. The file is created only after the whole text is built.
 */
module TextDatasetWriter {
  import opened Wrappers
  import opened Text
  import opened Numbers
  import opened BasicTextDataset
  import opened FileSystem

  // ---------------------------------------------------------------------------
  // The text, line by line
  // ---------------------------------------------------------------------------

  /** Each value as the current number format writes it. */
  function Formatted(nf: NumberFormat, values: seq<Double>): (ws: seq<string>)
    ensures |ws| == |values|
    ensures forall i :: 0 <= i < |ws| ==> ws[i] == nf.formatDouble(values[i])
  {
    seq(|values|, i requires 0 <= i < |values| => nf.formatDouble(values[i]))
  }

  /** A line of numbers: every value followed by exactly one space. */
  function ValuesLine(nf: NumberFormat, values: seq<Double>): string {
    JoinTrailing(Formatted(nf, values))
  }

  /** The interpolated `$"{x} {y} {z}"` coordinate line. */
  function CoordinateLine(nf: NumberFormat, x: Int32, y: Int32, z: Int32): string {
    nf.formatInt(x) + " " + nf.formatInt(y) + " " + nf.formatInt(z)
  }

  /** The shapes `AppendIntensitiesAndLocalMetadata` indexes without running off an array. */
  predicate Indexable(coordinates: Matrix<Int32>, intensities: Matrix<Double>) {
    intensities.rows <= coordinates.rows && 3 <= coordinates.cols
  }

  /** The two lines written for spectra i, i+1, ...: its coordinate line, then its intensity line. */
  function SampleLines(nf: NumberFormat, coordinates: Matrix<Int32>, intensities: Matrix<Double>, i: nat): seq<string>
    requires Indexable(coordinates, intensities) && i <= intensities.rows
    decreases intensities.rows - i
  {
    if i == intensities.rows then []
    else
      var c := coordinates.cells[i];
      [CoordinateLine(nf, c[0], c[1], c[2]), ValuesLine(nf, intensities.cells[i])]
        + SampleLines(nf, coordinates, intensities, i + 1)
  }

  /** All the lines of the file, in order. */
  function EmittedLines(nf: NumberFormat, description: string, d: Dataset): seq<string>
    requires Valid(d)
  {
    [description, ValuesLine(nf, GetRawMzArray(d))]
      + SampleLines(nf, GetRawSpacialCoordinates(d), GetRawIntensities(d), 0)
  }

  /** The text of the file. */
  function Render(nf: NumberFormat, description: string, d: Dataset): string
    requires Valid(d)
  {
    JoinLines(EmittedLines(nf, description, d))
  }

  /** What `Save` can throw. */
  datatype WriteError =
    | MetadataNotImplemented   // the dataset's `Metadata` getter throws
    | Io(cause: IoError)     // `CreateText` fails

  /**
   * `Save(dataset, path)`: the file system afterwards, and the exception if one was thrown.
   * `metadata` is `None` when reading the dataset's `Metadata` throws.
   */
  function SaveSpec(fs: FileSystem, nf: NumberFormat, d: Dataset, metadata: Option<string>, path: Path): (FileSystem, Option<WriteError>)
    requires Valid(d)
  {
    if metadata.None? then (fs, Some(MetadataNotImplemented))
    else
      match WriteAllText(fs, path, Render(nf, metadata.value, d))
      case Err(e) => (fs, Some(Io(e)))
      case Ok(after) => (after, None)
  }

  // ---------------------------------------------------------------------------
  // Properties of the text
  // ---------------------------------------------------------------------------

  lemma {:induction false} SampleLinesCount(nf: NumberFormat, coordinates: Matrix<Int32>, intensities: Matrix<Double>, i: nat)
    requires Indexable(coordinates, intensities) && i <= intensities.rows
    ensures |SampleLines(nf, coordinates, intensities, i)| == 2 * (intensities.rows - i)
    decreases intensities.rows - i
  {
    if i < intensities.rows {
      SampleLinesCount(nf, coordinates, intensities, i + 1);
    }
  }

  /**
   * Spectrum k's lines sit at positions 2k and 2k+1 after the first two lines: the
   * coordinate line and then that spectrum's own values, nothing from other rows.
   */
  lemma {:induction false} SampleLinesAt(nf: NumberFormat, coordinates: Matrix<Int32>, intensities: Matrix<Double>, i: nat, k: nat)
    requires Indexable(coordinates, intensities) && i <= k < intensities.rows
    ensures |SampleLines(nf, coordinates, intensities, i)| == 2 * (intensities.rows - i)
    ensures var lines, c := SampleLines(nf, coordinates, intensities, i), coordinates.cells[k];
            && lines[2 * (k - i)] == CoordinateLine(nf, c[0], c[1], c[2])
            && lines[2 * (k - i) + 1] == ValuesLine(nf, intensities.cells[k])
    decreases k - i
  {
    SampleLinesCount(nf, coordinates, intensities, i);
    if i < k {
      SampleLinesAt(nf, coordinates, intensities, i + 1, k);
    }
  }

  /** The file has 2 + 2S lines: the description, the m/z line and one pair per spectrum. */
  lemma EmittedLineLayout(nf: NumberFormat, description: string, d: Dataset)
    requires Valid(d)
    ensures var lines := EmittedLines(nf, description, d);
            && |lines| == 2 + 2 * SpectrumCount(d)
            && lines[0] == description
            && lines[1] == ValuesLine(nf, GetRawMzArray(d))
            && (forall k :: 0 <= k < SpectrumCount(d) ==>
                  lines[2 + 2 * k] == CoordinateLine(nf, d.coordinates.cells[k][0], d.coordinates.cells[k][1], d.coordinates.cells[k][2])
                  && lines[3 + 2 * k] == ValuesLine(nf, d.intensities.cells[k]))
  {
    var lines := EmittedLines(nf, description, d);
    SampleLinesCount(nf, d.coordinates, d.intensities, 0);
    forall k | 0 <= k < SpectrumCount(d)
      ensures lines[2 + 2 * k] == CoordinateLine(nf, d.coordinates.cells[k][0], d.coordinates.cells[k][1], d.coordinates.cells[k][2])
      ensures lines[3 + 2 * k] == ValuesLine(nf, d.intensities.cells[k])
    {
      SampleLinesAt(nf, d.coordinates, d.intensities, 0, k);
    }
  }

  /** A line holding at least one value ends in a space, and it is made of exactly those values. */
  lemma ValuesLineShape(nf: NumberFormat, values: seq<Double>)
    requires forall i :: 0 <= i < |values| ==> IsWord(nf.formatDouble(values[i]))
    ensures ValuesLine(nf, values) == "" <==> values == []
    ensures values != [] ==> ValuesLine(nf, values)[|ValuesLine(nf, values)| - 1] == ' '
    ensures Tokens(ValuesLine(nf, values)) == Formatted(nf, values)
    ensures IsLine(ValuesLine(nf, values))
  {
    TokensOfJoinTrailing(Formatted(nf, values));
    JoinTrailingIsLine(Formatted(nf, values));
  }

  /** The coordinate line tokenises to exactly the three formatted coordinates. */
  lemma CoordinateLineShape(nf: NumberFormat, x: Int32, y: Int32, z: Int32)
    requires IsWord(nf.formatInt(x)) && IsWord(nf.formatInt(y)) && IsWord(nf.formatInt(z))
    ensures Tokens(CoordinateLine(nf, x, y, z)) == [nf.formatInt(x), nf.formatInt(y), nf.formatInt(z)]
    ensures IsLine(CoordinateLine(nf, x, y, z))
    ensures CoordinateLine(nf, x, y, z)[|CoordinateLine(nf, x, y, z)| - 1] != ' '
  {
    var fx, fy, fz := nf.formatInt(x), nf.formatInt(y), nf.formatInt(z);
    assert CoordinateLine(nf, x, y, z) == (fx + " ") + ((fy + " ") + fz);
    TokensAppend(fx + " ", (fy + " ") + fz);
    TokensAppend(fy + " ", fz);
    TokensOfWordAndSpace(fx);
    TokensOfWordAndSpace(fy);
    TokensOfWord(fz);
  }

  /** Appending one value to a line of numbers appends its text and one space. */
  lemma ValuesLineSnoc(nf: NumberFormat, values: seq<Double>, v: Double)
    ensures ValuesLine(nf, values + [v]) == ValuesLine(nf, values) + nf.formatDouble(v) + " "
  {
    var ws := Formatted(nf, values + [v]);
    assert ws[..|ws| - 1] == Formatted(nf, values);
  }

  /** A failed save leaves the file system as it was. */
  lemma SaveFailureWritesNothing(fs: FileSystem, nf: NumberFormat, d: Dataset, metadata: Option<string>, path: Path)
    requires Valid(d)
    ensures SaveSpec(fs, nf, d, metadata, path).1.Some? ==> SaveSpec(fs, nf, d, metadata, path).0 == fs
    ensures metadata.None? ==> SaveSpec(fs, nf, d, metadata, path) == (fs, Some(MetadataNotImplemented))
  {
  }

  /**
   * A successful save writes the rendered text to `path`, and nothing else changes; it
   * succeeds exactly when the metadata is readable and the containing directory exists.
   */
  lemma SaveWritesOnlyPath(fs: FileSystem, nf: NumberFormat, d: Dataset, metadata: Option<string>, path: Path)
    requires Valid(d)
    ensures SaveSpec(fs, nf, d, metadata, path).1.None? <==> metadata.Some? && CanCreateFile(fs, path)
    ensures SaveSpec(fs, nf, d, metadata, path).1.None? ==>
              SaveSpec(fs, nf, d, metadata, path).0
                == fs.(files := fs.files[path := Render(nf, metadata.value, d)])
  {
  }

  /** Regrouping the text around two appended lines. */
  lemma AppendTwoLines(p: string, a: string, b: string, rest: string)
    ensures p + (a + NewLine + (b + NewLine + rest)) == (p + a + NewLine + b + NewLine) + rest
  {
  }

  // ---------------------------------------------------------------------------
  // The imperative writer
  // ---------------------------------------------------------------------------

  /** The part of `System.Text.StringBuilder` the writer uses. */
  class StringBuilder {
    var contents: string

    constructor ()
      ensures contents == ""
    {
      contents := "";
    }

    method Append(s: string)
      modifies this
      ensures contents == old(contents) + s
    {
      contents := contents + s;
    }

    method AppendLine(s: string)
      modifies this
      ensures contents == old(contents) + s + NewLine
    {
      contents := contents + s + NewLine;
    }

    method Clear()
      modifies this
      ensures contents == ""
    {
      contents := "";
    }
  }

  method AppendMetadata(fileBuilder: StringBuilder, description: string)
    modifies fileBuilder
    ensures fileBuilder.contents == old(fileBuilder.contents) + description + NewLine
  {
    fileBuilder.AppendLine(description);
  }

  method AppendMzValues(nf: NumberFormat, fileBuilder: StringBuilder, mzs: seq<Double>)
    modifies fileBuilder
    ensures fileBuilder.contents == old(fileBuilder.contents) + ValuesLine(nf, mzs) + NewLine
  {
    var mzValuesString := new StringBuilder();
    for k := 0 to |mzs|
      invariant mzValuesString.contents == ValuesLine(nf, mzs[..k])
      invariant fileBuilder.contents == old(fileBuilder.contents)
    {
      ValuesLineSnoc(nf, mzs[..k], mzs[k]);
      assert mzs[..k + 1] == mzs[..k] + [mzs[k]];
      mzValuesString.Append(nf.formatDouble(mzs[k]));
      mzValuesString.Append(" ");
    }
    assert mzs[..|mzs|] == mzs;
    fileBuilder.AppendLine(mzValuesString.contents);
  }

  /** The values of one intensity row, written into an emptied `spectrumBuilder`. */
  method AppendRow(nf: NumberFormat, spectrumBuilder: StringBuilder, row: seq<Double>)
    requires spectrumBuilder.contents == ""
    modifies spectrumBuilder
    ensures spectrumBuilder.contents == ValuesLine(nf, row)
  {
    for j := 0 to |row|
      invariant spectrumBuilder.contents == ValuesLine(nf, row[..j])
    {
      ValuesLineSnoc(nf, row[..j], row[j]);
      assert row[..j + 1] == row[..j] + [row[j]];
      spectrumBuilder.Append(nf.formatDouble(row[j]));
      spectrumBuilder.Append(" ");
    }
    assert row[..|row|] == row;
  }

  method AppendIntensitiesAndLocalMetadata(nf: NumberFormat, fileBuilder: StringBuilder, coordinates: Matrix<Int32>, intensities: Matrix<Double>)
    requires Indexable(coordinates, intensities)
    modifies fileBuilder
    ensures fileBuilder.contents == old(fileBuilder.contents) + JoinLines(SampleLines(nf, coordinates, intensities, 0))
  {
    var spectrumBuilder := new StringBuilder();
    for i := 0 to intensities.rows
      invariant spectrumBuilder.contents == ""
      invariant old(fileBuilder.contents) + JoinLines(SampleLines(nf, coordinates, intensities, 0))
                == fileBuilder.contents + JoinLines(SampleLines(nf, coordinates, intensities, i))
    {
      var c := coordinates.cells[i];
      ghost var before := fileBuilder.contents;
      ghost var coordinateLine, valuesLine := CoordinateLine(nf, c[0], c[1], c[2]), ValuesLine(nf, intensities.cells[i]);
      ghost var rest := JoinLines(SampleLines(nf, coordinates, intensities, i + 1));
      assert JoinLines(SampleLines(nf, coordinates, intensities, i)) == coordinateLine + NewLine + (valuesLine + NewLine + rest);
      fileBuilder.AppendLine(nf.formatInt(c[0]) + " " + nf.formatInt(c[1]) + " " + nf.formatInt(c[2]));
      AppendRow(nf, spectrumBuilder, intensities.cells[i]);
      fileBuilder.AppendLine(spectrumBuilder.contents);
      spectrumBuilder.Clear();
      assert fileBuilder.contents == before + coordinateLine + NewLine + valuesLine + NewLine;
      AppendTwoLines(before, coordinateLine, valuesLine, rest);
    }
    assert SampleLines(nf, coordinates, intensities, intensities.rows) == [];
    assert fileBuilder.contents + "" == fileBuilder.contents;
  }

  method SaveDataToFile(fs: FileSystem, path: Path, fileBuilder: StringBuilder) returns (after: FileSystem, error: Option<WriteError>)
    ensures WriteAllText(fs, path, fileBuilder.contents).Ok? ==> after == WriteAllText(fs, path, fileBuilder.contents).value && error == None
    ensures WriteAllText(fs, path, fileBuilder.contents).Err? ==> after == fs && error == Some(Io(WriteAllText(fs, path, fileBuilder.contents).error))
  {
    var written := WriteAllText(fs, path, fileBuilder.contents);
    if written.Err? {
      return fs, Some(Io(written.error));
    }
    return written.value, None;
  }

  /**
   * `Save`: builds the whole text, then writes it. `metadata` is `None` when the dataset's
   * `Metadata` getter throws, which happens before anything is built or written.
   */
  method Save(fs: FileSystem, nf: NumberFormat, d: Dataset, metadata: Option<string>, path: Path) returns (after: FileSystem, error: Option<WriteError>)
    requires Valid(d)
    ensures (after, error) == SaveSpec(fs, nf, d, metadata, path)
  {
    var fileBuilder := new StringBuilder();
    if metadata.None? {
      return fs, Some(MetadataNotImplemented);
    }
    AppendMetadata(fileBuilder, metadata.value);
    AppendMzValues(nf, fileBuilder, GetRawMzArray(d));
    AppendIntensitiesAndLocalMetadata(nf, fileBuilder, GetRawSpacialCoordinates(d), GetRawIntensities(d));
    ghost var description, mzLine := metadata.value, ValuesLine(nf, GetRawMzArray(d));
    ghost var samples := SampleLines(nf, GetRawSpacialCoordinates(d), GetRawIntensities(d), 0);
    assert ([description, mzLine] + samples)[1..] == [mzLine] + samples;
    assert ([mzLine] + samples)[1..] == samples;
    assert JoinLines([mzLine] + samples) == mzLine + NewLine + JoinLines(samples);
    assert Render(nf, description, d) == description + NewLine + JoinLines([mzLine] + samples);
    AppendTwoLines("", description, mzLine, JoinLines(samples));
    assert "" + description == description;
    assert fileBuilder.contents == Render(nf, metadata.value, d);
    after, error := SaveDataToFile(fs, path, fileBuilder);
  }
}
