/**
 * `TextDatasetReader`: parses the text format into a dataset. Line 1 (global metadata)
 * is skipped, line 2 holds the m/z values, and after that a coordinate line and an
 * intensity line alternate, one pair per sample. Tokens that do not parse become NaN
 * (floats) or -1 (coordinates); every exception is rethrown as an `IOException`.
 */
module TextDatasetReader {
  import opened Wrappers
  import opened Text
  import opened Numbers
  import opened BasicTextDataset
  import opened FileSystem
  import opened LineReader

  /** The exceptions the body of `Load` can raise, before its catch clauses wrap them. */
  datatype Cause =
    | NullReferenceException                          // a missing line handed to Split
    | InvalidDataException(reason: InvalidData)
    | InvalidOperationException                       // `First()` on an empty list of samples
    | FileNotFoundException(path: Path)              // `OpenText` on a missing file

  /** The `IOException` `Load` throws, with the exception it wraps as its inner cause. */
  datatype LoadError =
    | MzNotParsed(path: Path, inner: Cause)     // "M/z data could not be parsed from file <path>."
    | LengthMismatch(inner: Cause)              // "Length mismatch in parsed data."
    | StreamerFailed(path: Path, inner: Cause)  // "Streamer failed to read <path> file."

  /** The three catch clauses of `Load`, tried in order. */
  function Wrap(path: Path, cause: Cause): (e: LoadError)
    ensures e.MzNotParsed? <==> cause.NullReferenceException?
    ensures e.LengthMismatch? <==> cause.InvalidDataException?
    ensures e == MzNotParsed(path, cause) || e == LengthMismatch(cause) || e == StreamerFailed(path, cause)
  {
    match cause
    case NullReferenceException => MzNotParsed(path, cause)
    case InvalidDataException(_) => LengthMismatch(cause)
    case _ => StreamerFailed(path, cause)
  }

  /** `ParseFloats`: every token of the line, in order, as a double or NaN. */
  function ParseFloats(nf: NumberFormat, line: string): (values: seq<Double>)
    ensures |values| == |Tokens(line)|
    ensures forall i :: 0 <= i < |values| ==>
              values[i] == (if nf.parseDouble(Tokens(line)[i]).Some? then nf.parseDouble(Tokens(line)[i]).value else NaN)
  {
    var ts := Tokens(line);
    seq(|ts|, i requires 0 <= i < |ts| => ParseDoubleOrNaN(nf, ts[i]))
  }

  /** `ParseCoordinates`: the first three tokens of the line, in order, as ints or -1. */
  function ParseCoordinates(nf: NumberFormat, line: string): (c: seq<Int32>)
    ensures |c| == if |Tokens(line)| < 3 then |Tokens(line)| else 3
    ensures forall i :: 0 <= i < |c| ==>
              c[i] == (if nf.parseInt(Tokens(line)[i]).Some? then nf.parseInt(Tokens(line)[i]).value else -1)
  {
    var ts := Tokens(line);
    var kept := if |ts| < 3 then ts else ts[..3];
    seq(|kept|, i requires 0 <= i < |kept| => ParseIntOrMinusOne(nf, kept[i]))
  }

  /** One sample: its parsed intensity line and coordinate line. */
  datatype Sample = Sample(intensities: seq<Double>, coordinates: seq<Int32>)

  /**
   * `ReadSpectrum` on the lines still to be read: the first is the coordinate line, the
   * second the intensity line, which must hold one value per channel.
   */
  function ParseSpectrum(nf: NumberFormat, mz: seq<Double>, lines: seq<string>): (r: Result<Sample, Cause>)
    requires lines != []
    ensures r.Ok? ==> |lines| >= 2
  {
    var coordinates := ParseCoordinates(nf, lines[0]);
    if |lines| == 1 then Err(NullReferenceException)
    else
      var intensities := ParseFloats(nf, lines[1]);
      if |intensities| != |mz| then Err(InvalidDataException(SpectrumLengthMismatch))
      else Ok(Sample(intensities, coordinates))
  }

  /** The coordinate rows and intensity rows collected from all samples, in file order. */
  datatype Samples = Samples(locations: seq<seq<Int32>>, data: seq<seq<Double>>)

  /** The `while (sr.Peek() > -1)` loop of `Load` over the lines after the m/z line. */
  function ReadSamples(nf: NumberFormat, mz: seq<Double>, lines: seq<string>): Result<Samples, Cause>
    decreases |lines|
  {
    if lines == [] then Ok(Samples([], []))
    else
      match ParseSpectrum(nf, mz, lines)
      case Err(e) => Err(e)
      case Ok(s) =>
        match ReadSamples(nf, mz, lines[2..])
        case Err(e) => Err(e)
        case Ok(rest) => Ok(Samples([s.coordinates] + rest.locations, [s.intensities] + rest.data))
  }

  /** Samples already collected, put in front of what the rest of the lines give. */
  function Prepend(locations: seq<seq<Int32>>, data: seq<seq<Double>>, r: Result<Samples, Cause>): Result<Samples, Cause> {
    match r
    case Err(e) => Err(e)
    case Ok(s) => Ok(Samples(locations + s.locations, data + s.data))
  }

  /** Putting two batches of samples in front, one after the other. */
  lemma PrependTwice(l1: seq<seq<Int32>>, d1: seq<seq<Double>>, l2: seq<seq<Int32>>, d2: seq<seq<Double>>, r: Result<Samples, Cause>)
    ensures Prepend(l1, d1, Prepend(l2, d2, r)) == Prepend(l1 + l2, d1 + d2, r)
  {
    if r.Ok? {
      assert l1 + (l2 + r.value.locations) == (l1 + l2) + r.value.locations;
      assert d1 + (d2 + r.value.data) == (d1 + d2) + r.value.data;
    }
  }

  /** Putting no samples in front changes nothing. */
  lemma PrependNothing(r: Result<Samples, Cause>)
    ensures Prepend([], [], r) == r
  {
    if r.Ok? {
      assert [] + r.value.locations == r.value.locations && [] + r.value.data == r.value.data;
    }
  }

  /** A sample read off the front of the lines goes before the samples of the lines after it. */
  lemma ReadSamplesCons(nf: NumberFormat, mz: seq<Double>, lines: seq<string>, first: Sample,
                         locations: seq<seq<Int32>>, data: seq<seq<Double>>)
    requires lines != [] && ParseSpectrum(nf, mz, lines) == Ok(first)
    requires ReadSamples(nf, mz, lines[2..]) == Ok(Samples(locations, data))
    ensures ReadSamples(nf, mz, lines) == Ok(Samples([first.coordinates] + locations, [first.intensities] + data))
  {
  }

  /** One well-formed sample read off the front of the lines. */
  lemma ReadSamplesStep(nf: NumberFormat, mz: seq<Double>, lines: seq<string>)
    requires lines != [] && ParseSpectrum(nf, mz, lines).Ok?
    ensures var s := ParseSpectrum(nf, mz, lines).value;
            ReadSamples(nf, mz, lines) == Prepend([s.coordinates], [s.intensities], ReadSamples(nf, mz, lines[2..]))
  {
  }

  /** The first `k` samples have intensity lines of the right length. */
  predicate WellFormedSamples(mz: seq<Double>, lines: seq<string>, k: nat)
    requires 2 * k <= |lines|
  {
    forall q :: 0 <= q < k ==> |Tokens(lines[2 * q + 1])| == |mz|
  }

  /** The first sample of well-formed samples is well formed, and so are the ones after it. */
  lemma TailWellFormed(mz: seq<Double>, lines: seq<string>, k: nat)
    requires 2 * (k + 1) <= |lines| && WellFormedSamples(mz, lines, k + 1)
    ensures |Tokens(lines[1])| == |mz|
    ensures WellFormedSamples(mz, lines[2..], k)
  {
    var first := 0;
    assert |Tokens(lines[2 * first + 1])| == |mz|;
    forall q | 0 <= q < k
      ensures |Tokens(lines[2..][2 * q + 1])| == |mz|
    {
      var p := q + 1;
      assert lines[2..][2 * q + 1] == lines[2 * p + 1];
    }
  }

  /** A well-formed first sample in front of well-formed samples. */
  lemma ConsWellFormed(mz: seq<Double>, lines: seq<string>, k: nat)
    requires 2 * (k + 1) <= |lines| && |Tokens(lines[1])| == |mz| && WellFormedSamples(mz, lines[2..], k)
    ensures WellFormedSamples(mz, lines, k + 1)
  {
    forall q | 0 <= q < k + 1
      ensures |Tokens(lines[2 * q + 1])| == |mz|
    {
      if q > 0 {
        var p := q - 1;
        var i := 2 * p + 1;
        assert 2 * q + 1 == i + 2;
        assert |Tokens(lines[2..][i])| == |mz|;
        assert lines[2..][i] == lines[i + 2];
      }
    }
  }

  /**
   * The sample loop only succeeds on pairs of lines whose intensity lines hold one value
   * per channel, and then gives one coordinate row and one intensity row per pair.
   */
  lemma {:induction false} ReadSamplesSucceedsOnPairs(nf: NumberFormat, mz: seq<Double>, lines: seq<string>)
    ensures var r := ReadSamples(nf, mz, lines);
            r.Ok? ==>
              && |lines| % 2 == 0 && WellFormedSamples(mz, lines, |lines| / 2)
              && |r.value.locations| == |r.value.data| == |lines| / 2
              && forall q :: 0 <= q < |r.value.data| ==> |r.value.data[q]| == |mz|
    decreases |lines|
  {
    var r := ReadSamples(nf, mz, lines);
    if lines != [] && r.Ok? {
      var head := ParseSpectrum(nf, mz, lines);
      var tail := lines[2..];
      ReadSamplesSucceedsOnPairs(nf, mz, tail);
      var rest := ReadSamples(nf, mz, tail).value;
      assert r.value == Samples([head.value.coordinates] + rest.locations, [head.value.intensities] + rest.data);
      ConsWellFormed(mz, lines, |tail| / 2);
      forall q | 0 <= q < |r.value.data|
        ensures |r.value.data[q]| == |mz|
      {
        if q > 0 {
          assert r.value.data[q] == rest.data[q - 1];
        }
      }
    }
  }

  /** The coordinate lines 0, 2, 4, ... of `lines`, parsed, for the first `n` pairs. */
  function CoordinateRows(nf: NumberFormat, lines: seq<string>, n: nat): seq<seq<Int32>>
    requires 2 * n <= |lines|
    decreases n
  {
    if n == 0 then [] else [ParseCoordinates(nf, lines[0])] + CoordinateRows(nf, lines[2..], n - 1)
  }

  /** The intensity lines 1, 3, 5, ... of `lines`, parsed, for the first `n` pairs. */
  function IntensityRows(nf: NumberFormat, lines: seq<string>, n: nat): seq<seq<Double>>
    requires 2 * n <= |lines|
    decreases n
  {
    if n == 0 then [] else [ParseFloats(nf, lines[1])] + IntensityRows(nf, lines[2..], n - 1)
  }

  /** Coordinate row q is parsed from line 2q. */
  lemma {:induction false} CoordinateRowsAt(nf: NumberFormat, lines: seq<string>, n: nat)
    requires 2 * n <= |lines|
    ensures |CoordinateRows(nf, lines, n)| == n
    ensures forall q :: 0 <= q < n ==> CoordinateRows(nf, lines, n)[q] == ParseCoordinates(nf, lines[2 * q])
    decreases n
  {
    if n > 0 {
      var tail := lines[2..];
      CoordinateRowsAt(nf, tail, n - 1);
      forall q | 0 < q < n
        ensures CoordinateRows(nf, lines, n)[q] == ParseCoordinates(nf, lines[2 * q])
      {
        var i := 2 * (q - 1);
        assert CoordinateRows(nf, lines, n)[q] == CoordinateRows(nf, tail, n - 1)[q - 1];
        assert tail[i] == lines[2 * q];
      }
    }
  }

  /** Intensity row q is parsed from line 2q+1. */
  lemma {:induction false} IntensityRowsAt(nf: NumberFormat, lines: seq<string>, n: nat)
    requires 2 * n <= |lines|
    ensures |IntensityRows(nf, lines, n)| == n
    ensures forall q :: 0 <= q < n ==> IntensityRows(nf, lines, n)[q] == ParseFloats(nf, lines[2 * q + 1])
    decreases n
  {
    if n > 0 {
      var tail := lines[2..];
      IntensityRowsAt(nf, tail, n - 1);
      forall q | 0 < q < n
        ensures IntensityRows(nf, lines, n)[q] == ParseFloats(nf, lines[2 * q + 1])
      {
        var i := 2 * (q - 1) + 1;
        assert IntensityRows(nf, lines, n)[q] == IntensityRows(nf, tail, n - 1)[q - 1];
        assert tail[i] == lines[2 * q + 1];
      }
    }
  }

  /** `WellFormedSamples` pair by pair: the intensity line of each of the first `n` pairs has one token per channel. */
  predicate PairsWellFormed(mz: seq<Double>, lines: seq<string>, n: nat)
    requires 2 * n <= |lines|
    decreases n
  {
    n > 0 ==> |Tokens(lines[1])| == |mz| && PairsWellFormed(mz, lines[2..], n - 1)
  }

  /** The quantified and the pair-by-pair forms of well-formedness agree. */
  lemma {:induction false} WellFormedPairs(mz: seq<Double>, lines: seq<string>, n: nat)
    requires 2 * n <= |lines| && WellFormedSamples(mz, lines, n)
    ensures PairsWellFormed(mz, lines, n)
    decreases n
  {
    if n > 0 {
      TailWellFormed(mz, lines, n - 1);
      WellFormedPairs(mz, lines[2..], n - 1);
    }
  }

  /** On well-formed pairs, the sample loop collects exactly the parsed rows of the pairs. */
  lemma {:induction false} ReadSamplesRows(nf: NumberFormat, mz: seq<Double>, lines: seq<string>, n: nat)
    requires |lines| == 2 * n && PairsWellFormed(mz, lines, n)
    ensures ReadSamples(nf, mz, lines) == Ok(Samples(CoordinateRows(nf, lines, n), IntensityRows(nf, lines, n)))
    decreases n
  {
    if n > 0 {
      var tail := lines[2..];
      ReadSamplesRows(nf, mz, tail, n - 1);
      ParseSpectrumOfPair(nf, mz, lines);
      var first := Sample(ParseFloats(nf, lines[1]), ParseCoordinates(nf, lines[0]));
      assert ParseSpectrum(nf, mz, lines) == Ok(first);
      assert ReadSamples(nf, mz, tail) == Ok(Samples(CoordinateRows(nf, tail, n - 1), IntensityRows(nf, tail, n - 1)));
      ReadSamplesCons(nf, mz, lines, first, CoordinateRows(nf, tail, n - 1), IntensityRows(nf, tail, n - 1));
    }
  }

  /** A coordinate line followed by an intensity line of the right length reads as one sample. */
  lemma ParseSpectrumOfPair(nf: NumberFormat, mz: seq<Double>, lines: seq<string>)
    requires |lines| >= 2 && |Tokens(lines[1])| == |mz|
    ensures ParseSpectrum(nf, mz, lines) == Ok(Sample(ParseFloats(nf, lines[1]), ParseCoordinates(nf, lines[0])))
  {
  }

  /**
   * Samples keep file order: when every intensity line has one value per channel and
   * the lines pair up, sample q is the coordinate line 2q with the intensity line 2q+1.
   */
  lemma ReadSamplesPairsLines(nf: NumberFormat, mz: seq<Double>, lines: seq<string>, n: nat)
    requires |lines| == 2 * n && WellFormedSamples(mz, lines, n)
    ensures ReadSamples(nf, mz, lines).Ok?
    ensures var s := ReadSamples(nf, mz, lines).value;
            && |s.locations| == |s.data| == n
            && (forall q :: 0 <= q < n ==>
                  s.locations[q] == ParseCoordinates(nf, lines[2 * q])
                  && s.data[q] == ParseFloats(nf, lines[2 * q + 1]))
  {
    WellFormedPairs(mz, lines, n);
    ReadSamplesRows(nf, mz, lines, n);
    CoordinateRowsAt(nf, lines, n);
    IntensityRowsAt(nf, lines, n);
  }

  /** An intensity line of the wrong length, after well-formed samples, raises the length error. */
  lemma {:induction false} ReadSamplesLengthMismatch(nf: NumberFormat, mz: seq<Double>, lines: seq<string>, k: nat)
    requires 2 * k + 1 < |lines| && WellFormedSamples(mz, lines, k)
    requires |Tokens(lines[2 * k + 1])| != |mz|
    ensures ReadSamples(nf, mz, lines) == Err(InvalidDataException(SpectrumLengthMismatch))
    decreases k
  {
    if k > 0 {
      var tail := lines[2..];
      TailWellFormed(mz, lines, k - 1);
      assert tail[2 * (k - 1) + 1] == lines[2 * k + 1];
      ReadSamplesLengthMismatch(nf, mz, tail, k - 1);
    }
  }

  /** A coordinate line with no intensity line after it, after well-formed samples, dereferences null. */
  lemma {:induction false} ReadSamplesMissingIntensities(nf: NumberFormat, mz: seq<Double>, lines: seq<string>)
    requires |lines| % 2 == 1 && WellFormedSamples(mz, lines, |lines| / 2)
    ensures ReadSamples(nf, mz, lines) == Err(NullReferenceException)
    decreases |lines|
  {
    if |lines| > 1 {
      var tail := lines[2..];
      TailWellFormed(mz, lines, |tail| / 2);
      ReadSamplesMissingIntensities(nf, mz, tail);
    }
  }

  /**
   * `Gather`: the `Count x width` matrix whose row i is `list[i]`. It fails on an empty
   * list (`First()` throws) and on rows of differing lengths.
   */
  function Gathered<T>(list: seq<seq<T>>): Result<Matrix<T>, Cause> {
    if list == [] then Err(InvalidOperationException)
    else if exists i :: 0 <= i < |list| && |list[i]| != |list[0]| then Err(InvalidDataException(RaggedRows))
    else Ok(RawMatrix(|list|, |list[0]|, list))
  }

  /** The text of a file as `Load` parses it, once the file is open. */
  function ParseText(nf: NumberFormat, path: Path, text: string): Result<Dataset, LoadError> {
    var lines := Lines(text);
    if |lines| < 2 then Err(Wrap(path, NullReferenceException))
    else
      var mz := ParseFloats(nf, lines[1]);
      match ReadSamples(nf, mz, lines[2..])
      case Err(e) => Err(Wrap(path, e))
      case Ok(s) => Assemble(path, mz, s)
  }

  /** The end of `Load`: both lists gathered into matrices, then the dataset constructed. */
  function Assemble(path: Path, mz: seq<Double>, s: Samples): Result<Dataset, LoadError> {
    match Gathered(s.locations)
    case Err(e) => Err(Wrap(path, e))
    case Ok(coordinates) =>
      match Gathered(s.data)
      case Err(e) => Err(Wrap(path, e))
      case Ok(molecularData) =>
        match Create(Some(mz), Some(molecularData), Some(coordinates))
        case Err(e) => Err(Wrap(path, InvalidDataException(e)))
        case Ok(d) => Ok(d)
  }

  /** `Load(path)`: what the reader returns or throws for that file. */
  function LoadSpec(fs: FileSystem, nf: NumberFormat, path: Path): Result<Dataset, LoadError> {
    if path !in fs.files then Err(Wrap(path, FileNotFoundException(path)))
    else ParseText(nf, path, fs.files[path])
  }

  /** Line 1 is never looked at: texts that differ only there parse alike. */
  lemma FirstLineIgnored(nf: NumberFormat, path: Path, text1: string, text2: string)
    requires |Lines(text1)| >= 1 && |Lines(text2)| >= 1
    requires Lines(text1)[1..] == Lines(text2)[1..]
    ensures ParseText(nf, path, text1) == ParseText(nf, path, text2)
  {
    var l1, l2 := Lines(text1), Lines(text2);
    assert |l1| == |l2|;
    if |l1| >= 2 {
      assert l1[1] == l1[1..][0] == l2[1..][0] == l2[1];
      assert l1[2..] == l1[1..][1..] == l2[1..][1..] == l2[2..];
    }
  }

  /** A file with fewer than two lines has no m/z line: "M/z data could not be parsed". */
  lemma MissingMzLine(nf: NumberFormat, path: Path, text: string)
    requires |Lines(text)| < 2
    ensures ParseText(nf, path, text) == Err(MzNotParsed(path, NullReferenceException))
  {
  }

  /** A file with the m/z line and no sample fails in `Gather`: "Streamer failed". */
  lemma NoSamples(nf: NumberFormat, path: Path, text: string)
    requires |Lines(text)| == 2
    ensures ParseText(nf, path, text) == Err(StreamerFailed(path, InvalidOperationException))
  {
    assert Lines(text)[2..] == [];
  }

  /** A missing file surfaces as "Streamer failed", wrapping the file-not-found cause. */
  lemma MissingFile(fs: FileSystem, nf: NumberFormat, path: Path)
    requires path !in fs.files
    ensures LoadSpec(fs, nf, path) == Err(StreamerFailed(path, FileNotFoundException(path)))
  {
  }

  /**
   * Once line 2 is read, an intensity line with the wrong number of tokens (after
   * well-formed samples) fails with "Length mismatch", keeping the inner cause.
   */
  lemma IntensityLineOfWrongLength(nf: NumberFormat, path: Path, text: string, k: nat)
    requires |Lines(text)| >= 2
    requires var body := Lines(text)[2..];
             var mz := ParseFloats(nf, Lines(text)[1]);
             2 * k + 1 < |body| && WellFormedSamples(mz, body, k) && |Tokens(body[2 * k + 1])| != |mz|
    ensures ParseText(nf, path, text) == Err(LengthMismatch(InvalidDataException(SpectrumLengthMismatch)))
  {
    ReadSamplesLengthMismatch(nf, ParseFloats(nf, Lines(text)[1]), Lines(text)[2..], k);
  }

  /** A last coordinate line with no intensity line fails with "M/z data could not be parsed". */
  lemma CoordinateLineWithoutIntensities(nf: NumberFormat, path: Path, text: string)
    requires |Lines(text)| >= 2
    requires var body := Lines(text)[2..];
             |body| % 2 == 1 && WellFormedSamples(ParseFloats(nf, Lines(text)[1]), body, |body| / 2)
    ensures ParseText(nf, path, text) == Err(MzNotParsed(path, NullReferenceException))
  {
    ReadSamplesMissingIntensities(nf, ParseFloats(nf, Lines(text)[1]), Lines(text)[2..]);
  }

  // ---------------------------------------------------------------------------
  // The imperative reader
  // ---------------------------------------------------------------------------

  /** `Gather`: copies the rows into a fresh `T[Count, width]`, cell by cell. */
  method Gather<T(0)>(list: seq<seq<T>>) returns (r: Result<Matrix<T>, Cause>)
    ensures r == Gathered(list)
  {
    if |list| == 0 {
      return Err(InvalidOperationException);
    }
    var width := |list[0]|;
    if exists i :: 0 <= i < |list| && |list[i]| != width {
      return Err(InvalidDataException(RaggedRows));
    }
    var matrix := new T[|list|, width];
    for i := 0 to |list|
      invariant forall i', j' :: 0 <= i' < i && 0 <= j' < width ==> matrix[i', j'] == list[i'][j']
    {
      for j := 0 to width
        invariant forall i', j' :: 0 <= i' < i && 0 <= j' < width ==> matrix[i', j'] == list[i'][j']
        invariant forall j' :: 0 <= j' < j ==> matrix[i, j'] == list[i][j']
      {
        matrix[i, j] := list[i][j];
      }
    }
    var cells := seq(|list|, i requires 0 <= i < |list| reads matrix =>
                   seq(width, j requires 0 <= j < width reads matrix => matrix[i, j]));
    assert forall i :: 0 <= i < |list| ==> cells[i] == list[i];
    assert cells == list;
    return Ok(RawMatrix(|list|, width, cells));
  }

  /** `ReadSpectrum`: reads a coordinate line and an intensity line. */
  method ReadSpectrum(sr: TextReader, nf: NumberFormat, mz: seq<Double>) returns (r: Result<Sample, Cause>)
    requires sr.Valid() && sr.Remaining() != []
    modifies sr
    ensures sr.Valid()
    ensures r == ParseSpectrum(nf, mz, old(sr.Remaining()))
    ensures r.Ok? ==> sr.Remaining() == old(sr.Remaining())[2..]
  {
    ghost var before := sr.Remaining();
    var coordinateLine := sr.ReadLine();
    var metadata := ParseCoordinates(nf, coordinateLine.value);
    var intensityLine := sr.ReadLine();
    if intensityLine.None? {
      return Err(NullReferenceException);
    }
    assert before[1..][0] == before[1];
    assert before[1..][1..] == before[2..];
    var intensities := ParseFloats(nf, intensityLine.value);
    if |intensities| != |mz| {
      return Err(InvalidDataException(SpectrumLengthMismatch));
    }
    return Ok(Sample(intensities, metadata));
  }

  /** `Load`: opens the file, reads it line by line and builds the dataset. */
  method Load(fs: FileSystem, nf: NumberFormat, path: Path) returns (r: Result<Dataset, LoadError>)
    ensures r == LoadSpec(fs, nf, path)
  {
    if path !in fs.files {
      return Err(Wrap(path, FileNotFoundException(path)));
    }
    ghost var lines := Lines(fs.files[path]);
    var sr := new TextReader(fs.files[path]);
    var globalMetadata := sr.ReadLine();
    var mzLine := sr.ReadLine();
    if mzLine.None? {
      return Err(Wrap(path, NullReferenceException));
    }
    assert lines[1..][0] == lines[1] && lines[1..][1..] == lines[2..];
    var mz := ParseFloats(nf, mzLine.value);

    ghost var body := sr.Remaining();
    var location: seq<seq<Int32>> := [];
    var data: seq<seq<Double>> := [];
    var next := sr.Peek();
    PrependNothing(ReadSamples(nf, mz, body));
    while next > -1
      invariant sr.Valid()
      invariant next > -1 <==> sr.Remaining() != []
      invariant ReadSamples(nf, mz, body) == Prepend(location, data, ReadSamples(nf, mz, sr.Remaining()))
      decreases |sr.Remaining()|
    {
      ghost var remaining := sr.Remaining();
      var spectrum := ReadSpectrum(sr, nf, mz);
      if spectrum.Err? {
        return Err(Wrap(path, spectrum.error));
      }
      ReadSamplesStep(nf, mz, remaining);
      PrependTwice(location, data, [spectrum.value.coordinates], [spectrum.value.intensities], ReadSamples(nf, mz, sr.Remaining()));
      location := location + [spectrum.value.coordinates];
      data := data + [spectrum.value.intensities];
      next := sr.Peek();
    }
    assert location + [] == location && data + [] == data;
    assert ReadSamples(nf, mz, body) == Ok(Samples(location, data));
    assert LoadSpec(fs, nf, path) == Assemble(path, mz, Samples(location, data));

    var coordinates := Gather(location);
    if coordinates.Err? {
      return Err(Wrap(path, coordinates.error));
    }
    var molecularData := Gather(data);
    if molecularData.Err? {
      return Err(Wrap(path, molecularData.error));
    }
    var created := Create(Some(mz), Some(molecularData.value), Some(coordinates.value));
    if created.Err? {
      return Err(Wrap(path, InvalidDataException(created.error)));
    }
    return Ok(created.value);
  }
}
