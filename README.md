# Spectre.Data: datasets, their text format, the dataset store and regions of interest

This project models and proves the data core of the Spectre platform components.

- **`BasicTextDataset`** is a mass-spectrometry dataset: an m/z axis of L channels, an S x L intensity matrix and an S x 3 matrix of spatial coordinates. Their shapes are checked once, at construction.
- **`TextDatasetReader`** parses the line-oriented text format:
  - line 1, the description, is skipped;
  - line 2 holds the channels;
  - then a coordinate line and an intensity line follow, once per spectrum;
  - tokens are whitespace-separated, and empty ones are dropped;
  - a bad float becomes NaN and a bad coordinate becomes -1;
  - every exception is rethrown as an `IOException` that keeps its cause.
- **`TextDatasetWriter`** writes the same format:
  - every m/z and intensity value is followed by one space;
  - coordinates are written as `x y z`;
  - the file is created only once the whole text is built.
- **`DatasetStore`** keeps each dataset in `<Root>/<name>/text_data/data.txt` and delegates to the reader and the writer.
- **`Roi`** is a named width x height region with a list of pixels, bounds-checked at construction.
- **`RoiConverter`**, current and deprecated, converts between regions and images:
  - reading an image collects its foreground pixels column by column;
  - drawing fills a canvas white, then paints every listed pixel black;
  - the current converter's foreground is exactly black;
  - the deprecated converter's foreground is any colour whose blue channel is 0.

## How the model is built

| module (file) | what it holds |
|---|---|
| `Wrappers` (wrappers.dfy) | `Option` and `Result` |
| `Text` (text.dfy) | `String.Split()` with empty tokens dropped (`Tokens`); the words-each-followed-by-a-space line (`JoinTrailing`); `ReadLine`'s line splitting (`Lines`) and `AppendLine`'s joining (`JoinLines`) |
| `Numbers` (numbers.dfy) | `Double`, `Int32`, and `NumberFormat`: the culture's number formatting and parsing, carried as a value |
| `BasicTextDataset` (dataset.dfy) | the dataset, its constructor (as written and as intended), its accessors |
| `FileSystem` (file_system.dfy) | files and directories as maps; `Path.Combine`, `GetFileName`, `GetDirectoryName`; `CreateText` + `Write` |
| `LineReader` (line_reader.dfy) | the `StreamReader` the reader reads from: a class with a position, `Peek` and `ReadLine` |
| `TextDatasetReader` (reader.dfy) | parsing as functions (`ParseText`, `LoadSpec`); `Load`, `ReadSpectrum` and `Gather` as loops proved equal to them |
| `TextDatasetWriter` (writer.dfy) | the emitted lines as functions (`EmittedLines`, `Render`, `SaveSpec`); `Save` and the `Append…` methods as loops over a `StringBuilder` class, proved equal to them |
| `TextCodec` (text_codec.dfy) | reading back what was written |
| `DatasetStore` (dataset_store.dfy) | `ToPath`, `Get`, `Add`, `ListDatasets` |
| `RegionOfInterest` (roi.dfy) | `Roi`, its constructor (as written and as intended) |
| `Raster` (raster.dfy) | colours, images, `Mask` (what reading an image collects), `Paint` (what drawing produces), the shared conversion loops |
| `RoiConverter`, `LegacyRoiConverter` | the two converters, each with its own foreground test and round trips |

Design decisions:

- **Numbers.** Formatting and parsing numbers is runtime behaviour, so it is not defined here. Every codec operation takes a `NumberFormat` value instead. This is the call-scoped formatting policy that replaces the writer's switch of the thread culture. A round trip needs every number of the dataset to be written as one token that parses back to the same value (`TextCodec.Representable`). That requirement is stated per value, as a precondition.
- **Doubles.** A `Double` is compared as a value. So `NaN` "round-trips" when the format writes it as a token that parses back to `NaN`. This is unlike IEEE comparison.
- **Files.** File contents are strings. `ReadLine` ends a line at "\n", "\r" or "\r\n"; `AppendLine` writes "\n", as on Unix. Paths follow the Unix rules of `System.IO.Path`: `GetDirectoryName` trims the separators before the file name, collapses repeated separators and gives null for the empty path and the bare root; `CreateText` needs a file name and an existing directory.
- **The file system.** It is a value passed to and returned from the operations that use it. On return the reader gives a `Result`, and the writer gives the new file system with the exception, if any.
- **Exceptions.** The reader's exceptions are a `Cause`. The three catch clauses of `Load` turn a cause into a `LoadError`:
  - `NullReferenceException` becomes "M/z data could not be parsed from file <path>";
  - `InvalidDataException` becomes "Length mismatch in parsed data" (this message carries no path);
  - any other exception becomes "Streamer failed to read <path> file".

  A missing file and an empty sample list (`First()` throws) therefore both surface as "Streamer failed". The source has no separate not-found error, and the model follows the source.
- **Datasets and metadata.** Only the writer reads `IDataset.Metadata`. It gets the description as `Option<string>`, where `None` stands for a `Metadata` getter that throws.
- **The constructor bug.** The dataset model everywhere uses the corrected coordinate check (see Findings).

## Model

| member | source | states |
|---|---|---|
| `Text.Split` | src/Spectre.Data/Readers/TextDatasetReader.cs:120 | `String.Split()` on whitespace always yields at least one field |
| `Text.LineEnd` | src/Spectre.Data/Readers/TextDatasetReader.cs:58-59 | a line ends at the first "\n" or "\r", or at the end of the text |
| `Text.AfterLine` | src/Spectre.Data/Readers/TextDatasetReader.cs:58-59 | each `ReadLine` consumes at least one character, so reading the lines terminates |
| `Text.LineEndAtBreak` | src/Spectre.Data/Readers/TextDatasetReader.cs:58-59 | a line stops at the first line break after it |
| `Text.LinesAfterLineFeed` | src/Spectre.Data/Readers/TextDatasetReader.cs:58-63 | a line ended by "\n" is returned without it, and reading goes on right after it |
| `Text.LinesAfterCarriageReturnLineFeed` | src/Spectre.Data/Readers/TextDatasetReader.cs:58-63 | a line ended by "\r\n" is returned without it, and reading goes on after both characters |
| `Text.LinesAfterCarriageReturn` | src/Spectre.Data/Readers/TextDatasetReader.cs:58-63 | a line ended by a "\r" with no "\n" after it is returned without the "\r", and reading goes on right after it |
| `Text.LinesOfUnterminatedLine` | src/Spectre.Data/Readers/TextDatasetReader.cs:58-63 | a last line without terminator is returned as it is |
| `Text.Tokens` | src/Spectre.Data/Readers/TextDatasetReader.cs:119-121 | `Split()` then dropping empty strings: every token is non-empty and holds no whitespace |
| `Text.TokensIgnoreOuterWhiteSpace` | src/Spectre.Data/Readers/TextDatasetReader.cs:119-121 | a leading or trailing whitespace character adds no token |
| `Text.TokensIgnoreRepeatedWhiteSpace` | src/Spectre.Data/Readers/TextDatasetReader.cs:119-121 | two whitespace characters in a row split like one: repeated spaces add no empty token |
| `Text.TokensAppend` | src/Spectre.Data/Readers/TextDatasetReader.cs:119-121 | text ending in whitespace tokenises independently of what follows it |
| `Text.TokensOfJoinTrailing` | src/Spectre.Data/Writers/TextDatasetWriter.cs:96-101 | a line of words each followed by one space tokenises back to exactly those words |
| `Text.JoinTrailing` | src/Spectre.Data/Writers/TextDatasetWriter.cs:81-85 | a non-empty list of values gives a line ending in a space |
| `Text.JoinTrailingIsLine` | src/Spectre.Data/Writers/TextDatasetWriter.cs:96-101 | a line of numbers holds no line break |
| `Text.LinesOfJoinLines` | src/Spectre.Data/Readers/TextDatasetReader.cs:58-68 | `ReadLine` on text built by `AppendLine` returns exactly the appended lines, when none holds a line break |
| `Text.JoinLinesAppend` | src/Spectre.Data/Writers/TextDatasetWriter.cs:54-56 | appending lines in steps builds the same text as appending them at once |
| `LineReader.TextReader.constructor` | src/Spectre.Data/Readers/TextDatasetReader.cs:56 | `OpenText`: the reader has all lines of the file to come |
| `LineReader.TextReader.Peek` | src/Spectre.Data/Readers/TextDatasetReader.cs:63 | `Peek() > -1` iff a line remains |
| `LineReader.LinesFrom` | src/Spectre.Data/Readers/TextDatasetReader.cs:58-59 | the characters up to the first line break are the next line, and the lines after it start past the whole terminator |
| `LineReader.TextReader.ReadLine` | src/Spectre.Data/Readers/TextDatasetReader.cs:58-59 | returns null at end of text; otherwise the next line, consuming exactly that line |
| `BasicTextDataset.Create` | src/Spectre.Data/Structures/BasicTextDataset.cs:62-86 | the corrected constructor: succeeds iff all inputs are non-null, coordinate rows equal intensity rows, coordinates have 3 columns and mz length equals intensity columns; the fields are then the arguments; null mz or data throws "input data is null" |
| `BasicTextDataset.CreateReportsEachViolation` | src/Spectre.Data/Structures/BasicTextDataset.cs:64-81 | each violation is reported by its own `InvalidDataException`, in the source's order of checks |
| `BasicTextDataset.CreateAsWrittenNeverSucceeds` | src/Spectre.Data/Structures/BasicTextDataset.cs:68-72 | the check as written rejects every non-null coordinate matrix and dereferences a null one, so no dataset can be built |
| `BasicTextDataset.AsWrittenRejectsSingleSample` | src/Spectre.Data/Structures/BasicTextDataset.cs:68-72 | a valid 1-sample, 1-channel dataset is accepted by the corrected check and refused as written |
| `BasicTextDataset.CreateAsWritten` | src/Spectre.Data/Structures/BasicTextDataset.cs:62-86 | the constructor as written never yields a dataset; it dereferences null exactly when mz and data are non-null and the coordinates are null |
| `BasicTextDataset.CreateKeepsInputs` | src/Spectre.Data/Structures/BasicTextDataset.cs:83-142 | after construction `SpectrumLength` is the mz length, `SpectrumCount` the intensity rows, and the raw getters return the stored arrays unchanged |
| `BasicTextDataset.SpectrumLength` | src/Spectre.Data/Structures/BasicTextDataset.cs:105 | the channel count; for a constructed dataset it is the intensity column count and the length of every spectrum |
| `BasicTextDataset.SpectrumCount` | src/Spectre.Data/Structures/BasicTextDataset.cs:110 | the number of intensity rows; for a constructed dataset also the number of coordinate rows |
| `BasicTextDataset.GetRawMzArray` | src/Spectre.Data/Structures/BasicTextDataset.cs:124 | one m/z value per channel |
| `BasicTextDataset.GetRawIntensities` | src/Spectre.Data/Structures/BasicTextDataset.cs:139 | an S-row matrix, with L columns for a constructed dataset |
| `BasicTextDataset.GetRawSpacialCoordinates` | src/Spectre.Data/Structures/BasicTextDataset.cs:142 | an S x 3 matrix for a constructed dataset |
| `BasicTextDataset.GetSpatialCoordinates` | src/Spectre.Data/Structures/BasicTextDataset.cs:117-121 | (x, y, z) is row `spectrumIdx` of the coordinate matrix, in column order |
| `BasicTextDataset.SpatialCoordinateList` | src/Spectre.Data/Structures/BasicTextDataset.cs:98-121 | one entry per sample, in order; entry i is `GetSpatialCoordinates(i)`, i.e. row i of the coordinate matrix |
| `BasicTextDataset.GetRawIntensityArray` | src/Spectre.Data/Structures/BasicTextDataset.cs:127-130 | length L; element j is `data[i, j]` |
| `BasicTextDataset.GetRawIntensityRow` | src/Spectre.Data/Structures/BasicTextDataset.cs:133-136 | length S; element i is `data[i, v]` |
| `BasicTextDataset.IntensityViewsAgree` | src/Spectre.Data/Structures/BasicTextDataset.cs:127-136 | the spectrum view and the channel view read the same cell |
| `TextDatasetReader.Wrap` | src/Spectre.Data/Readers/TextDatasetReader.cs:76-90 | the catch clauses: a null dereference becomes "M/z data could not be parsed", invalid data "Length mismatch", anything else "Streamer failed"; the cause is kept |
| `TextDatasetReader.ParseFloats` | src/Spectre.Data/Readers/TextDatasetReader.cs:119-125 | one value per token, in order; a token that does not parse becomes NaN, no error |
| `TextDatasetReader.ParseCoordinates` | src/Spectre.Data/Readers/TextDatasetReader.cs:127-134 | only the first three tokens are kept, in order; a token that does not parse becomes -1 |
| `TextDatasetReader.ParseSpectrum` | src/Spectre.Data/Readers/TextDatasetReader.cs:93-103 | a sample needs an intensity line after its coordinate line |
| `TextDatasetReader.ReadSamplesSucceedsOnPairs` | src/Spectre.Data/Readers/TextDatasetReader.cs:63-68 | the sample loop succeeds only on an even number of lines whose intensity lines all hold one value per channel, and then yields one coordinate row and one L-value intensity row per pair |
| `TextDatasetReader.ReadSamplesPairsLines` | src/Spectre.Data/Readers/TextDatasetReader.cs:63-96 | samples keep file order: sample q pairs coordinate line 2q with intensity line 2q+1 |
| `TextDatasetReader.ReadSamplesCons` | src/Spectre.Data/Readers/TextDatasetReader.cs:63-68 | a sample read off the front goes before the samples of the lines after it |
| `TextDatasetReader.ParseSpectrumOfPair` | src/Spectre.Data/Readers/TextDatasetReader.cs:93-103 | a coordinate line followed by an intensity line with one token per channel reads as the sample of those two lines |
| `TextDatasetReader.ReadSamplesRows` | src/Spectre.Data/Readers/TextDatasetReader.cs:63-68 | on well-formed pairs the sample loop collects exactly the parsed coordinate lines and the parsed intensity lines |
| `TextDatasetReader.CoordinateRowsAt` | src/Spectre.Data/Readers/TextDatasetReader.cs:63-66 | coordinate row q comes from line 2q |
| `TextDatasetReader.IntensityRowsAt` | src/Spectre.Data/Readers/TextDatasetReader.cs:63-67 | intensity row q comes from line 2q+1 |
| `TextDatasetReader.TailWellFormed` | src/Spectre.Data/Readers/TextDatasetReader.cs:63-68 | of well-formed samples the first is well formed, and after it is consumed the following samples are still well formed |
| `TextDatasetReader.ConsWellFormed` | src/Spectre.Data/Readers/TextDatasetReader.cs:63-68 | a well-formed sample in front of well-formed samples keeps them well formed |
| `TextDatasetReader.WellFormedPairs` | src/Spectre.Data/Readers/TextDatasetReader.cs:63-68 | well-formedness holds pair by pair |
| `TextDatasetReader.ReadSamplesLengthMismatch` | src/Spectre.Data/Readers/TextDatasetReader.cs:97-101 | the first intensity line whose token count differs from the channel count raises the length error |
| `TextDatasetReader.ReadSamplesMissingIntensities` | src/Spectre.Data/Readers/TextDatasetReader.cs:95-96 | a final coordinate line without an intensity line dereferences null |
| `TextDatasetReader.ReadSamplesStep` | src/Spectre.Data/Readers/TextDatasetReader.cs:63-68 | one iteration of the sample loop |
| `TextDatasetReader.FirstLineIgnored` | src/Spectre.Data/Readers/TextDatasetReader.cs:58-59 | texts differing only in line 1 load alike: the channels come from line 2 only |
| `TextDatasetReader.MissingMzLine` | src/Spectre.Data/Readers/TextDatasetReader.cs:59-80 | a file without line 2 fails with "M/z data could not be parsed", wrapping the null dereference |
| `TextDatasetReader.NoSamples` | src/Spectre.Data/Readers/TextDatasetReader.cs:70-106 | a file with no sample fails in `Gather` (`First()` on an empty list), surfacing as "Streamer failed" |
| `TextDatasetReader.MissingFile` | src/Spectre.Data/Readers/TextDatasetReader.cs:56-90 | a missing file surfaces as "Streamer failed", wrapping the file-not-found cause |
| `TextDatasetReader.IntensityLineOfWrongLength` | src/Spectre.Data/Readers/TextDatasetReader.cs:82-101 | a wrong-length intensity line fails the load with "Length mismatch" wrapping the `InvalidDataException` |
| `TextDatasetReader.CoordinateLineWithoutIntensities` | src/Spectre.Data/Readers/TextDatasetReader.cs:76-96 | a coordinate line with no following intensity line fails with "M/z data could not be parsed" |
| `TextDatasetReader.Gather` | src/Spectre.Data/Readers/TextDatasetReader.cs:105-117 | equals `Gathered`: fails on an empty list and on ragged rows, otherwise the Count x width matrix with `m[i, j] = list[i][j]` |
| `TextDatasetReader.ReadSpectrum` | src/Spectre.Data/Readers/TextDatasetReader.cs:93-103 | reads two lines and returns the parsed sample, or the error, exactly as `ParseSpectrum` on the remaining lines |
| `TextDatasetReader.Load` | src/Spectre.Data/Readers/TextDatasetReader.cs:52-91 | the imperative reader, returns exactly `LoadSpec` (the loop invariant ties the collected samples to `ReadSamples`) |
| `TextDatasetWriter.Formatted` | src/Spectre.Data/Writers/TextDatasetWriter.cs:98-99 | each value through the formatting policy, in order |
| `TextDatasetWriter.SampleLinesCount` | src/Spectre.Data/Writers/TextDatasetWriter.cs:77-88 | two lines per spectrum |
| `TextDatasetWriter.SampleLinesAt` | src/Spectre.Data/Writers/TextDatasetWriter.cs:77-88 | spectrum k's coordinate line and intensity line sit at 2k and 2k+1 |
| `TextDatasetWriter.EmittedLineLayout` | src/Spectre.Data/Writers/TextDatasetWriter.cs:54-88 | 2 + 2S lines: the description, the m/z line, then per row i the coordinate line and that row's own values |
| `TextDatasetWriter.ValuesLineShape` | src/Spectre.Data/Writers/TextDatasetWriter.cs:81-101 | the values line is empty iff there are no values, otherwise ends in a space; it tokenises to exactly the formatted values and holds no line break |
| `TextDatasetWriter.CoordinateLineShape` | src/Spectre.Data/Writers/TextDatasetWriter.cs:79 | `x y z` tokenises to exactly the three formatted coordinates, has no trailing space and no line break |
| `TextDatasetWriter.ValuesLineSnoc` | src/Spectre.Data/Writers/TextDatasetWriter.cs:98-99 | each appended value adds its text and one space |
| `TextDatasetWriter.SaveFailureWritesNothing` | src/Spectre.Data/Writers/TextDatasetWriter.cs:49-71 | a save that throws leaves the file system unchanged; a throwing `Metadata` ends the save before anything is written |
| `TextDatasetWriter.SaveWritesOnlyPath` | src/Spectre.Data/Writers/TextDatasetWriter.cs:54-71 | a save succeeds iff the metadata is readable and the path names a file in an existing directory; then only `path` changes, to the rendered text |
| `TextDatasetWriter.StringBuilder.constructor` | src/Spectre.Data/Writers/TextDatasetWriter.cs:75 | a new builder is empty |
| `TextDatasetWriter.StringBuilder.Append` | src/Spectre.Data/Writers/TextDatasetWriter.cs:83-84 | appends the text |
| `TextDatasetWriter.StringBuilder.AppendLine` | src/Spectre.Data/Writers/TextDatasetWriter.cs:86 | appends the text and a line break |
| `TextDatasetWriter.StringBuilder.Clear` | src/Spectre.Data/Writers/TextDatasetWriter.cs:87 | empties the builder |
| `TextDatasetWriter.AppendMetadata` | src/Spectre.Data/Writers/TextDatasetWriter.cs:104-107 | appends the description as one line |
| `TextDatasetWriter.AppendMzValues` | src/Spectre.Data/Writers/TextDatasetWriter.cs:91-102 | appends the m/z line: every value followed by one space |
| `TextDatasetWriter.AppendRow` | src/Spectre.Data/Writers/TextDatasetWriter.cs:81-85 | fills the emptied row buffer with that row's values, each followed by one space |
| `TextDatasetWriter.AppendIntensitiesAndLocalMetadata` | src/Spectre.Data/Writers/TextDatasetWriter.cs:73-89 | appends exactly the sample lines; the row buffer is empty at the start of every row |
| `TextDatasetWriter.SaveDataToFile` | src/Spectre.Data/Writers/TextDatasetWriter.cs:65-71 | writes the built text to `path`, or fails leaving the file system as it was |
| `TextDatasetWriter.Save` | src/Spectre.Data/Writers/TextDatasetWriter.cs:47-61 | the imperative writer, gives exactly `SaveSpec` |
| `TextCodec.ParseFloatsOfValuesLine` | src/Spectre.Data/Writers/TextDatasetWriter.cs:96-101 | parsing a written line of numbers gives the numbers back |
| `TextCodec.ParseCoordinatesOfCoordinateLine` | src/Spectre.Data/Writers/TextDatasetWriter.cs:79 | parsing a written coordinate line gives the three coordinates back |
| `TextCodec.ReadSamplesOfSampleLines` | src/Spectre.Data/Writers/TextDatasetWriter.cs:77-88 | reading the written sample lines gives the coordinate and intensity rows back, in order |
| `TextCodec.LinesOfRender` | src/Spectre.Data/Writers/TextDatasetWriter.cs:54-56 | `ReadLine` over the written text returns exactly the emitted lines |
| `TextCodec.GatheredRows` | src/Spectre.Data/Readers/TextDatasetReader.cs:105-117 | gathering the rows of a non-empty matrix rebuilds it |
| `TextCodec.RoundTrip` | src/Spectre.Data/Writers/TextDatasetWriter.cs:54-56 | reading back the written text gives the same channels, intensities and coordinates (S >= 1, single-line description, representable numbers) |
| `TextCodec.EmptyDatasetDoesNotRoundTrip` | src/Spectre.Data/Readers/TextDatasetReader.cs:70-106 | a dataset without spectra is written as two lines and reads back as "Streamer failed" |
| `TextCodec.SaveThenLoad` | src/Spectre.Data/Writers/TextDatasetWriter.cs:47-61 | `Save` then `Load` of the same path gives back the dataset |
| `DatasetStore.ToPathLayout` | src/Spectre.Data/Collections/DatasetStore.cs:82 | the path is root, name, "text_data", "data.txt" in that order; an empty name is skipped; a rooted name discards the root |
| `DatasetStore.ToPathNamesDataFile` | src/Spectre.Data/Collections/DatasetStore.cs:82 | the path names a file "data.txt" in a directory "text_data": its directory is the name and "text_data" combined onto the root, with repeated separators collapsed |
| `DatasetStore.FileInDirectory` | src/Spectre.Data/Collections/DatasetStore.cs:82 | a file name combined onto a directory name combined onto a path: the file name, the normalised directory and the directory's own name |
| `DatasetStore.ToPathLength` | src/Spectre.Data/Collections/DatasetStore.cs:82 | an empty name is skipped; any other separator-free name adds itself and one separator |
| `DatasetStore.ToPathInjective` | src/Spectre.Data/Collections/DatasetStore.cs:82 | distinct separator-free names, the empty name included, resolve to distinct paths |
| `DatasetStore.Get` | src/Spectre.Data/Collections/DatasetStore.cs:68 | exactly what the reader returns or throws for `ToPath(name)` |
| `DatasetStore.Add` | src/Spectre.Data/Collections/DatasetStore.cs:75 | exactly what the writer does for the same `ToPath(name)` |
| `DatasetStore.ListDatasets` | src/Spectre.Data/Collections/DatasetStore.cs:60 | fails with the root as missing directory iff the root does not exist; otherwise one separator-free name per subdirectory |
| `DatasetStore.ListDatasetsNames` | src/Spectre.Data/Collections/DatasetStore.cs:60 | fails iff the root is missing; otherwise one name per subdirectory, in enumeration order, each its own last path component |
| `DatasetStore.AddThenGet` | src/Spectre.Data/Collections/DatasetStore.cs:41-75 | `Add(n, d)` then `Get(n)` gives back d, under the codec's round-trip conditions |
| `FileSystem.CombinePlain` | src/Spectre.Data/Collections/DatasetStore.cs:82 | combining a plain name inserts one separator unless the root already ends in one |
| `FileSystem.CombineKeepsSegments` | src/Spectre.Data/Collections/DatasetStore.cs:82 | `Path.Combine` ends with its second segment and, unless that one is rooted, starts with the first, adding at most one separator; an empty second segment changes nothing |
| `FileSystem.CombineOnto` | src/Spectre.Data/Collections/DatasetStore.cs:82 | a plain name combined onto a directory not ending in a separator gets exactly one separator in between |
| `FileSystem.CombinePlainEndsWithName` | src/Spectre.Data/Collections/DatasetStore.cs:82 | combining a plain name never gives an empty path or one ending in a separator |
| `FileSystem.DirectoryOfCombine` | src/Spectre.Data/Collections/DatasetStore.cs:82 | a plain name combined onto a directory that does not end in a separator lies in that directory, normalised |
| `FileSystem.DirectoryOfAppend` | src/Spectre.Data/Writers/TextDatasetWriter.cs:67 | `GetDirectoryName` of directory + "/" + plain name is the directory, normalised, when it does not end in a separator |
| `FileSystem.GetDirectoryNameCases` | src/Spectre.Data/Writers/TextDatasetWriter.cs:67 | no directory exactly for "" and "/"; every path with a file name has one; a plain name lies in "", a name at the root in "/" |
| `FileSystem.GetDirectoryNameOfDoubledSeparator` | src/Spectre.Data/Writers/TextDatasetWriter.cs:67 | "a//b" lies in "a" and "/a//b/c" in "/a/b": the separator run is trimmed and collapsed |
| `FileSystem.DirectoryEnd` | src/Spectre.Data/Writers/TextDatasetWriter.cs:67 | the end of the directory part: never inside the root, not after a separator unless at the root, only separators trimmed |
| `FileSystem.NormalizeSeparators` | src/Spectre.Data/Writers/TextDatasetWriter.cs:67 | no longer than the path, and ends with the path's last character |
| `FileSystem.NormalizeSeparatorsCollapses` | src/Spectre.Data/Writers/TextDatasetWriter.cs:67 | the result never has two separators in a row |
| `FileSystem.NormalizeSeparatorsKeepsNormal` | src/Spectre.Data/Writers/TextDatasetWriter.cs:67 | a path without two separators in a row is left unchanged |
| `FileSystem.NormalizeSeparatorsIdempotent` | src/Spectre.Data/Writers/TextDatasetWriter.cs:67 | normalising twice is normalising once |
| `FileSystem.NormalizeSeparatorsAppendPlain` | src/Spectre.Data/Writers/TextDatasetWriter.cs:67 | a plain name appended to a path comes through normalisation unchanged |
| `FileSystem.FileNameOfNormalizedCombine` | src/Spectre.Data/Collections/DatasetStore.cs:82 | normalising a path built by combining a plain name keeps that name as its file name |
| `FileSystem.LastSeparator` | src/Spectre.Data/Collections/DatasetStore.cs:60 | the index of the last separator, with none after it |
| `FileSystem.FileNameOfCombine` | src/Spectre.Data/Collections/DatasetStore.cs:60 | `GetFileName` of a combined plain name is that name |
| `FileSystem.GetFileName` | src/Spectre.Data/Collections/DatasetStore.cs:60 | a separator-free suffix of the path: all of it when it has no separator, otherwise what follows the last one |
| `FileSystem.WriteAllText` | src/Spectre.Data/Writers/TextDatasetWriter.cs:65-71 | succeeds iff the path names a file in an existing directory; fails as an invalid path when it has no file name (empty, or ending in a separator), otherwise with the missing directory; on success the path holds the text and every other file and every directory is unchanged |
| `RegionOfInterest.NewRoi` | src/Spectre.Data/Structures/Roi.cs:38-50 | the constructor as written: throws iff some pixel has X > width or Y > height; otherwise name, width, height and pixels are the arguments, order and duplicates kept |
| `RegionOfInterest.RejectsPixelsOutsideTenByTen` | src/Spectre.Data.Tests/RoiDictionaryTests.cs:100-116 | a 10 x 10 region holding (15, 6) or (1, 15) is rejected |
| `RegionOfInterest.AcceptsPixelsOutsideImage` | src/Spectre.Data/Structures/Roi.cs:44 | the strict `>` admits X == width and Y == height, and nothing bounds negative coordinates |
| `RegionOfInterest.NewRoiWithinImage` | src/Spectre.Data/Structures/Roi.cs:38-50 | the corrected constructor: accepts iff every pixel lies in [0, width) x [0, height) |
| `RegionOfInterest.WithinImageIsStricter` | src/Spectre.Data/Structures/Roi.cs:44-47 | what the corrected check accepts, the written check accepts alike; both accept the empty pixel list |
| `Raster.Snapshot` | src/Spectre.Data/Conversions/RoiConverter.cs:55 | an image's contents, W columns of H colours |
| `Raster.ColumnContents` | src/Spectre.Data/Conversions/RoiConverter.cs:53-61 | the inner loop collects exactly the foreground pixels of column x, in increasing y |
| `Raster.ScanContents` | src/Spectre.Data/Conversions/RoiConverter.cs:51-61 | the outer loop collects exactly the foreground pixels of the columns visited, x-major |
| `Raster.MaskContents` | src/Spectre.Data/Conversions/RoiConverter.cs:51-61 | (x, y) is collected iff it lies in the image and is foreground; strictly x-major and y-minor; every pixel inside the image |
| `Raster.OrderedHasNoDuplicates` | src/Spectre.Data/Conversions/RoiConverter.cs:51-53 | visiting each coordinate once lists no pixel twice |
| `Raster.Paint` | src/Spectre.Data/Conversions/RoiConverter.cs:75-82 | a W x H image |
| `Raster.PaintDependsOnPixelSet` | src/Spectre.Data/Conversions/RoiConverter.cs:79-82 | duplicates and order in the pixel list do not change the image |
| `Raster.FirstOutside` | src/Spectre.Data/Conversions/RoiConverter.cs:79-82 | the first pixel the painting loop cannot place |
| `Raster.DrawOutcomeSucceeds` | src/Spectre.Data/Conversions/RoiConverter.cs:75-82 | drawing succeeds iff the extent can be created and every pixel lies inside it |
| `Raster.MaskOfPaint` | src/Spectre.Data/Conversions/RoiConverter.cs:43-84 | reading back a drawn region gives its pixel set, for any foreground test taking black and not white |
| `Raster.PaintOfMask` | src/Spectre.Data/Conversions/RoiConverter.cs:43-84 | drawing the region read off a black-and-white image gives the image back |
| `Raster.BitmapToRoi` | src/Spectre.Data/Conversions/RoiConverter.cs:43-64 | the region has the image's extent and lists `Mask` of the image: foreground pixels, x-major |
| `Raster.RoiToBitmap` | src/Spectre.Data/Conversions/RoiConverter.cs:73-85 | fails iff the extent cannot be created or a pixel lies outside; otherwise a fresh W x H image equal to `Paint` |
| `RoiConverter.BitmapToRoi` | src/Spectre.Data/Conversions/RoiConverter.cs:43-64 | width and height are the image's; (x, y) is listed iff inside the image and exactly black; x-major without duplicates; the corrected bounds check holds for the result |
| `RoiConverter.RoiToBitmap` | src/Spectre.Data/Conversions/RoiConverter.cs:73-85 | a W x H image, black exactly at the listed pixels and white elsewhere |
| `RoiConverter.EdgePixelCannotBeDrawn` | src/Spectre.Data/Structures/Roi.cs:44 | a 10 x 10 region with (10, 0) passes the written check but cannot be drawn, given `DrawOutcome`'s model of the image library rejecting a pixel outside the image |
| `RoiConverter.IntendedRoisCanBeDrawn` | src/Spectre.Data/Structures/Roi.cs:44-47 | every region the corrected check accepts (with a creatable extent) can be drawn |
| `RoiConverter.RoiRoundTrip` | src/Spectre.Data/Conversions/RoiConverter.cs:43-84 | `BitmapToRoi(RoiToBitmap(r))` has r's pixel set |
| `RoiConverter.ImageRoundTrip` | src/Spectre.Data/Conversions/RoiConverter.cs:43-84 | `RoiToBitmap(BitmapToRoi(img)) == img` for black-and-white images |
| `LegacyRoiConverter.RedIsForeground` | src/Spectre.Data.Deprecated/RoiIo/RoiConverter.cs:42-58 | any colour with blue 0 is foreground, not only black; black is, white is not |
| `LegacyRoiConverter.BitmapToRoi` | src/Spectre.Data.Deprecated/RoiIo/RoiConverter.cs:39-63 | width and height are the bitmap's; (x, y) is listed iff inside and its blue channel is 0; each coordinate once, x-major, all inside |
| `LegacyRoiConverter.RoiToBitmap` | src/Spectre.Data.Deprecated/RoiIo/RoiConverter.cs:72-89 | the canvas cleared to white, then every listed pixel set black |
| `LegacyRoiConverter.RoiRoundTrip` | src/Spectre.Data.Deprecated/RoiIo/RoiConverter.cs:55-85 | `BitmapToRoi(RoiToBitmap(r))` recovers r's pixel set, since white has blue 255 and black blue 0 |
| `LegacyRoiConverter.ImageRoundTrip` | src/Spectre.Data.Deprecated/RoiIo/RoiConverter.cs:39-89 | black-and-white bitmaps survive reading and redrawing |
| `LegacyRoiConverter.RedPixelDoesNotRoundTrip` | src/Spectre.Data.Deprecated/RoiIo/RoiConverter.cs:55 | a red pixel is read as part of the region and redrawn black |

## Findings

| source | as written | input that shows it | evidently intended | confidence | as-written member | corrected member |
|---|---|---|---|---|---|---|
| src/Spectre.Data/Structures/BasicTextDataset.cs:68 | `(coordinates != null) \|\| (rows differ)` throws for every non-null coordinate matrix and dereferences a null one | mz `[100.0]`, data 1 x 1, coordinates 1 x 3 `[0, 0, 0]` | `(coordinates == null) \|\| (rows differ)`; so `Load` can succeed at all | high, not executed | `BasicTextDataset.CreateAsWritten` (`AsWrittenRejectsSingleSample`, `CreateAsWrittenNeverSucceeds`) | `BasicTextDataset.Create` |
| src/Spectre.Data/Structures/Roi.cs:44 | `X > width \|\| Y > height` accepts X == width or Y == height, and negative coordinates | a 10 x 10 region holding (10, 0): accepted, and `RoiToBitmap` cannot paint it, given that the image library's pixel indexer rejects a coordinate outside the image (modelled by `DrawOutcome`) | every pixel inside the image, 0 <= X < width and 0 <= Y < height | medium, not executed | `RegionOfInterest.NewRoi` (`AcceptsPixelsOutsideImage`, `RoiConverter.EdgePixelCannotBeDrawn`) | `RegionOfInterest.NewRoiWithinImage` (`RoiConverter.IntendedRoisCanBeDrawn`) |

The rest of the model uses `Create` for every dataset, so `Load` returns a dataset for a well-formed file. The `Roi` constructor keeps the written check as `NewRoi`. The converters build their region with an empty pixel list, which both checks accept (`WithinImageIsStricter`). `BitmapToRoi` is proved to satisfy the corrected check, and `RoiToBitmap` reports a pixel outside the image as an error.

## Left out

- Thread-culture switching (`BeginInvariantCulture` / `EndInvariantCulture`) is replaced by the explicit `NumberFormat` parameter. It is process-wide state. `EndInvariantCulture` as written assigns the current culture to itself, so it restores nothing, and no `try/finally` protects the switch.
- Concrete `double` and `int` formatting and parsing (`NumberStyles.Any`, the invariant culture) is runtime library behaviour. It is a parameter, and its round trip is a precondition, not a proof.
- `TextCodec.RoundTrip` is stated only for numbers the format writes as one token and parses back. Values for which that fails are not covered.
- Real file I/O (`OpenText`, `CreateText`, disposal, sharing, permissions) is reduced to a map from paths to contents. `CreateText` fails only for a path with no file name or a missing directory; a path through an existing file, and `".."` and `"."` segments, are not resolved. Windows path rules, `Path.Combine`'s invalid-character checks and null arguments are not modelled.
- The order of `EnumerateDirectories` is whatever the directory map holds. Its deferred execution is not modelled: the missing-root error is reported at the call.
- `BasicTextDataset.Metadata` always throws `NotImplementedException`. The writer takes the description as `Option<string>`, and `None` reproduces the throw. A null `Metadata` or a null `Description` is not modelled.
- `BasicTextDataset.GetSpatialCoordinates`, `GetRawIntensityArray`, `GetRawIntensityRow`: an out-of-range index throws `IndexOutOfRangeException` in the source. Here it is excluded by a precondition.
- `TextDatasetWriter.Save` requires a dataset that satisfies the constructor's invariant. The writer's indexing exceptions for other `IDataset` implementations with mismatched shapes are not modelled.
- ImageSharp and System.Drawing (`Image<Rgba32>`, `Mutate`/`Fill`, `Graphics.Clear`, `SetPixel`, `GetPixel`) become a `W x H` array of colours. An extent of 0 or of 2^31 and more fails; a pixel outside the image fails with the first such pixel. That out-of-range failure is assumed of the libraries' pixel indexers, whose code is not part of this model. System.Drawing's named and premultiplied colours are not modelled, only the channels.
- `Raster.BitmapToRoi` appends to the region's pixel list as a value update of the `Roi` datatype. Aliasing of that `IList` by other holders of the same `Roi` is not modelled.
- The deprecated `Roi` type (Spectre.Data.Deprecated/Datasets) is not part of this model. The legacy converter builds the same `Roi` value as the current one, with an empty pixel list.
- Not part of this model: ConsoleCaptureService.cs, TooSmallUpdateIntervalException.cs (timers and console redirection), DatasetSaver.cs (copying, database, hashing), ExpectationRunnerRef.h (floating-point Gaussian mixtures), PreparationsController.cs (HTTP), the test files other than the `Roi` constructor test, Status.cs, RoiDataset.cs and IDataset.cs (no behaviour).
