/**
 * `DatasetStore`: datasets kept on disk under a fixed root, one directory per dataset,
 * the data itself in `<root>/<name>/text_data/data.txt`.
 */
module DatasetStore {
  import opened Wrappers
  import opened Text
  import opened Numbers
  import opened BasicTextDataset
  import opened FileSystem
  import opened TextDatasetReader
  import opened TextDatasetWriter
  import opened TextCodec

  /** The store: its root directory, fixed at construction (`Root` has no setter). */
  datatype Store = Store(root: Path)

  const DataDirectory: string := "text_data"
  const DataFile: string := "data.txt"

  /** `ToPath(name)`: `Path.Combine(Root, name, "text_data", "data.txt")`. */
  function ToPath(store: Store, name: string): Path {
    Combine(Combine(Combine(store.root, name), DataDirectory), DataFile)
  }

  /**
   * The path names a file "data.txt" in a directory "text_data", which is the name
   * combined onto the root.
   */
  lemma ToPathNamesDataFile(store: Store, name: string)
    ensures GetFileName(ToPath(store, name)) == DataFile
    ensures GetDirectoryName(ToPath(store, name)) == Some(NormalizeSeparators(Combine(Combine(store.root, name), DataDirectory)))
    ensures GetFileName(GetDirectoryName(ToPath(store, name)).value) == DataDirectory
  {
    var dataset := Combine(store.root, name);
    FileInDirectory(dataset, DataDirectory, DataFile);
  }

  /** A file name combined onto a directory name combined onto a path: the path's layout. */
  lemma FileInDirectory(dataset: Path, directory: string, file: string)
    requires IsPlainName(directory) && directory != "" && IsPlainName(file) && file != ""
    ensures GetFileName(Combine(Combine(dataset, directory), file)) == file
    ensures GetDirectoryName(Combine(Combine(dataset, directory), file)) == Some(NormalizeSeparators(Combine(dataset, directory)))
    ensures GetFileName(NormalizeSeparators(Combine(dataset, directory))) == directory
  {
    var dir := Combine(dataset, directory);
    CombinePlainEndsWithName(dataset, directory);
    FileNameOfNormalizedCombine(dataset, directory);
    FileNameOfCombine(dir, file);
    DirectoryOfCombine(dir, file);
  }

  /** The layout of `ToPath` for a plain, non-empty dataset name. */
  lemma CombinePlainSegments(root: Path, name: string)
    requires IsPlainName(name) && name != ""
    ensures Combine(Combine(Combine(root, name), DataDirectory), DataFile)
            == DirectoryPrefix(root) + name + [Separator] + DataDirectory + [Separator] + DataFile
  {
    CombinePlain(root, name);
    CombinePlainEndsWithName(root, name);
    var dataset := DirectoryPrefix(root) + name;
    CombineOnto(dataset, DataDirectory);
    CombineOnto(dataset + [Separator] + DataDirectory, DataFile);
  }

  /** The layout of `ToPath` for the empty dataset name, which `Combine` skips. */
  lemma CombineEmptySegment(root: Path)
    ensures Combine(Combine(Combine(root, ""), DataDirectory), DataFile)
            == DirectoryPrefix(root) + DataDirectory + [Separator] + DataFile
  {
    CombinePlain(root, DataDirectory);
    CombinePlainEndsWithName(root, DataDirectory);
    CombineOnto(DirectoryPrefix(root) + DataDirectory, DataFile);
  }

  /** The layout of `ToPath` for a rooted dataset name, which discards the root. */
  lemma CombineRootedSegments(root: Path, name: string)
    requires IsRooted(name) && !EndsInSeparator(name)
    ensures Combine(Combine(Combine(root, name), DataDirectory), DataFile)
            == name + [Separator] + DataDirectory + [Separator] + DataFile
  {
    assert Combine(root, name) == name;
    CombineOnto(name, DataDirectory);
    CombineOnto(name + [Separator] + DataDirectory, DataFile);
  }

  /** The segments appear in the order root, name, "text_data", "data.txt". */
  lemma ToPathLayout(store: Store, name: string)
    ensures IsPlainName(name) && name != "" ==>
              ToPath(store, name) == DirectoryPrefix(store.root) + name + [Separator] + DataDirectory + [Separator] + DataFile
    ensures name == "" ==>
              ToPath(store, name) == DirectoryPrefix(store.root) + DataDirectory + [Separator] + DataFile
    ensures IsRooted(name) && !EndsInSeparator(name) ==>
              ToPath(store, name) == name + [Separator] + DataDirectory + [Separator] + DataFile
  {
    if IsPlainName(name) && name != "" {
      CombinePlainSegments(store.root, name);
    }
    if name == "" {
      CombineEmptySegment(store.root);
    }
    if IsRooted(name) && !EndsInSeparator(name) {
      CombineRootedSegments(store.root, name);
    }
  }

  /** The empty name is skipped; any other separator-free name adds itself and one separator. */
  lemma ToPathLength(store: Store, name: string)
    requires IsPlainName(name)
    ensures |ToPath(store, name)| == |DirectoryPrefix(store.root)| + |name| + if name == "" then 18 else 19
  {
    if name == "" {
      CombineEmptySegment(store.root);
    } else {
      CombinePlainSegments(store.root, name);
    }
  }

  /** For separator-free names, the empty one included, different names live at different paths. */
  lemma ToPathInjective(store: Store, name1: string, name2: string)
    requires IsPlainName(name1) && IsPlainName(name2)
    requires ToPath(store, name1) == ToPath(store, name2)
    ensures name1 == name2
  {
    if name1 == "" || name2 == "" {
      ToPathLength(store, name1);
      ToPathLength(store, name2);
    } else {
      CombinePlainSegments(store.root, name1);
      CombinePlainSegments(store.root, name2);
      var prefix, p := DirectoryPrefix(store.root), ToPath(store, name1);
      assert |name1| == |name2|;
      assert forall i :: 0 <= i < |name1| ==> name1[i] == p[|prefix| + i] == name2[i];
    }
  }

  /** `Get(name)`: exactly what the reader returns, or throws, for that dataset's path. */
  method Get(store: Store, fs: FileSystem, nf: NumberFormat, name: string) returns (r: Result<Dataset, LoadError>)
    ensures r == LoadSpec(fs, nf, ToPath(store, name))
  {
    r := Load(fs, nf, ToPath(store, name));
  }

  /** `Add(name, data)`: the writer's `Save` to that dataset's path. */
  method Add(store: Store, fs: FileSystem, nf: NumberFormat, name: string, d: Dataset, metadata: Option<string>)
    returns (after: FileSystem, error: Option<WriteError>)
    requires Valid(d)
    ensures (after, error) == SaveSpec(fs, nf, d, metadata, ToPath(store, name))
  {
    after, error := Save(fs, nf, d, metadata, ToPath(store, name));
  }

  /**
   * `ListDatasets()`: the last path component of every subdirectory of the root, in
   * enumeration order; a missing root throws `DirectoryNotFoundException`.
   */
  function ListDatasets(store: Store, fs: FileSystem): (r: Result<seq<string>, IoError>)
    ensures r.Err? <==> store.root !in fs.directories
    ensures r.Err? ==> r.error == DirectoryNotFound(store.root)
    ensures r.Ok? ==> |r.value| == |fs.directories[store.root]|
    ensures r.Ok? ==> forall i :: 0 <= i < |r.value| ==> IsPlainName(r.value[i])
  {
    if store.root !in fs.directories then Err(DirectoryNotFound(store.root))
    else
      var children := fs.directories[store.root];
      Ok(seq(|children|, i requires 0 <= i < |children| => GetFileName(Combine(store.root, children[i]))))
  }

  /** One name per subdirectory, and for separator-free names it is the subdirectory's own name. */
  lemma ListDatasetsNames(store: Store, fs: FileSystem)
    ensures ListDatasets(store, fs).Ok? <==> store.root in fs.directories
    ensures ListDatasets(store, fs).Ok? ==>
              var children, names := fs.directories[store.root], ListDatasets(store, fs).value;
              && |names| == |children|
              && forall i :: 0 <= i < |children| && IsPlainName(children[i]) && children[i] != "" ==> names[i] == children[i]
  {
    if store.root in fs.directories {
      var children := fs.directories[store.root];
      forall i | 0 <= i < |children| && IsPlainName(children[i]) && children[i] != ""
        ensures ListDatasets(store, fs).value[i] == children[i]
      {
        FileNameOfCombine(store.root, children[i]);
      }
    }
  }

  /**
   * `Add(name, d)` followed by `Get(name)` gives back `d`, when the dataset's directory
   * exists and the text codec round trip applies.
   */
  lemma AddThenGet(store: Store, fs: FileSystem, nf: NumberFormat, name: string, d: Dataset, description: string)
    requires Valid(d) && Representable(nf, d) && IsLine(description) && SpectrumCount(d) >= 1
    requires CanCreateFile(fs, ToPath(store, name))
    ensures SaveSpec(fs, nf, d, Some(description), ToPath(store, name)).1 == None
    ensures LoadSpec(SaveSpec(fs, nf, d, Some(description), ToPath(store, name)).0, nf, ToPath(store, name)) == Ok(d)
  {
    SaveThenLoad(fs, nf, d, description, ToPath(store, name));
  }
}
