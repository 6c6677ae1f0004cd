/**
 * The file system the dataset store works on, as a value: file contents by path and,
 * for each existing directory, its subdirectory names in enumeration order. Paths
 * follow the Unix conventions of `System.IO.Path` ('/' separates, a leading '/' roots).
 */
module FileSystem {
  import opened Wrappers

  type Path = string

  const Separator: char := '/'

  datatype FileSystem = FileSystem(files: map<Path, string>, directories: map<Path, seq<string>>)

  datatype IoError =
    | DirectoryNotFound(path: Path)  // `DirectoryNotFoundException`
    | InvalidPath(path: Path)        // the path names no file: `ArgumentException`, or the path is a directory

  predicate IsRooted(p: Path) {
    |p| > 0 && p[0] == Separator
  }

  predicate EndsInSeparator(p: Path) {
    |p| > 0 && p[|p| - 1] == Separator
  }

  /** A path component: no separator in it. */
  predicate IsPlainName(n: string) {
    forall i :: 0 <= i < |n| ==> n[i] != Separator
  }

  /**
   * Two-argument `Path.Combine`: an empty segment is skipped, a rooted one replaces what
   * came before, and a separator is inserted unless one is already there.
   * `Path.Combine(a, b, c, d)` is `Combine(Combine(Combine(a, b), c), d)`.
   */
  function Combine(a: Path, b: Path): Path {
    if b == "" then a
    else if a == "" || IsRooted(b) then b
    else if EndsInSeparator(a) then a + b
    else a + [Separator] + b
  }

  /**
   * The combined path ends with the second segment and, unless that one is rooted,
   * starts with the first, with at most one separator added between them.
   */
  lemma CombineKeepsSegments(a: Path, b: Path)
    ensures b == "" ==> Combine(a, b) == a
    ensures b != "" ==> |b| <= |Combine(a, b)| && Combine(a, b)[|Combine(a, b)| - |b|..] == b
    ensures !IsRooted(b) ==> |a| <= |Combine(a, b)| <= |a| + |b| + 1 && Combine(a, b)[..|a|] == a
    ensures IsRooted(b) ==> Combine(a, b) == b
  {
  }

  /** What `Combine(root, name)` puts before a plain, non-empty `name`. */
  function DirectoryPrefix(root: Path): Path {
    if root == "" || EndsInSeparator(root) then root else root + [Separator]
  }

  lemma CombinePlain(root: Path, name: string)
    requires IsPlainName(name) && name != ""
    ensures Combine(root, name) == DirectoryPrefix(root) + name
  {
    assert name[0] != Separator;
  }

  /** The index of the last separator, or -1. */
  function LastSeparator(p: Path): (k: int)
    ensures -1 <= k < |p|
    ensures k >= 0 ==> p[k] == Separator
    ensures forall j :: k < j < |p| ==> p[j] != Separator
    decreases |p|
  {
    if p == [] then -1
    else if p[|p| - 1] == Separator then |p| - 1
    else LastSeparator(p[..|p| - 1])
  }

  /** `Path.GetFileName`: the part after the last separator. */
  function GetFileName(p: Path): (f: string)
    ensures IsPlainName(f)
    ensures |f| <= |p| && p[|p| - |f|..] == f
    ensures IsPlainName(p) ==> f == p
    ensures f != p ==> p[|p| - |f| - 1] == Separator
  {
    p[LastSeparator(p) + 1..]
  }

  /**
   * Collapses every run of separators into one, as `Path.GetDirectoryName` does to its
   * result on Unix.
   */
  function NormalizeSeparators(p: Path): (r: Path)
    ensures |r| <= |p|
    ensures p != [] ==> r != [] && r[|r| - 1] == p[|p| - 1]
    decreases |p|
  {
    if |p| <= 1 then p
    else if p[|p| - 1] == Separator && p[|p| - 2] == Separator then NormalizeSeparators(p[..|p| - 1])
    else NormalizeSeparators(p[..|p| - 1]) + [p[|p| - 1]]
  }

  /** No two separators follow each other. */
  predicate NoDoubledSeparator(p: Path) {
    forall i :: 0 < i < |p| ==> p[i - 1] != Separator || p[i] != Separator
  }

  /** The normalised path has no doubled separator. */
  lemma {:induction false} NormalizeSeparatorsCollapses(p: Path)
    ensures NoDoubledSeparator(NormalizeSeparators(p))
    decreases |p|
  {
    if |p| > 1 {
      var q, c := p[..|p| - 1], p[|p| - 1];
      NormalizeSeparatorsCollapses(q);
      if c != Separator || q[|q| - 1] != Separator {
        var r := NormalizeSeparators(q);
        assert NormalizeSeparators(p) == r + [c];
        assert NoDoubledSeparator(r + [c]) by {
          forall i | 0 < i < |r| + 1 ensures (r + [c])[i - 1] != Separator || (r + [c])[i] != Separator {
            if i < |r| {
              assert (r + [c])[i - 1] == r[i - 1] && (r + [c])[i] == r[i];
            }
          }
        }
      }
    }
  }

  /** A path without a doubled separator is left as it is by normalisation. */
  lemma {:induction false} NormalizeSeparatorsKeepsNormal(p: Path)
    requires NoDoubledSeparator(p)
    ensures NormalizeSeparators(p) == p
    decreases |p|
  {
    if |p| > 1 {
      var q := p[..|p| - 1];
      assert NoDoubledSeparator(q) by {
        forall i | 0 < i < |q| ensures q[i - 1] != Separator || q[i] != Separator {
          assert q[i - 1] == p[i - 1] && q[i] == p[i];
        }
      }
      NormalizeSeparatorsKeepsNormal(q);
      assert p[|p| - 2] != Separator || p[|p| - 1] != Separator;
      assert q + [p[|p| - 1]] == p;
    }
  }

  /** Normalising twice is normalising once. */
  lemma NormalizeSeparatorsIdempotent(p: Path)
    ensures NormalizeSeparators(NormalizeSeparators(p)) == NormalizeSeparators(p)
  {
    NormalizeSeparatorsCollapses(p);
    NormalizeSeparatorsKeepsNormal(NormalizeSeparators(p));
  }

  /** A character other than a separator, appended to a path, is kept by normalisation. */
  lemma NormalizeSeparatorsAppendChar(p: Path, c: char)
    requires c != Separator
    ensures NormalizeSeparators(p + [c]) == NormalizeSeparators(p) + [c]
  {
    var q := p + [c];
    assert q[..|q| - 1] == p;
  }

  /** A plain name appended to a path is kept as it is by normalisation. */
  lemma {:induction false} NormalizeSeparatorsAppendPlain(p: Path, name: string)
    requires IsPlainName(name)
    ensures NormalizeSeparators(p + name) == NormalizeSeparators(p) + name
    decreases |name|
  {
    if name == [] {
      assert p + name == p;
    } else {
      var init, last := name[..|name| - 1], name[|name| - 1];
      assert IsPlainName(init) by {
        forall i | 0 <= i < |init| ensures init[i] != Separator {
          assert init[i] == name[i];
        }
      }
      calc {
        NormalizeSeparators(p + name);
        { assert p + name == (p + init) + [last]; }
        NormalizeSeparators((p + init) + [last]);
        { NormalizeSeparatorsAppendChar(p + init, last); }
        NormalizeSeparators(p + init) + [last];
        { NormalizeSeparatorsAppendPlain(p, init); }
        NormalizeSeparators(p) + init + [last];
        { assert init + [last] == name; }
        NormalizeSeparators(p) + name;
      }
    }
  }

  /**
   * Where `Path.GetDirectoryName`'s result ends: from `end`, back over the separators
   * before it, but never into the root.
   */
  function DirectoryEnd(p: Path, end: nat, root: nat): (e: nat)
    requires root <= end <= |p|
    ensures root <= e <= end
    ensures e > root ==> p[e - 1] != Separator
    ensures forall j :: e <= j < end ==> p[j] == Separator
    decreases end
  {
    if end > root && p[end - 1] == Separator then DirectoryEnd(p, end - 1, root) else end
  }

  /**
   * `Path.GetDirectoryName` on Unix: null (`None`) for the empty path and the bare root;
   * otherwise the part before the last separator after the root, with the separators
   * ending it trimmed (the root kept) and every run of separators collapsed. A name
   * with no separator gives "", a name at the root "/".
   */
  function GetDirectoryName(p: Path): Option<Path> {
    var root := if IsRooted(p) then 1 else 0;
    if |p| <= root then None
    else
      var k := LastSeparator(p);
      Some(NormalizeSeparators(p[..DirectoryEnd(p, if k < root then root else k, root)]))
  }

  /** The cases that have no directory, and the directory of a name at the root. */
  lemma GetDirectoryNameCases(p: Path)
    ensures GetDirectoryName(p).None? <==> p == [] || p == [Separator]
    ensures GetFileName(p) != "" ==> GetDirectoryName(p).Some?
    ensures IsPlainName(p) ==> GetDirectoryName(p) == if p == [] then None else Some([])
    ensures IsRooted(p) && |p| > 1 && IsPlainName(p[1..]) ==> GetDirectoryName(p) == Some([Separator])
  {
    if |p| > 1 && IsRooted(p) && IsPlainName(p[1..]) {
      assert forall j :: 1 <= j < |p| ==> p[j] == p[1..][j - 1];
      assert LastSeparator(p) == 0;
      assert DirectoryEnd(p, 1, 1) == 1;
      assert p[..1] == [Separator];
    }
  }

  /** The separator run before a name is trimmed and collapsed: "a//b" lies in "a". */
  lemma GetDirectoryNameOfDoubledSeparator()
    ensures GetDirectoryName("a//b") == Some("a")
    ensures GetDirectoryName("/a//b/c") == Some("/a/b")
  {
    var p, q := "a//b", "/a//b/c";
    assert LastSeparator(p) == 2;
    assert DirectoryEnd(p, 1, 0) == 1;
    assert DirectoryEnd(p, 2, 0) == 1;
    assert p[..1] == "a";
    assert LastSeparator(q) == 5;
    assert DirectoryEnd(q, 5, 1) == 5;
    assert q[..5] == "/a//b";
    assert NormalizeSeparators("/a") == "/a";
    assert NormalizeSeparators("/a/") == "/a/";
    assert NormalizeSeparators("/a//") == "/a/";
    assert "/a//b"[..4] == "/a//";
    assert "/a//"[..3] == "/a/";
    assert "/a/"[..2] == "/a";
    assert "/a"[..1] == "/";
    assert NormalizeSeparators("/a//b") == "/a/b";
  }

  /** A plain name after nothing or a separator is that path's file name. */
  lemma FileNameAfterSeparator(prefix: Path, name: string)
    requires IsPlainName(name) && (prefix == [] || EndsInSeparator(prefix))
    ensures GetFileName(prefix + name) == name
  {
    var p := prefix + name;
    if prefix != [] {
      assert p[|prefix| - 1] == Separator;
    }
    assert LastSeparator(p) == |prefix| - 1;
    assert p[|prefix|..] == name;
  }

  /** The file name of a plain name combined onto a directory is that name. */
  lemma FileNameOfCombine(root: Path, name: string)
    requires IsPlainName(name) && name != ""
    ensures GetFileName(Combine(root, name)) == name
  {
    CombinePlain(root, name);
    FileNameAfterSeparator(DirectoryPrefix(root), name);
  }

  /** Normalisation keeps the file name of a plain name combined onto a directory. */
  lemma FileNameOfNormalizedCombine(root: Path, name: string)
    requires IsPlainName(name) && name != ""
    ensures GetFileName(NormalizeSeparators(Combine(root, name))) == name
  {
    CombinePlain(root, name);
    NormalizeSeparatorsAppendPlain(DirectoryPrefix(root), name);
    FileNameAfterSeparator(NormalizeSeparators(DirectoryPrefix(root)), name);
  }

  /** Combining a plain name never gives a path that is empty or ends in a separator. */
  lemma CombinePlainEndsWithName(dir: Path, name: string)
    requires IsPlainName(name) && name != ""
    ensures Combine(dir, name) != "" && !EndsInSeparator(Combine(dir, name))
  {
    CombinePlain(dir, name);
    var p := DirectoryPrefix(dir) + name;
    assert p[|p| - 1] == name[|name| - 1];
  }

  /** A plain name combined onto a directory not ending in a separator: one separator between them. */
  lemma CombineOnto(dir: Path, name: string)
    requires IsPlainName(name) && name != "" && dir != "" && !EndsInSeparator(dir)
    ensures Combine(dir, name) == dir + [Separator] + name
    ensures !EndsInSeparator(Combine(dir, name))
  {
    assert name[0] != Separator;
    var p := dir + [Separator] + name;
    assert p[|p| - 1] == name[|name| - 1];
  }

  /** A plain name after a directory not ending in a separator, and one separator, sits in that directory. */
  lemma DirectoryOfAppend(dir: Path, name: string)
    requires IsPlainName(name) && dir != "" && !EndsInSeparator(dir)
    ensures GetDirectoryName(dir + [Separator] + name) == Some(NormalizeSeparators(dir))
  {
    var p := dir + [Separator] + name;
    forall j | |dir| < j < |p| ensures p[j] != Separator {
      assert p[j] == name[j - |dir| - 1];
    }
    assert p[|dir|] == Separator;
    var k := LastSeparator(p);
    assert k == |dir|;
    var root := if IsRooted(p) then 1 else 0;
    assert p[0] == dir[0];
    assert |dir| > root;
    assert p[|dir| - 1] == dir[|dir| - 1];
    assert DirectoryEnd(p, k, root) == |dir|;
    assert p[..k] == dir;
  }

  /** A plain name combined onto a directory not ending in a separator sits in that directory. */
  lemma DirectoryOfCombine(dir: Path, name: string)
    requires IsPlainName(name) && name != "" && dir != "" && !EndsInSeparator(dir)
    ensures GetDirectoryName(Combine(dir, name)) == Some(NormalizeSeparators(dir))
  {
    CombineOnto(dir, name);
    DirectoryOfAppend(dir, name);
  }

  /** `File.CreateText` can make a file at `path`: it names a file, in an existing directory. */
  predicate CanCreateFile(fs: FileSystem, path: Path) {
    GetFileName(path) != "" && GetDirectoryName(path).Some? && GetDirectoryName(path).value in fs.directories
  }

  /**
   * `File.CreateText(path)` followed by writing `text`: it fails when the path names no
   * file (it is empty, or ends in a separator) or the containing directory does not
   * exist, and otherwise creates or truncates the file.
   */
  function WriteAllText(fs: FileSystem, path: Path, text: string): (r: Result<FileSystem, IoError>)
    ensures r.Ok? <==> CanCreateFile(fs, path)
    ensures r.Err? && GetFileName(path) == "" ==> r.error == InvalidPath(path)
    ensures r.Err? && GetFileName(path) != "" ==> r.error == DirectoryNotFound(GetDirectoryName(path).value)
    ensures r.Ok? ==> r.value.files.Keys == fs.files.Keys + {path} && r.value.files[path] == text
    ensures r.Ok? ==> forall q :: q in fs.files && q != path ==> r.value.files[q] == fs.files[q]
    ensures r.Ok? ==> r.value.directories == fs.directories
  {
    GetDirectoryNameCases(path);
    var dir := GetDirectoryName(path);
    if GetFileName(path) == "" || dir.None? then Err(InvalidPath(path))
    else if dir.value !in fs.directories then Err(DirectoryNotFound(dir.value))
    else Ok(fs.(files := fs.files[path := text]))
  }
}
