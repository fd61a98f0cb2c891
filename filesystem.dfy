/**
 * The pipeline's persistent state: a set of directories, each a map from file
 * name to file contents. `shutil.move`, `open(..., 'w')`, `os.makedirs` and
 * `os.listdir` are modelled as operations on this value.
 */
module FileSystem {

  type Directory = map<string, string>

  /** Directory path to directory. A path that is not a key does not exist. */
  type FileSystem = map<string, Directory>

  /** The result of `os.path.join(dir, name)`. */
  datatype Path = Path(dir: string, name: string)

  /** `os.makedirs(dir, exist_ok=True)` */
  function MakeDirs(fs: FileSystem, dir: string): (fs': FileSystem)
    ensures dir in fs' && fs'.Keys == fs.Keys + {dir}
    ensures forall d :: d in fs ==> fs'[d] == fs[d]
    ensures dir !in fs ==> fs'[dir] == map[]
  {
    if dir in fs then fs else fs[dir := map[]]
  }

  /** `open(join(dir, name), 'w').write(content)`: creates or overwrites the file. */
  function WriteFile(fs: FileSystem, dir: string, name: string, content: string): (fs': FileSystem)
    requires dir in fs
    ensures fs'.Keys == fs.Keys
    ensures fs'[dir] == fs[dir][name := content]
    ensures forall d :: d in fs && d != dir ==> fs'[d] == fs[d]
  {
    fs[dir := fs[dir][name := content]]
  }

  /**
   * `shutil.move(join(srcDir, src), join(dstDir, dst))` for an existing file
   * and an existing target directory: the file leaves its old name and its
   * contents appear under the new one, replacing any file already there.
   */
  function Move(fs: FileSystem, srcDir: string, src: string, dstDir: string, dst: string): (fs': FileSystem)
    requires srcDir in fs && src in fs[srcDir] && dstDir in fs
    requires srcDir != dstDir || src != dst
    ensures fs'.Keys == fs.Keys
    ensures dst in fs'[dstDir] && fs'[dstDir][dst] == fs[srcDir][src]
    ensures src !in fs'[srcDir]
    ensures forall n :: n in fs[srcDir] && n != src && (srcDir != dstDir || n != dst) ==>
              n in fs'[srcDir] && fs'[srcDir][n] == fs[srcDir][n]
    ensures forall n :: n in fs'[srcDir] ==> n in fs[srcDir] || (srcDir == dstDir && n == dst)
    ensures srcDir != dstDir ==> fs'[dstDir] == fs[dstDir][dst := fs[srcDir][src]]
    ensures forall d :: d in fs && d != srcDir && d != dstDir ==> fs'[d] == fs[d]
  {
    var content := fs[srcDir][src];
    var removed := fs[srcDir := fs[srcDir] - {src}];
    removed[dstDir := removed[dstDir][dst := content]]
  }

  /** No name appears twice. */
  predicate Distinct(names: seq<string>) {
    forall i, j :: 0 <= i < j < |names| ==> names[i] != names[j]
  }

  /** The tail of a sequence without repetitions has none either, and does not hold the head. */
  lemma DistinctTail(names: seq<string>)
    requires Distinct(names) && names != []
    ensures Distinct(names[1..]) && names[0] !in names[1..]
  {
    var t := names[1..];
    forall i, j | 0 <= i < j < |t|
      ensures t[i] != t[j]
    {
      assert t[i] == names[i + 1] && t[j] == names[j + 1];
    }
    forall i | 0 <= i < |t|
      ensures t[i] != names[0]
    {
      assert t[i] == names[i + 1];
    }
  }

  /** `listing` is a result of `os.listdir` on `dir`: every name exactly once, in some order. */
  predicate IsListingOf(listing: seq<string>, dir: Directory) {
    (forall n :: n in listing ==> n in dir) && (forall n :: n in dir ==> n in listing) && Distinct(listing)
  }
}
