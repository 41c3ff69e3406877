/**
  The part of the local file system the processor touches: regular files with
  their bytes, and directories. Paths are plain strings; no normalisation of
  `.`, `..`, repeated or trailing separators is done.
 */
module FileSystem {

  type Byte = bv8
  type Bytes = seq<Byte>
  type Path = string

  /** `os.path.join(a, b)` on POSIX: an absolute `b` replaces `a`, otherwise a separator is put between them when needed. */
  function Join(a: Path, b: Path): (p: Path)
    ensures |b| <= |p| && p[|p| - |b|..] == b
    ensures (|b| > 0 && b[0] == '/') || a <= p
    ensures !(|b| > 0 && b[0] == '/') && a != "" && a[|a| - 1] != '/' ==> |a| < |p| && p[|a|] == '/'
    ensures |p| == if |b| > 0 && b[0] == '/' then |b|
                   else if a == "" || a[|a| - 1] == '/' then |a| + |b|
                   else |a| + 1 + |b|
  {
    if |b| > 0 && b[0] == '/' then b
    else if a == "" || a[|a| - 1] == '/' then a + b
    else a + "/" + b
  }

  /** Whether `p` ends with a separator, so that it can only name a directory. */
  predicate EndsWithSeparator(p: Path) {
    p != "" && p[|p| - 1] == '/'
  }

  /**
    No path is both a regular file and a directory, the empty path is neither,
    and no regular file is named by a path ending in a separator (`os.path.isfile`
    is false of every such path).
   */
  predicate WellFormed(files: map<Path, Bytes>, dirs: set<Path>) {
    files.Keys !! dirs && "" !in files && "" !in dirs
    && forall p :: p in files ==> !EndsWithSeparator(p)
  }

  /**
    The directories after `Path(p).mkdir(parents=True, exist_ok=True)` with
    `OSError` swallowed: a regular file in the way leaves everything as it was,
    and the empty path names the current directory, which exists.
   */
  function AfterMakeDirectory(files: map<Path, Bytes>, dirs: set<Path>, p: Path): (d: set<Path>)
    ensures dirs <= d && d - dirs <= {p}
    ensures p in d <==> p in dirs || (p != "" && p !in files)
    ensures WellFormed(files, dirs) ==> WellFormed(files, d)
  {
    if p == "" || p in files then dirs else dirs + {p}
  }

  /**
    Whether `open(p, "w")` can succeed: not the empty path, not a directory, and
    not a path ending in a separator (`IsADirectoryError` whether or not the
    directory exists).
   */
  predicate Writable(dirs: set<Path>, p: Path) {
    p != "" && p !in dirs && !EndsWithSeparator(p)
  }

  class Store {
    var files: map<Path, Bytes>
    var dirs: set<Path>

    ghost predicate Valid()
      reads this
    {
      WellFormed(files, dirs)
    }

    constructor (files0: map<Path, Bytes>, dirs0: set<Path>)
      requires WellFormed(files0, dirs0)
      ensures Valid() && files == files0 && dirs == dirs0
    {
      files, dirs := files0, dirs0;
    }

    /**
      `check_path_exists`: `os.path.isdir` when `kind` is "directory",
      `os.path.isfile` for any other kind. In a well-formed store a path is
      never reported both ways, and a path reported as a file can be opened
      for writing.
     */
    predicate CheckPathExists(p: Path, kind: string): (found: bool)
      reads this
      ensures kind == "directory" ==> (found <==> p in dirs)
      ensures kind != "directory" ==> (found <==> p in files)
      ensures Valid() && found && kind != "directory" ==> p !in dirs && Writable(dirs, p)
    {
      if kind == "directory" then p in dirs else p in files
    }

    /** `make_directory`: never fails; see AfterMakeDirectory. */
    method MakeDirectory(p: Path)
      requires Valid()
      modifies this
      ensures Valid()
      ensures files == old(files)
      ensures dirs == AfterMakeDirectory(old(files), old(dirs), p)
    {
      if p != "" && p !in files {
        dirs := dirs + {p};
      }
    }

    /** `open(p, "w")` followed by writing `data`: the file at `p` holds exactly `data` and nothing else changes. */
    method Write(p: Path, data: Bytes)
      requires Valid() && Writable(dirs, p)
      modifies this
      ensures Valid()
      ensures files == old(files)[p := data] && dirs == old(dirs)
    {
      WriteKeepsWellFormed(files, dirs, p, data);
      files := files[p := data];
    }
  }

  /** Writing an existing regular file, or a writable path, keeps the store well formed. */
  lemma WriteKeepsWellFormed(files: map<Path, Bytes>, dirs: set<Path>, p: Path, data: Bytes)
    requires WellFormed(files, dirs) && (p in files || Writable(dirs, p))
    ensures WellFormed(files[p := data], dirs)
  {
    forall q | q in files[p := data]
      ensures !EndsWithSeparator(q)
    {
      if q != p {
        assert q in files;
      }
    }
  }
}
