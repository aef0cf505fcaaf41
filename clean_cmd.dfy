/** `CleanCmd.run`: walk the tree under the current directory and remove
    every generated file, that is every path ending in `_pb2.py`, `.pyc`,
    `.so` or `.o`. */
module CleanCommand {
  import opened Text
  import opened FileSystem

  /** One triple produced by `os.walk`: a directory, its subdirectories
      (unused) and the names of the files in it. */
  datatype WalkEntry = WalkEntry(dirpath: string, dirnames: seq<string>, filenames: seq<string>)

  /** `os.path.join(dir, name)` on POSIX: an absolute name replaces the
      directory, and a separator is inserted only when the directory does
      not already end with one. */
  function Join(dir: string, name: string): (r: string)
    ensures EndsWith(r, name)
    ensures !StartsWith(name, "/") ==> StartsWith(r, dir)
  {
    if StartsWith(name, "/") then name
    else if dir == [] || EndsWith(dir, "/") then dir + name
    else dir + "/" + name
  }

  predicate IsGenerated(path: string) {
    EndsWith(path, "_pb2.py") || EndsWith(path, ".pyc") || EndsWith(path, ".so") || EndsWith(path, ".o")
  }

  /** The paths of the files listed in one directory. */
  function Joined(dir: string, names: seq<string>): set<string> {
    set n | n in names :: Join(dir, n)
  }

  /** The paths of every file a walk lists. */
  function Walked(walk: seq<WalkEntry>): set<string>
    decreases |walk|
  {
    if walk == [] then {}
    else
      var last := walk[|walk| - 1];
      Walked(walk[..|walk| - 1]) + Joined(last.dirpath, last.filenames)
  }

  /** The file system after removing the generated files among `walked`. */
  function Cleaned(files: Files, walked: set<string>): (r: Files)
    ensures forall p :: p in r <==> p in files && !(p in walked && IsGenerated(p))
    ensures forall p | p in r :: r[p] == files[p]
  {
    map p | p in files && !(p in walked && IsGenerated(p)) :: files[p]
  }

  /** Cleaning one set of paths after another is cleaning both. */
  lemma CleanedTwice(files: Files, a: set<string>, b: set<string>)
    ensures Cleaned(Cleaned(files, a), b) == Cleaned(files, a + b)
  {
    var lhs := Cleaned(Cleaned(files, a), b);
    var rhs := Cleaned(files, a + b);
    assert lhs.Keys == rhs.Keys;
    assert forall p | p in lhs :: lhs[p] == rhs[p];
  }

  /** A second clean deletes nothing: once a walk has been cleaned, walking
      any of the same paths again finds no generated file to remove. */
  lemma CleanIdempotent(files: Files, walked: set<string>, again: set<string>)
    requires again <= walked
    ensures Cleaned(Cleaned(files, walked), again) == Cleaned(files, walked)
  {
    CleanedTwice(files, walked, again);
    assert walked + again == walked;
  }

  /** When the walk lists every existing file, as `os.walk` of the whole tree
      does, no generated file survives the clean. */
  lemma CleanRemovesAllGenerated(files: Files, walked: set<string>)
    requires files.Keys <= walked
    ensures forall p | p in Cleaned(files, walked) :: !IsGenerated(p)
  {
  }

  /** Then a second clean deletes nothing, whatever its walk lists. */
  lemma CleanTreeIdempotent(files: Files, walked: set<string>, again: set<string>)
    requires files.Keys <= walked
    ensures Cleaned(Cleaned(files, walked), again) == Cleaned(files, walked)
  {
    var once := Cleaned(files, walked);
    CleanRemovesAllGenerated(files, walked);
    assert Cleaned(once, again).Keys == once.Keys;
  }

  /** `os.remove` of one path when it is generated. */
  lemma RemoveOne(files: Files, path: string)
    ensures (if IsGenerated(path) then files - {path} else files) == Cleaned(files, {path})
  {
    var r := if IsGenerated(path) then files - {path} else files;
    assert r.Keys == Cleaned(files, {path}).Keys;
  }

  lemma JoinedSnoc(dir: string, names: seq<string>, f: nat)
    requires f < |names|
    ensures Joined(dir, names[..f + 1]) == Joined(dir, names[..f]) + {Join(dir, names[f])}
  {
    assert names[..f + 1] == names[..f] + [names[f]];
  }

  /** The inner loop over the files of one directory. */
  method CleanDir(disk: Disk, dirpath: string, filenames: seq<string>)
    modifies disk
    ensures disk.files == Cleaned(old(disk.files), Joined(dirpath, filenames))
  {
    for f := 0 to |filenames|
      invariant disk.files == Cleaned(old(disk.files), Joined(dirpath, filenames[..f]))
    {
      var filepath := Join(dirpath, filenames[f]);
      JoinedSnoc(dirpath, filenames, f);
      CleanedTwice(old(disk.files), Joined(dirpath, filenames[..f]), {filepath});
      RemoveOne(disk.files, filepath);
      if IsGenerated(filepath) {
        disk.files := disk.files - {filepath};
      }
    }
    assert filenames[..|filenames|] == filenames;
  }

  /** `CleanCmd.run` without the base class's own clean-up: every walked
      generated file is removed and every other file is kept as it was. */
  method CleanRun(disk: Disk, walk: seq<WalkEntry>)
    modifies disk
    ensures disk.files == Cleaned(old(disk.files), Walked(walk))
  {
    for w := 0 to |walk|
      invariant disk.files == Cleaned(old(disk.files), Walked(walk[..w]))
    {
      assert walk[..w + 1][..w] == walk[..w];
      CleanedTwice(old(disk.files), Walked(walk[..w]), Joined(walk[w].dirpath, walk[w].filenames));
      CleanDir(disk, walk[w].dirpath, walk[w].filenames);
    }
    assert walk[..|walk|] == walk;
  }
}
