/** The file system as the build script observes it through
    `os.path.exists` and `os.path.getmtime`: a path is present exactly when it
    exists, and it maps to its modification time. */
module FileSystem {

  type Files = map<string, int>

  /** The file system as a whole, which the clean command changes in place. */
  class Disk {
    var files: Files

    constructor (initial: Files)
      ensures files == initial
    {
      files := initial;
    }
  }
}
