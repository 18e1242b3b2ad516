/** The parts of the host file system the resolvers consult, as a value:
    which paths are regular files, which are directories, and what
    `realpath` answers for each path it can resolve. */
module Host {
  import opened Outcomes

  /** DIRECTORY_SEPARATOR on the platforms the tool runs on. */
  const DirectorySeparator: char := '/'

  datatype FileSystem = FileSystem(files: set<string>, dirs: set<string>, realpaths: map<string, string>) {

    /** `file_exists($p) && is_file($p)`. */
    predicate IsFile(p: string) {
      p in files
    }

    /** `file_exists($p) && is_dir($p)`. */
    predicate IsDir(p: string) {
      p in dirs
    }

    /** `realpath($p)`, with `None` for PHP's `false`. */
    function RealPath(p: string): Option<string> {
      if p in realpaths then Some(realpaths[p]) else None
    }

    /** What every real file system satisfies: `realpath` resolves each
        existing regular file to an existing regular file. */
    ghost predicate Coherent() {
      forall p :: p in files ==> p in realpaths && realpaths[p] in files
    }
  }
}
