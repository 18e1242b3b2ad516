/** The file resolver: where a package's template files and the host
    project's files are found, and the buffer of file contents that the
    modifiers read from and write to before everything goes to disk. */
module FileResolver {
  import opened Outcomes
  import opened Text
  import opened Host
  import opened Dto

  /** The paths `resolve` tries, in order: as given, below the package
      directory, below the autoload directory. */
  function Candidates(info: PackageInfo, file: string): (c: seq<string>)
    ensures |c| == 3 && c[0] == file
  {
    [file, info.packagePath + "/" + file, info.autoloadPath + "/" + file]
  }

  /** The last candidate that is a regular file: an independent
      description of which candidate `resolve` ends up with. */
  function LastExisting(fs: FileSystem, paths: seq<string>): (r: Option<nat>)
    ensures r.None? <==> forall i :: 0 <= i < |paths| ==> !fs.IsFile(paths[i])
    ensures r.Some? ==> (r.value < |paths| && fs.IsFile(paths[r.value])
      && forall i :: r.value < i < |paths| ==> !fs.IsFile(paths[i]))
    decreases |paths|
  {
    if paths == [] then None
    else if fs.IsFile(paths[|paths| - 1]) then Some(|paths| - 1)
    else LastExisting(fs, paths[..|paths| - 1])
  }

  /** One step of `resolve`'s probing: `null` is `None`, a `realpath`
      that answered `false` is `Some(None)`. */
  function Probe(fs: FileSystem, resolved: Option<Option<string>>, path: string): Option<Option<string>> {
    if fs.IsFile(path) then Some(fs.RealPath(path)) else resolved
  }

  /** What PHP reports when `false` reaches a parameter declared `string`. */
  const NotAString: string := "Argument must be of type string, bool given"

  /** `FileResolver::resolve` (in both copies of the class): every
      candidate is probed in turn, each existing one overwriting the
      previous answer, then the scope check runs on what is left. */
  function Resolve(fs: FileSystem, info: PackageInfo, file: string, enforceScope: bool): (r: Result<string>)
    ensures r.Ok? ==> LastExisting(fs, Candidates(info, file)).Some?
    ensures r.Ok? && enforceScope ==> StartsWith(r.value, info.packagePath + [DirectorySeparator])
  {
    var c := Candidates(info, file);
    var resolved := Probe(fs, Probe(fs, Probe(fs, None, c[0]), c[1]), c[2]);
    match resolved
    case None => Err(InvalidArgument("File not found: " + file))
    case Some(None) => Err(EngineError(NotAString))
    case Some(Some(path)) =>
      if enforceScope && !StartsWith(path, info.packagePath + [DirectorySeparator]) then
        Err(InvalidArgument("Cannot access file outside of package scope: " + path))
      else Ok(path)
  }

  /** The last existing candidate wins: `resolve` answers with what
      `realpath` says about it, fails with "File not found" when no
      candidate exists, and otherwise fails only on the scope check. */
  lemma ResolveLastWins(fs: FileSystem, info: PackageInfo, file: string, enforceScope: bool)
    ensures var c := Candidates(info, file);
      match LastExisting(fs, c)
      case None => Resolve(fs, info, file, enforceScope) == Err(InvalidArgument("File not found: " + file))
      case Some(k) =>
        match fs.RealPath(c[k])
        case None => Resolve(fs, info, file, enforceScope).Err?
        case Some(path) =>
          Resolve(fs, info, file, enforceScope) ==
            if enforceScope && !StartsWith(path, info.packagePath + [DirectorySeparator])
            then Err(InvalidArgument("Cannot access file outside of package scope: " + path))
            else Ok(path)
  {
    var c := Candidates(info, file);
    assert c[..2][..1] == [c[0]];
    assert c[..3] == c;
  }

  /** On a real file system `resolve` never hands `false` on: its only
      failures are the two it raises itself, and what it returns is a
      regular file. */
  lemma ResolveOnRealSystem(fs: FileSystem, info: PackageInfo, file: string, enforceScope: bool)
    requires fs.Coherent()
    ensures var r := Resolve(fs, info, file, enforceScope);
      (r.Err? ==> r.failure.InvalidArgument?) && (r.Ok? ==> fs.IsFile(r.value))
  {
    ResolveLastWins(fs, info, file, enforceScope);
  }

  /** Without the scope check, `resolve` succeeds on a real file system
      exactly when some candidate exists. */
  lemma UnscopedResolveSucceeds(fs: FileSystem, info: PackageInfo, file: string)
    requires fs.Coherent()
    ensures Resolve(fs, info, file, false).Ok? <==>
      exists i :: 0 <= i < 3 && fs.IsFile(Candidates(info, file)[i])
  {
    ResolveLastWins(fs, info, file, false);
  }

  /** `FileResolver::resolveInProject`. `realpath` is asked about the
      path below the project; a `false` answer reaches `str_starts_with`,
      which PHP refuses. `createIfNotExists` is never read. */
  function ResolveInProject(fs: FileSystem, info: PackageInfo, file: string): (r: Result<string>)
    ensures r.Ok? <==> match fs.RealPath(info.projectPath + "/" + file)
      case None => false
      case Some(path) =>
        StartsWith(path, info.projectPath) && !StartsWith(path, info.projectPath + "vendor") && fs.IsFile(path)
    ensures r.Ok? ==> Some(r.value) == fs.RealPath(info.projectPath + "/" + file)
  {
    match fs.RealPath(info.projectPath + "/" + file)
    case None => Err(EngineError(NotAString))
    case Some(path) =>
      if !StartsWith(path, info.projectPath) then
        Err(InvalidArgument("Resolved file is outside of project scope: " + file))
      else if StartsWith(path, info.projectPath + "vendor") then
        Err(InvalidArgument("Resolved file is inside vendor directory, which is not allowed: " + file))
      else if !fs.IsFile(path) then
        Err(InvalidArgument("Project file not found: " + file))
      else Ok(path)
  }

  /** The vendor check compares against the project path with `vendor`
      glued on and no separator. Since `PackageInfo` strips the trailing
      separator, a file inside the project's `vendor` directory passes. */
  lemma VendorFilePasses()
    ensures var info := PackageInfo.Create("", "/p", "/p/src", "/p/pkg", "");
      var fs := FileSystem({"/p/vendor/x"}, {}, map["/p/vendor/x" := "/p/vendor/x"]);
      ResolveInProject(fs, info, "vendor/x") == Ok("/p/vendor/x")
  {
    var info := PackageInfo.Create("", "/p", "/p/src", "/p/pkg", "");
    assert info.projectPath == "/p";
    assert info.projectPath + "/" + "vendor/x" == "/p/vendor/x";
    assert StartsWith("/p/vendor/x", "/p");
    assert !StartsWith("/p/vendor/x", "/p" + "vendor") by {
      assert ("/p" + "vendor")[2] == 'v';
    }
  }

  /** The first path that is a regular file. */
  function FirstExisting(fs: FileSystem, paths: seq<string>): (r: Option<nat>)
    ensures r.None? <==> forall i :: 0 <= i < |paths| ==> !fs.IsFile(paths[i])
    ensures r.Some? ==> (r.value < |paths| && fs.IsFile(paths[r.value])
      && forall i :: 0 <= i < r.value ==> !fs.IsFile(paths[i]))
    decreases |paths|
  {
    if paths == [] then None
    else if fs.IsFile(paths[0]) then Some(0)
    else match FirstExisting(fs, paths[1..])
      case None => None
      case Some(k) => Some(k + 1)
  }

  /** What `resolveFileByPriority` answers: the first existing path
      through `realpath`, trailing separators trimmed. */
  function ByPriority(fs: FileSystem, paths: seq<string>): (r: Result<string>)
    ensures r.Err? && r.failure.InvalidArgument? <==> FirstExisting(fs, paths).None?
    ensures r.Ok? ==> |r.value| == 0 || r.value[|r.value| - 1] != DirectorySeparator
  {
    match FirstExisting(fs, paths)
    case None => Err(InvalidArgument("None of the possible files could be resolved: " + Join(paths, ", ")))
    case Some(k) =>
      match fs.RealPath(paths[k])
      case None => Err(EngineError(NotAString))
      case Some(path) => Ok(RTrim(path, {DirectorySeparator}))
  }

  /** On a real file system the priority search fails exactly when none
      of the paths is a regular file, and then names them all. */
  lemma ByPriorityOnRealSystem(fs: FileSystem, paths: seq<string>)
    requires fs.Coherent()
    ensures ByPriority(fs, paths).Ok? <==> exists i :: 0 <= i < |paths| && fs.IsFile(paths[i])
    ensures ByPriority(fs, paths).Err? ==>
      ByPriority(fs, paths) == Err(InvalidArgument("None of the possible files could be resolved: " + Join(paths, ", ")))
  {
  }

  /** The first existing path wins: whatever later paths exist, the
      answer is what `realpath` says about the earliest regular file, with
      trailing separators trimmed. */
  lemma ByPriorityFirstWins(fs: FileSystem, paths: seq<string>, k: nat)
    requires k < |paths| && fs.IsFile(paths[k])
    requires forall j :: 0 <= j < k ==> !fs.IsFile(paths[j])
    ensures ByPriority(fs, paths) ==
      match fs.RealPath(paths[k])
      case None => Err(EngineError(NotAString))
      case Some(path) => Ok(RTrim(path, {DirectorySeparator}))
  {
  }

  /** `FileResolver::resolveFileByPriority`: the paths are tried in order
      and the first regular file ends the search. */
  method ResolveFileByPriority(fs: FileSystem, paths: seq<string>) returns (r: Result<string>)
    ensures r == ByPriority(fs, paths)
    ensures forall k :: 0 <= k < |paths| && fs.IsFile(paths[k]) && fs.RealPath(paths[k]).Some? ==>
      (forall j :: 0 <= j < k ==> !fs.IsFile(paths[j])) ==>
      r == Ok(RTrim(fs.RealPath(paths[k]).value, {DirectorySeparator}))
    ensures (forall k :: 0 <= k < |paths| ==> !fs.IsFile(paths[k])) ==>
      r == Err(InvalidArgument("None of the possible files could be resolved: " + Join(paths, ", ")))
  {
    for i := 0 to |paths|
      invariant forall j :: 0 <= j < i ==> !fs.IsFile(paths[j])
    {
      if fs.IsFile(paths[i]) {
        assert FirstExisting(fs, paths) == Some(i);
        match fs.RealPath(paths[i])
        case None => return Err(EngineError(NotAString));
        case Some(path) => return Ok(RTrim(path, {DirectorySeparator}));
      }
    }
    return Err(InvalidArgument("None of the possible files could be resolved: " + Join(paths, ", ")));
  }

  /** The file contents pairs in `paths` order. */
  function Pairs(paths: seq<string>, contents: map<string, string>): (r: seq<(string, string)>)
    requires forall p :: p in paths ==> p in contents
    ensures |r| == |paths|
  {
    if paths == [] then [] else [(paths[0], contents[paths[0]])] + Pairs(paths[1..], contents)
  }

  /** The static buffer of file contents (`$bufferedFiles`), held beside
      the regular files on disk it loads from and writes to. PHP arrays
      keep their keys in first-insertion order; `order` records it. */
  class BufferedFiles {
    var order: seq<string>
    var buffered: map<string, string>
    /** The regular files on disk and their contents. */
    var disk: map<string, string>
    /** Every `file_put_contents` call so far, in the order made. */
    var written: seq<(string, string)>

    ghost predicate Valid()
      reads this
    {
      && (forall i, j :: 0 <= i < j < |order| ==> order[i] != order[j])
      && (forall p :: p in buffered <==> p in order)
    }

    /** A fresh buffer over the given disk. */
    constructor (disk: map<string, string>)
      ensures Valid()
      ensures this.disk == disk && order == [] && buffered == map[] && written == []
    {
      this.disk := disk;
      order := [];
      buffered := map[];
      written := [];
    }

    /** `FileResolver::loadFile`: the buffered content when there is one,
        otherwise the file on disk, which is buffered from then on. */
    method LoadFile(file: string) returns (r: Result<string>)
      requires Valid()
      modifies this
      ensures Valid()
      ensures disk == old(disk) && written == old(written)
      ensures file in old(buffered) ==>
        r == Ok(old(buffered)[file]) && buffered == old(buffered) && order == old(order)
      ensures file !in old(buffered) && file !in old(disk) ==>
        r == Err(InvalidArgument("File not found: " + file)) && buffered == old(buffered) && order == old(order)
      ensures file !in old(buffered) && file in old(disk) ==>
        && r == Ok(old(disk)[file])
        && buffered == old(buffered)[file := old(disk)[file]]
        && order == old(order) + [file]
      ensures r.Ok? ==> file in buffered && buffered[file] == r.value
    {
      if file !in buffered {
        if file !in disk {
          return Err(InvalidArgument("File not found: " + file));
        }
        buffered := buffered[file := disk[file]];
        order := order + [file];
      }
      r := Ok(buffered[file]);
    }

    /** `FileResolver::storeFileModification`: replaces the buffered
        content; a path new to the buffer goes to the end of the order. */
    method StoreFileModification(file: string, content: string)
      requires Valid()
      modifies this
      ensures Valid()
      ensures disk == old(disk) && written == old(written)
      ensures buffered == old(buffered)[file := content]
      ensures order == if file in old(buffered) then old(order) else old(order) + [file]
    {
      if file !in buffered {
        order := order + [file];
      }
      buffered := buffered[file := content];
    }

    /** `FileResolver::writeBufferedFilesToDisk`: every buffered file,
        loaded or modified, is written with its buffered content in the
        order it entered the buffer; the buffer is emptied. */
    method WriteBufferedFilesToDisk()
      requires Valid()
      modifies this
      ensures Valid()
      ensures written == old(written) + Pairs(old(order), old(buffered))
      ensures disk == old(disk) + old(buffered)
      ensures order == [] && buffered == map[]
    {
      var onDisk, log := WriteAll(disk, order, buffered, written);
      OverlayAll(disk, order, buffered);
      disk, written := onDisk, log;
      order := [];
      buffered := map[];
    }
  }

  /** The `foreach` of `writeBufferedFilesToDisk`: one `file_put_contents`
      per path, in order, each recorded in the write log. */
  method WriteAll(disk: map<string, string>, paths: seq<string>, contents: map<string, string>,
                  written: seq<(string, string)>)
    returns (onDisk: map<string, string>, log: seq<(string, string)>)
    requires forall p :: p in paths ==> p in contents
    ensures onDisk == Overlay(disk, paths, contents)
    ensures log == written + Pairs(paths, contents)
  {
    onDisk, log := disk, written;
    for i := 0 to |paths|
      invariant log == written + Pairs(paths[..i], contents)
      invariant onDisk == Overlay(disk, paths[..i], contents)
    {
      assert paths[..i + 1] == paths[..i] + [paths[i]];
      assert paths[..i + 1][..i] == paths[..i];
      PairsSnoc(paths[..i], paths[i], contents);
      onDisk := onDisk[paths[i] := contents[paths[i]]];
      log := log + [(paths[i], contents[paths[i]])];
    }
    assert paths[..|paths|] == paths;
  }

  /** `base` with each of `paths`, in order, overwritten by its content. */
  function Overlay(base: map<string, string>, paths: seq<string>, contents: map<string, string>): map<string, string>
    requires forall p :: p in paths ==> p in contents
    decreases |paths|
  {
    if paths == [] then base
    else
      var last := paths[|paths| - 1];
      Overlay(base, paths[..|paths| - 1], contents)[last := contents[last]]
  }

  /** Each path ends up with its content, every other file keeps its own. */
  lemma {:induction false} OverlayAt(base: map<string, string>, paths: seq<string>, contents: map<string, string>)
    requires forall p :: p in paths ==> p in contents
    ensures forall p :: p in Overlay(base, paths, contents) <==> p in base || p in paths
    ensures forall p :: p in Overlay(base, paths, contents) ==>
      Overlay(base, paths, contents)[p] == if p in paths then contents[p] else base[p]
    decreases |paths|
  {
    if paths != [] {
      var init := paths[..|paths| - 1];
      assert paths == init + [paths[|paths| - 1]];
      OverlayAt(base, init, contents);
    }
  }

  /** Overwriting by every buffered path is the map union. */
  lemma OverlayAll(base: map<string, string>, paths: seq<string>, contents: map<string, string>)
    requires forall p :: p in contents <==> p in paths
    ensures Overlay(base, paths, contents) == base + contents
  {
    OverlayAt(base, paths, contents);
  }

  lemma {:induction false} PairsSnoc(paths: seq<string>, p: string, contents: map<string, string>)
    requires forall q :: q in paths + [p] ==> q in contents
    ensures Pairs(paths + [p], contents) == Pairs(paths, contents) + [(p, contents[p])]
    decreases |paths|
  {
    if paths != [] {
      assert (paths + [p])[1..] == paths[1..] + [p];
      PairsSnoc(paths[1..], p, contents);
    }
  }

  /** The `i`-th write is of the `i`-th path with its content. */
  lemma {:induction false} PairsAt(paths: seq<string>, contents: map<string, string>)
    requires forall p :: p in paths ==> p in contents
    ensures forall i :: 0 <= i < |paths| ==>
      Pairs(paths, contents)[i] == (paths[i], contents[paths[i]])
    decreases |paths|
  {
    if paths != [] {
      PairsAt(paths[1..], contents);
    }
  }

  /** A modification stored and then loaded comes back as stored, and is
      what the next flush writes for that path. */
  method StoreThenLoad(store: BufferedFiles, file: string, content: string) returns (r: Result<string>)
    requires store.Valid()
    modifies store
    ensures store.Valid()
    ensures r == Ok(content)
    ensures file in store.order && store.buffered[file] == content
  {
    store.StoreFileModification(file, content);
    r := store.LoadFile(file);
  }
}
