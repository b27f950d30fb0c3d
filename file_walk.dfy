/**
 * The file generator behind "upload a directory": a walk over the file tree under a
 * root that emits the path of every regular file it is allowed to see. The CLI's own
 * ".cocli" directory is never entered, hidden entries are skipped unless asked for,
 * sub-directories are entered only for a recursive walk, and a read error ends the walk.
 */
module FileWalk {
  import opened Wrappers
  import opened Strings

  /** A directory entry; a directory whose listing cannot be read has `readable` false. */
  datatype Entry =
    | FileEntry(name: string)
    | DirEntry(name: string, readable: bool, children: seq<Entry>)

  datatype WalkOpts = WalkOpts(root: string, isRecursive: bool, includeHidden: bool)

  /** What the callback tells the walk about one entry. */
  datatype Decision = Emit | Proceed | SkipDir

  const CliDirName: string := ".cocli"

  predicate Hidden(name: string) {
    StartsWith(name, ".")
  }

  /** The callback's decision for the entry at `path` (a walk error is handled by the walk). */
  function Visit(path: string, e: Entry, opts: WalkOpts): (d: Decision)
    ensures d == Emit <==> e.FileEntry? && (opts.includeHidden || !Hidden(e.name))
    ensures d == SkipDir ==> e.DirEntry?
    ensures e.DirEntry? && e.name == CliDirName ==> d == SkipDir
  {
    if e.DirEntry? && e.name == CliDirName then SkipDir
    else if !opts.includeHidden && Hidden(e.name) then
      (if e.DirEntry? then SkipDir else Proceed)
    else if e.DirEntry? && !opts.isRecursive && path != opts.root then SkipDir
    else if e.FileEntry? then Emit
    else Proceed
  }

  /** filepath.Join of a directory and an entry name (path cleaning is not modelled). */
  function ChildPath(dir: string, name: string): (p: string)
    ensures |p| > |dir|
  {
    dir + "/" + name
  }

  /** The paths emitted, and whether the walk stopped on an error. */
  datatype Walked = Walked(emitted: seq<string>, failed: bool)

  /** WalkDir's visit of one entry: the callback first, then, for a directory it may enter,
      its listing in order. */
  function WalkEntry(e: Entry, path: string, opts: WalkOpts): Walked
    decreases e, 1
  {
    match Visit(path, e, opts)
    case Emit => Walked([path], false)
    case SkipDir => Walked([], false)
    case Proceed =>
      if e.FileEntry? then Walked([], false)
      else if !e.readable then Walked([], true)
      else WalkChildren(e, 0, path, opts)
  }

  /** The children of `dir` from index `k` on; the first error stops the walk. */
  function WalkChildren(dir: Entry, k: nat, path: string, opts: WalkOpts): Walked
    requires dir.DirEntry?
    decreases dir, 0, |dir.children| - k
  {
    if k >= |dir.children| then Walked([], false)
    else
      var c := dir.children[k];
      var first := WalkEntry(c, ChildPath(path, c.name), opts);
      if first.failed then first
      else
        var rest := WalkChildren(dir, k + 1, path, opts);
        Walked(first.emitted + rest.emitted, rest.failed)
  }

  /** GenerateFiles over the tree at the root; a root that cannot be found fails at once. */
  function GenerateFiles(root: Option<Entry>, opts: WalkOpts): (w: Walked)
    ensures root.None? ==> w == Walked([], true)
  {
    match root
    case None => Walked([], true)
    case Some(e) => WalkEntry(e, opts.root, opts)
  }

  /** May the walk pass through (or emit) an entry with this name? */
  predicate Allowed(e: Entry, opts: WalkOpts) {
    !(e.DirEntry? && e.name == CliDirName) && (opts.includeHidden || !Hidden(e.name))
  }

  /**
   * The files the walk should reach from `e` at `path`: a regular file that is allowed, or one
   * reached through an allowed directory that is the root or, for a recursive walk, any directory.
   */
  ghost predicate Reaches(e: Entry, path: string, p: string, opts: WalkOpts)
    decreases e
  {
    Allowed(e, opts) &&
    match e
    case FileEntry(_) => p == path
    case DirEntry(_, _, cs) =>
      (path == opts.root || opts.isRecursive) &&
      exists i :: 0 <= i < |cs| && Reaches(cs[i], ChildPath(path, cs[i].name), p, opts)
  }

  ghost predicate ReachesFrom(dir: Entry, k: nat, path: string, p: string, opts: WalkOpts)
    requires dir.DirEntry?
  {
    exists i :: k <= i < |dir.children| && Reaches(dir.children[i], ChildPath(path, dir.children[i].name), p, opts)
  }

  /** Everything the walk emits is a file it should reach. */
  lemma {:induction false} WalkSound(e: Entry, path: string, p: string, opts: WalkOpts)
    requires p in WalkEntry(e, path, opts).emitted
    ensures Reaches(e, path, p, opts)
    decreases e, 1
  {
    if Visit(path, e, opts) == Proceed && e.DirEntry? && e.readable {
      WalkChildrenSound(e, 0, path, p, opts);
      var i :| 0 <= i < |e.children| && Reaches(e.children[i], ChildPath(path, e.children[i].name), p, opts);
    }
  }

  lemma {:induction false} WalkChildrenSound(dir: Entry, k: nat, path: string, p: string, opts: WalkOpts)
    requires dir.DirEntry? && p in WalkChildren(dir, k, path, opts).emitted
    ensures ReachesFrom(dir, k, path, p, opts)
    decreases dir, 0, |dir.children| - k
  {
    var c := dir.children[k];
    var first := WalkEntry(c, ChildPath(path, c.name), opts);
    if p in first.emitted {
      WalkSound(c, ChildPath(path, c.name), p, opts);
    } else {
      WalkChildrenSound(dir, k + 1, path, p, opts);
      var i :| k + 1 <= i < |dir.children| && Reaches(dir.children[i], ChildPath(path, dir.children[i].name), p, opts);
    }
  }

  /** A walk that meets no error emits every file it should reach. */
  lemma {:induction false} WalkComplete(e: Entry, path: string, p: string, opts: WalkOpts)
    requires !WalkEntry(e, path, opts).failed && Reaches(e, path, p, opts)
    ensures p in WalkEntry(e, path, opts).emitted
    decreases e, 1
  {
    if e.DirEntry? {
      var i :| 0 <= i < |e.children| && Reaches(e.children[i], ChildPath(path, e.children[i].name), p, opts);
      WalkChildrenComplete(e, 0, path, p, opts);
    }
  }

  lemma {:induction false} WalkChildrenComplete(dir: Entry, k: nat, path: string, p: string, opts: WalkOpts)
    requires dir.DirEntry? && !WalkChildren(dir, k, path, opts).failed && ReachesFrom(dir, k, path, p, opts)
    ensures p in WalkChildren(dir, k, path, opts).emitted
    decreases dir, 0, |dir.children| - k
  {
    var i :| k <= i < |dir.children| && Reaches(dir.children[i], ChildPath(path, dir.children[i].name), p, opts);
    var c := dir.children[k];
    if i == k {
      WalkComplete(c, ChildPath(path, c.name), p, opts);
    } else {
      WalkChildrenComplete(dir, k + 1, path, p, opts);
    }
  }

  /** A hidden root yields nothing without includeHidden, and neither does a root named ".cocli". */
  lemma HiddenRootYieldsNothing(e: Entry, opts: WalkOpts)
    requires (!opts.includeHidden && Hidden(e.name)) || (e.DirEntry? && e.name == CliDirName)
    ensures GenerateFiles(Some(e), opts) == Walked([], false)
  {
  }

  /** Without recursion, only the root itself (when it is a file) or the files directly in it are reached. */
  lemma NonRecursiveDepth(e: Entry, p: string, opts: WalkOpts)
    requires !opts.isRecursive && Reaches(e, opts.root, p, opts)
    ensures (e.FileEntry? && p == opts.root) ||
            (e.DirEntry? &&
             exists i :: 0 <= i < |e.children| && e.children[i].FileEntry? && p == ChildPath(opts.root, e.children[i].name))
  {
    if e.DirEntry? {
      var i :| 0 <= i < |e.children| && Reaches(e.children[i], ChildPath(opts.root, e.children[i].name), p, opts);
      var c := e.children[i];
      assert |ChildPath(opts.root, c.name)| > |opts.root|;
    }
  }
}
