/**
 * The planning half of the deployment script (deploy.py, collect_deployment_tasks):
 * a top-down walk of the local build directory that lists the remote
 * directories to create and the (local file, remote file) pairs to upload,
 * skipping `.git` directories.
 *
 * The file system is an input tree. The walk follows CPython's `os.walk` in
 * its top-down mode: a stack of pending directories; the loop body sees a
 * directory's sub-directory and file names, may shrink the sub-directory
 * list in place, and only the directories left in that list are then pushed,
 * in reverse, so that the first one is visited next.
 */
module Deploy {
  import opened Sequences

  /** A directory entry as the walk sees it. */
  datatype Node =
    | Dir(name: string, subdirs: seq<Node>, files: seq<string>)
      /** Listed among its parent's sub-directories but never entered: a
          symbolic link to a directory (links are not followed) or a
          directory that cannot be listed. */
    | Unwalked(name: string)

  /** The local separator, the local directory to upload and the remote target. */
  datatype Config = Config(sep: char, local: string, remote: string)

  const GitDir: string := ".git"

  // ---------------------------------------------------------------------------
  // Well-formed file-system trees
  // ---------------------------------------------------------------------------

  /** A name that a directory listing can return. */
  predicate WellFormedName(sep: char, s: string) {
    s != "" && sep !in s && s != "." && s != ".."
  }

  /** Every listed name is well formed and the sub-directory names of a directory are distinct. */
  predicate WellFormedTree(sep: char, n: Node) {
    match n
    case Unwalked(_) => true
    case Dir(_, subdirs, files) =>
      && (forall i :: 0 <= i < |subdirs| ==> WellFormedName(sep, subdirs[i].name) && WellFormedTree(sep, subdirs[i]))
      && DistinctEntries(subdirs)
      && (forall f :: f in files ==> WellFormedName(sep, f))
      && (forall i, j :: 0 <= i < j < |files| ==> files[i] != files[j])
  }

  predicate DistinctEntries(dirs: seq<Node>) {
    forall i, j :: 0 <= i < j < |dirs| ==> dirs[i].name != dirs[j].name
  }

  predicate WellFormedPath(sep: char, p: seq<string>) {
    forall k :: 0 <= k < |p| ==> WellFormedName(sep, p[k])
  }

  function Size(n: Node): (r: nat)
    ensures r >= 1
  {
    match n
    case Unwalked(_) => 1
    case Dir(_, subdirs, _) => 1 + SizeAll(subdirs)
  }

  function SizeAll(ns: seq<Node>): nat {
    if ns == [] then 0 else Size(ns[0]) + SizeAll(ns[1..])
  }

  // ---------------------------------------------------------------------------
  // Pruning
  // ---------------------------------------------------------------------------

  /** The names of a directory listing. */
  function EntryNames(dirs: seq<Node>): (r: seq<string>)
    ensures |r| == |dirs| && forall i :: 0 <= i < |dirs| ==> r[i] == dirs[i].name
  {
    seq(|dirs|, i requires 0 <= i < |dirs| => dirs[i].name)
  }

  /** `list.remove`: drops the first entry called `name` (total here; Python raises when there is none). */
  function RemoveFirst(dirs: seq<Node>, name: string): (r: seq<Node>)
    ensures SizeAll(r) <= SizeAll(dirs)
    ensures forall k :: k in r ==> k in dirs
  {
    if dirs == [] then []
    else if dirs[0].name == name then dirs[1..]
    else [dirs[0]] + RemoveFirst(dirs[1..], name)
  }

  /** The sub-directories the walk descends into after the loop body has pruned `.git`. */
  function Pruned(dirs: seq<Node>): (r: seq<Node>)
    ensures SizeAll(r) <= SizeAll(dirs)
    ensures forall k :: k in r ==> k in dirs
  {
    if GitDir in EntryNames(dirs) then RemoveFirst(dirs, GitDir) else dirs
  }

  // ---------------------------------------------------------------------------
  // The walk, as paths of names below the local root
  // ---------------------------------------------------------------------------

  /**
   * The directories listed while walking `n`, reached through `at`: first
   * every kept sub-directory of `n`, then, sub-directory by sub-directory,
   * everything listed below it.
   */
  function DirPaths(n: Node, at: seq<string>): seq<seq<string>>
    decreases Size(n), 0
  {
    match n
    case Unwalked(_) => []
    case Dir(_, subdirs, _) =>
      var kids := Pruned(subdirs);
      Children(kids, at) + DirPathsAll(kids, at)
  }

  function DirPathsAll(kids: seq<Node>, at: seq<string>): seq<seq<string>>
    decreases SizeAll(kids), 1
  {
    if kids == [] then []
    else DirPaths(kids[0], at + [kids[0].name]) + DirPathsAll(kids[1..], at)
  }

  /** The paths of the files met while walking `n`, in the same order. */
  function FilePaths(n: Node, at: seq<string>): seq<seq<string>>
    decreases Size(n), 0
  {
    match n
    case Unwalked(_) => []
    case Dir(_, subdirs, files) =>
      var kids := Pruned(subdirs);
      FilesAt(files, at) + FilePathsAll(kids, at)
  }

  function FilePathsAll(kids: seq<Node>, at: seq<string>): seq<seq<string>>
    decreases SizeAll(kids), 1
  {
    if kids == [] then []
    else FilePaths(kids[0], at + [kids[0].name]) + FilePathsAll(kids[1..], at)
  }

  function Children(kids: seq<Node>, at: seq<string>): (r: seq<seq<string>>)
    ensures |r| == |kids| && forall i :: 0 <= i < |kids| ==> r[i] == at + [kids[i].name]
  {
    seq(|kids|, i requires 0 <= i < |kids| => at + [kids[i].name])
  }

  function FilesAt(files: seq<string>, at: seq<string>): (r: seq<seq<string>>)
    ensures |r| == |files| && forall i :: 0 <= i < |files| ==> r[i] == at + [files[i]]
  {
    seq(|files|, i requires 0 <= i < |files| => at + [files[i]])
  }

  /** The number of files in the directories the walk enters. */
  function FileCount(n: Node): nat
    decreases Size(n), 0
  {
    match n
    case Unwalked(_) => 0
    case Dir(_, subdirs, files) => |files| + FileCountAll(Pruned(subdirs))
  }

  function FileCountAll(kids: seq<Node>): nat
    decreases SizeAll(kids), 1
  {
    if kids == [] then 0 else FileCount(kids[0]) + FileCountAll(kids[1..])
  }

  // ---------------------------------------------------------------------------
  // Path strings
  // ---------------------------------------------------------------------------

  /** `os.path.join(a, b)` for a `b` that does not start with the separator. */
  function Join(sep: char, a: string, b: string): string {
    if a == [] || a[|a| - 1] == sep then a + b else a + [sep] + b
  }

  /** `s.replace(os.sep, '/')`. */
  function Slashed(sep: char, s: string): (r: string)
    ensures |r| == |s|
    ensures forall i :: 0 <= i < |s| ==> r[i] == if s[i] == sep then '/' else s[i]
  {
    seq(|s|, i requires 0 <= i < |s| => if s[i] == sep then '/' else s[i])
  }

  /** The names of a non-empty path joined by the separator. */
  function JoinNames(sep: char, p: seq<string>): string
    requires p != []
  {
    if |p| == 1 then p[0] else JoinNames(sep, p[..|p| - 1]) + [sep] + p[|p| - 1]
  }

  /** `os.path.relpath(root, local_path)` for the directory reached through `at`. */
  function RelPath(sep: char, at: seq<string>): string {
    if at == [] then "." else JoinNames(sep, at)
  }

  /** The local path of the entry reached through `p`, as the walk builds it. */
  function LocalPath(c: Config, p: seq<string>): string {
    if p == [] then c.local else Join(c.sep, LocalPath(c, p[..|p| - 1]), p[|p| - 1])
  }

  /** The remote path of the entry reached through `p`. */
  function RemotePath(c: Config, p: seq<string>): string {
    if p == [] then c.remote else Slashed(c.sep, Join(c.sep, c.remote, JoinNames(c.sep, p)))
  }

  function RemotePaths(c: Config, ps: seq<seq<string>>): (r: seq<string>)
    ensures |r| == |ps| && forall i :: 0 <= i < |ps| ==> r[i] == RemotePath(c, ps[i])
  {
    seq(|ps|, i requires 0 <= i < |ps| => RemotePath(c, ps[i]))
  }

  function UploadPairs(c: Config, ps: seq<seq<string>>): (r: seq<(string, string)>)
    ensures |r| == |ps| && forall i :: 0 <= i < |ps| ==> r[i] == (LocalPath(c, ps[i]), RemotePath(c, ps[i]))
  {
    seq(|ps|, i requires 0 <= i < |ps| => (LocalPath(c, ps[i]), RemotePath(c, ps[i])))
  }

  // ---------------------------------------------------------------------------
  // collect_deployment_tasks (deploy.py:19-56)
  // ---------------------------------------------------------------------------

  /** The pending stack of the walk: directories and the names that reach them. */
  type Pending = seq<(Node, seq<string>)>

  function PendingDirs(stack: Pending): seq<seq<string>> {
    if stack == [] then []
    else
      var top := stack[|stack| - 1];
      DirPaths(top.0, top.1) + PendingDirs(stack[..|stack| - 1])
  }

  function PendingFiles(stack: Pending): seq<seq<string>> {
    if stack == [] then []
    else
      var top := stack[|stack| - 1];
      FilePaths(top.0, top.1) + PendingFiles(stack[..|stack| - 1])
  }

  function PendingSize(stack: Pending): nat {
    if stack == [] then 0 else PendingSize(stack[..|stack| - 1]) + Size(stack[|stack| - 1].0)
  }

  predicate PendingWellFormed(sep: char, stack: Pending) {
    forall k :: 0 <= k < |stack| ==> WellFormedTree(sep, stack[k].0) && WellFormedPath(sep, stack[k].1)
  }

  /**
   * Walks `top` and returns the remote directories to create, the remote
   * root first, and the (local, remote) pairs of the files to upload, in
   * the order the walk meets them.
   */
  method CollectDeploymentTasks(c: Config, top: Node) returns (dirsToCreate: seq<string>, filesToUpload: seq<(string, string)>)
    requires WellFormedTree(c.sep, top)
    ensures dirsToCreate == [c.remote] + RemotePaths(c, DirPaths(top, []))
    ensures filesToUpload == UploadPairs(c, FilePaths(top, []))
  {
    dirsToCreate := [c.remote];
    filesToUpload := [];
    ghost var dirsDone: seq<seq<string>> := [];
    ghost var filesDone: seq<seq<string>> := [];
    var stack: Pending := [(top, [])];
    PushPending([], (top, []));
    while stack != []
      invariant PendingWellFormed(c.sep, stack)
      invariant dirsToCreate == [c.remote] + RemotePaths(c, dirsDone)
      invariant filesToUpload == UploadPairs(c, filesDone)
      invariant dirsDone + PendingDirs(stack) == DirPaths(top, [])
      invariant filesDone + PendingFiles(stack) == FilePaths(top, [])
      decreases PendingSize(stack)
    {
      var (node, at) := stack[|stack| - 1];
      ghost var before := stack;
      stack := stack[..|stack| - 1];
      assert PendingWellFormed(c.sep, stack) && WellFormedTree(c.sep, node) && WellFormedPath(c.sep, at);
      assert PendingDirs(before) == DirPaths(node, at) + PendingDirs(stack)
          && PendingFiles(before) == FilePaths(node, at) + PendingFiles(stack)
          && PendingSize(before) == PendingSize(stack) + Size(node) by {
        assert before == stack + [(node, at)];
        PushPending(stack, (node, at));
      }
      if node.Dir? {
        var newDirs, newFiles, dirs := VisitDirectory(c, node, at);
        var files := node.files;
        assert dirsToCreate + newDirs == [c.remote] + RemotePaths(c, dirsDone + Children(dirs, at)) by {
          RemotePathsAppend(c, dirsDone, Children(dirs, at));
          Regroup([c.remote], RemotePaths(c, dirsDone), newDirs, RemotePaths(c, dirsDone + Children(dirs, at)));
        }
        assert filesToUpload + newFiles == UploadPairs(c, filesDone + FilesAt(files, at)) by {
          UploadPairsAppend(c, filesDone, FilesAt(files, at));
        }
        dirsToCreate := dirsToCreate + newDirs;
        filesToUpload := filesToUpload + newFiles;
        ghost var popped := stack;
        PrunedWellFormed(c.sep, node.subdirs);
        stack := Descend(c.sep, stack, at, dirs);
        VisitUnfold(node, at);
        assert (dirsDone + Children(dirs, at)) + PendingDirs(stack) == DirPaths(top, []) by {
          VisitKeepsWalk(dirsDone, Children(dirs, at), DirPathsAll(dirs, at), PendingDirs(popped),
                         DirPaths(node, at), PendingDirs(before), DirPaths(top, []));
        }
        assert (filesDone + FilesAt(files, at)) + PendingFiles(stack) == FilePaths(top, []) by {
          VisitKeepsWalk(filesDone, FilesAt(files, at), FilePathsAll(dirs, at), PendingFiles(popped),
                         FilePaths(node, at), PendingFiles(before), FilePaths(top, []));
        }
        dirsDone := dirsDone + Children(dirs, at);
        filesDone := filesDone + FilesAt(files, at);
      } else {
        // A directory the walk lists but does not enter contributes nothing.
        assert DirPaths(node, at) == [] && FilePaths(node, at) == [];
        assert PendingDirs(before) == PendingDirs(stack) && PendingFiles(before) == PendingFiles(stack);
      }
    }
  }

  /**
   * The loop body for one directory the walk yields, reached through `at`:
   * drops `.git` from its sub-directories (which the walk then descends
   * into), and lists the remote directories and the uploads it contributes
   * (deploy.py:31-54).
   */
  method VisitDirectory(c: Config, node: Node, at: seq<string>)
    returns (newDirs: seq<string>, newFiles: seq<(string, string)>, dirs: seq<Node>)
    requires node.Dir? && WellFormedPath(c.sep, at)
    ensures dirs == Pruned(node.subdirs)
    ensures newDirs == RemotePaths(c, Children(dirs, at))
    ensures newFiles == UploadPairs(c, FilesAt(node.files, at))
  {
    dirs := node.subdirs;
    var files := node.files;
    if GitDir in EntryNames(dirs) {
      dirs := RemoveFirst(dirs, GitDir);
    }
    var relPath := RelPath(c.sep, at);
    var currentRemote := if relPath == "." then c.remote else Slashed(c.sep, Join(c.sep, c.remote, relPath));
    CurrentRemoteIsRemotePath(c, at);
    var root := LocalPath(c, at);
    newDirs := RemoteSubdirectories(c, at, currentRemote, dirs);
    newFiles := UploadEntries(c, at, root, currentRemote, files);
  }

  /** The remote paths of the kept sub-directories of the directory reached through `at` (deploy.py:45-48). */
  method RemoteSubdirectories(c: Config, at: seq<string>, currentRemote: string, dirs: seq<Node>) returns (remote: seq<string>)
    requires WellFormedPath(c.sep, at) && currentRemote == RemotePath(c, at)
    ensures remote == RemotePaths(c, Children(dirs, at))
  {
    remote := [];
    var k := 0;
    while k < |dirs|
      invariant 0 <= k <= |dirs|
      invariant remote == RemotePaths(c, Children(dirs[..k], at))
    {
      var remoteD := Slashed(c.sep, Join(c.sep, currentRemote, dirs[k].name));
      ChildRemotePath(c, at, dirs[k].name);
      ChildrenStep(dirs, k, at);
      remote := remote + [remoteD];
      k := k + 1;
    }
    assert dirs[..k] == dirs;
  }

  /** The upload pairs of the files of the directory reached through `at` (deploy.py:50-54). */
  method UploadEntries(c: Config, at: seq<string>, root: string, currentRemote: string, files: seq<string>)
    returns (pairs: seq<(string, string)>)
    requires WellFormedPath(c.sep, at) && root == LocalPath(c, at) && currentRemote == RemotePath(c, at)
    ensures pairs == UploadPairs(c, FilesAt(files, at))
  {
    pairs := [];
    var j := 0;
    while j < |files|
      invariant 0 <= j <= |files|
      invariant pairs == UploadPairs(c, FilesAt(files[..j], at))
    {
      var localF := Join(c.sep, root, files[j]);
      var remoteF := Slashed(c.sep, Join(c.sep, currentRemote, files[j]));
      ChildRemotePath(c, at, files[j]);
      ChildLocalPath(c, at, files[j]);
      FilesAtStep(files, j, at);
      pairs := pairs + [(localF, remoteF)];
      j := j + 1;
    }
    assert files[..j] == files;
  }

  /** `os.walk` descends into what is left of `dirs`, first entry first: it pushes them in reverse. */
  method Descend(sep: char, stack: Pending, at: seq<string>, dirs: seq<Node>) returns (pushed: Pending)
    requires PendingWellFormed(sep, stack) && WellFormedPath(sep, at)
    requires forall i :: 0 <= i < |dirs| ==> WellFormedName(sep, dirs[i].name) && WellFormedTree(sep, dirs[i])
    ensures PendingWellFormed(sep, pushed)
    ensures PendingDirs(pushed) == DirPathsAll(dirs, at) + PendingDirs(stack)
    ensures PendingFiles(pushed) == FilePathsAll(dirs, at) + PendingFiles(stack)
    ensures PendingSize(pushed) == PendingSize(stack) + SizeAll(dirs)
  {
    pushed := stack;
    var k := |dirs|;
    while k > 0
      invariant 0 <= k <= |dirs|
      invariant PendingWellFormed(sep, pushed)
      invariant PendingDirs(pushed) == DirPathsAll(dirs[k..], at) + PendingDirs(stack)
      invariant PendingFiles(pushed) == FilePathsAll(dirs[k..], at) + PendingFiles(stack)
      invariant PendingSize(pushed) == PendingSize(stack) + SizeAll(dirs[k..])
    {
      k := k - 1;
      var entry := (dirs[k], at + [dirs[k].name]);
      PushPending(pushed, entry);
      WalkAllStep(dirs, k, at);
      Regroup(DirPaths(entry.0, entry.1), DirPathsAll(dirs[k + 1..], at), PendingDirs(stack), PendingDirs(pushed));
      Regroup(FilePaths(entry.0, entry.1), FilePathsAll(dirs[k + 1..], at), PendingFiles(stack), PendingFiles(pushed));
      assert WellFormedPath(sep, entry.1);
      pushed := pushed + [entry];
    }
    assert dirs[0..] == dirs;
  }

  // ---------------------------------------------------------------------------
  // Helper facts for the walk
  // ---------------------------------------------------------------------------

  lemma PushPending(stack: Pending, entry: (Node, seq<string>))
    ensures PendingDirs(stack + [entry]) == DirPaths(entry.0, entry.1) + PendingDirs(stack)
    ensures PendingFiles(stack + [entry]) == FilePaths(entry.0, entry.1) + PendingFiles(stack)
    ensures PendingSize(stack + [entry]) == PendingSize(stack) + Size(entry.0)
  {
    assert (stack + [entry])[..|stack|] == stack;
  }

  lemma WalkAllStep(dirs: seq<Node>, k: nat, at: seq<string>)
    requires k < |dirs|
    ensures DirPathsAll(dirs[k..], at) == DirPaths(dirs[k], at + [dirs[k].name]) + DirPathsAll(dirs[k + 1..], at)
    ensures FilePathsAll(dirs[k..], at) == FilePaths(dirs[k], at + [dirs[k].name]) + FilePathsAll(dirs[k + 1..], at)
    ensures SizeAll(dirs[k..]) == Size(dirs[k]) + SizeAll(dirs[k + 1..])
  {
    assert dirs[k..][1..] == dirs[k + 1..];
  }

  lemma VisitUnfold(node: Node, at: seq<string>)
    requires node.Dir?
    ensures DirPaths(node, at) == Children(Pruned(node.subdirs), at) + DirPathsAll(Pruned(node.subdirs), at)
    ensures FilePaths(node, at) == FilesAt(node.files, at) + FilePathsAll(Pruned(node.subdirs), at)
    ensures Size(node) == 1 + SizeAll(node.subdirs)
  {
  }

  lemma Regroup<T>(here: seq<T>, below: seq<T>, rest: seq<T>, pending: seq<T>)
    requires pending == below + rest
    ensures here + pending == (here + below) + rest
  {
  }

  lemma VisitKeepsWalk<T>(done: seq<T>, here: seq<T>, below: seq<T>, rest: seq<T>, visited: seq<T>, pending: seq<T>, whole: seq<T>)
    requires done + pending == whole && pending == visited + rest && visited == here + below
    ensures (done + here) + (below + rest) == whole
  {
  }

  lemma RemotePathsAppend(c: Config, a: seq<seq<string>>, b: seq<seq<string>>)
    ensures RemotePaths(c, a + b) == RemotePaths(c, a) + RemotePaths(c, b)
  {
  }

  lemma UploadPairsAppend(c: Config, a: seq<seq<string>>, b: seq<seq<string>>)
    ensures UploadPairs(c, a + b) == UploadPairs(c, a) + UploadPairs(c, b)
  {
  }

  lemma ChildrenStep(dirs: seq<Node>, k: nat, at: seq<string>)
    requires k < |dirs|
    ensures Children(dirs[..k + 1], at) == Children(dirs[..k], at) + [at + [dirs[k].name]]
  {
  }

  lemma FilesAtStep(files: seq<string>, j: nat, at: seq<string>)
    requires j < |files|
    ensures FilesAt(files[..j + 1], at) == FilesAt(files[..j], at) + [at + [files[j]]]
  {
  }

  lemma PrunedWellFormed(sep: char, dirs: seq<Node>)
    requires forall i :: 0 <= i < |dirs| ==> WellFormedName(sep, dirs[i].name) && WellFormedTree(sep, dirs[i])
    ensures forall i :: 0 <= i < |Pruned(dirs)| ==>
              WellFormedName(sep, Pruned(dirs)[i].name) && WellFormedTree(sep, Pruned(dirs)[i])
  {
    forall i | 0 <= i < |Pruned(dirs)|
      ensures WellFormedName(sep, Pruned(dirs)[i].name) && WellFormedTree(sep, Pruned(dirs)[i])
    {
      assert Pruned(dirs)[i] in dirs;
    }
  }

  /** A joined path is never "." and never ends with the separator. */
  lemma {:induction false} JoinNamesShape(sep: char, p: seq<string>)
    requires p != [] && WellFormedPath(sep, p)
    ensures JoinNames(sep, p) != "."
    ensures |JoinNames(sep, p)| > 0 && JoinNames(sep, p)[|JoinNames(sep, p)| - 1] != sep
  {
    if |p| > 1 {
      JoinNamesShape(sep, p[..|p| - 1]);
      assert |JoinNames(sep, p)| > 1;
    }
  }

  lemma JoinNamesSnoc(sep: char, p: seq<string>, name: string)
    requires p != []
    ensures JoinNames(sep, p + [name]) == JoinNames(sep, p) + [sep] + name
  {
    assert (p + [name])[..|p|] == p;
  }

  /** Joining onto a non-empty tail keeps the tail at the end. */
  lemma JoinAppend(sep: char, a: string, b: string, tail: string)
    requires b != []
    ensures Join(sep, a, b + tail) == Join(sep, a, b) + tail
  {
    if a == [] || a[|a| - 1] == sep {
      assert a + (b + tail) == (a + b) + tail;
    } else {
      assert a + [sep] + (b + tail) == (a + [sep] + b) + tail;
    }
  }

  /**
   * `os.path.join(a, b)` for a relative `b`: the result starts with `a`,
   * ends with `b`, and between them holds one separator when `a` is
   * non-empty and does not already end with one.
   */
  lemma JoinKeepsBoth(sep: char, a: string, b: string)
    ensures var r := Join(sep, a, b);
            && a <= r && |a| + |b| <= |r| <= |a| + |b| + 1 && r[|r| - |b|..] == b
            && (a != [] ==> r[|r| - |b| - 1] == sep || (|r| == |a| + |b| && a[|a| - 1] == sep))
            && (|r| == |a| + |b| + 1 ==> r[|a|] == sep)
            && (|r| == |a| + |b| <==> a == [] || a[|a| - 1] == sep)
  {
    var r := Join(sep, a, b);
    if a == [] || a[|a| - 1] == sep {
      assert r == a + b;
      assert r[..|a|] == a;
    } else {
      assert r == a + [sep] + b;
      assert r[..|a|] == a;
      assert r[|r| - |b|..] == b;
    }
  }

  /** `os.path.relpath` gives "." exactly for the walk root. */
  lemma RelPathIsDotOnlyAtRoot(sep: char, at: seq<string>)
    requires WellFormedPath(sep, at)
    ensures RelPath(sep, at) == "." <==> at == []
  {
    if at != [] {
      JoinNamesShape(sep, at);
    }
  }

  /** Every local path the walk builds starts with the local root and ends with its own name. */
  lemma {:induction false} LocalPathUnderRoot(c: Config, p: seq<string>)
    ensures c.local <= LocalPath(c, p)
    ensures p != [] ==> var name := p[|p| - 1]; var l := LocalPath(c, p);
                        |name| <= |l| && l[|l| - |name|..] == name
  {
    if p != [] {
      var init := p[..|p| - 1];
      LocalPathUnderRoot(c, init);
      JoinKeepsBoth(c.sep, LocalPath(c, init), p[|p| - 1]);
      PrefixTransitive(c.local, LocalPath(c, init), LocalPath(c, p));
    }
  }

  lemma PrefixTransitive(a: string, b: string, c: string)
    requires a <= b && b <= c
    ensures a <= c
  {
    assert c[..|b|] == b;
    assert c[..|a|] == b[..|a|];
  }

  /** The code's `current_remote` is the remote path of the directory being walked. */
  lemma CurrentRemoteIsRemotePath(c: Config, at: seq<string>)
    requires WellFormedPath(c.sep, at)
    ensures (if RelPath(c.sep, at) == "." then c.remote
             else Slashed(c.sep, Join(c.sep, c.remote, RelPath(c.sep, at)))) == RemotePath(c, at)
  {
    if at != [] {
      JoinNamesShape(c.sep, at);
    }
  }

  lemma SlashedAppend(sep: char, a: string, b: string)
    ensures Slashed(sep, a + b) == Slashed(sep, a) + Slashed(sep, b)
  {
  }

  /**
   * `str.replace(os.sep, '/')` leaves a string alone exactly when it holds no
   * separator (or the separator is `/` already), and otherwise removes every
   * separator.
   */
  lemma SlashedReplacesEverySep(sep: char, s: string)
    ensures Slashed(sep, s) == s <==> sep == '/' || sep !in s
    ensures sep != '/' ==> sep !in Slashed(sep, s)
  {
    if sep != '/' && sep in s {
      var i :| 0 <= i < |s| && s[i] == sep;
      assert Slashed(sep, s)[i] != s[i];
    }
    if sep == '/' || sep !in s {
      assert Slashed(sep, s) == s;
    }
  }

  lemma SlashedIdempotent(sep: char, s: string)
    ensures Slashed(sep, Slashed(sep, s)) == Slashed(sep, s)
  {
  }

  /**
   * Joining a name onto the remote path of a directory and replacing the
   * separator gives the remote path of the child.
   */
  lemma ChildRemotePath(c: Config, at: seq<string>, name: string)
    requires WellFormedPath(c.sep, at)
    ensures Slashed(c.sep, Join(c.sep, RemotePath(c, at), name)) == RemotePath(c, at + [name])
  {
    var sep := c.sep;
    if at == [] {
      assert JoinNames(sep, [name]) == name;
      assert at + [name] == [name];
    } else {
      var names := JoinNames(sep, at);
      JoinNamesShape(sep, at);
      var x := Join(sep, c.remote, names);
      var s := Slashed(sep, x);
      assert x[|x| - 1] == names[|names| - 1];
      assert s[|s| - 1] != sep;
      var tail := [sep] + name;
      assert Join(sep, s, name) == s + tail;
      JoinNamesSnoc(sep, at, name);
      assert JoinNames(sep, at + [name]) == names + tail;
      JoinAppend(sep, c.remote, names, tail);
      SlashedAppend(sep, x, tail);
      SlashedAppend(sep, s, tail);
      SlashedIdempotent(sep, x);
    }
  }

  lemma ChildLocalPath(c: Config, at: seq<string>, name: string)
    ensures Join(c.sep, LocalPath(c, at), name) == LocalPath(c, at + [name])
  {
    assert (at + [name])[..|at|] == at;
  }

  // ---------------------------------------------------------------------------
  // Pruning `.git`
  // ---------------------------------------------------------------------------

  /** The sub-directories other than `.git`, in listing order. */
  function WithoutGit(dirs: seq<Node>): (r: seq<Node>)
    ensures forall k :: k in r <==> k in dirs && k.name != GitDir
  {
    if dirs == [] then []
    else (if dirs[0].name == GitDir then [] else [dirs[0]]) + WithoutGit(dirs[1..])
  }

  /**
   * `list.remove(name)`: when some entry is called `name`, the first such
   * entry is dropped and nothing else changes. Python raises `ValueError`
   * when no entry matches; the code never gets there, since it tests
   * membership first, and the model returns the listing unchanged instead.
   */
  lemma {:induction false} RemoveFirstDropsFirstMatch(dirs: seq<Node>, name: string)
    ensures name !in EntryNames(dirs) ==> RemoveFirst(dirs, name) == dirs
    ensures name in EntryNames(dirs) ==>
              exists i :: 0 <= i < |dirs| && dirs[i].name == name && FirstNamed(dirs, name, i)
                          && RemoveFirst(dirs, name) == dirs[..i] + dirs[i + 1..]
  {
    if dirs == [] {
    } else if dirs[0].name == name {
      RemoveFirstAtHead(dirs, name);
    } else {
      var rest := dirs[1..];
      EntryNamesTail(dirs, name);
      RemoveFirstDropsFirstMatch(rest, name);
      if name in EntryNames(rest) {
        var j :| 0 <= j < |rest| && rest[j].name == name && FirstNamed(rest, name, j)
                 && RemoveFirst(rest, name) == rest[..j] + rest[j + 1..];
        FirstNamedStep(dirs, name, j);
        RemoveFirstStep(dirs, name, j);
      } else {
        RemoveFirstAbsent(dirs, name);
      }
    }
  }

  lemma RemoveFirstAtHead(dirs: seq<Node>, name: string)
    requires dirs != [] && dirs[0].name == name
    ensures FirstNamed(dirs, name, 0) && RemoveFirst(dirs, name) == dirs[..0] + dirs[1..]
  {
    assert dirs[..0] + dirs[1..] == dirs[1..];
  }

  lemma EntryNamesTail(dirs: seq<Node>, name: string)
    requires dirs != [] && dirs[0].name != name
    ensures name in EntryNames(dirs) <==> name in EntryNames(dirs[1..])
  {
    assert EntryNames(dirs) == [dirs[0].name] + EntryNames(dirs[1..]);
  }

  lemma RemoveFirstAbsent(dirs: seq<Node>, name: string)
    requires dirs != [] && dirs[0].name != name
    requires RemoveFirst(dirs[1..], name) == dirs[1..]
    ensures RemoveFirst(dirs, name) == dirs
  {
    assert [dirs[0]] + dirs[1..] == dirs;
  }

  /** No entry before position `i` is called `name`. */
  predicate FirstNamed(dirs: seq<Node>, name: string, i: nat)
    requires i <= |dirs|
  {
    forall k :: 0 <= k < i ==> dirs[k].name != name
  }

  lemma FirstNamedStep(dirs: seq<Node>, name: string, j: nat)
    requires dirs != [] && dirs[0].name != name
    requires j < |dirs| - 1 && FirstNamed(dirs[1..], name, j)
    ensures FirstNamed(dirs, name, j + 1)
  {
    forall k | 0 <= k < j + 1
      ensures dirs[k].name != name
    {
      if k > 0 {
        assert dirs[k] == dirs[1..][k - 1];
      }
    }
  }

  lemma RemoveFirstStep(dirs: seq<Node>, name: string, j: nat)
    requires dirs != [] && dirs[0].name != name && j < |dirs| - 1
    requires RemoveFirst(dirs[1..], name) == dirs[1..][..j] + dirs[1..][j + 1..]
    ensures RemoveFirst(dirs, name) == dirs[..j + 1] + dirs[j + 2..]
  {
    var rest := dirs[1..];
    assert dirs[..j + 1] == [dirs[0]] + rest[..j];
    assert dirs[j + 2..] == rest[j + 1..];
    calc {
      RemoveFirst(dirs, name);
      [dirs[0]] + RemoveFirst(rest, name);
      [dirs[0]] + (rest[..j] + rest[j + 1..]);
      ([dirs[0]] + rest[..j]) + rest[j + 1..];
      dirs[..j + 1] + dirs[j + 2..];
    }
  }

  lemma {:induction false} RemoveFirstIsWithout(dirs: seq<Node>)
    requires DistinctEntries(dirs) && GitDir in EntryNames(dirs)
    ensures RemoveFirst(dirs, GitDir) == WithoutGit(dirs)
  {
    if dirs[0].name == GitDir {
      assert forall k :: k in dirs[1..] ==> k.name != GitDir;
      NothingToDrop(dirs[1..]);
    } else {
      assert EntryNames(dirs) == [dirs[0].name] + EntryNames(dirs[1..]);
      RemoveFirstIsWithout(dirs[1..]);
    }
  }

  lemma {:induction false} NothingToDrop(dirs: seq<Node>)
    requires forall k :: k in dirs ==> k.name != GitDir
    ensures WithoutGit(dirs) == dirs
  {
    if dirs != [] {
      assert dirs[0] in dirs;
      NothingToDrop(dirs[1..]);
    }
  }

  /**
   * In a directory whose entries have distinct names, removing the first
   * `.git` entry when there is one leaves exactly the other entries, in order.
   */
  lemma PrunedIsWithoutGit(dirs: seq<Node>)
    requires DistinctEntries(dirs)
    ensures Pruned(dirs) == WithoutGit(dirs)
    ensures forall k :: k in Pruned(dirs) <==> k in dirs && k.name != GitDir
  {
    if GitDir in EntryNames(dirs) {
      RemoveFirstIsWithout(dirs);
    } else {
      forall k | k in dirs
        ensures k.name != GitDir
      {
        var i :| 0 <= i < |dirs| && dirs[i] == k;
        assert EntryNames(dirs)[i] == k.name;
      }
      NothingToDrop(dirs);
    }
  }

  /** No listed directory lies in or under a `.git` directory. */
  lemma {:induction false} DirPathsSkipGit(sep: char, n: Node, at: seq<string>)
    requires WellFormedTree(sep, n) && GitDir !in at
    ensures forall p :: p in DirPaths(n, at) ==> GitDir !in p
    decreases Size(n), 0
  {
    if n.Dir? {
      PrunedIsWithoutGit(n.subdirs);
      var kids := Pruned(n.subdirs);
      forall k | k in kids
        ensures WellFormedTree(sep, k) && k.name != GitDir
      {
        var i :| 0 <= i < |n.subdirs| && n.subdirs[i] == k;
      }
      DirPathsAllSkipGit(sep, kids, at);
    }
  }

  lemma {:induction false} DirPathsAllSkipGit(sep: char, kids: seq<Node>, at: seq<string>)
    requires GitDir !in at
    requires forall k :: k in kids ==> WellFormedTree(sep, k) && k.name != GitDir
    ensures forall p :: p in Children(kids, at) ==> GitDir !in p
    ensures forall p :: p in DirPathsAll(kids, at) ==> GitDir !in p
    decreases SizeAll(kids), 1
  {
    if kids != [] {
      assert kids[0] in kids;
      DirPathsSkipGit(sep, kids[0], at + [kids[0].name]);
      DirPathsAllSkipGit(sep, kids[1..], at);
    }
  }

  /** No uploaded file lies in or under a `.git` directory (a plain file called `.git` is still uploaded). */
  lemma {:induction false} FilePathsSkipGit(sep: char, n: Node, at: seq<string>)
    requires WellFormedTree(sep, n) && GitDir !in at
    ensures forall p :: p in FilePaths(n, at) ==> p != [] && GitDir !in Parent(p)
    decreases Size(n), 0
  {
    if n.Dir? {
      PrunedIsWithoutGit(n.subdirs);
      var kids := Pruned(n.subdirs);
      forall k | k in kids
        ensures WellFormedTree(sep, k) && k.name != GitDir
      {
        var i :| 0 <= i < |n.subdirs| && n.subdirs[i] == k;
      }
      forall p | p in FilesAt(n.files, at)
        ensures p != [] && GitDir !in Parent(p)
      {
        var i :| 0 <= i < |n.files| && FilesAt(n.files, at)[i] == p;
        assert Parent(p) == at;
      }
      FilePathsAllSkipGit(sep, kids, at);
    }
  }

  lemma {:induction false} FilePathsAllSkipGit(sep: char, kids: seq<Node>, at: seq<string>)
    requires GitDir !in at
    requires forall k :: k in kids ==> WellFormedTree(sep, k) && k.name != GitDir
    ensures forall p :: p in FilePathsAll(kids, at) ==> p != [] && GitDir !in Parent(p)
    decreases SizeAll(kids), 1
  {
    if kids != [] {
      assert kids[0] in kids;
      FilePathsSkipGit(sep, kids[0], at + [kids[0].name]);
      FilePathsAllSkipGit(sep, kids[1..], at);
    }
  }

  function Parent(p: seq<string>): seq<string>
    requires p != []
  {
    p[..|p| - 1]
  }

  // ---------------------------------------------------------------------------
  // Parents before children
  // ---------------------------------------------------------------------------

  /** Every path's parent is one of `known` or an earlier path. */
  predicate ParentsListed(ds: seq<seq<string>>, known: seq<seq<string>>) {
    forall q :: 0 <= q < |ds| ==> ds[q] != [] && (Parent(ds[q]) in known || Parent(ds[q]) in ds[..q])
  }

  lemma ParentsListedAppend(a: seq<seq<string>>, b: seq<seq<string>>, known: seq<seq<string>>, more: seq<seq<string>>)
    requires ParentsListed(a, known) && ParentsListed(b, more)
    requires forall x :: x in more ==> x in known || x in a
    ensures ParentsListed(a + b, known)
  {
    var ab := a + b;
    forall q | 0 <= q < |ab|
      ensures ab[q] != [] && (Parent(ab[q]) in known || Parent(ab[q]) in ab[..q])
    {
      if q < |a| {
        assert ab[..q] == a[..q];
      } else {
        var r := q - |a|;
        assert ab[q] == b[r];
        assert ab[..q] == a + b[..r];
      }
    }
  }

  /** Every listed directory comes after its parent, or its parent is the walk root `at`. */
  lemma {:induction false} DirPathsParentsFirst(n: Node, at: seq<string>)
    ensures ParentsListed(DirPaths(n, at), [at])
    decreases Size(n), 0
  {
    if n.Dir? {
      var kids := Pruned(n.subdirs);
      var here := Children(kids, at);
      forall q | 0 <= q < |here|
        ensures here[q] != [] && Parent(here[q]) == at
      {
        assert here[q] == at + [kids[q].name];
      }
      DirPathsAllParentsFirst(kids, at);
      ParentsListedAppend(here, DirPathsAll(kids, at), [at], here);
    }
  }

  lemma {:induction false} DirPathsAllParentsFirst(kids: seq<Node>, at: seq<string>)
    ensures ParentsListed(DirPathsAll(kids, at), Children(kids, at))
    decreases SizeAll(kids), 1
  {
    if kids != [] {
      var first := DirPaths(kids[0], at + [kids[0].name]);
      DirPathsParentsFirst(kids[0], at + [kids[0].name]);
      DirPathsAllParentsFirst(kids[1..], at);
      var known := Children(kids, at);
      assert known[0] == at + [kids[0].name];
      forall x | x in Children(kids[1..], at)
        ensures x in known
      {
        var i :| 0 <= i < |kids[1..]| && Children(kids[1..], at)[i] == x;
        assert known[i + 1] == x;
      }
      ParentsListedWiden(first, [at + [kids[0].name]], known);
      ParentsListedAppend(first, DirPathsAll(kids[1..], at), known, Children(kids[1..], at));
    }
  }

  lemma ParentsListedWiden(ds: seq<seq<string>>, known: seq<seq<string>>, wider: seq<seq<string>>)
    requires ParentsListed(ds, known) && forall x :: x in known ==> x in wider
    ensures ParentsListed(ds, wider)
  {
  }

  /**
   * The directory-creation list creates every directory after its parent:
   * the parent of each created directory is the remote root, which comes
   * first, or a directory created earlier.
   */
  lemma RemoteParentsCreatedFirst(c: Config, top: Node)
    ensures var ds := DirPaths(top, []);
            var created := [c.remote] + RemotePaths(c, ds);
            forall q :: 0 <= q < |ds| ==> ds[q] != [] && RemotePath(c, Parent(ds[q])) in created[..q + 1]
  {
    var ds := DirPaths(top, []);
    DirPathsParentsFirst(top, []);
    forall q | 0 <= q < |ds|
      ensures ds[q] != [] && RemotePath(c, Parent(ds[q])) in ([c.remote] + RemotePaths(c, ds))[..q + 1]
    {
      ParentCreatedBefore(c, ds, q);
    }
  }

  /** One directory of `RemoteParentsCreatedFirst`. */
  lemma ParentCreatedBefore(c: Config, ds: seq<seq<string>>, q: nat)
    requires q < |ds| && ParentsListed(ds, [[]])
    ensures ds[q] != [] && RemotePath(c, Parent(ds[q])) in ([c.remote] + RemotePaths(c, ds))[..q + 1]
  {
    var created := [c.remote] + RemotePaths(c, ds);
    assert ds[q] != [] && (Parent(ds[q]) in [[]] || Parent(ds[q]) in ds[..q]);
    var parent := Parent(ds[q]);
    if parent in ds[..q] {
      var r :| 0 <= r < q && ds[..q][r] == parent;
      assert created[..q + 1][r + 1] == RemotePath(c, parent) by {
        assert created[r + 1] == RemotePaths(c, ds)[r];
      }
    } else {
      assert parent == [];
      assert created[..q + 1][0] == RemotePath(c, parent);
    }
  }

  /** Every uploaded file sits in the walk root or in a listed directory. */
  lemma {:induction false} FilesInListedDirs(n: Node, at: seq<string>)
    ensures forall p :: p in FilePaths(n, at) ==> p != [] && (Parent(p) == at || Parent(p) in DirPaths(n, at))
    decreases Size(n), 0
  {
    if n.Dir? {
      var kids := Pruned(n.subdirs);
      forall p | p in FilesAt(n.files, at)
        ensures p != [] && Parent(p) == at
      {
        var i :| 0 <= i < |n.files| && FilesAt(n.files, at)[i] == p;
      }
      FilesAllInListedDirs(kids, at);
    }
  }

  lemma {:induction false} FilesAllInListedDirs(kids: seq<Node>, at: seq<string>)
    ensures forall p :: p in FilePathsAll(kids, at) ==>
              p != [] && (Parent(p) in Children(kids, at) || Parent(p) in DirPathsAll(kids, at))
    decreases SizeAll(kids), 1
  {
    if kids != [] {
      var child := at + [kids[0].name];
      FilesInListedDirs(kids[0], child);
      FilesAllInListedDirs(kids[1..], at);
      assert Children(kids, at) == [child] + Children(kids[1..], at);
    }
  }

  // ---------------------------------------------------------------------------
  // Counts
  // ---------------------------------------------------------------------------

  /** One upload per file of every directory the walk enters. */
  lemma {:induction false} UploadCount(n: Node, at: seq<string>)
    ensures |FilePaths(n, at)| == FileCount(n)
    decreases Size(n), 0
  {
    if n.Dir? {
      UploadCountAll(Pruned(n.subdirs), at);
    }
  }

  lemma {:induction false} UploadCountAll(kids: seq<Node>, at: seq<string>)
    ensures |FilePathsAll(kids, at)| == FileCountAll(kids)
    decreases SizeAll(kids), 1
  {
    if kids != [] {
      UploadCount(kids[0], at + [kids[0].name]);
      UploadCountAll(kids[1..], at);
    }
  }

  // ---------------------------------------------------------------------------
  // Remote path shape
  // ---------------------------------------------------------------------------

  /**
   * Every remote path below the root starts with the remote root (with its
   * separators replaced), uses no local separator when that is not `/`, and
   * is the root itself for the walk root.
   */
  lemma RemotePathShape(c: Config, p: seq<string>)
    ensures p == [] ==> RemotePath(c, p) == c.remote
    ensures p != [] ==> Slashed(c.sep, c.remote) <= RemotePath(c, p)
    ensures p != [] && c.sep != '/' ==> c.sep !in RemotePath(c, p)
    ensures c.sep !in c.remote ==> Slashed(c.sep, c.remote) == c.remote
  {
    if p != [] {
      var j := Join(c.sep, c.remote, JoinNames(c.sep, p));
      assert c.remote <= j;
      assert Slashed(c.sep, j)[..|c.remote|] == Slashed(c.sep, c.remote);
    }
  }

  /**
   * The remote path of an entry below a directory other than the walk root
   * is the directory's remote path, a `/` and the entry's name.
   */
  lemma RemoteChild(c: Config, at: seq<string>, name: string)
    requires at != [] && WellFormedPath(c.sep, at) && WellFormedName(c.sep, name)
    ensures RemotePath(c, at + [name]) == RemotePath(c, at) + ['/'] + name
  {
    var sep := c.sep;
    var s := RemotePath(c, at);
    RemotePathEnd(c, at);
    ChildRemotePath(c, at, name);
    assert Join(sep, s, name) == s + ([sep] + name);
    assert Slashed(sep, s + ([sep] + name)) == s + (['/'] + name) by {
      SlashedAppend(sep, s, [sep] + name);
      assert Slashed(sep, [sep] + name) == ['/'] + name;
    }
  }

  /** A remote path below the walk root is already slashed and does not end with the separator. */
  lemma RemotePathEnd(c: Config, at: seq<string>)
    requires at != [] && WellFormedPath(c.sep, at)
    ensures |RemotePath(c, at)| > 0 && RemotePath(c, at)[|RemotePath(c, at)| - 1] != c.sep
    ensures Slashed(c.sep, RemotePath(c, at)) == RemotePath(c, at)
  {
    var names := JoinNames(c.sep, at);
    JoinNamesShape(c.sep, at);
    var x := Join(c.sep, c.remote, names);
    assert x[|x| - 1] == names[|names| - 1];
    SlashedIdempotent(c.sep, x);
  }

  // ---------------------------------------------------------------------------
  // Each directory and each file is met once
  // ---------------------------------------------------------------------------

  lemma {:induction false} WithoutGitDistinct(dirs: seq<Node>)
    requires DistinctEntries(dirs)
    ensures DistinctEntries(WithoutGit(dirs))
  {
    if dirs != [] {
      WithoutGitDistinct(dirs[1..]);
      var rest := WithoutGit(dirs[1..]);
      forall k | k in rest
        ensures k.name != dirs[0].name
      {
        var i :| 0 <= i < |dirs[1..]| && dirs[1..][i] == k;
        assert dirs[i + 1] == k;
      }
    }
  }

  /** The paths met while walking a directory lie strictly below the path that reaches it. */
  lemma {:induction false} DirPathsBelow(n: Node, at: seq<string>)
    ensures forall p :: p in DirPaths(n, at) ==> |p| > |at| && p[..|at|] == at
    decreases Size(n), 0
  {
    if n.Dir? {
      var kids := Pruned(n.subdirs);
      DirPathsAllBelow(kids, at);
      forall p | p in Children(kids, at)
        ensures |p| > |at| && p[..|at|] == at
      {
        var i :| 0 <= i < |kids| && Children(kids, at)[i] == p;
      }
    }
  }

  lemma {:induction false} DirPathsAllBelow(kids: seq<Node>, at: seq<string>)
    ensures forall p :: p in DirPathsAll(kids, at) ==> |p| > |at| + 1 && p[..|at|] == at && p[|at|] in EntryNames(kids)
    decreases SizeAll(kids), 1
  {
    if kids != [] {
      var child := at + [kids[0].name];
      DirPathsBelow(kids[0], child);
      DirPathsAllBelow(kids[1..], at);
      var names := EntryNames(kids);
      forall p | p in DirPathsAll(kids, at)
        ensures |p| > |at| + 1 && p[..|at|] == at && p[|at|] in names
      {
        if p in DirPaths(kids[0], child) {
          ChildPrefix(p, at, kids[0].name);
          assert names[0] == p[|at|];
        } else {
          assert p in DirPathsAll(kids[1..], at);
          var k :| 0 <= k < |kids| - 1 && EntryNames(kids[1..])[k] == p[|at|];
          assert names[k + 1] == p[|at|];
        }
      }
    }
  }

  lemma {:induction false} FilePathsBelow(n: Node, at: seq<string>)
    ensures forall p :: p in FilePaths(n, at) ==> |p| > |at| && p[..|at|] == at
    decreases Size(n), 0
  {
    if n.Dir? {
      var kids := Pruned(n.subdirs);
      FilePathsAllBelow(kids, at);
      forall p | p in FilesAt(n.files, at)
        ensures |p| > |at| && p[..|at|] == at
      {
        var i :| 0 <= i < |n.files| && FilesAt(n.files, at)[i] == p;
      }
    }
  }

  lemma {:induction false} FilePathsAllBelow(kids: seq<Node>, at: seq<string>)
    ensures forall p :: p in FilePathsAll(kids, at) ==> |p| > |at| + 1 && p[..|at|] == at && p[|at|] in EntryNames(kids)
    decreases SizeAll(kids), 1
  {
    if kids != [] {
      var child := at + [kids[0].name];
      FilePathsBelow(kids[0], child);
      FilePathsAllBelow(kids[1..], at);
      var names := EntryNames(kids);
      assert names == [kids[0].name] + EntryNames(kids[1..]);
      forall p | p in FilePathsAll(kids, at)
        ensures |p| > |at| + 1 && p[..|at|] == at && p[|at|] in names
      {
        if p in FilePaths(kids[0], child) {
          ChildPrefix(p, at, kids[0].name);
        }
      }
    }
  }

  lemma ChildPrefix(p: seq<string>, at: seq<string>, name: string)
    requires |p| > |at| + 1 && p[..|at| + 1] == at + [name]
    ensures p[..|at|] == at && p[|at|] == name
  {
    assert p[..|at| + 1][..|at|] == p[..|at|];
    assert p[..|at| + 1][|at|] == p[|at|];
  }

  /**
   * In a well-formed tree the walk lists no directory twice and meets no
   * file twice, so no remote directory is requested twice for the same
   * local directory and no file is uploaded twice.
   */
  lemma {:induction false} WalkVisitsOnce(sep: char, n: Node, at: seq<string>)
    requires WellFormedTree(sep, n)
    ensures NoDuplicates(DirPaths(n, at)) && NoDuplicates(FilePaths(n, at))
    decreases Size(n), 0
  {
    if n.Dir? {
      PrunedIsWithoutGit(n.subdirs);
      WithoutGitDistinct(n.subdirs);
      var kids := Pruned(n.subdirs);
      forall k | k in kids
        ensures WellFormedTree(sep, k)
      {
        var i :| 0 <= i < |n.subdirs| && n.subdirs[i] == k;
      }
      WalkAllVisitsOnce(sep, kids, at);
      DirPathsAllBelow(kids, at);
      FilePathsAllBelow(kids, at);
      var here := Children(kids, at);
      var files := FilesAt(n.files, at);
      assert NoDuplicates(here) by {
        forall i, j | 0 <= i < j < |here|
          ensures here[i] != here[j]
        {
          assert here[i][|at|] == kids[i].name && here[j][|at|] == kids[j].name;
        }
      }
      assert NoDuplicates(files) by {
        forall i, j | 0 <= i < j < |files|
          ensures files[i] != files[j]
        {
          assert files[i][|at|] == n.files[i] && files[j][|at|] == n.files[j];
        }
      }
      forall p | p in here
        ensures p !in DirPathsAll(kids, at)
      {
        var i :| 0 <= i < |kids| && here[i] == p;
      }
      forall p | p in files
        ensures p !in FilePathsAll(kids, at)
      {
        var i :| 0 <= i < |n.files| && files[i] == p;
      }
      NoDuplicatesAppend(here, DirPathsAll(kids, at));
      NoDuplicatesAppend(files, FilePathsAll(kids, at));
    }
  }

  lemma {:induction false} WalkAllVisitsOnce(sep: char, kids: seq<Node>, at: seq<string>)
    requires DistinctEntries(kids) && forall k :: k in kids ==> WellFormedTree(sep, k)
    ensures NoDuplicates(DirPathsAll(kids, at)) && NoDuplicates(FilePathsAll(kids, at))
    decreases SizeAll(kids), 1
  {
    if kids != [] {
      var child := at + [kids[0].name];
      assert kids[0] in kids;
      WalkVisitsOnce(sep, kids[0], child);
      WalkAllVisitsOnce(sep, kids[1..], at);
      DirPathsBelow(kids[0], child);
      FilePathsBelow(kids[0], child);
      DirPathsAllBelow(kids[1..], at);
      FilePathsAllBelow(kids[1..], at);
      assert kids[0].name !in EntryNames(kids[1..]) by {
        forall i | 0 <= i < |kids[1..]|
          ensures EntryNames(kids[1..])[i] != kids[0].name
        {
          assert kids[1..][i] == kids[i + 1];
        }
      }
      forall p | p in DirPaths(kids[0], child) || p in FilePaths(kids[0], child)
        ensures p[|at|] == kids[0].name
      {
        ChildPrefix(p, at, kids[0].name);
      }
      NoDuplicatesAppend(DirPaths(kids[0], child), DirPathsAll(kids[1..], at));
      NoDuplicatesAppend(FilePaths(kids[0], child), FilePathsAll(kids[1..], at));
    }
  }
}
